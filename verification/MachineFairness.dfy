/** Bounds on the hart, over runs of the whole machine: how long an awake task waits for it, and
    how long a task can keep it. */
module MachineFairness {
  import opened Flags
  import opened SortedLists
  import opened RunQueue
  import opened Fairness
  import opened Machine
  import opened MachineInv
  import opened Lateness

  /** T is awake with priority p and has not got the hart. */
  predicate Waits(s: State, t: Task) {
    && IndexOf(s.queue, t.id) < |s.queue| && s.queue[IndexOf(s.queue, t.id)] == t
    && t.state != SLEEPING && t.priority <= LOWEST
    && s.running != User(t.id)
  }

  /** What the creation of a task adds to the wait of one with priority p. */
  function Delay(e: Event, p: int): nat {
    if e.CreateTask? && e.priority < p then p - e.priority else 0
  }

  lemma SoftIntProgress(s: State, t: Task)
    requires Inv(s) && Waits(s, t) && Schedule(s).running != User(t.id)
    ensures Waits(Schedule(s), t) && Wait(Schedule(s).queue, t.id) == Wait(s.queue, t.id) - 1
  {
    PopProgress(s.queue, t.id);
  }

  lemma TickProgress(s: State, t: Task)
    requires Inv(s) && !s.msip && Waits(s, t)
    ensures Waits(Handle(s), t) && Wait(Handle(s).queue, t.id) == Wait(s.queue, t.id)
  {
    CheckFromSafe(s.timers, s.queue, s.ticks + 1, 0);
    var c := Check(s.timers, s.queue, s.ticks + 1);
    HandleIsFinish(s, c);
    if c.woken.Some? {
      assert Asleep(s.queue, s.timers[c.woken.value].task);
      StateProgress(s.queue, s.timers[c.woken.value].task, RUNNABLE, t.id);
    }
  }

  lemma OtherProgress(s: State, e: Event, t: Task)
    requires Inv(s) && Enabled(s, e) && e != SoftInt && e != Tick && Waits(s, t)
    ensures Waits(Step(s, e), t)
    ensures Wait(Step(s, e).queue, t.id) <= Wait(s.queue, t.id) + Delay(e, t.priority)
  {
    match e
    case Sleep(n) =>
      SleepIs(s, n);
      StateProgress(s.queue, s.cur.id, SLEEPING, t.id);
    case Exit => ExitProgress(s.queue, s.cur.id, t.id);
    case CreateTask(p, slice) =>
      if |s.queue| < MAX_TASK_NUM {
        InsertProgress(s.queue, Task(s.nextId, p, RUNNING, slice), t.id);
      }
    case CreateTimer(f, n) => CreateTimerIs(s, f, n);
    case _ =>
  }

  function Bonus(e: Event): nat { if e == SoftInt then 1 else 0 }

  /** Every software interrupt that passes T over shortens its wait, and only the creation of
      a task of lower priority value lengthens it. */
  lemma StepProgress(ss: seq<State>, es: seq<Event>, t: Task, k: nat)
    requires IsRun(ss, es) && k < |es| && Inv(ss[k]) && Waits(ss[k], t) && ss[k + 1].running != User(t.id)
    ensures Waits(ss[k + 1], t)
    ensures Wait(ss[k + 1].queue, t.id) + Bonus(es[k]) <= Wait(ss[k].queue, t.id) + Delay(es[k], t.priority)
  {
    RunStep(ss, es, k);
    match es[k]
    case SoftInt => SoftIntProgress(ss[k], t);
    case Tick => TickProgress(ss[k], t);
    case e => OtherProgress(ss[k], e, t);
  }

  function SoftInts(es: seq<Event>, i: nat, k: nat): nat
    requires i <= k <= |es|
  {
    if k == i then 0 else SoftInts(es, i, k - 1) + Bonus(es[k - 1])
  }

  function Delays(es: seq<Event>, p: int, i: nat, k: nat): nat
    requires i <= k <= |es|
  {
    if k == i then 0 else Delays(es, p, i, k - 1) + Delay(es[k - 1], p)
  }

  lemma {:induction false} WaitBoundsSwitches(ss: seq<State>, es: seq<Event>, t: Task, i: nat, k: nat)
    requires IsRun(ss, es) && Inv(ss[0]) && i <= k < |ss| && Waits(ss[i], t)
    requires forall j :: i < j <= k ==> ss[j].running != User(t.id)
    ensures Waits(ss[k], t)
    ensures Wait(ss[k].queue, t.id) + SoftInts(es, i, k) <= Wait(ss[i].queue, t.id) + Delays(es, t.priority, i, k)
    decreases k - i
  {
    if i < k {
      RunKeeps(ss, es, k - 1);
      WaitBoundsSwitches(ss, es, t, i, k - 1);
      StepProgress(ss, es, t, k - 1);
    }
  }

  /** No starvation: however sleeps, wake-ups, exits, timers and creations are interleaved, an
      awake task of priority p <= 256 is passed over by at most Wait software interrupts,
      which is the sum of max(1, p - q) over the priorities q of the tasks ahead of it, plus
      p - q for each later-created task of priority q < p. */
  lemma NoStarvation(ss: seq<State>, es: seq<Event>, t: Task, i: nat, k: nat)
    requires IsRun(ss, es) && ss[0] == Boot() && i <= k < |ss| && Waits(ss[i], t)
    requires SoftInts(es, i, k) > Wait(ss[i].queue, t.id) + Delays(es, t.priority, i, k)
    ensures exists j :: i < j <= k && ss[j].running == User(t.id)
  {
    if forall j :: i < j <= k ==> ss[j].running != User(t.id) {
      WaitBoundsSwitches(ss, es, t, i, k);
    }
  }

  // ---------------------------------------------------------------- timeslice

  /** Between switches a task can only leave the hart. */
  lemma KeepsHart(ss: seq<State>, es: seq<Event>, k: nat)
    requires IsRun(ss, es) && k < |es| && Inv(ss[k]) && es[k] != SoftInt && ss[k + 1].running.User?
    ensures ss[k].running == ss[k + 1].running && ss[k].cur == ss[k + 1].cur && ss[k].since == ss[k + 1].since
  {
    RunStep(ss, es, k);
    if es[k] == Tick {
      CheckFromSafe(ss[k].timers, ss[k].queue, ss[k].ticks + 1, 0);
      HandleIsFinish(ss[k], Check(ss[k].timers, ss[k].queue, ss[k].ticks + 1));
    }
  }

  lemma {:induction false} SinceIsSwitch(ss: seq<State>, es: seq<Event>, i: nat, k: nat)
    requires IsRun(ss, es) && Inv(ss[0]) && i < k < |ss| && es[i] == SoftInt
    requires (forall j :: i < j < k ==> es[j] != SoftInt) && ss[k].running.User?
    ensures ss[k].running == ss[i + 1].running && ss[k].cur == ss[i + 1].cur && ss[k].since == ss[i + 1].ticks
    decreases k - i
  {
    if i + 1 < k {
      RunKeeps(ss, es, k - 1);
      KeepsHart(ss, es, k - 1);
      SinceIsSwitch(ss, es, i, k - 1);
    } else {
      RunStep(ss, es, i);
    }
  }

  /** A task switched in at tick s is off the hart by tick s + max(1, timeslice): in every
      later state before the next switch it is either gone or that tick has not come. */
  lemma TimesliceBound(ss: seq<State>, es: seq<Event>, i: nat, k: nat)
    requires IsRun(ss, es) && ss[0] == Boot() && i < k < |ss| && es[i] == SoftInt
    requires (forall j :: i < j < k ==> es[j] != SoftInt) && ss[k].running.User?
    ensures ss[i + 1].cur.Cur? && ss[k].running == ss[i + 1].running
    ensures ss[k].ticks < ss[i + 1].ticks + Slice(ss[i + 1].cur.timeslice)
  {
    SinceIsSwitch(ss, es, i, k);
    RunKeeps(ss, es, k);
  }
}
