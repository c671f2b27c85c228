/** From sleep to the hart: wake-up, wait and timeslices together. */
module SleepToHart {
  import opened Flags
  import opened SortedLists
  import opened RunQueue
  import opened Fairness
  import opened Machine
  import opened MachineInv
  import opened Lateness
  import opened MachineFairness

  // ---------------------------------------------------------------- timeslices

  /** No timeslice is longer than l ticks. */
  predicate ShortSlices(s: State, l: nat) {
    && (forall i :: 0 <= i < |s.queue| ==> Slice(s.queue[i].timeslice) <= l)
    && (s.cur.Cur? ==> Slice(s.cur.timeslice) <= l)
  }

  predicate CreatesShort(e: Event, l: nat) { e.CreateTask? ==> Slice(e.timeslice) <= l }

  lemma HandleShort(s: State, l: nat)
    requires Inv(s) && !s.msip && ShortSlices(s, l)
    ensures ShortSlices(Handle(s), l)
  {
    CheckFromSafe(s.timers, s.queue, s.ticks + 1, 0);
    HandleIsFinish(s, Check(s.timers, s.queue, s.ticks + 1));
  }

  lemma StepShort(s: State, e: Event, l: nat)
    requires Inv(s) && Enabled(s, e) && ShortSlices(s, l) && CreatesShort(e, l)
    ensures ShortSlices(Step(s, e), l)
  {
    match e
    case Tick => HandleShort(s, l);
    case SoftInt => ScheduleShort(s, l);
    case Sleep(n) => SleepIs(s, n);
    case CreateTimer(f, n) => CreateTimerIs(s, f, n);
    case _ =>
  }

  lemma ScheduleShort(s: State, l: nat)
    requires ShortSlices(s, l)
    ensures ShortSlices(Schedule(s), l)
  {
  }

  lemma {:induction false} RunShort(ss: seq<State>, es: seq<Event>, l: nat, k: nat)
    requires IsRun(ss, es) && ss[0] == Boot() && k < |ss| && forall j :: 0 <= j < k ==> CreatesShort(es[j], l)
    ensures ShortSlices(ss[k], l)
  {
    if k > 0 {
      BootInv();
      RunKeeps(ss, es, k - 1);
      RunStep(ss, es, k - 1);
      RunShort(ss, es, l, k - 1);
      StepShort(ss[k - 1], es[k - 1], l);
    }
  }

  // ---------------------------------------------------------------- ticks and switches

  /** The kernel yields, and the software interrupt is taken, between two ticks: a tick always
      finds a task on the hart. */
  predicate Prompt(s: State, e: Event) { e == Tick ==> s.running.User? }

  /** At most b ticks have passed, and a task on the hart was switched in l ticks before that. */
  predicate Within(s: State, l: nat, b: nat) {
    s.ticks <= b && (s.running.User? ==> s.since + l <= b)
  }

  lemma WithinTick(s: State, l: nat, b: nat)
    requires Inv(s) && !s.msip && s.running.User? && ShortSlices(s, l) && Within(s, l, b)
    ensures Within(Handle(s), l, b)
  {
    CheckFromSafe(s.timers, s.queue, s.ticks + 1, 0);
    HandleIsFinish(s, Check(s.timers, s.queue, s.ticks + 1));
  }

  lemma WithinSwitch(s: State, t: Task, l: nat, b: nat)
    requires Inv(s) && Waits(s, t) && Within(s, l, b)
    ensures Within(Schedule(s), l, b + l)
  {
    PopProgress(s.queue, t.id);
  }

  lemma WithinStep(s: State, e: Event, t: Task, l: nat, b: nat)
    requires Inv(s) && Enabled(s, e) && Waits(s, t) && ShortSlices(s, l) && Within(s, l, b) && Prompt(s, e)
    ensures Within(Step(s, e), l, b + l * Bonus(e))
  {
    match e
    case Tick => WithinTick(s, l, b);
    case SoftInt => WithinSwitch(s, t, l, b);
    case Sleep(n) => SleepIs(s, n);
    case CreateTimer(f, n) => CreateTimerIs(s, f, n);
    case _ =>
  }

  lemma OneMore(l: nat, n: nat, m: nat)
    ensures l * (n + m) == l * n + l * m
  {
  }

  lemma Monotone(l: nat, n: nat, m: nat)
    requires n <= m
    ensures l * n <= l * m
  {
  }

  /** While T waits, each software interrupt buys at most l ticks. */
  lemma {:induction false} TicksPerSwitch(ss: seq<State>, es: seq<Event>, t: Task, l: nat, i: nat, k: nat)
    requires IsRun(ss, es) && ss[0] == Boot() && i <= k < |ss| && Waits(ss[i], t) && ss[i].running == Os
    requires forall j :: 0 <= j < k ==> CreatesShort(es[j], l)
    requires forall j :: i <= j < k ==> Prompt(ss[j], es[j])
    requires forall j :: i < j <= k ==> ss[j].running != User(t.id)
    ensures Within(ss[k], l, ss[i].ticks + l * SoftInts(es, i, k))
    decreases k - i
  {
    BootInv();
    if i < k {
      WaitBoundsSwitches(ss, es, t, i, k - 1);
      TicksPerSwitch(ss, es, t, l, i, k - 1);
      WithinRunStep(ss, es, t, l, k - 1, ss[i].ticks + l * SoftInts(es, i, k - 1));
      OneMore(l, SoftInts(es, i, k - 1), Bonus(es[k - 1]));
    }
  }

  lemma WithinRunStep(ss: seq<State>, es: seq<Event>, t: Task, l: nat, k: nat, b: nat)
    requires IsRun(ss, es) && ss[0] == Boot() && k < |es| && Waits(ss[k], t)
    requires forall j :: 0 <= j < k ==> CreatesShort(es[j], l)
    requires Within(ss[k], l, b) && Prompt(ss[k], es[k])
    ensures Within(ss[k + 1], l, b + l * Bonus(es[k]))
  {
    BootInv();
    RunKeeps(ss, es, k);
    RunStep(ss, es, k);
    RunShort(ss, es, l, k);
    WithinStep(ss[k], es[k], t, l, b);
  }

  lemma NotLater(ss: seq<State>, es: seq<Event>, t: Task, l: nat, i: nat, k: nat)
    requires IsRun(ss, es) && ss[0] == Boot() && i <= k < |ss| && Waits(ss[i], t) && ss[i].running == Os
    requires forall j :: 0 <= j < k ==> CreatesShort(es[j], l)
    requires forall j :: i <= j < k ==> Prompt(ss[j], es[j])
    requires forall j :: i < j <= k ==> ss[j].running != User(t.id)
    ensures ss[k].ticks <= ss[i].ticks + l * SoftInts(es, i, k)
    ensures SoftInts(es, i, k) <= Wait(ss[i].queue, t.id) + Delays(es, t.priority, i, k)
  {
    BootInv();
    WaitBoundsSwitches(ss, es, t, i, k);
    TicksPerSwitch(ss, es, t, l, i, k);
  }

  /** An awake task of priority at most 256 that waits while the kernel has the hart gets it within
      l ticks for each software interrupt of its wait. */
  lemma HasHartInTime(ss: seq<State>, es: seq<Event>, t: Task, l: nat, i: nat, k: nat)
    requires IsRun(ss, es) && ss[0] == Boot() && i <= k < |ss| && Waits(ss[i], t) && ss[i].running == Os
    requires forall j :: 0 <= j < k ==> CreatesShort(es[j], l)
    requires forall j :: i <= j < k ==> Prompt(ss[j], es[j])
    requires ss[k].ticks > ss[i].ticks + l * (Wait(ss[i].queue, t.id) + Delays(es, t.priority, i, k))
    ensures exists m :: i < m <= k && ss[m].running == User(t.id)
  {
    if forall m :: i < m <= k ==> ss[m].running != User(t.id) {
      NotLater(ss, es, t, l, i, k);
      Monotone(l, SoftInts(es, i, k), Wait(ss[i].queue, t.id) + Delays(es, t.priority, i, k));
    }
  }

  // ---------------------------------------------------------------- sleep

  /** A task that calls sleep(n) has the hart again by an explicit tick.  es[j] is the tick at which
      the sleep is due, A sleep timers are then ahead of it, es[w] is the tick A ticks later, and
      r is the task's record after it.  If the kernel yields between ticks and no timeslice is
      above l, the task has had the hart before the tick count exceeds max(t0 + n, t0 + 1) + A
      plus l times its wait and what later creations add to it. */
  lemma SleeperHasHart(ss: seq<State>, es: seq<Event>, t: Timer, a: nat, r: Task, n: nat, l: nat,
                       i: nat, j: nat, w: nat, k: nat)
    requires IsRun(ss, es) && ss[0] == Boot() && i < j <= w < k < |ss| && es[i] == Sleep(n)
    requires es[j] == Tick && ss[j].ticks + 1 == Due(ss[i].ticks, n)
    requires ss[i].cur.Cur? && t == Timer(ss[i].nextTid, None, ss[i].ticks + n, ss[i].cur.id)
        && Queued(ss[j].timers, t, a)
    requires es[w] == Tick && ss[w].ticks + 1 == Due(ss[i].ticks, n) + a
    requires IndexOf(ss[w + 1].queue, t.task) < |ss[w + 1].queue|
        && r == ss[w + 1].queue[IndexOf(ss[w + 1].queue, t.task)]
    requires r.priority <= LOWEST
    requires forall m :: 0 <= m < k ==> CreatesShort(es[m], l)
    requires forall m :: w < m < k ==> Prompt(ss[m], es[m])
    requires ss[k].ticks > Due(ss[i].ticks, n) + a + l * (Wait(ss[w + 1].queue, r.id) + Delays(es, r.priority, w + 1,
        k))
    ensures a <= MAX_TASK_NUM - 1
    ensures exists m :: w + 1 < m <= k && ss[m].running == User(t.task)
  {
    BootInv();
    RunKeeps(ss, es, j);
    RunKeeps(ss, es, w);
    FewAhead(ss[j], t, a);
    WokenAfterThoseAhead(ss, es, t, a, j, w);
    RunTicks(ss, es, w);
    assert Waits(ss[w + 1], r) && ss[w + 1].running == Os;
    HasHartInTime(ss, es, r, l, w + 1, k);
  }
}
