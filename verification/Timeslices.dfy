/** What a tick does to the task on the hart, and how long a task keeps it: os/timer.c:219-247. */
module Timeslices {
  import opened Flags
  import opened SortedLists
  import opened RunQueue
  import opened Machine
  import opened MachineInv
  import opened Lateness

  /** No sleep is over by the next tick. */
  predicate NobodyDue(s: State) {
    forall i :: 0 <= i < |s.timers| && s.timers[i].func.None? ==> s.timers[i].deadline > s.ticks + 1
  }

  /** A tick at which nobody is due changes neither list.  It sends a running task back to the
      kernel if and only if its timeslice has passed since the last such tick, and that is also
      when the count starts again. */
  lemma QuietTick(s: State)
    requires Inv(s) && !s.msip && NobodyDue(s)
    ensures var r := Handle(s);
      && r.queue == s.queue && r.timers == s.timers && r.cur == s.cur && r.ticks == s.ticks + 1
      && r.msip == s.msip && r.since == s.since
    ensures s.cur.Cur? && s.ticks + 1 < s.start + s.cur.timeslice ==>
      Handle(s).running == s.running && Handle(s).start == s.start
    ensures s.cur.Cur? && s.ticks + 1 >= s.start + s.cur.timeslice ==>
      Handle(s).running == Os && Handle(s).start == s.ticks + 1
    ensures s.cur.NoTask? ==> Handle(s).running == Os && Handle(s).start == s.start
  {
    CheckFromSafe(s.timers, s.queue, s.ticks + 1, 0);
    HandleIsFinish(s, Check(s.timers, s.queue, s.ticks + 1));
  }

  /** A tick at which somebody is due takes out the first sleep timer of the list, w: its task is
      RUNNABLE, is cur_task, and the kernel context runs.  Every other timer and record stays, and
      the timeslice count does not start again. */
  lemma DueTick(s: State) returns (w: nat)
    requires Inv(s) && !s.msip && !NobodyDue(s)
    ensures w < |s.timers| && s.timers[w].func.None? && forall j :: 0 <= j < w ==> s.timers[j].func.Some?
    ensures forall j :: 0 <= j < |s.timers| && s.timers[j].func.None? ==> s.timers[w].deadline <= s.timers[j].deadline
    ensures var r := Handle(s);
      && r.timers == s.timers[..w] + s.timers[w + 1..]
      && |r.queue| == |s.queue|
      && (forall i :: 0 <= i < |s.queue| ==>
            r.queue[i] == if s.queue[i].id == s.timers[w].task then s.queue[i].(state := RUNNABLE) else s.queue[i])
      && r.cur.Cur? && r.cur.id == s.timers[w].task
      && r.running == Os && r.ticks == s.ticks + 1 && r.start == s.start && r.msip == s.msip
  {
    var p: nat :| p < |s.timers| && s.timers[p].func.None? && s.timers[p].deadline <= s.ticks + 1;
    assert QueuedAt(s.timers, s.timers[p], Sleeps(s.timers[..p]), p);
    w := LateTickScan(s, s.timers[p], Sleeps(s.timers[..p]), p);
    DueScan(s, w);
    HandleIsFinish(s, Check(s.timers, s.queue, s.ticks + 1));
    WakeTouches(s.queue, s.timers[w].task);
  }

  /** What stands in front of the timer on which a scan ends. */
  lemma DueScan(s: State, w: nat)
    requires Inv(s) && w < |s.timers|
    requires var c := Check(s.timers, s.queue, s.ticks + 1); c.Scan? && c.woken == Some(w)
    ensures forall j :: 0 <= j < w ==> s.timers[j].func.Some?
    ensures forall j :: 0 <= j < |s.timers| && s.timers[j].func.None? ==> s.timers[w].deadline <= s.timers[j].deadline
  {
    ScanPasses(s.timers, s.queue, s.ticks + 1, 0, w);
    forall j | w <= j < |s.timers| ensures s.timers[w].deadline <= s.timers[j].deadline {
      assert Deadlines(s.timers)[w] <= Deadlines(s.timers)[j];
    }
  }

  lemma {:induction false} ScanPasses(ts: seq<Timer>, q: seq<Task>, now: nat, i: nat, w: nat)
    requires Matched(q, ts) && i <= |ts|
    requires CheckFrom(ts, q, now, i).Scan? && CheckFrom(ts, q, now, i).woken == Some(w)
    ensures i <= w && forall j :: i <= j < w && j < |ts| ==> ts[j].func.Some?
    decreases |ts| - i
  {
    if i < |ts| && ts[i].deadline <= now && ts[i].func.Some? {
      ScanPasses(ts, q, now, i + 1, w);
    }
  }

  lemma WakeTouches(q: seq<Task>, id: nat)
    requires QueueOk(q) && IndexOf(q, id) < |q|
    ensures forall i :: 0 <= i < |q| ==>
      SetState(q, id, RUNNABLE)[i] == if q[i].id == id then q[i].(state := RUNNABLE) else q[i]
  {
    forall i | 0 <= i < |q| && q[i].id == id ensures i == IndexOf(q, id) {
      IndexOfHas(q, id, i);
    }
  }

  /** A tick takes a sleep timer out if and only if somebody is due. */
  lemma QuietIff(s: State)
    requires Inv(s) && !s.msip
    ensures NobodyDue(s) <==> Handle(s).timers == s.timers
  {
    if NobodyDue(s) {
      QuietTick(s);
    } else {
      var w := DueTick(s);
      assert |Handle(s).timers| == |s.timers| - 1;
    }
  }

  // ---------------------------------------------------------------- over runs

  /** A task on the hart at a tick that takes no sleep timer out stays on it if and only if this tick
      comes before start + timeslice.  If it leaves, the count starts again at this tick. */
  lemma StaysIff(ss: seq<State>, es: seq<Event>, k: nat)
    requires IsRun(ss, es) && ss[0] == Boot() && k < |es| && es[k] == Tick && ss[k].running.User?
    requires ss[k + 1].timers == ss[k].timers
    ensures ss[k].cur.Cur? && ss[k].cur.id == ss[k].running.id
    ensures ss[k + 1].running == ss[k].running <==> ss[k].ticks + 1 < ss[k].start + ss[k].cur.timeslice
    ensures ss[k + 1].running == ss[k].running ==> ss[k + 1].start == ss[k].start
    ensures ss[k + 1].running != ss[k].running ==> ss[k + 1].running == Os && ss[k + 1].start == ss[k + 1].ticks
  {
    BootInv();
    RunKeeps(ss, es, k);
    RunStep(ss, es, k);
    QuietIff(ss[k]);
    QuietTick(ss[k]);
  }

  /** Between switches, with nobody due, the task of state a is on the hart in state s, or has left
      it because a tick has come at or after the end of its timeslice. */
  predicate KeptSince(a: State, s: State)
    requires a.cur.Cur?
  {
    && s.cur == a.cur && a.ticks <= s.ticks
    && if s.ticks == a.ticks || s.ticks < a.start + a.cur.timeslice then s.running == a.running && s.start == a.start
       else s.running == Os
  }

  lemma KeptStep(a: State, s: State, e: Event)
    requires a.cur.Cur? && Inv(s) && Enabled(s, e) && KeptSince(a, s)
    requires e != SoftInt && (e == Tick ==> NobodyDue(s))
    ensures KeptSince(a, Step(s, e))
  {
    match e
    case Tick => QuietTick(s);
    case Sleep(n) => SleepIs(s, n);
    case CreateTimer(f, n) => CreateTimerIs(s, f, n);
    case _ =>
  }

  lemma KeptRunStep(ss: seq<State>, es: seq<Event>, a: State, k: nat)
    requires IsRun(ss, es) && Inv(ss[0]) && k < |es| && a.cur.Cur? && KeptSince(a, ss[k])
    requires es[k] != SoftInt && (es[k] == Tick ==> NobodyDue(ss[k]))
    ensures KeptSince(a, ss[k + 1])
  {
    RunKeeps(ss, es, k);
    RunStep(ss, es, k);
    KeptStep(a, ss[k], es[k]);
  }

  lemma {:induction false} Kept(ss: seq<State>, es: seq<Event>, i: nat, k: nat)
    requires IsRun(ss, es) && Inv(ss[0]) && i < k < |ss| && es[i] == SoftInt && ss[i + 1].running.User?
    requires forall j :: i < j < k ==> es[j] != SoftInt && (es[j] == Tick ==> NobodyDue(ss[j]))
    ensures ss[i + 1].cur.Cur? && ss[i + 1].running == User(ss[i + 1].cur.id) && KeptSince(ss[i + 1], ss[k])
    decreases k - i
  {
    if i + 1 < k {
      Kept(ss, es, i, k - 1);
      KeptRunStep(ss, es, ss[i + 1], k - 1);
    } else {
      RunStep(ss, es, i);
    }
  }

  /** A task keeps the hart for exactly what is left of the timeslice: until the next switch, and
      while nobody is due, a task that was switched in is on the hart if and only if no tick has come
      since, or the tick count is below start + timeslice. */
  lemma OnHartIff(ss: seq<State>, es: seq<Event>, i: nat, k: nat)
    requires IsRun(ss, es) && ss[0] == Boot() && i < k < |ss| && es[i] == SoftInt && ss[i + 1].running.User?
    requires forall j :: i < j < k ==> es[j] != SoftInt && (es[j] == Tick ==> NobodyDue(ss[j]))
    ensures ss[i + 1].cur.Cur? && ss[i + 1].running == User(ss[i + 1].cur.id)
    ensures ss[k].running == ss[i + 1].running <==>
      ss[k].ticks == ss[i + 1].ticks || ss[k].ticks < ss[i + 1].start + ss[i + 1].cur.timeslice
    ensures ss[k].running == ss[i + 1].running || ss[k].running == Os
  {
    BootInv();
    Kept(ss, es, i, k);
  }
}
