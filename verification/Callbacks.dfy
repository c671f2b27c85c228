/** When the callbacks of software timers are called (os/timer.c:191-216). */
module Callbacks {
  import opened Flags
  import opened SortedLists
  import opened RunQueue
  import opened Machine
  import opened MachineInv
  import opened Lateness

  /** Where the scan that starts at i stops: the first timer that has not expired or that is a
      task's sleep. */
  function Reached(ts: seq<Timer>, now: nat, i: nat): (r: nat)
    requires i <= |ts|
    ensures i <= r <= |ts|
    ensures forall j :: i <= j < r ==> ts[j].func.Some? && ts[j].deadline <= now
    ensures r < |ts| ==> ts[r].func.None? || ts[r].deadline > now
    decreases |ts| - i
  {
    if i == |ts| || ts[i].func.None? || ts[i].deadline > now then i else Reached(ts, now, i + 1)
  }

  /** The scan calls the callbacks in front of that timer, in list order and each once, and ends
      on that timer if it is an expired sleep. */
  lemma {:induction false} ScanIs(ts: seq<Timer>, q: seq<Task>, now: nat, i: nat)
    requires Matched(q, ts) && i <= |ts|
    ensures var c, r := CheckFrom(ts, q, now, i), Reached(ts, now, i);
      && c.Scan? && |c.fired| == r - i && (forall j :: i <= j < r ==> c.fired[j - i] == ts[j].func.value)
      && c.woken == if r < |ts| && ts[r].deadline <= now then Some(r) else None
    decreases |ts| - i
  {
    if i < |ts| && ts[i].func.Some? && ts[i].deadline <= now {
      ScanIs(ts, q, now, i + 1);
    }
  }

  /** A timer is reached if and only if it has expired, is a callback, and has only callbacks in
      front of it. */
  lemma ReachedIff(ts: seq<Timer>, now: nat, p: nat)
    requires Sorted(Deadlines(ts)) && p < |ts|
    ensures p < Reached(ts, now, 0) <==> ts[p].deadline <= now && forall j :: 0 <= j <= p ==> ts[j].func.Some?
  {
    var r := Reached(ts, now, 0);
    if r <= p {
      assert Deadlines(ts)[r] <= Deadlines(ts)[p];
    }
  }

  // ---------------------------------------------------------------- runs

  /** A callback timer stays in the list until it is deleted. */
  lemma CallbackStays(s: State, e: Event, c: Timer)
    requires Inv(s) && Enabled(s, e) && c in s.timers && c.func.Some? && e != DeleteTimer(c.tid)
    ensures c in Step(s, e).timers
  {
    match e
    case Tick => CallbackStaysOnTick(s, c);
    case Sleep(n) =>
      SleepIs(s, n);
      KeptByFile(s.timers, Timer(s.nextTid, None, s.ticks + n, s.cur.id), c);
    case CreateTimer(f, n) =>
      CreateTimerIs(s, f, n);
      KeptByFile(s.timers, Timer(s.nextTid, Some(f), s.ticks + n, s.cur.id), c);
    case DeleteTimer(tid) => KeptByRemove(s.timers, TimerOf(s.timers, tid), c);
    case _ =>
  }

  lemma CallbackStaysOnTick(s: State, c: Timer)
    requires Inv(s) && !s.msip && c in s.timers && c.func.Some?
    ensures c in Handle(s).timers
  {
    CheckFromSafe(s.timers, s.queue, s.ticks + 1, 0);
    var r := Check(s.timers, s.queue, s.ticks + 1);
    HandleIsFinish(s, r);
    if r.woken.Some? {
      KeptByRemove(s.timers, r.woken.value, c);
    }
  }

  lemma {:induction false} CallbackKept(ss: seq<State>, es: seq<Event>, c: Timer, i: nat, k: nat)
    requires IsRun(ss, es) && Inv(ss[0]) && i <= k < |ss| && c in ss[i].timers && c.func.Some?
    requires forall j :: i <= j < k ==> es[j] != DeleteTimer(c.tid)
    ensures c in ss[k].timers
    decreases k - i
  {
    if i < k {
      RunKeeps(ss, es, k - 1);
      RunStep(ss, es, k - 1);
      CallbackKept(ss, es, c, i, k - 1);
      CallbackStays(ss[k - 1], es[k - 1], c);
    }
  }

  /** What a tick adds to the log of calls. */
  lemma TickCalls(s: State)
    requires Inv(s) && !s.msip
    ensures var r := Reached(s.timers, s.ticks + 1, 0);
      && |Handle(s).fired| == |s.fired| + r && s.fired <= Handle(s).fired
      && forall j :: 0 <= j < r ==> Handle(s).fired[|s.fired| + j] == s.timers[j].func.value
  {
    ScanIs(s.timers, s.queue, s.ticks + 1, 0);
    HandleIsFinish(s, Check(s.timers, s.queue, s.ticks + 1));
  }

  /** Timer p of the list is called by the step from s to s': the log grows by the calls of this
      tick, and entry p of them is its own. */
  predicate Called(s: State, s': State, p: nat)
    requires p < |s.timers|
  {
    && |s.fired| + p < |s'.fired|
    && s.timers[p].func == Some(s'.fired[|s.fired| + p])
  }

  lemma CalledIff(s: State, p: nat)
    requires Inv(s) && !s.msip && p < |s.timers| && s.timers[p].func.Some?
    ensures s.fired <= Handle(s).fired
    ensures Called(s, Handle(s), p) <==>
      s.timers[p].deadline <= s.ticks + 1 && forall j :: 0 <= j < p ==> s.timers[j].func.Some?
  {
    TickCalls(s);
    ReachedIff(s.timers, s.ticks + 1, p);
  }

  /** A callback that was created and not deleted is called, once and in list order, at every tick
      at or after its deadline at which no sleep is in front of it in the list, and at no other
      tick: being called does not end it. */
  lemma CalledEveryTick(ss: seq<State>, es: seq<Event>, c: Timer, i: nat, k: nat) returns (p: nat)
    requires IsRun(ss, es) && Inv(ss[0]) && i <= k < |es| && es[k] == Tick
    requires c in ss[i].timers && c.func.Some? && forall j :: i <= j < k ==> es[j] != DeleteTimer(c.tid)
    ensures p < |ss[k].timers| && ss[k].timers[p] == c && ss[k].fired <= ss[k + 1].fired
    ensures Called(ss[k], ss[k + 1], p) <==>
      c.deadline <= ss[k].ticks + 1 && forall j :: 0 <= j < p ==> ss[k].timers[j].func.Some?
  {
    RunKeeps(ss, es, k);
    RunStep(ss, es, k);
    CallbackKept(ss, es, c, i, k);
    p :| p < |ss[k].timers| && ss[k].timers[p] == c;
    CalledIff(ss[k], p);
  }

  // ---------------------------------------------------------------- creation and deletion

  predicate Lists(ts: seq<Timer>, tid: nat) {
    exists j :: 0 <= j < |ts| && ts[j].tid == tid
  }

  /** insert_timer: behind equal deadlines. */
  lemma FilePlace(ts: seq<Timer>, t: Timer) returns (at: nat)
    requires TimersOk(ts, t.tid)
    ensures at <= |ts| && File(ts, t) == ts[..at] + [t] + ts[at..]
    ensures forall j :: 0 <= j < at ==> ts[j].deadline <= t.deadline
    ensures forall j :: at <= j < |ts| ==> ts[j].deadline > t.deadline
    ensures !Lists(ts, t.tid)
  {
    at := Slot(Deadlines(ts), t.deadline);
    InsertKeepsSorted(Deadlines(ts), t.deadline);
    forall j | 0 <= j < |ts| ensures if j < at then ts[j].deadline <= t.deadline else ts[j].deadline > t.deadline {
      assert Deadlines(ts)[j] == ts[j].deadline;
    }
  }

  /** timer_create called by a task files one timer for it, n ticks from now, behind everything due
      by then and in front of everything due later.  Nothing else changes, and no timer before had
      its number. */
  lemma CreatedIsListed(ss: seq<State>, es: seq<Event>, i: nat, f: nat, n: nat) returns (at: nat)
    requires IsRun(ss, es) && ss[0] == Boot() && i < |es| && es[i] == CreateTimer(f, n)
    ensures ss[i].running.User? && at <= |ss[i].timers|
    ensures var t := Timer(ss[i].nextTid, Some(f), ss[i].ticks + n, ss[i].running.id);
      && ss[i + 1].timers == ss[i].timers[..at] + [t] + ss[i].timers[at..]
      && (forall j :: 0 <= j < at ==> ss[i].timers[j].deadline <= t.deadline)
      && (forall j :: at <= j < |ss[i].timers| ==> ss[i].timers[j].deadline > t.deadline)
    ensures ss[i + 1] == ss[i].(timers := ss[i + 1].timers, nextTid := ss[i].nextTid + 1)
    ensures !Lists(ss[i].timers, ss[i].nextTid)
  {
    BootInv();
    RunKeeps(ss, es, i);
    RunStep(ss, es, i);
    CreateTimerIs(ss[i], f, n);
    at := FilePlace(ss[i].timers, Timer(ss[i].nextTid, Some(f), ss[i].ticks + n, ss[i].cur.id));
  }

  /** timer_delete takes out the named timer and no other. */
  lemma DeleteRemoves(ss: seq<State>, es: seq<Event>, i: nat, tid: nat) returns (at: nat)
    requires IsRun(ss, es) && ss[0] == Boot() && i < |es| && es[i] == DeleteTimer(tid)
    ensures at < |ss[i].timers| && ss[i].timers[at].tid == tid
    ensures ss[i + 1] == ss[i].(timers := ss[i].timers[..at] + ss[i].timers[at + 1..])
    ensures !Lists(ss[i + 1].timers, tid) && tid < ss[i + 1].nextTid
  {
    BootInv();
    RunKeeps(ss, es, i);
    RunStep(ss, es, i);
    at := TimerOf(ss[i].timers, tid);
  }

  lemma StaysUnlisted(s: State, e: Event, tid: nat)
    requires Inv(s) && Enabled(s, e) && !Lists(s.timers, tid) && tid < s.nextTid
    ensures !Lists(Step(s, e).timers, tid) && tid < Step(s, e).nextTid
  {
    match e
    case Tick =>
      CheckFromSafe(s.timers, s.queue, s.ticks + 1, 0);
      var c := Check(s.timers, s.queue, s.ticks + 1);
      HandleIsFinish(s, c);
      if c.woken.Some? { UnlistedByRemove(s.timers, c.woken.value, tid); }
    case Sleep(n) =>
      SleepIs(s, n);
      UnlistedByFile(s.timers, Timer(s.nextTid, None, s.ticks + n, s.cur.id), tid);
    case CreateTimer(f, n) =>
      CreateTimerIs(s, f, n);
      UnlistedByFile(s.timers, Timer(s.nextTid, Some(f), s.ticks + n, s.cur.id), tid);
    case DeleteTimer(other) => UnlistedByRemove(s.timers, TimerOf(s.timers, other), tid);
    case _ =>
  }

  lemma UnlistedByRemove(ts: seq<Timer>, i: nat, tid: nat)
    requires i < |ts| && !Lists(ts, tid)
    ensures !Lists(RemoveAt(ts, i), tid)
  {
  }

  lemma UnlistedByFile(ts: seq<Timer>, t: Timer, tid: nat)
    requires !Lists(ts, tid) && t.tid != tid
    ensures !Lists(File(ts, t), tid)
  {
  }

  lemma StaysUnlistedInRun(ss: seq<State>, es: seq<Event>, tid: nat, k: nat)
    requires IsRun(ss, es) && Inv(ss[0]) && k < |es| && !Lists(ss[k].timers, tid) && tid < ss[k].nextTid
    ensures !Lists(ss[k + 1].timers, tid) && tid < ss[k + 1].nextTid
  {
    RunKeeps(ss, es, k);
    RunStep(ss, es, k);
    StaysUnlisted(ss[k], es[k], tid);
  }

  lemma {:induction false} NeverAgain(ss: seq<State>, es: seq<Event>, tid: nat, i: nat, k: nat)
    requires IsRun(ss, es) && Inv(ss[0]) && i <= k < |ss| && !Lists(ss[i].timers, tid) && tid < ss[i].nextTid
    ensures !Lists(ss[k].timers, tid) && tid < ss[k].nextTid
    decreases k - i
  {
    if i < k {
      NeverAgain(ss, es, tid, i, k - 1);
      StaysUnlistedInRun(ss, es, tid, k - 1);
    }
  }

  /** A deleted timer is never in the list again, so it is never called again. */
  lemma DeletedIsGone(ss: seq<State>, es: seq<Event>, i: nat, tid: nat, k: nat)
    requires IsRun(ss, es) && ss[0] == Boot() && i < k < |ss| && es[i] == DeleteTimer(tid)
    ensures !Lists(ss[k].timers, tid)
  {
    BootInv();
    var at := DeleteRemoves(ss, es, i, tid);
    NeverAgain(ss, es, tid, i + 1, k);
  }
}
