/** When a sleeping task is woken: os/timer.c wakes at most one sleeper a tick, in deadline
    order. */
module Lateness {
  import opened Flags
  import opened SortedLists
  import opened RunQueue
  import opened Machine
  import opened MachineInv

  /** The number of sleep timers in a list. */
  function Sleeps(ts: seq<Timer>): (n: nat)
    ensures n <= |ts|
  {
    if ts == [] then 0 else Sleeps(ts[..|ts| - 1]) + if ts[|ts| - 1].func.None? then 1 else 0
  }

  lemma {:induction false} SleepsRemove(ts: seq<Timer>, i: nat)
    requires i < |ts|
    ensures Sleeps(ts) == Sleeps(RemoveAt(ts, i)) + if ts[i].func.None? then 1 else 0
  {
    var n := |ts| - 1;
    if i < n {
      SleepsRemove(ts[..n], i);
      assert RemoveAt(ts, i)[..n - 1] == RemoveAt(ts[..n], i);
    } else {
      assert RemoveAt(ts, i) == ts[..n];
    }
  }

  lemma SleepsInsert(ts: seq<Timer>, i: nat, t: Timer)
    requires i <= |ts|
    ensures Sleeps(InsertAt(ts, i, t)) == Sleeps(ts) + if t.func.None? then 1 else 0
  {
    SleepsRemove(InsertAt(ts, i, t), i);
    RemoveInserted(ts, i, t);
  }

  /** Timer t is in the list, with `ahead` sleep timers before it. */
  ghost predicate Queued(ts: seq<Timer>, t: Timer, ahead: nat) {
    exists p: nat :: QueuedAt(ts, t, ahead, p)
  }

  predicate QueuedAt(ts: seq<Timer>, t: Timer, ahead: nat, p: nat) {
    p < |ts| && ts[p] == t && Sleeps(ts[..p]) == ahead
  }

  // ---------------------------------------------------------------- what insertions and deletions do

  lemma SlotBehind(keys: seq<int>, k: int, p: nat)
    requires Sorted(keys) && p < |keys| && keys[p] <= k
    ensures Slot(keys, k) > p
  {
  }

  lemma FileBehind(ts: seq<Timer>, t: Timer, ahead: nat, new_: Timer)
    requires Sorted(Deadlines(ts)) && Queued(ts, t, ahead) && t.deadline <= new_.deadline
    ensures Queued(File(ts, new_), t, ahead)
  {
    var p: nat :| QueuedAt(ts, t, ahead, p);
    var s := Slot(Deadlines(ts), new_.deadline);
    SlotBehind(Deadlines(ts), new_.deadline, p);
    assert File(ts, new_)[..p] == ts[..p];
    assert QueuedAt(File(ts, new_), t, ahead, p);
  }

  lemma InsertCounts(ts: seq<Timer>, p: nat, s: nat, t: Timer)
    requires p < |ts| && s <= |ts|
    ensures var q := if s <= p then p + 1 else p;
      InsertAt(ts, s, t)[q] == ts[p] &&
      Sleeps(InsertAt(ts, s, t)[..q]) == Sleeps(ts[..p]) + if s <= p && t.func.None? then 1 else 0
  {
    if s <= p {
      assert InsertAt(ts, s, t)[..p + 1] == InsertAt(ts[..p], s, t);
      SleepsInsert(ts[..p], s, t);
    } else {
      assert InsertAt(ts, s, t)[..p] == ts[..p];
    }
  }

  lemma RemoveCounts(ts: seq<Timer>, p: nat, i: nat)
    requires p < |ts| && i < |ts| && i != p
    ensures var q := if i < p then p - 1 else p;
      RemoveAt(ts, i)[q] == ts[p] &&
      Sleeps(RemoveAt(ts, i)[..q]) == Sleeps(ts[..p]) - if i < p && ts[i].func.None? then 1 else 0
  {
    if i < p {
      assert RemoveAt(ts, i)[..p - 1] == RemoveAt(ts[..p], i);
      SleepsRemove(ts[..p], i);
    } else {
      assert RemoveAt(ts, i)[..p] == ts[..p];
    }
  }

  lemma FileCallback(ts: seq<Timer>, t: Timer, ahead: nat, new_: Timer)
    requires Queued(ts, t, ahead) && new_.func.Some?
    ensures Queued(File(ts, new_), t, ahead)
  {
    var p: nat :| QueuedAt(ts, t, ahead, p);
    var s := Slot(Deadlines(ts), new_.deadline);
    InsertCounts(ts, p, s, new_);
    assert QueuedAt(File(ts, new_), t, ahead, if s <= p then p + 1 else p);
  }

  lemma DeleteCallback(ts: seq<Timer>, t: Timer, ahead: nat, i: nat)
    requires Queued(ts, t, ahead) && t.func.None? && i < |ts| && ts[i].func.Some?
    ensures Queued(RemoveAt(ts, i), t, ahead)
  {
    var p: nat :| QueuedAt(ts, t, ahead, p);
    RemoveCounts(ts, p, i);
    assert QueuedAt(RemoveAt(ts, i), t, ahead, if i < p then p - 1 else p);
  }

  // ---------------------------------------------------------------- the scan

  /** The scan ends on the first sleep timer of the list, if that one has expired. */
  lemma {:induction false} CheckFindsFirst(ts: seq<Timer>, q: seq<Task>, now: nat, i: nat, p: nat)
    requires Matched(q, ts) && i <= p < |ts| && ts[p].func.None?
    requires forall j :: i <= j < p ==> ts[j].func.Some?
    requires forall j :: i <= j <= p ==> ts[j].deadline <= now
    ensures CheckFrom(ts, q, now, i).Scan? && CheckFrom(ts, q, now, i).woken == Some(p)
    decreases p - i
  {
    if i < p {
      CheckFindsFirst(ts, q, now, i + 1, p);
    }
  }

  /** A scan never ends on a timer that has not expired. */
  lemma {:induction false} CheckNotEarly(ts: seq<Timer>, q: seq<Task>, now: nat, i: nat)
    requires Matched(q, ts) && i <= |ts|
    ensures var r := CheckFrom(ts, q, now, i);
      && r.Scan?
      && (r.woken.Some? ==>
            r.woken.value < |ts| && ts[r.woken.value].deadline <= now && ts[r.woken.value].func.None?)
  {
    CheckFromSafe(ts, q, now, i);
  }

  lemma {:induction false} FirstSleep(ts: seq<Timer>, p: nat) returns (f: nat)
    requires p < |ts| && ts[p].func.None?
    ensures f <= p && ts[f].func.None? && forall j :: 0 <= j < f ==> ts[j].func.Some?
    ensures Sleeps(ts[..f]) == 0
    ensures f == p <==> Sleeps(ts[..p]) == 0
  {
    f := 0;
    while ts[f].func.Some?
      invariant f <= p
      invariant forall j :: 0 <= j < f ==> ts[j].func.Some?
      decreases p - f
    {
      f := f + 1;
    }
    NoSleeps(ts[..f]);
    if f < p {
      SleepsRemove(ts[..p], f);
      assert ts[..p][f] == ts[f];
    }
  }

  lemma {:induction false} NoSleeps(ts: seq<Timer>)
    requires forall j :: 0 <= j < |ts| ==> ts[j].func.Some?
    ensures Sleeps(ts) == 0
  {
    if ts != [] {
      NoSleeps(ts[..|ts| - 1]);
    }
  }

  // ---------------------------------------------------------------- one step

  /** A tick before the deadline leaves the sleeper in the list. */
  lemma EarlyTick(s: State, t: Timer)
    requires Inv(s) && !s.msip && t in s.timers && t.func.None? && s.ticks + 1 < t.deadline
    ensures t in Handle(s).timers
  {
    CheckNotEarly(s.timers, s.queue, s.ticks + 1, 0);
    var c := Check(s.timers, s.queue, s.ticks + 1);
    HandleIsFinish(s, c);
    if c.woken.Some? {
      KeptByRemove(s.timers, c.woken.value, t);
    }
  }

  lemma KeptByRemove(ts: seq<Timer>, i: nat, t: Timer)
    requires i < |ts| && t in ts && ts[i] != t
    ensures t in RemoveAt(ts, i)
  {
    var p :| 0 <= p < |ts| && ts[p] == t;
    assert RemoveAt(ts, i)[if p < i then p else p - 1] == t;
  }

  /** Where the tick after the deadline finds the sleeper. */
  lemma LateTickScan(s: State, t: Timer, ahead: nat, p: nat) returns (f: nat)
    requires Inv(s) && t.func.None? && t.deadline <= s.ticks + 1 && QueuedAt(s.timers, t, ahead, p)
    ensures f <= p && s.timers[f].func.None? && (f == p <==> ahead == 0)
    ensures Check(s.timers, s.queue, s.ticks + 1).Scan? && Check(s.timers, s.queue, s.ticks + 1).woken == Some(f)
  {
    f := FirstSleep(s.timers, p);
    forall j | 0 <= j <= f ensures s.timers[j].deadline <= s.ticks + 1 {
      assert Deadlines(s.timers)[j] <= Deadlines(s.timers)[p];
    }
    CheckFindsFirst(s.timers, s.queue, s.ticks + 1, 0, f);
  }

  /** A tick at or after the deadline wakes the first sleeper in the list: t itself if no
      sleep timer is ahead of it, otherwise one of those. */
  lemma LateTick(s: State, t: Timer, ahead: nat)
    requires Inv(s) && !s.msip && t.func.None? && t.deadline <= s.ticks + 1 && Queued(s.timers, t, ahead)
    ensures ahead > 0 ==> Queued(Handle(s).timers, t, ahead - 1)
    ensures ahead == 0 ==> t !in Handle(s).timers && Awake(Handle(s).queue, t.task)
    ensures ahead == 0 ==> Handle(s).cur.Cur? && Handle(s).cur.id == t.task && Handle(s).running == Os
  {
    var p: nat :| QueuedAt(s.timers, t, ahead, p);
    var f := LateTickScan(s, t, ahead, p);
    HandleIsFinish(s, Check(s.timers, s.queue, s.ticks + 1));
    if ahead > 0 {
      RemoveCounts(s.timers, p, f);
      assert QueuedAt(RemoveAt(s.timers, f), t, ahead - 1, p - 1);
    } else {
      SetStateSleepers(s.queue, t.task, RUNNABLE, t.task);
    }
  }

  lemma KeptByFile(ts: seq<Timer>, new_: Timer, t: Timer)
    requires t in ts
    ensures t in File(ts, new_)
  {
    var p :| 0 <= p < |ts| && ts[p] == t;
    var s := Slot(Deadlines(ts), new_.deadline);
    assert File(ts, new_)[if p < s then p else p + 1] == t;
  }

  /** Between ticks a sleep timer stays in the list. */
  lemma OtherStepKeeps(s: State, e: Event, t: Timer)
    requires Inv(s) && Enabled(s, e) && e != Tick && t in s.timers && t.func.None?
    ensures t in Step(s, e).timers
  {
    match e
    case Sleep(n) =>
      SleepIs(s, n);
      KeptByFile(s.timers, Timer(s.nextTid, None, s.ticks + n, s.cur.id), t);
    case CreateTimer(f, n) =>
      CreateTimerIs(s, f, n);
      KeptByFile(s.timers, Timer(s.nextTid, Some(f), s.ticks + n, s.cur.id), t);
    case DeleteTimer(tid) => KeptByRemove(s.timers, TimerOf(s.timers, tid), t);
    case _ =>
  }

  /** Between ticks nothing overtakes a sleeper whose deadline has come. */
  lemma OtherStepNoOvertaking(s: State, e: Event, t: Timer, ahead: nat)
    requires Inv(s) && Enabled(s, e) && e != Tick
    requires Queued(s.timers, t, ahead) && t.func.None? && t.deadline <= s.ticks
    ensures Queued(Step(s, e).timers, t, ahead)
  {
    match e
    case Sleep(n) =>
      SleepIs(s, n);
      FileBehind(s.timers, t, ahead, Timer(s.nextTid, None, s.ticks + n, s.cur.id));
    case CreateTimer(f, n) =>
      CreateTimerIs(s, f, n);
      FileCallback(s.timers, t, ahead, Timer(s.nextTid, Some(f), s.ticks + n, s.cur.id));
    case DeleteTimer(tid) => DeleteCallback(s.timers, t, ahead, TimerOf(s.timers, tid));
    case _ =>
  }

  lemma StepTicks(s: State, e: Event)
    requires Inv(s) && Enabled(s, e)
    ensures Step(s, e).ticks == if e == Tick then s.ticks + 1 else s.ticks
  {
    if e == Tick { HandleKeeps(s); }
  }

  // ---------------------------------------------------------------- runs

  lemma RunTicks(ss: seq<State>, es: seq<Event>, k: nat)
    requires IsRun(ss, es) && k < |es| && Inv(ss[k])
    ensures ss[k + 1].ticks == if es[k] == Tick then ss[k].ticks + 1 else ss[k].ticks
    ensures Inv(ss[k + 1])
  {
    RunStep(ss, es, k);
    StepTicks(ss[k], es[k]);
    StepKeeps(ss[k], es[k]);
  }

  lemma {:induction false} TicksGrow(ss: seq<State>, es: seq<Event>, i: nat, k: nat)
    requires IsRun(ss, es) && Inv(ss[0]) && i <= k < |ss|
    ensures ss[i].ticks <= ss[k].ticks
    decreases k - i
  {
    if i < k {
      RunKeeps(ss, es, k - 1);
      RunTicks(ss, es, k - 1);
      TicksGrow(ss, es, i, k - 1);
    }
  }

  /** One step before the deadline. */
  lemma EarlyStep(ss: seq<State>, es: seq<Event>, t: Timer, k: nat)
    requires IsRun(ss, es) && k < |es| && Inv(ss[k])
    requires t in ss[k].timers && t.func.None? && (es[k] == Tick ==> ss[k].ticks + 1 < t.deadline)
    ensures t in ss[k + 1].timers
  {
    RunStep(ss, es, k);
    if es[k] == Tick {
      EarlyTick(ss[k], t);
    } else {
      OtherStepKeeps(ss[k], es[k], t);
    }
  }

  /** Nobody is woken before the deadline. */
  lemma {:induction false} NeverEarly(ss: seq<State>, es: seq<Event>, t: Timer, i: nat, k: nat)
    requires IsRun(ss, es) && Inv(ss[0]) && i <= k < |ss|
    requires t in ss[i].timers && t.func.None? && (ss[k].ticks < t.deadline || ss[k].ticks == ss[i].ticks)
    ensures t in ss[k].timers
    decreases k - i
  {
    if i < k {
      TicksGrow(ss, es, i, k - 1);
      RunKeeps(ss, es, k - 1);
      RunTicks(ss, es, k - 1);
      NeverEarly(ss, es, t, i, k - 1);
      EarlyStep(ss, es, t, k - 1);
    }
  }

  /** One step after the deadline, short of the wake-up. */
  lemma LateStep(ss: seq<State>, es: seq<Event>, t: Timer, ahead: nat, k: nat)
    requires IsRun(ss, es) && k < |es| && Inv(ss[k])
    requires Queued(ss[k].timers, t, ahead) && t.func.None?
    requires if es[k] == Tick then ahead > 0 && t.deadline <= ss[k].ticks + 1 else t.deadline <= ss[k].ticks
    ensures Queued(ss[k + 1].timers, t, if es[k] == Tick then ahead - 1 else ahead)
  {
    RunStep(ss, es, k);
    if es[k] == Tick {
      LateTick(ss[k], t, ahead);
    } else {
      OtherStepNoOvertaking(ss[k], es[k], t, ahead);
    }
  }

  /** Once a tick has reached the deadline, each further tick moves the sleeper up by one. */
  lemma {:induction false} MovesUp(ss: seq<State>, es: seq<Event>, t: Timer, ahead: nat, j: nat, k: nat)
    requires IsRun(ss, es) && Inv(ss[0]) && j < k < |ss| && es[j] == Tick
    requires Queued(ss[j].timers, t, ahead) && t.func.None? && t.deadline <= ss[j].ticks + 1
    requires ss[k].ticks <= ss[j].ticks + ahead
    ensures ss[k].ticks > ss[j].ticks
    ensures Queued(ss[k].timers, t, ahead - (ss[k].ticks - ss[j].ticks))
    decreases k - j
  {
    RunKeeps(ss, es, k - 1);
    RunTicks(ss, es, k - 1);
    if k == j + 1 {
      LateStep(ss, es, t, ahead, j);
    } else {
      MovesUp(ss, es, t, ahead, j, k - 1);
      LateStep(ss, es, t, ahead - (ss[k - 1].ticks - ss[j].ticks), k - 1);
    }
  }

  /** t was woken by this step, which puts the kernel on the hart. */
  predicate Woken(s: State, t: Timer) {
    t !in s.timers && Awake(s.queue, t.task) && s.cur.Cur? && s.cur.id == t.task && s.running == Os
  }

  lemma WakeStep(ss: seq<State>, es: seq<Event>, t: Timer, k: nat)
    requires IsRun(ss, es) && k < |es| && Inv(ss[k]) && es[k] == Tick
    requires Queued(ss[k].timers, t, 0) && t.func.None? && t.deadline <= ss[k].ticks + 1
    ensures Woken(ss[k + 1], t)
  {
    RunStep(ss, es, k);
    LateTick(ss[k], t, 0);
  }

  lemma QueuedIsListed(ts: seq<Timer>, t: Timer, ahead: nat)
    requires Queued(ts, t, ahead)
    ensures t in ts
  {
    var p: nat :| QueuedAt(ts, t, ahead, p);
  }

  /** The sleeper is still asleep up to, and is woken by, the tick that follows one tick for
      every sleep timer ahead of it. */
  lemma WokenAfterThoseAhead(ss: seq<State>, es: seq<Event>, t: Timer, ahead: nat, j: nat, k: nat)
    requires IsRun(ss, es) && Inv(ss[0]) && j <= k < |es| && es[j] == Tick && es[k] == Tick
    requires Queued(ss[j].timers, t, ahead) && t.func.None? && t.deadline <= ss[j].ticks + 1
    requires ss[k].ticks <= ss[j].ticks + ahead
    ensures t in ss[k].timers
    ensures ss[k].ticks == ss[j].ticks + ahead ==> Woken(ss[k + 1], t)
  {
    RunKeeps(ss, es, k);
    TicksGrow(ss, es, j, k);
    if j < k {
      MovesUp(ss, es, t, ahead, j, k);
    }
    var left := ahead - (ss[k].ticks - ss[j].ticks);
    QueuedIsListed(ss[k].timers, t, left);
    if left == 0 {
      WakeStep(ss, es, t, k);
    }
  }

  // ---------------------------------------------------------------- how many can be ahead

  function IdSet(q: seq<Task>): set<nat> { set i | 0 <= i < |q| :: q[i].id }

  lemma {:induction false} FewIds(q: seq<Task>)
    ensures |IdSet(q)| <= |q|
  {
    if q != [] {
      var r := q[..|q| - 1];
      FewIds(r);
      assert IdSet(q) == IdSet(r) + {q[|q| - 1].id};
    }
  }

  function Sleepers(ts: seq<Timer>): set<nat> { set i | 0 <= i < |ts| && ts[i].func.None? :: ts[i].task }

  lemma {:induction false} SleepersCounted(ts: seq<Timer>)
    requires forall i, j :: 0 <= i < j < |ts| && ts[i].func.None? && ts[j].func.None? ==> ts[i].task != ts[j].task
    ensures |Sleepers(ts)| == Sleeps(ts)
  {
    if ts != [] {
      var n := |ts| - 1;
      SleepersCounted(ts[..n]);
      if ts[n].func.None? {
        assert Sleepers(ts) == Sleepers(ts[..n]) + {ts[n].task};
        assert ts[n].task !in Sleepers(ts[..n]);
      } else {
        assert Sleepers(ts) == Sleepers(ts[..n]);
      }
    }
  }

  lemma SubsetSize(a: set<nat>, b: set<nat>)
    requires a <= b
    ensures |a| <= |b|
  {
    assert b == a + (b - a);
  }

  /** At most MAX_TASK_NUM - 1 sleep timers are ahead of any one. */
  lemma FewAhead(s: State, t: Timer, ahead: nat)
    requires Inv(s) && Queued(s.timers, t, ahead) && t.func.None?
    ensures ahead <= MAX_TASK_NUM - 1
  {
    var p: nat :| QueuedAt(s.timers, t, ahead, p);
    var ts := s.timers[..p + 1];
    assert ts[..p] == s.timers[..p];
    SleepersCounted(ts);
    forall id | id in Sleepers(ts) ensures id in IdSet(s.queue) {
      var i :| 0 <= i < |ts| && ts[i].func.None? && ts[i].task == id;
      assert s.timers[i] == ts[i];
      assert s.queue[IndexOf(s.queue, id)].id == id;
    }
    SubsetSize(Sleepers(ts), IdSet(s.queue));
    FewIds(s.queue);
  }

  // ---------------------------------------------------------------- the bound

  lemma SleepFiles(ss: seq<State>, es: seq<Event>, i: nat, n: nat) returns (t: Timer)
    requires IsRun(ss, es) && i < |es| && Inv(ss[i]) && es[i] == Sleep(n)
    ensures ss[i].cur.Cur? && t == Timer(ss[i].nextTid, None, ss[i].ticks + n, ss[i].cur.id)
    ensures t in ss[i + 1].timers && ss[i + 1].ticks == ss[i].ticks
  {
    var s := ss[i];
    RunStep(ss, es, i);
    t := Timer(s.nextTid, None, s.ticks + n, s.cur.id);
    SleepIs(s, n);
    assert File(s.timers, t)[Slot(Deadlines(s.timers), t.deadline)] == t;
  }

  lemma ListedIsQueued(ts: seq<Timer>, t: Timer) returns (ahead: nat)
    requires t in ts
    ensures Queued(ts, t, ahead)
  {
    var p: nat :| p < |ts| && ts[p] == t;
    ahead := Sleeps(ts[..p]);
    assert QueuedAt(ts, t, ahead, p);
  }

  /** The first tick that can wake a task that slept n ticks at tick t0. */
  function Due(t0: nat, n: nat): nat { if n == 0 then t0 + 1 else t0 + n }

  lemma StaysListed(ss: seq<State>, es: seq<Event>, t: Timer, ahead: nat, i: nat, j: nat, k: nat)
    requires IsRun(ss, es) && Inv(ss[0]) && i <= k < |ss| && i <= j < |es| && es[j] == Tick
    requires t in ss[i].timers && t.func.None? && Queued(ss[j].timers, t, ahead)
    requires t.deadline >= ss[i].ticks && ss[j].ticks + 1 == Due(ss[i].ticks, t.deadline - ss[i].ticks)
    requires ss[k].ticks <= ss[j].ticks + ahead
    ensures t in ss[k].timers
  {
    if k <= j {
      TicksGrow(ss, es, i, k);
      TicksGrow(ss, es, k, j);
      NeverEarly(ss, es, t, i, k);
    } else {
      MovesUp(ss, es, t, ahead, j, k);
      QueuedIsListed(ss[k].timers, t, ahead - (ss[k].ticks - ss[j].ticks));
    }
  }

  lemma ListedWhenDue(ss: seq<State>, es: seq<Event>, t: Timer, i: nat, j: nat) returns (ahead: nat)
    requires IsRun(ss, es) && Inv(ss[0]) && i <= j < |es|
    requires t in ss[i].timers && t.func.None?
    requires t.deadline >= ss[i].ticks && ss[j].ticks + 1 == Due(ss[i].ticks, t.deadline - ss[i].ticks)
    ensures Queued(ss[j].timers, t, ahead) && ahead <= MAX_TASK_NUM - 1
  {
    RunKeeps(ss, es, j);
    NeverEarly(ss, es, t, i, j);
    ahead := ListedIsQueued(ss[j].timers, t);
    FewAhead(ss[j], t, ahead);
  }

  /** A task that calls sleep(n) at tick t0 is in the list until the tick Due(t0, n), which is
      max(t0 + n, t0 + 1).  If A sleep timers are ahead of it just before that tick, it stays
      in the list until tick Due(t0, n) + A and is woken by exactly that tick; and A <= 9. */
  lemma SleepIsBounded(ss: seq<State>, es: seq<Event>, i: nat, n: nat, j: nat) returns (t: Timer, ahead: nat)
    requires IsRun(ss, es) && ss[0] == Boot() && i < j < |es| && es[i] == Sleep(n)
    requires es[j] == Tick && ss[j].ticks + 1 == Due(ss[i].ticks, n)
    ensures ss[i].cur.Cur? && t == Timer(ss[i].nextTid, None, ss[i].ticks + n, ss[i].cur.id)
    ensures Queued(ss[j].timers, t, ahead) && ahead <= MAX_TASK_NUM - 1
    ensures forall k :: i < k < |ss| && ss[k].ticks < Due(ss[i].ticks, n) + ahead ==> t in ss[k].timers
    ensures forall k :: j <= k < |es| && es[k] == Tick && ss[k].ticks + 1 == Due(ss[i].ticks, n) + ahead ==>
        Woken(ss[k + 1], t)
  {
    RunKeeps(ss, es, i);
    t := SleepFiles(ss, es, i, n);
    ahead := ListedWhenDue(ss, es, t, i + 1, j);
    forall k | i < k < |ss| && ss[k].ticks < Due(ss[i].ticks, n) + ahead ensures t in ss[k].timers {
      StaysListed(ss, es, t, ahead, i + 1, j, k);
    }
    forall k | j <= k < |es| && es[k] == Tick && ss[k].ticks + 1 == Due(ss[i].ticks, n) + ahead
      ensures Woken(ss[k + 1], t)
    {
      WokenAfterThoseAhead(ss, es, t, ahead, j, k);
    }
  }
}
