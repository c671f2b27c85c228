/** What every reachable state of the machine satisfies. */
module MachineInv {
  import opened Flags
  import opened SortedLists
  import opened RunQueue
  import opened Machine

  predicate SleepTimer(ts: seq<Timer>, i: nat, id: nat) {
    i < |ts| && ts[i].func.None? && ts[i].task == id
  }

  ghost predicate Named(ts: seq<Timer>, id: nat) {
    exists i: nat :: SleepTimer(ts, i, id)
  }

  /** Sleeping tasks and sleep timers correspond one to one. */
  ghost predicate Matched(q: seq<Task>, ts: seq<Timer>) {
    && (forall i :: 0 <= i < |ts| && ts[i].func.None? ==> Asleep(q, ts[i].task))
    && (forall i, j :: 0 <= i < j < |ts| && ts[i].func.None? && ts[j].func.None? ==> ts[i].task != ts[j].task)
    && (forall id: nat :: Asleep(q, id) ==> Named(ts, id))
  }

  predicate TimersOk(ts: seq<Timer>, nextTid: nat) {
    && Sorted(Deadlines(ts))
    && (forall i, j :: 0 <= i < j < |ts| ==> ts[i].tid != ts[j].tid)
    && (forall i :: 0 <= i < |ts| ==> ts[i].tid < nextTid)
  }

  predicate TasksOk(q: seq<Task>, nextId: nat) {
    QueueOk(q) && |q| <= MAX_TASK_NUM && forall i :: 0 <= i < |q| ==> q[i].id < nextId
  }

  predicate Awake(q: seq<Task>, id: nat) {
    IndexOf(q, id) < |q| && q[IndexOf(q, id)].state != SLEEPING
  }

  function Slice(timeslice: nat): nat { if timeslice > 1 then timeslice else 1 }

  /** A task on the hart is cur_task, it is awake unless it has just given the hart up, and
      it has not used up its timeslice since it was switched in. */
  predicate RunningOk(s: State) {
    s.running.User? ==>
      && s.cur.Cur? && s.cur.id == s.running.id
      && s.start <= s.since <= s.ticks < s.since + Slice(s.cur.timeslice)
      && (!s.msip ==> Awake(s.queue, s.running.id))
  }

  ghost predicate ListsOk(s: State) {
    && TasksOk(s.queue, s.nextId)
    && TimersOk(s.timers, s.nextTid)
    && Matched(s.queue, s.timers)
    && s.start <= s.ticks
  }

  ghost predicate Inv(s: State) {
    ListsOk(s) && RunningOk(s)
  }

  // ---------------------------------------------------------------- how operations change who sleeps

  lemma IsAsleep(q: seq<Task>, i: nat)
    requires Distinct(q) && i < |q|
    ensures IndexOf(q, q[i].id) == i && (Asleep(q, q[i].id) <==> q[i].state == SLEEPING)
  {
    IndexOfHas(q, q[i].id, i);
  }

  /** Filing a task leaves every other record where its id finds it. */
  lemma InsertFinds(q: seq<Task>, t: Task, id: nat)
    requires QueueOk(q) && !Has(q, t.id)
    ensures var r := Insert(q, t); var i := IndexOf(r, id);
      if IndexOf(q, id) < |q| then i < |r| && r[i] == q[IndexOf(q, id)]
      else if id == t.id then i < |r| && r[i] == t
      else i == |r|
  {
    var r, s := Insert(q, t), Slot(Priorities(q), t.priority);
    InsertKeeps(q, t);
    if IndexOf(q, id) < |q| {
      var i := IndexOf(q, id);
      IndexOfHas(r, id, if i < s then i else i + 1);
    } else if id == t.id {
      IndexOfHas(r, id, s);
    }
  }

  lemma InsertSleepers(q: seq<Task>, t: Task, id: nat)
    requires QueueOk(q) && !Has(q, t.id)
    ensures Asleep(Insert(q, t), id) <==> Asleep(q, id) || (id == t.id && t.state == SLEEPING)
    ensures Awake(Insert(q, t), id) <==> Awake(q, id) || (id == t.id && t.state != SLEEPING)
  {
    InsertFinds(q, t, id);
  }

  lemma RemoveSleepers(q: seq<Task>, i: nat, id: nat)
    requires QueueOk(q) && i < |q|
    ensures Asleep(RemoveAt(q, i), id) <==> Asleep(q, id) && id != q[i].id
    ensures Awake(RemoveAt(q, i), id) <==> Awake(q, id) && id != q[i].id
  {
    var r := RemoveAt(q, i);
    RemoveKeeps(q, i);
    IsAsleep(q, i);
    if IndexOf(q, id) < |q| && id != q[i].id {
      var k := IndexOf(q, id);
      IsAsleep(q, k);
      IsAsleep(r, if k < i then k else k - 1);
    }
  }

  lemma PopSleepers(q: seq<Task>, id: nat)
    requires QueueOk(q) && FirstAwake(q) < |q|
    ensures Asleep(Pop(q), id) <==> Asleep(q, id)
    ensures Awake(Pop(q), id) <==> Awake(q, id)
  {
    var i := FirstAwake(q);
    RemoveKeeps(q, i);
    RemoveSleepers(q, i, id);
    InsertSleepers(RemoveAt(q, i), Aged(q[i]), id);
    IsAsleep(q, i);
  }

  lemma SetStateSleepers(q: seq<Task>, other: nat, st: TaskState, id: nat)
    requires QueueOk(q) && IndexOf(q, other) < |q|
    ensures Asleep(SetState(q, other, st), id) <==> if id == other then st == SLEEPING else Asleep(q, id)
    ensures Awake(SetState(q, other, st), id) <==> if id == other then st != SLEEPING else Awake(q, id)
  {
    var r := SetState(q, other, st);
    SetStateKeeps(q, other, st);
    if IndexOf(q, id) < |q| {
      IsAsleep(q, IndexOf(q, id));
      IsAsleep(r, IndexOf(q, id));
    }
  }

  // ---------------------------------------------------------------- the two lists

  lemma FileKeeps(ts: seq<Timer>, t: Timer, nextTid: nat)
    requires TimersOk(ts, nextTid) && t.tid == nextTid
    ensures TimersOk(File(ts, t), nextTid + 1)
  {
    var s := Slot(Deadlines(ts), t.deadline);
    InsertKeepsSorted(Deadlines(ts), t.deadline);
    assert Deadlines(File(ts, t)) == InsertAt(Deadlines(ts), s, t.deadline);
  }

  lemma RemoveTimerKeeps(ts: seq<Timer>, i: nat, nextTid: nat)
    requires TimersOk(ts, nextTid) && i < |ts|
    ensures TimersOk(RemoveAt(ts, i), nextTid)
  {
    RemoveKeepsSorted(Deadlines(ts), i);
    assert Deadlines(RemoveAt(ts, i)) == RemoveAt(Deadlines(ts), i);
  }

  lemma FileNames(ts: seq<Timer>, t: Timer, id: nat)
    ensures Named(File(ts, t), id) <==> Named(ts, id) || (t.func.None? && t.task == id)
  {
    var r, s := File(ts, t), Slot(Deadlines(ts), t.deadline);
    if Named(ts, id) {
      var i: nat :| SleepTimer(ts, i, id);
      assert SleepTimer(r, if i < s then i else i + 1, id);
    }
    if t.func.None? && t.task == id {
      assert SleepTimer(r, s, id);
    }
    if Named(r, id) {
      var i: nat :| SleepTimer(r, i, id);
      if i < s { assert SleepTimer(ts, i, id); }
      if i > s { assert SleepTimer(ts, i - 1, id); }
    }
  }

  lemma RemoveNames(ts: seq<Timer>, i: nat, id: nat)
    requires i < |ts|
    ensures Named(ts, id) && !SleepTimer(ts, i, id) ==> Named(RemoveAt(ts, i), id)
  {
    if Named(ts, id) && !SleepTimer(ts, i, id) {
      var j: nat :| SleepTimer(ts, j, id);
      assert SleepTimer(RemoveAt(ts, i), if j < i then j else j - 1, id);
    }
  }

  // ---------------------------------------------------------------- sleepers and timers stay matched

  lemma MatchedSameSleepers(q: seq<Task>, r: seq<Task>, ts: seq<Timer>)
    requires Matched(q, ts) && forall id: nat :: Asleep(r, id) <==> Asleep(q, id)
    ensures Matched(r, ts)
  {
  }

  lemma MatchedSleep(q: seq<Task>, ts: seq<Timer>, t: Timer)
    requires QueueOk(q) && Matched(q, ts) && t.func.None? && Awake(q, t.task)
    ensures Matched(SetState(q, t.task, SLEEPING), File(ts, t))
  {
    var r, us := SetState(q, t.task, SLEEPING), File(ts, t);
    forall id: nat ensures Asleep(r, id) <==> Asleep(q, id) || id == t.task {
      SetStateSleepers(q, t.task, SLEEPING, id);
    }
    forall id: nat | Asleep(r, id) ensures Named(us, id) {
      FileNames(ts, t, id);
    }
  }

  lemma MatchedCallback(q: seq<Task>, ts: seq<Timer>, t: Timer)
    requires Matched(q, ts) && t.func.Some?
    ensures Matched(q, File(ts, t))
  {
    forall id: nat | Asleep(q, id) ensures Named(File(ts, t), id) {
      FileNames(ts, t, id);
    }
  }

  lemma MatchedDelete(q: seq<Task>, ts: seq<Timer>, i: nat)
    requires Matched(q, ts) && i < |ts| && ts[i].func.Some?
    ensures Matched(q, RemoveAt(ts, i))
  {
    forall id: nat | Asleep(q, id) ensures Named(RemoveAt(ts, i), id) {
      RemoveNames(ts, i, id);
    }
  }

  lemma MatchedWake(q: seq<Task>, ts: seq<Timer>, i: nat)
    requires QueueOk(q) && Matched(q, ts) && i < |ts| && ts[i].func.None?
    ensures Matched(SetState(q, ts[i].task, RUNNABLE), RemoveAt(ts, i))
  {
    var r, us := SetState(q, ts[i].task, RUNNABLE), RemoveAt(ts, i);
    forall id: nat ensures Asleep(r, id) <==> Asleep(q, id) && id != ts[i].task {
      SetStateSleepers(q, ts[i].task, RUNNABLE, id);
    }
    forall id: nat | Asleep(r, id) ensures Named(us, id) {
      RemoveNames(ts, i, id);
    }
  }

  // ---------------------------------------------------------------- timer_check

  lemma {:induction false} CheckFromSafe(ts: seq<Timer>, q: seq<Task>, now: nat, i: nat)
    requires Matched(q, ts) && i <= |ts|
    ensures var r := CheckFrom(ts, q, now, i);
      && r.Scan?
      && (r.woken.Some? ==>
            i <= r.woken.value < |ts| && ts[r.woken.value].func.None? && ts[r.woken.value].deadline <= now)
    decreases |ts| - i
  {
    if i < |ts| && ts[i].deadline <= now && ts[i].func.Some? {
      CheckFromSafe(ts, q, now, i + 1);
    }
  }

  // ---------------------------------------------------------------- steps

  lemma ScheduleKeeps(s: State)
    requires Inv(s)
    ensures Inv(Schedule(s))
  {
    if FirstAwake(s.queue) < |s.queue| {
      PopKeeps(s.queue);
      forall id: nat ensures (Asleep(Pop(s.queue), id) <==> Asleep(s.queue, id)) && (Awake(Pop(s.queue), id) <==>
          Awake(s.queue, id)) {
        PopSleepers(s.queue, id);
      }
      MatchedSameSleepers(s.queue, Pop(s.queue), s.timers);
      IsAsleep(s.queue, FirstAwake(s.queue));
      PopKeepsIds(s.queue, s.nextId);
    }
  }

  lemma PopKeepsIds(q: seq<Task>, bound: nat)
    requires FirstAwake(q) < |q| && forall i :: 0 <= i < |q| ==> q[i].id < bound
    ensures forall i :: 0 <= i < |q| ==> Pop(q)[i].id < bound
  {
  }

  lemma WakeKeeps(s: State, i: nat)
    requires ListsOk(s) && i < |s.timers| && s.timers[i].func.None?
    ensures Inv(Wake(s, i))
  {
    MatchedWake(s.queue, s.timers, i);
    RemoveTimerKeeps(s.timers, i, s.nextTid);
    SetStateKeeps(s.queue, s.timers[i].task, RUNNABLE);
  }

  /** A task is left on the hart only if its timeslice is not used up. */
  lemma PreemptKeeps(s: State, t: State)
    requires Inv(s) && !s.msip && ListsOk(t)
    requires t == s.(ticks := s.ticks + 1, fired := t.fired)
    ensures Inv(Preempt(t))
  {
  }

  lemma FinishKeeps(s: State, u: State, woken: Option<nat>)
    requires Inv(s) && !s.msip && u == s.(ticks := s.ticks + 1, fired := u.fired)
    requires woken.Some? ==> woken.value < |s.timers| && s.timers[woken.value].func.None?
    ensures Inv(Finish(u, woken))
  {
    assert ListsOk(u);
    if woken.Some? {
      WakeKeeps(u, woken.value);
    } else {
      PreemptKeeps(s, u);
    }
  }

  lemma HandleIsFinish(s: State, c: Scan)
    requires c == Check(s.timers, s.queue, s.ticks + 1) && c.Scan?
    ensures Handle(s) == Finish(s.(ticks := s.ticks + 1, fired := s.fired + c.fired), c.woken)
  {
  }

  lemma HandleKeeps(s: State)
    requires Inv(s) && !s.msip
    ensures Inv(Handle(s))
    ensures Check(s.timers, s.queue, s.ticks + 1).Scan?
  {
    CheckFromSafe(s.timers, s.queue, s.ticks + 1, 0);
    var c := Check(s.timers, s.queue, s.ticks + 1);
    HandleIsFinish(s, c);
    FinishKeeps(s, s.(ticks := s.ticks + 1, fired := s.fired + c.fired), c.woken);
  }

  lemma SleepKeepsLists(q: seq<Task>, ts: seq<Timer>, t: Timer, nextId: nat)
    requires TasksOk(q, nextId) && TimersOk(ts, t.tid) && Matched(q, ts) && t.func.None? && Awake(q, t.task)
    ensures var r, us := SetState(q, t.task, SLEEPING), File(ts, t);
      TasksOk(r, nextId) && TimersOk(us, t.tid + 1) && Matched(r, us)
  {
    SetStateKeeps(q, t.task, SLEEPING);
    MatchedSleep(q, ts, t);
    FileKeeps(ts, t, t.tid);
  }

  /** New lists under an unchanged running context. */
  lemma NewLists(s: State, q: seq<Task>, ts: seq<Timer>, nextTid: nat, msip: bool)
    requires TasksOk(q, s.nextId) && TimersOk(ts, nextTid) && Matched(q, ts)
    requires s.start <= s.ticks && RunningOk(s)
    requires msip || q == s.queue
    ensures Inv(s.(queue := q, timers := ts, nextTid := nextTid, msip := s.msip || msip))
  {
  }

  lemma SleepIs(s: State, n: nat)
    requires Enabled(s, Sleep(n)) && s.cur.Cur?
    ensures Step(s, Sleep(n)) == s.(queue := SetState(s.queue, s.cur.id, SLEEPING),
      timers := File(s.timers, Timer(s.nextTid, None, s.ticks + n, s.cur.id)), nextTid := s.nextTid + 1, msip := true)
  {
  }

  lemma SleepKeeps(s: State, n: nat)
    requires Inv(s) && Enabled(s, Sleep(n))
    ensures Inv(Step(s, Sleep(n)))
  {
    var t := Timer(s.nextTid, None, s.ticks + n, s.cur.id);
    SleepIs(s, n);
    SleepKeepsLists(s.queue, s.timers, t, s.nextId);
    NewLists(s, SetState(s.queue, s.cur.id, SLEEPING), File(s.timers, t), s.nextTid + 1, true);
  }

  lemma ExitKeeps(s: State)
    requires Inv(s) && Enabled(s, Exit)
    ensures Inv(Step(s, Exit))
  {
    var i := IndexOf(s.queue, s.cur.id);
    RemoveKeeps(s.queue, i);
    forall id: nat ensures Asleep(Remove(s.queue, s.cur.id), id) <==> Asleep(s.queue, id) {
      RemoveSleepers(s.queue, i, id);
      IsAsleep(s.queue, i);
    }
    MatchedSameSleepers(s.queue, Remove(s.queue, s.cur.id), s.timers);
  }

  lemma CreateTaskKeeps(s: State, p: int, slice: nat)
    requires Inv(s) && Enabled(s, CreateTask(p, slice))
    ensures Inv(Step(s, CreateTask(p, slice)))
  {
    if |s.queue| < MAX_TASK_NUM {
      var t := Task(s.nextId, p, RUNNING, slice);
      InsertKeeps(s.queue, t);
      forall id: nat ensures (Asleep(Insert(s.queue, t), id) <==>
          Asleep(s.queue, id)) && (Awake(s.queue, id) ==> Awake(Insert(s.queue, t), id)) {
        InsertSleepers(s.queue, t, id);
      }
      MatchedSameSleepers(s.queue, Insert(s.queue, t), s.timers);
    }
  }

  /** task_create as written, when malloc returns memory whose bytes read as state st. */
  function CreatedWith(s: State, p: int, slice: nat, st: TaskState): State {
    s.(queue := Insert(s.queue, Task(s.nextId, p, st, slice)), nextId := s.nextId + 1)
  }

  /** os/sched.c:198-204 never sets the state.  The new task keeps the invariant if and only if the
      memory does not happen to read as SLEEPING, since no timer would ever wake it. */
  lemma AsWrittenCreateSafeIff(s: State, p: int, slice: nat, st: TaskState)
    requires Inv(s) && !s.msip && |s.queue| < MAX_TASK_NUM
    ensures Inv(CreatedWith(s, p, slice, st)) <==> st != SLEEPING
  {
    var t := Task(s.nextId, p, st, slice);
    InsertKeeps(s.queue, t);
    forall id: nat
      ensures Asleep(Insert(s.queue, t), id) <==> Asleep(s.queue, id) || (id == t.id && st == SLEEPING)
      ensures Awake(Insert(s.queue, t), id) <==> Awake(s.queue, id) || (id == t.id && st != SLEEPING)
    {
      InsertSleepers(s.queue, t, id);
    }
    if st == SLEEPING {
      assert !Named(s.timers, t.id);
    } else {
      MatchedSameSleepers(s.queue, Insert(s.queue, t), s.timers);
    }
  }

  /** On the booted machine such a task is there, and nobody is awake for schedule to find. */
  lemma AsWrittenCreateLosesTask()
    ensures var s := CreatedWith(Boot(), 100, 5, SLEEPING);
      |s.queue| == 1 && s.timers == [] && Schedule(s).cur == NoTask
  {
  }

  lemma CreateTimerIs(s: State, f: nat, n: nat)
    requires Enabled(s, CreateTimer(f, n)) && s.cur.Cur?
    ensures Step(s, CreateTimer(f, n)) ==
      s.(timers := File(s.timers, Timer(s.nextTid, Some(f), s.ticks + n, s.cur.id)), nextTid := s.nextTid + 1)
  {
  }

  lemma CallbackKeepsLists(q: seq<Task>, ts: seq<Timer>, t: Timer)
    requires TimersOk(ts, t.tid) && Matched(q, ts) && t.func.Some?
    ensures TimersOk(File(ts, t), t.tid + 1) && Matched(q, File(ts, t))
  {
    MatchedCallback(q, ts, t);
    FileKeeps(ts, t, t.tid);
  }

  lemma CreateTimerKeeps(s: State, f: nat, n: nat)
    requires Inv(s) && Enabled(s, CreateTimer(f, n))
    ensures Inv(Step(s, CreateTimer(f, n)))
  {
    var t := Timer(s.nextTid, Some(f), s.ticks + n, s.cur.id);
    CreateTimerIs(s, f, n);
    CallbackKeepsLists(s.queue, s.timers, t);
    NewLists(s, s.queue, File(s.timers, t), s.nextTid + 1, false);
  }

  lemma DeleteTimerKeeps(s: State, tid: nat)
    requires Inv(s) && Enabled(s, DeleteTimer(tid))
    ensures Inv(Step(s, DeleteTimer(tid)))
  {
    var i := TimerOf(s.timers, tid);
    MatchedDelete(s.queue, s.timers, i);
    RemoveTimerKeeps(s.timers, i, s.nextTid);
    NewLists(s, s.queue, RemoveAt(s.timers, i), s.nextTid, false);
  }

  /** Every step keeps the invariant. */
  lemma StepKeeps(s: State, e: Event)
    requires Inv(s) && Enabled(s, e)
    ensures Inv(Step(s, e))
  {
    match e
    case SoftInt => ScheduleKeeps(s);
    case Tick => HandleKeeps(s);
    case Yield =>
    case Sleep(n) => SleepKeeps(s, n);
    case Exit => ExitKeeps(s);
    case CreateTask(p, slice) => CreateTaskKeeps(s, p, slice);
    case CreateTimer(f, n) => CreateTimerKeeps(s, f, n);
    case DeleteTimer(tid) => DeleteTimerKeeps(s, tid);
  }

  // ---------------------------------------------------------------- runs

  /** ss is the run of the machine through the events es. */
  predicate IsRun(ss: seq<State>, es: seq<Event>) {
    && |ss| == |es| + 1
    && forall i: nat {:trigger At(i)} :: i < |es| && At(i) ==> Enabled(ss[i], es[i]) && ss[i + 1] == Step(ss[i], es[i])
  }

  lemma RunStep(ss: seq<State>, es: seq<Event>, i: nat)
    requires IsRun(ss, es) && i < |es|
    ensures Enabled(ss[i], es[i]) && ss[i + 1] == Step(ss[i], es[i])
  {
    assert At(i);
  }

  lemma RunStepKeeps(ss: seq<State>, es: seq<Event>, i: nat)
    requires IsRun(ss, es) && i < |es| && Inv(ss[i])
    ensures Inv(ss[i + 1])
  {
    RunStep(ss, es, i);
    StepKeeps(ss[i], es[i]);
  }

  lemma {:induction false} RunKeeps(ss: seq<State>, es: seq<Event>, i: nat)
    requires IsRun(ss, es) && Inv(ss[0]) && i < |ss|
    ensures Inv(ss[i])
  {
    if i > 0 {
      RunKeeps(ss, es, i - 1);
      RunStepKeeps(ss, es, i - 1);
    }
  }

  lemma BootInv()
    ensures Inv(Boot())
  {
  }

  /** In every reachable state a task is sleeping if and only if exactly one timer without a
      function names it. */
  lemma SleepingIffOneTimer(ss: seq<State>, es: seq<Event>, i: nat, k: nat)
    requires IsRun(ss, es) && ss[0] == Boot() && i < |ss| && k < |ss[i].queue|
    ensures var s := ss[i]; s.queue[k].state == SLEEPING <==>
      exists j: nat :: SleepTimer(s.timers, j, s.queue[k].id)
          && forall l: nat :: SleepTimer(s.timers, l, s.queue[k].id) ==> l == j
  {
    RunKeeps(ss, es, i);
    var s := ss[i];
    IsAsleep(s.queue, k);
    if s.queue[k].state == SLEEPING {
      assert Named(s.timers, s.queue[k].id);
      var j: nat :| SleepTimer(s.timers, j, s.queue[k].id);
      forall l: nat | SleepTimer(s.timers, l, s.queue[k].id) ensures l == j {
      }
    }
  }

  /** timer_check never calls a NULL function. */
  lemma NeverCallsNull(ss: seq<State>, es: seq<Event>, i: nat)
    requires IsRun(ss, es) && ss[0] == Boot() && i < |es| && es[i] == Tick
    ensures Check(ss[i].timers, ss[i].queue, ss[i].ticks + 1).Scan?
  {
    RunKeeps(ss, es, i);
    RunStep(ss, es, i);
    HandleKeeps(ss[i]);
  }

  /** schedule never switches to a sleeping task, and a task on the hart that has not just
      given it up is never asleep. */
  lemma NeverRunsSleeper(ss: seq<State>, es: seq<Event>, i: nat)
    requires IsRun(ss, es) && ss[0] == Boot() && i < |ss| && ss[i].running.User? && !ss[i].msip
    ensures Awake(ss[i].queue, ss[i].running.id) && ss[i].cur.Cur? && ss[i].cur.id == ss[i].running.id
  {
    RunKeeps(ss, es, i);
  }
}
