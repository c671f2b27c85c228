/** A task from its creation to its exit: which record it has, what schedule makes of it, and that
    it is gone afterwards (os/sched.c). */
module TaskLives {
  import opened Flags
  import opened SortedLists
  import opened RunQueue
  import opened Fairness
  import opened Machine
  import opened MachineInv
  import opened Timeslices

  /** Identifiers are given out in order. */
  lemma {:induction false} NextIdGrows(ss: seq<State>, es: seq<Event>, i: nat, k: nat)
    requires IsRun(ss, es) && Inv(ss[0]) && i <= k < |ss|
    ensures ss[i].nextId <= ss[k].nextId
    decreases k - i
  {
    if i < k {
      NextIdGrows(ss, es, i, k - 1);
      NextIdStep(ss, es, k - 1);
    }
  }

  lemma NextIdStep(ss: seq<State>, es: seq<Event>, k: nat)
    requires IsRun(ss, es) && Inv(ss[0]) && k < |es|
    ensures ss[k].nextId <= ss[k + 1].nextId
  {
    RunKeeps(ss, es, k);
    RunStep(ss, es, k);
    if es[k] == Tick { HandleKeepsIds(ss[k]); }
  }

  lemma HandleKeepsIds(s: State)
    requires Inv(s) && !s.msip
    ensures Handle(s).nextId == s.nextId
  {
    CheckFromSafe(s.timers, s.queue, s.ticks + 1, 0);
    HandleIsFinish(s, Check(s.timers, s.queue, s.ticks + 1));
  }

  // ---------------------------------------------------------------- exit

  /** task_exit takes the record of the running task out of the run queue and no other, keeps the
      order of the rest, and asks for a switch. */
  lemma ExitRemoves(ss: seq<State>, es: seq<Event>, i: nat) returns (at: nat)
    requires IsRun(ss, es) && ss[0] == Boot() && i < |es| && es[i] == Exit
    ensures ss[i].running.User? && at < |ss[i].queue| && ss[i].queue[at].id == ss[i].running.id
    ensures ss[i + 1].queue == ss[i].queue[..at] + ss[i].queue[at + 1..]
    ensures !Has(ss[i + 1].queue, ss[i].running.id) && ss[i].running.id < ss[i].nextId
    ensures ss[i + 1].msip && ss[i + 1].timers == ss[i].timers && ss[i + 1].nextId == ss[i].nextId
  {
    BootInv();
    RunKeeps(ss, es, i);
    RunStep(ss, es, i);
    at := IndexOf(ss[i].queue, ss[i].cur.id);
    RemoveKeeps(ss[i].queue, at);
  }

  /** A task that has exited: no record, and on the hart only until the pending switch. */
  ghost predicate Gone(s: State, id: nat) {
    !Has(s.queue, id) && id < s.nextId && (s.running == User(id) ==> s.msip)
  }

  lemma GoneStep(s: State, e: Event, id: nat)
    requires Inv(s) && Enabled(s, e) && Gone(s, id)
    ensures Gone(Step(s, e), id) && (e == SoftInt ==> Step(s, e).running != User(id))
  {
    match e
    case SoftInt => GoneSwitch(s, id);
    case Tick => GoneTick(s, id);
    case Sleep(n) =>
      SleepIs(s, n);
      SetStateHas(s.queue, s.cur.id, SLEEPING, id);
    case Exit => RemoveHas(s.queue, IndexOf(s.queue, s.cur.id), id);
    case CreateTask(p, slice) =>
      if |s.queue| < MAX_TASK_NUM { InsertHas(s.queue, Task(s.nextId, p, RUNNING, slice), id); }
    case CreateTimer(f, n) => CreateTimerIs(s, f, n);
    case _ =>
  }

  lemma GoneSwitch(s: State, id: nat)
    requires Inv(s) && Gone(s, id)
    ensures Gone(Schedule(s), id) && Schedule(s).running != User(id)
  {
    if FirstAwake(s.queue) < |s.queue| {
      PopHas(s.queue, id);
      assert s.queue[FirstAwake(s.queue)].id != id;
    }
  }

  lemma SetStateHas(q: seq<Task>, other: nat, st: TaskState, id: nat)
    ensures Has(SetState(q, other, st), id) <==> Has(q, id)
  {
    var r := SetState(q, other, st);
    if Has(r, id) {
      var j :| 0 <= j < |r| && r[j].id == id;
      assert q[j].id == id;
    }
    if Has(q, id) {
      var j :| 0 <= j < |q| && q[j].id == id;
      assert r[j].id == id;
    }
  }

  lemma GoneTick(s: State, id: nat)
    requires Inv(s) && !s.msip && Gone(s, id)
    ensures Gone(Handle(s), id)
  {
    CheckFromSafe(s.timers, s.queue, s.ticks + 1, 0);
    var c := Check(s.timers, s.queue, s.ticks + 1);
    HandleIsFinish(s, c);
    if c.woken.Some? {
      SetStateHas(s.queue, s.timers[c.woken.value].task, RUNNABLE, id);
    }
  }

  /** Only schedule puts a task on the hart. */
  lemma NotSwitchedIn(s: State, e: Event, id: nat)
    requires Inv(s) && Enabled(s, e) && e != SoftInt && s.running != User(id)
    ensures Step(s, e).running != User(id)
  {
    match e
    case Tick =>
      CheckFromSafe(s.timers, s.queue, s.ticks + 1, 0);
      HandleIsFinish(s, Check(s.timers, s.queue, s.ticks + 1));
    case Sleep(n) => SleepIs(s, n);
    case CreateTimer(f, n) => CreateTimerIs(s, f, n);
    case _ =>
  }

  ghost predicate Off(s: State, id: nat) {
    Gone(s, id) && s.running != User(id)
  }

  lemma OffStep(s: State, e: Event, id: nat)
    requires Inv(s) && Enabled(s, e) && Gone(s, id) && (e == SoftInt || s.running != User(id))
    ensures Off(Step(s, e), id)
  {
    GoneStep(s, e, id);
    if e != SoftInt { NotSwitchedIn(s, e, id); }
  }

  lemma {:induction false} StaysOff(ss: seq<State>, es: seq<Event>, id: nat, i: nat, k: nat)
    requires IsRun(ss, es) && Inv(ss[0]) && i <= k < |ss| && Off(ss[i], id)
    ensures Off(ss[k], id)
    decreases k - i
  {
    if i < k {
      StaysOff(ss, es, id, i, k - 1);
      OffRunStep(ss, es, id, k - 1);
    }
  }

  lemma OffRunStep(ss: seq<State>, es: seq<Event>, id: nat, k: nat)
    requires IsRun(ss, es) && Inv(ss[0]) && k < |es| && Off(ss[k], id)
    ensures Off(ss[k + 1], id)
  {
    RunKeeps(ss, es, k);
    RunStep(ss, es, k);
    OffStep(ss[k], es[k], id);
  }

  /** Once a task has exited, the next event is the switch that takes it off the hart, its record is
      never in the run queue again, and it never has the hart again. */
  lemma ExitedIsGone(ss: seq<State>, es: seq<Event>, i: nat, k: nat)
    requires IsRun(ss, es) && ss[0] == Boot() && i < k < |ss| && es[i] == Exit
    ensures ss[i].running.User? && !Has(ss[k].queue, ss[i].running.id)
    ensures k == i + 2 ==> es[i + 1] == SoftInt
    ensures k >= i + 2 ==> ss[k].running != ss[i].running
  {
    BootInv();
    ExitLeavesGone(ss, es, i);
    if k >= i + 2 {
      StaysOff(ss, es, ss[i].running.id, i + 2, k);
    }
  }

  /** The state behind an exit, and the one behind the switch that follows. */
  lemma ExitLeavesGone(ss: seq<State>, es: seq<Event>, i: nat)
    requires IsRun(ss, es) && ss[0] == Boot() && i < |es| && es[i] == Exit
    ensures ss[i].running.User? && Gone(ss[i + 1], ss[i].running.id)
    ensures i + 1 < |es| ==> es[i + 1] == SoftInt && Off(ss[i + 2], ss[i].running.id)
  {
    BootInv();
    var at := ExitRemoves(ss, es, i);
    if i + 1 < |es| {
      SwitchedOff(ss, es, ss[i].running.id, i + 1);
    }
  }

  lemma SwitchedOff(ss: seq<State>, es: seq<Event>, id: nat, k: nat)
    requires IsRun(ss, es) && Inv(ss[0]) && k < |es| && Gone(ss[k], id) && ss[k].msip
    ensures es[k] == SoftInt && Off(ss[k + 1], id)
  {
    RunKeeps(ss, es, k);
    RunStep(ss, es, k);
    OffStep(ss[k], es[k], id);
  }

  // ---------------------------------------------------------------- creation

  /** task_create below the limit of ten tasks files one record, with a number never used before, the
      given priority and timeslice, behind everybody of at most that priority value and in front of
      everybody above it.  At the limit it changes nothing. */
  lemma CreateFiles(ss: seq<State>, es: seq<Event>, i: nat, p: int, slice: nat) returns (at: nat)
    requires IsRun(ss, es) && ss[0] == Boot() && i < |es| && es[i] == CreateTask(p, slice)
    ensures |ss[i].queue| >= 10 ==> ss[i + 1] == ss[i]
    ensures |ss[i].queue| < 10 ==>
      && at <= |ss[i].queue| && ss[i + 1].nextId == ss[i].nextId + 1
      && ss[i + 1].queue == ss[i].queue[..at] + [Task(ss[i].nextId, p, RUNNING, slice)] + ss[i].queue[at..]
      && (forall j :: 0 <= j < at ==> ss[i].queue[j].priority <= p)
      && (forall j :: at <= j < |ss[i].queue| ==> ss[i].queue[j].priority > p)
    ensures forall k :: 0 <= k <= i ==> !Has(ss[k].queue, ss[i].nextId)
  {
    BootInv();
    RunKeeps(ss, es, i);
    RunStep(ss, es, i);
    at := Slot(Priorities(ss[i].queue), p);
    InsertKeepsSorted(Priorities(ss[i].queue), p);
    forall j | 0 <= j < |ss[i].queue|
      ensures if j < at then ss[i].queue[j].priority <= p else ss[i].queue[j].priority > p
    {
      assert Priorities(ss[i].queue)[j] == ss[i].queue[j].priority;
    }
    forall k | 0 <= k <= i ensures !Has(ss[k].queue, ss[i].nextId) {
      RunKeeps(ss, es, k);
      NextIdGrows(ss, es, k, i);
    }
  }

  // ---------------------------------------------------------------- ageing over runs

  /** The priority of a task that was created with p and has been switched to n times. */
  function AgedTo(p: int, n: nat): int { if p >= 256 then p else if p + n < 256 then p + n else 256 }

  /** Wherever the task's record is kept, it says so, and the timeslice is the one of its creation. */
  predicate RecordIs(s: State, id: nat, p: int, slice: nat, n: nat) {
    && (forall i :: 0 <= i < |s.queue| && s.queue[i].id == id ==>
          s.queue[i].priority == AgedTo(p, n) && s.queue[i].timeslice == slice)
    && (s.cur.Cur? && s.cur.id == id ==> s.cur.timeslice == slice)
  }

  function SwitchedTo(s: State, e: Event, s': State, id: nat): nat {
    if e == SoftInt && s'.running == User(id) then 1 else 0
  }

  lemma PoppedRecord(q: seq<Task>, j: nat) returns (i: nat)
    requires QueueOk(q) && FirstAwake(q) < |q| && j < |q|
    ensures i < |q|
    ensures Pop(q)[j] == if q[i].id == Popped(q).id then Aged(q[i]) else q[i]
  {
    var f, s := FirstAwake(q), PopSlot(q);
    var mid := if j < s then j else j - 1;
    i := if j == s then f else if mid < f then mid else mid + 1;
    if i != f {
      assert q[i].id != q[f].id;
    }
  }

  lemma ScheduleRecords(s: State, id: nat, p: int, slice: nat, n: nat)
    requires Inv(s) && RecordIs(s, id, p, slice, n)
    ensures RecordIs(Schedule(s), id, p, slice, if Schedule(s).running == User(id) then n + 1 else n)
  {
    if FirstAwake(s.queue) < |s.queue| {
      PopRecords(s.queue, id, p, slice, n);
    }
  }

  lemma PopRecords(q: seq<Task>, id: nat, p: int, slice: nat, n: nat)
    requires QueueOk(q) && FirstAwake(q) < |q|
    requires forall i :: 0 <= i < |q| && q[i].id == id ==> q[i].priority == AgedTo(p, n) && q[i].timeslice == slice
    ensures forall j :: 0 <= j < |q| && Pop(q)[j].id == id ==>
      Pop(q)[j].priority == AgedTo(p, if Popped(q).id == id then n + 1 else n) && Pop(q)[j].timeslice == slice
  {
    forall j | 0 <= j < |q| && Pop(q)[j].id == id
      ensures Pop(q)[j].priority == AgedTo(p, if Popped(q).id == id then n + 1 else n)
      ensures Pop(q)[j].timeslice == slice
    {
      var i := PoppedRecord(q, j);
    }
  }

  lemma HandleRecords(s: State, id: nat, p: int, slice: nat, n: nat)
    requires Inv(s) && !s.msip && RecordIs(s, id, p, slice, n)
    ensures RecordIs(Handle(s), id, p, slice, n)
  {
    if NobodyDue(s) {
      QuietTick(s);
    } else {
      CheckFromSafe(s.timers, s.queue, s.ticks + 1, 0);
      HandleIsFinish(s, Check(s.timers, s.queue, s.ticks + 1));
    }
  }

  lemma RecordsStep(s: State, e: Event, id: nat, p: int, slice: nat, n: nat)
    requires Inv(s) && Enabled(s, e) && id < s.nextId && RecordIs(s, id, p, slice, n)
    ensures RecordIs(Step(s, e), id, p, slice, n + SwitchedTo(s, e, Step(s, e), id))
  {
    match e
    case SoftInt => ScheduleRecords(s, id, p, slice, n);
    case Tick => HandleRecords(s, id, p, slice, n);
    case Sleep(m) => SleepIs(s, m);
    case CreateTimer(f, m) => CreateTimerIs(s, f, m);
    case CreateTask(q, m) => CreateRecords(s, q, m, id, p, slice, n);
    case _ =>
  }

  lemma CreateRecords(s: State, q: int, m: nat, id: nat, p: int, slice: nat, n: nat)
    requires Inv(s) && !s.msip && id < s.nextId && RecordIs(s, id, p, slice, n)
    ensures RecordIs(Step(s, CreateTask(q, m)), id, p, slice, n)
  {
  }

  /** How often schedule has switched to the task between ss[i] and ss[k]. */
  function Switches(ss: seq<State>, es: seq<Event>, id: nat, i: nat, k: nat): nat
    requires i <= k < |ss| && |ss| == |es| + 1
  {
    if k == i then 0 else Switches(ss, es, id, i, k - 1) + SwitchedTo(ss[k - 1], es[k - 1], ss[k], id)
  }

  lemma {:induction false} RecordsKept(ss: seq<State>, es: seq<Event>, id: nat, p: int, slice: nat, i: nat, k: nat)
    requires IsRun(ss, es) && Inv(ss[0]) && i <= k < |ss| && id < ss[i].nextId && RecordIs(ss[i], id, p, slice, 0)
    ensures RecordIs(ss[k], id, p, slice, Switches(ss, es, id, i, k))
    decreases k - i
  {
    if i < k {
      NextIdGrows(ss, es, i, k - 1);
      RecordsKept(ss, es, id, p, slice, i, k - 1);
      RecordsRunStep(ss, es, id, p, slice, k - 1, Switches(ss, es, id, i, k - 1));
    }
  }

  lemma RecordsRunStep(ss: seq<State>, es: seq<Event>, id: nat, p: int, slice: nat, k: nat, n: nat)
    requires IsRun(ss, es) && Inv(ss[0]) && k < |es| && id < ss[k].nextId && RecordIs(ss[k], id, p, slice, n)
    ensures RecordIs(ss[k + 1], id, p, slice, n + SwitchedTo(ss[k], es[k], ss[k + 1], id))
  {
    RunKeeps(ss, es, k);
    RunStep(ss, es, k);
    RecordsStep(ss[k], es[k], id, p, slice, n);
  }

  /** cur_task is a task that was created. */
  lemma {:induction false} CurKnown(ss: seq<State>, es: seq<Event>, k: nat)
    requires IsRun(ss, es) && ss[0] == Boot() && k < |ss|
    ensures ss[k].cur.Cur? ==> ss[k].cur.id < ss[k].nextId
  {
    if k > 0 {
      CurKnown(ss, es, k - 1);
      CurStep(ss, es, k - 1);
    }
  }

  lemma CurStep(ss: seq<State>, es: seq<Event>, k: nat)
    requires IsRun(ss, es) && ss[0] == Boot() && k < |es| && (ss[k].cur.Cur? ==> ss[k].cur.id < ss[k].nextId)
    ensures ss[k + 1].cur.Cur? ==> ss[k + 1].cur.id < ss[k + 1].nextId
  {
    BootInv();
    RunKeeps(ss, es, k);
    RunStep(ss, es, k);
    var s := ss[k];
    match es[k]
    case Tick =>
      CheckFromSafe(s.timers, s.queue, s.ticks + 1, 0);
      HandleIsFinish(s, Check(s.timers, s.queue, s.ticks + 1));
    case Sleep(n) => SleepIs(s, n);
    case CreateTimer(f, n) => CreateTimerIs(s, f, n);
    case _ =>
  }

  lemma FirstRecord(ss: seq<State>, es: seq<Event>, i: nat, p: int, slice: nat)
    requires IsRun(ss, es) && ss[0] == Boot() && i < |es| && es[i] == CreateTask(p, slice) && |ss[i].queue| < 10
    ensures RecordIs(ss[i + 1], ss[i].nextId, p, slice, 0) && Has(ss[i + 1].queue, ss[i].nextId)
    ensures ss[i].nextId < ss[i + 1].nextId
  {
    BootInv();
    RunKeeps(ss, es, i);
    RunStep(ss, es, i);
    CurKnown(ss, es, i);
    InsertHas(ss[i].queue, Task(ss[i].nextId, p, RUNNING, slice), ss[i].nextId);
  }

  /** Ageing over runs, exactly: whatever else happens, the record of a task created with priority p
      has priority p plus the number of times it was switched to, cut off at 256, or p for ever if p
      was 256 or more; and its timeslice is the one it was created with. */
  lemma AgeingIsExact(ss: seq<State>, es: seq<Event>, i: nat, p: int, slice: nat, k: nat)
    requires IsRun(ss, es) && ss[0] == Boot() && i < k < |ss| && es[i] == CreateTask(p, slice) && |ss[i].queue| < 10
    ensures RecordIs(ss[k], ss[i].nextId, p, slice, Switches(ss, es, ss[i].nextId, i + 1, k))
  {
    BootInv();
    FirstRecord(ss, es, i, p, slice);
    RecordsKept(ss, es, ss[i].nextId, p, slice, i + 1, k);
  }

  // ---------------------------------------------------------------- no task is lost

  predicate Exits(s: State, e: Event, id: nat) { e == Exit && s.running == User(id) }

  lemma PopHas(q: seq<Task>, id: nat)
    requires QueueOk(q) && FirstAwake(q) < |q|
    ensures Has(Pop(q), id) <==> Has(q, id)
  {
    var f, s := FirstAwake(q), PopSlot(q);
    if i :| 0 <= i < |q| && q[i].id == id {
      if i == f {
        assert Pop(q)[s].id == id;
      } else {
        NewPlaceAt(q, f, s, Aged(q[f]), i);
      }
    }
    if j :| 0 <= j < |q| && Pop(q)[j].id == id {
      var i := PoppedRecord(q, j);
      assert q[i].id == id;
    }
  }

  lemma RemoveHas(q: seq<Task>, at: nat, id: nat)
    requires Distinct(q) && at < |q|
    ensures Has(RemoveAt(q, at), id) <==> Has(q, id) && id != q[at].id
  {
    if i :| 0 <= i < |q| && q[i].id == id {
      if i != at {
        assert RemoveAt(q, at)[if i < at then i else i - 1].id == id;
      }
    }
  }

  lemma InsertHas(q: seq<Task>, t: Task, id: nat)
    ensures Has(Insert(q, t), id) <==> Has(q, id) || id == t.id
  {
    var s := Slot(Priorities(q), t.priority);
    assert Insert(q, t)[s] == t;
    if i :| 0 <= i < |q| && q[i].id == id {
      assert Insert(q, t)[if i < s then i else i + 1].id == id;
    }
  }

  lemma HasStep(s: State, e: Event, id: nat)
    requires Inv(s) && Enabled(s, e) && id < s.nextId
    ensures Has(Step(s, e).queue, id) <==> Has(s.queue, id) && !Exits(s, e, id)
  {
    match e
    case SoftInt => if FirstAwake(s.queue) < |s.queue| { PopHas(s.queue, id); }
    case Tick =>
      CheckFromSafe(s.timers, s.queue, s.ticks + 1, 0);
      var c := Check(s.timers, s.queue, s.ticks + 1);
      HandleIsFinish(s, c);
      if c.woken.Some? { SetStateHas(s.queue, s.timers[c.woken.value].task, RUNNABLE, id); }
    case Sleep(n) =>
      SleepIs(s, n);
      SetStateHas(s.queue, s.cur.id, SLEEPING, id);
    case Exit => RemoveHas(s.queue, IndexOf(s.queue, s.cur.id), id);
    case CreateTask(p, slice) =>
      if |s.queue| < MAX_TASK_NUM { InsertHas(s.queue, Task(s.nextId, p, RUNNING, slice), id); }
    case CreateTimer(f, n) => CreateTimerIs(s, f, n);
    case _ =>
  }

  /** A task that was created is in the run queue exactly until it exits. */
  lemma {:induction false} ListedUntilExit(ss: seq<State>, es: seq<Event>, id: nat, i: nat, k: nat)
    requires IsRun(ss, es) && Inv(ss[0]) && i <= k < |ss| && id < ss[i].nextId && Has(ss[i].queue, id)
    ensures Has(ss[k].queue, id) <==> forall j :: i <= j < k ==> !Exits(ss[j], es[j], id)
    decreases k - i
  {
    if i < k {
      NextIdGrows(ss, es, i, k - 1);
      ListedUntilExit(ss, es, id, i, k - 1);
      HasRunStep(ss, es, id, k - 1);
    }
  }

  lemma HasRunStep(ss: seq<State>, es: seq<Event>, id: nat, k: nat)
    requires IsRun(ss, es) && Inv(ss[0]) && k < |es| && id < ss[k].nextId
    ensures Has(ss[k + 1].queue, id) <==> Has(ss[k].queue, id) && !Exits(ss[k], es[k], id)
  {
    RunKeeps(ss, es, k);
    RunStep(ss, es, k);
    HasStep(ss[k], es[k], id);
  }

  // ---------------------------------------------------------------- schedule

  /** A software interrupt with nobody in the queue puts the kernel on the hart; with everybody asleep
      it also forgets cur_task; otherwise it switches to the first of the awake tasks of least
      priority value, and its record leads there. */
  lemma SwitchPicks(ss: seq<State>, es: seq<Event>, k: nat) returns (i: nat)
    requires IsRun(ss, es) && ss[0] == Boot() && k < |es| && es[k] == SoftInt
    ensures !ss[k + 1].msip && ss[k + 1].timers == ss[k].timers && ss[k + 1].start == ss[k].start
    ensures ss[k].queue == [] ==> ss[k + 1].running == Os && ss[k + 1].cur == ss[k].cur && ss[k + 1].queue == []
    ensures ss[k].queue != [] && (forall j :: 0 <= j < |ss[k].queue| ==> ss[k].queue[j].state == SLEEPING) ==>
      ss[k + 1].running == Os && ss[k + 1].cur == NoTask && ss[k + 1].queue == ss[k].queue
    ensures (exists j :: 0 <= j < |ss[k].queue| && ss[k].queue[j].state != SLEEPING) ==>
      var q := ss[k].queue;
      && i < |q| && q[i].state != SLEEPING
      && (forall j :: 0 <= j < |q| && q[j].state != SLEEPING ==> q[i].priority <= q[j].priority && i <= j)
      && ss[k + 1].running == User(q[i].id) && ss[k + 1].cur == Cur(q[i].id, q[i].timeslice)
  {
    BootInv();
    RunKeeps(ss, es, k);
    RunStep(ss, es, k);
    i := FirstAwake(ss[k].queue);
    forall j | i <= j < |ss[k].queue| ensures ss[k].queue[i].priority <= ss[k].queue[j].priority {
      assert Priorities(ss[k].queue)[i] <= Priorities(ss[k].queue)[j];
    }
  }

  /** task_yield: the next event is the switch, and nothing else has changed. */
  lemma YieldSwitches(ss: seq<State>, es: seq<Event>, k: nat)
    requires IsRun(ss, es) && k < |es| && es[k] == Yield
    ensures ss[k + 1] == ss[k].(msip := true) && (k + 1 < |es| ==> es[k + 1] == SoftInt)
  {
    RunStep(ss, es, k);
    if k + 1 < |es| { RunStep(ss, es, k + 1); }
  }
}
