/** The scheduler and the timers as one machine: os/sched.c and os/timer.c, dispatched by
    os/trap.c:30-87, with the kernel loop of os/kernel.c:38-51.  Each handler and each kernel
    routine called by a task is one step.  A pending software interrupt is taken before the
    running context's next instruction and before a timer interrupt (section 3.1.9 of the
    RISC-V Privileged Specification, version 1.12). */
module Machine {
  import opened Flags
  import opened SortedLists
  import opened RunQueue

  /** A software timer.  func == None is the NULL function pointer of a task's sleep. */
  datatype Timer = Timer(tid: nat, func: Option<nat>, deadline: nat, task: nat)

  function Deadlines(ts: seq<Timer>): (r: seq<int>)
    ensures |r| == |ts| && forall i :: 0 <= i < |ts| ==> r[i] == ts[i].deadline
  {
    seq(|ts|, i requires 0 <= i < |ts| => ts[i].deadline)
  }

  /** insert_timer. */
  function File(ts: seq<Timer>, t: Timer): (r: seq<Timer>)
    ensures |r| == |ts| + 1
  {
    InsertAt(ts, Slot(Deadlines(ts), t.deadline), t)
  }

  function Tids(ts: seq<Timer>): (ids: seq<nat>)
    ensures |ids| == |ts| && forall i :: 0 <= i < |ts| ==> ids[i] == ts[i].tid
  {
    seq(|ts|, i requires 0 <= i < |ts| => ts[i].tid)
  }

  /** Position of the timer with this tid; |ts| if there is none. */
  function TimerOf(ts: seq<Timer>, tid: nat): (i: nat)
    ensures i <= |ts|
    ensures i < |ts| ==> ts[i].tid == tid
    ensures forall j :: 0 <= j < i ==> ts[j].tid != tid
  {
    FirstWith(Tids(ts), tid, 0)
  }

  /** timer_delete of a timer that is in the list. */
  function Delete(ts: seq<Timer>, tid: nat): seq<Timer> {
    var i := TimerOf(ts, tid);
    if i < |ts| then RemoveAt(ts, i) else ts
  }

  predicate Asleep(q: seq<Task>, id: nat) {
    IndexOf(q, id) < |q| && q[IndexOf(q, id)].state == SLEEPING
  }

  // ---------------------------------------------------------------- timer_check

  /** What a scan of the timer list does: the callbacks it calls, in order, and the position
      of the sleep timer it ends on; or it calls a NULL function. */
  datatype Scan = Scan(fired: seq<nat>, woken: Option<nat>) | NullCall

  function CheckFrom(ts: seq<Timer>, q: seq<Task>, now: nat, i: nat): Scan
    requires i <= |ts|
    decreases |ts| - i
  {
    if i == |ts| || ts[i].deadline > now then Scan([], None)
    else if ts[i].func.None? && Asleep(q, ts[i].task) then Scan([], Some(i))
    else if ts[i].func.None? then NullCall
    else
      var r := CheckFrom(ts, q, now, i + 1);
      if r.NullCall? then r else Scan([ts[i].func.value] + r.fired, r.woken)
  }

  function Check(ts: seq<Timer>, q: seq<Task>, now: nat): Scan { CheckFrom(ts, q, now, 0) }

  // ---------------------------------------------------------------- the machine

  datatype Where = Os | User(id: nat)

  /** cur_task.  After its task has exited it still holds what the freed record held. */
  datatype Cur = NoTask | Cur(id: nat, timeslice: nat)

  datatype State = State(
    queue: seq<Task>,
    timers: seq<Timer>,
    ticks: nat,
    start: nat,       // _cur_task_start_tick
    cur: Cur,
    running: Where,   // whose context is on the hart
    msip: bool,       // a software interrupt is pending
    nextId: nat,
    nextTid: nat,
    since: nat,       // tick at which the running task was switched in
    fired: seq<nat>)  // callbacks called so far

  datatype Event =
    | SoftInt
    | Tick
    | Yield
    | Sleep(ticks: nat)
    | Exit
    | CreateTask(priority: int, timeslice: nat)
    | CreateTimer(func: nat, ticks: nat)
    | DeleteTimer(tid: nat)

  predicate Enabled(s: State, e: Event) {
    match e
    case SoftInt => s.msip
    case Tick => !s.msip
    case Yield => !s.msip
    case Sleep(_) => !s.msip && s.running.User?
    case Exit => !s.msip && s.running.User?
    case CreateTask(_, _) => !s.msip
    case CreateTimer(_, _) => !s.msip && s.running.User?
    case DeleteTimer(tid) =>
      && !s.msip && s.running.User?
      && var i := TimerOf(s.timers, tid); i < |s.timers| && s.timers[i].func.Some?
  }

  /** schedule, from the software interrupt handler. */
  function Schedule(s: State): State {
    var i := FirstAwake(s.queue);
    if |s.queue| == 0 then s.(msip := false, running := Os)
    else if i == |s.queue| then s.(msip := false, cur := NoTask, running := Os)
    else s.(msip := false, cur := Cur(s.queue[i].id, s.queue[i].timeslice), running := User(s.queue[i].id),
            queue := Pop(s.queue), since := s.ticks)
  }

  /** What timer_handler does when timer_check has ended on sleep timer i. */
  function Wake(s: State, i: nat): State
    requires i < |s.timers|
  {
    var k := IndexOf(s.queue, s.timers[i].task);
    s.(queue := SetState(s.queue, s.timers[i].task, RUNNABLE), timers := RemoveAt(s.timers, i),
       cur := if k < |s.queue| then Cur(s.queue[k].id, s.queue[k].timeslice) else s.cur, running := Os)
  }

  /** What timer_handler does when nobody is woken. */
  function Preempt(s: State): State {
    if s.cur.NoTask? then s.(running := Os)
    else if s.ticks - s.start >= s.cur.timeslice then s.(start := s.ticks, running := Os)
    else s
  }

  function Finish(s: State, woken: Option<nat>): State {
    if woken.Some? && woken.value < |s.timers| then Wake(s, woken.value) else Preempt(s)
  }

  /** timer_handler. */
  function Handle(s: State): State {
    match Check(s.timers, s.queue, s.ticks + 1)
    case NullCall => s.(ticks := s.ticks + 1)
    case Scan(fired, woken) => Finish(s.(ticks := s.ticks + 1, fired := s.fired + fired), woken)
  }

  function NewTimer(s: State, func: Option<nat>, ticks: nat, task: nat): State {
    s.(timers := File(s.timers, Timer(s.nextTid, func, s.ticks + ticks, task)), nextTid := s.nextTid + 1)
  }

  function Step(s: State, e: Event): State
    requires Enabled(s, e)
  {
    match e
    case SoftInt => Schedule(s)
    case Tick => Handle(s)
    case Yield => s.(msip := true)
    case Sleep(n) =>
      if s.cur.NoTask? then s
      else NewTimer(s.(queue := SetState(s.queue, s.cur.id, SLEEPING), msip := true), None, n, s.cur.id)
    case Exit =>
      if s.cur.NoTask? then s else s.(queue := Remove(s.queue, s.cur.id), msip := true)
    case CreateTask(p, slice) =>
      if |s.queue| >= MAX_TASK_NUM then s
      else s.(queue := Insert(s.queue, Task(s.nextId, p, RUNNING, slice)), nextId := s.nextId + 1)
    case CreateTimer(f, n) =>
      if s.cur.NoTask? then s else NewTimer(s, Some(f), n, s.cur.id)
    case DeleteTimer(tid) =>
      s.(timers := Delete(s.timers, tid))
  }

  /** The machine when the kernel context first runs. */
  function Boot(): State {
    State([], [], 0, 0, NoTask, Os, false, 1, 0, 0, [])
  }
}
