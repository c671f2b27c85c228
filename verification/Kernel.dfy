/** The kernel's scheduling state in memory, and its handlers and routines.  Each method is
    proved to take the step of the machine that carries its name. */
module Kernel {
  import opened Flags
  import opened SortedLists
  import opened RunQueue
  import opened TaskList
  import opened TimerList
  import M = Machine
  import MI = MachineInv

  class Kernel {
    const queue: TaskList
    const timers: TimerList
    var curTask: TaskInfo?
    var nextId: nat          // _task_id
    var ticks: nat           // _ticks
    var startTick: nat       // _cur_task_start_tick
    var onHart: TaskInfo?    // whose context the hart runs; null is the kernel's own
    var msip: bool
    var fired: seq<nat>      // callbacks called so far
    ghost var nextTid: nat
    ghost var since: nat

    /** Sleep timers point at records that are still in the run queue, and a task that runs
        without a switch pending is cur_task and in the queue. */
    ghost predicate Valid()
      reads this, queue, timers, queue.nodes, timers.nodes
    {
      && queue.Valid() && timers.Valid()
      && SleepersListed()
      && (onHart != null ==> onHart == curTask)
      && (onHart != null && !msip ==> onHart in queue.Members())
    }

    ghost function View(): M.State
      reads this, queue, timers
    {
      M.State(queue.tasks, timers.timers, ticks, startTick,
        if curTask == null then M.NoTask else M.Cur(curTask.id, curTask.timeslice),
        if onHart == null then M.Os else M.User(onHart.id),
        msip, nextId, nextTid, since, fired)
    }

    /** The kernel when its own context first runs. */
    constructor ()
      ensures Valid() && View() == M.Boot() && fresh(queue) && fresh(timers)
    {
      queue := new TaskList();
      timers := new TimerList();
      curTask, onHart, msip := null, null, false;
      nextId, ticks, startTick, nextTid, since := 1, 0, 0, 0, 0;
      fired := [];
    }

    /** software_interrupt_handler. */
    method SoftInt()
      requires Valid() && Distinct(queue.tasks)
      modifies this, queue, queue.nodes
      ensures Valid() && View() == M.Schedule(old(View()))
    {
      msip := false;
      Schedule();
    }

    /** Sleep timers point at records that are still in the run queue. */
    ghost predicate SleepersListed()
      reads queue, timers
    {
      forall t :: t in timers.nodes && t.func.None? ==> t.task in queue.Members()
    }

    /** schedule.  Going back to the kernel context is back_os. */
    method Schedule()
      requires queue.Valid() && timers.Valid() && Distinct(queue.tasks) && !msip && SleepersListed()
      modifies this`curTask, this`onHart, this`since, queue, queue.nodes
      ensures Valid() && View() == M.Schedule(old(View()))
    {
      if queue.count <= 0 {
        onHart := null;
      } else {
        PopNext();
        Dispatch();
      }
    }

    /** Switches to cur_task, or back to the kernel when there is none. */
    method Dispatch()
      requires queue.Valid() && timers.Valid() && SleepersListed() && !msip
      requires curTask != null ==> curTask in queue.Members()
      modifies this`onHart, this`since
      ensures Valid()
      ensures View() ==
        var s := old(View());
        if s.cur.NoTask? then s.(running := M.Os) else s.(running := M.User(s.cur.id), since := s.ticks)
    {
      onHart := curTask;
      if curTask != null {
        since := ticks;
      }
    }

    /** The result of pop_task becomes cur_task. */
    method PopNext()
      requires queue.Valid() && timers.Valid() && Distinct(queue.tasks) && SleepersListed()
      modifies this`curTask, queue, queue.nodes
      ensures queue.Valid() && timers.Valid() && SleepersListed()
      ensures curTask != null ==> curTask in queue.Members()
      ensures View() ==
        var s := old(View());
        if FirstAwake(s.queue) == |s.queue| then s.(cur := M.NoTask)
        else s.(queue := RunQueue.Pop(s.queue), cur := M.Cur(Popped(s.queue).id, Popped(s.queue).timeslice))
    {
      curTask := PopQueue();
    }

    /** The run queue can change without touching the timers. */
    method PopQueue() returns (r: TaskInfo?)
      requires queue.Valid() && timers.Valid() && Distinct(queue.tasks)
      modifies queue, queue.nodes
      ensures queue.Valid() && queue.Members() == old(queue.Members())
      ensures timers.Valid() && timers.nodes == old(timers.nodes) && timers.timers == old(timers.timers)
      ensures var q := old(queue.tasks);
        if FirstAwake(q) == |q| then r == null && queue.tasks == q
        else r != null && r in queue.Members() && queue.tasks == RunQueue.Pop(q) &&
             r.id == Popped(q).id && r.timeslice == Popped(q).timeslice
    {
      r := queue.Pop();
    }

    /** task_yield. */
    method Yield()
      requires Valid()
      modifies this`msip
      ensures Valid() && View() == old(View()).(msip := true)
    {
      msip := true;
    }

    // -------------------------------------------------------------- timer interrupt

    /** timer_check: calls the expired callbacks and ends on the first expired sleeper, which
        it deletes. */
    method TimerCheck() returns (task: TaskInfo?)
      requires Valid() && Distinct(queue.tasks) && MI.Matched(queue.tasks, timers.timers)
      modifies this`fired, timers, timers.nodes
      ensures queue.Valid() && timers.Valid() && SleepersListed() && queue.nodes == old(queue.nodes)
      ensures var s := old(View()); var c := M.Check(s.timers, s.queue, s.ticks);
        && c.Scan? && (task == null <==> c.woken.None?)
        && (task == null ==> View() == s.(fired := s.fired + c.fired))
        && (task != null ==>
              c.woken.value < |s.timers| && task in queue.Members() && task.id == s.timers[c.woken.value].task &&
              View() == s.(fired := s.fired + c.fired, timers := RemoveAt(s.timers, c.woken.value)))
    {
      var it, calls := FindExpired();
      fired := fired + calls;
      if it == null { return null; }
      task := it.task;
      DeleteTimer(it, M.Check(timers.timers, queue.tasks, ticks).woken.value);
    }

    /** The walk of timer_check. */
    method FindExpired() returns (it: TimerInfo?, calls: seq<nat>)
      requires Valid() && Distinct(queue.tasks) && MI.Matched(queue.tasks, timers.timers)
      ensures var c := M.Check(timers.timers, queue.tasks, ticks);
        && c.Scan? && calls == c.fired
        && (it == null <==> c.woken.None?)
        && (it != null ==> c.woken.value < |timers.nodes| && timers.nodes[c.woken.value] == it && it.func.None?)
    {
      ghost var q, k := queue.tasks, 0;
      it, calls := timers.first, [];
      while it != null && it.timeout <= ticks
        invariant k <= |timers.nodes| && it == TimerAt(timers.nodes, k)
        invariant M.Check(timers.timers, q, ticks) == Preceded(calls, M.CheckFrom(timers.timers, q, ticks, k))
        decreases |timers.nodes| - k
      {
        assert At(k) && timers.timers[k] == it.Record();
        SleeperIsAsleep(it, k);
        if it.task.state == SLEEPING && it.func.None? {
          ScanEnds(timers.timers, q, ticks, k);
          return;
        }
        PrecededStep(calls, timers.timers, q, ticks, k);
        calls := calls + [it.func.value];
        it := it.next;
        k := k + 1;
      }
      assert k < |timers.nodes| ==> timers.timers[k] == it.Record();
      ScanEnds(timers.timers, q, ticks, k);
      return null, calls;
    }

    /** Where the scan ends. */
    static lemma ScanEnds(ts: seq<M.Timer>, q: seq<Task>, now: nat, k: nat)
      requires k <= |ts|
      requires k < |ts| && ts[k].deadline <= now ==> ts[k].func.None? && M.Asleep(q, ts[k].task)
      ensures M.CheckFrom(ts, q, now, k) == M.Scan([], if k < |ts| && ts[k].deadline <= now then Some(k) else None)
    {
    }

    /** A sleep timer in the list belongs to a task that is asleep, so its function is never
        called. */
    lemma SleeperIsAsleep(t: TimerInfo, k: nat)
      requires Valid() && Distinct(queue.tasks) && MI.Matched(queue.tasks, timers.timers)
      requires k < |timers.nodes| && timers.nodes[k] == t
      ensures t.func.None? ==> t.task.state == SLEEPING && M.Asleep(queue.tasks, t.task.id)
    {
      assert timers.timers[k] == t.Record();
      if t.func.None? {
        assert t in timers.nodes;
        queue.Listed(t.task);
      }
    }

    /** The scan of a list from some position, with the callbacks before it put in front. */
    static function Preceded(before: seq<nat>, c: M.Scan): M.Scan {
      match c
      case NullCall => c
      case Scan(fired, woken) => M.Scan(before + fired, woken)
    }

    static lemma PrecededStep(before: seq<nat>, ts: seq<M.Timer>, q: seq<Task>, now: nat, k: nat)
      requires k < |ts| && ts[k].deadline <= now && ts[k].func.Some?
      ensures Preceded(before, M.CheckFrom(ts, q, now, k)) ==
        Preceded(before + [ts[k].func.value], M.CheckFrom(ts, q, now, k + 1))
    {
    }

    /** timer_delete, which does not touch the run queue. */
    method DeleteTimer(t: TimerInfo, ghost i: nat)
      requires queue.Valid() && timers.Valid() && SleepersListed() && i < |timers.nodes| && timers.nodes[i] == t
      modifies timers, timers.nodes
      ensures queue.Valid() && timers.Valid() && SleepersListed()
      ensures queue.tasks == old(queue.tasks) && queue.nodes == old(queue.nodes)
      ensures timers.timers == RemoveAt(old(timers.timers), i)
    {
      timers.Delete(t, i);
    }

    /** timer_handler. */
    method TimerHandler()
      requires Valid() && Distinct(queue.tasks) && MI.Matched(queue.tasks, timers.timers)
      modifies this, queue, queue.nodes, timers, timers.nodes
      ensures Valid() && View() == M.Handle(old(View()))
    {
      ghost var s := View();
      ticks := ticks + 1;
      ghost var c := M.Check(timers.timers, queue.tasks, ticks);
      var task := TimerCheck();
      ghost var u := s.(ticks := s.ticks + 1, fired := s.fired + c.fired);
      MI.HandleIsFinish(s, c);
      if task != null {
        Wake(task, u, c.woken.value);
      } else {
        Preempt();
      }
    }

    /** The branch of timer_handler for a task whose sleep is over; u is the state in which its
        timer is still in the list, at position i. */
    method Wake(task: TaskInfo, ghost u: M.State, ghost i: nat)
      requires queue.Valid() && timers.Valid() && SleepersListed() && Distinct(queue.tasks) && task in queue.Members()
      requires i < |u.timers| && u.timers[i].task == task.id && View() == u.(timers := RemoveAt(u.timers, i))
      modifies this`curTask, this`onHart, queue`tasks, task`state
      ensures Valid() && View() == M.Finish(u, Some(i))
    {
      queue.Listed(task);
      SetState(task, RUNNABLE);
      curTask := task;
      onHart := null;
    }

    /** A change of state does not touch the timers. */
    method SetState(task: TaskInfo, st: TaskState)
      requires queue.Valid() && timers.Valid() && Distinct(queue.tasks) && task in queue.Members()
      modifies queue`tasks, task`state
      ensures queue.Valid() && timers.Valid() && queue.Members() == old(queue.Members())
      ensures timers.nodes == old(timers.nodes) && timers.timers == old(timers.timers)
      ensures queue.tasks == RunQueue.SetState(old(queue.tasks), task.id, st)
    {
      queue.SetState(task, st);
    }

    /** The rest of timer_handler: the timeslice check. */
    method Preempt()
      requires Valid()
      modifies this`onHart, this`startTick
      ensures Valid() && View() == M.Preempt(old(View()))
    {
      if curTask == null {
        onHart := null;
        return;
      }
      if ticks - startTick >= curTask.timeslice {
        startTick := ticks;
        onHart := null;
      }
    }

    // -------------------------------------------------------------- routines called by tasks

    /** timer_create.  A sleep timer is only created for a task in the run queue. */
    method TimerCreate(func: Option<nat>, timeout: nat) returns (t: TimerInfo)
      requires queue.Valid() && timers.Valid() && SleepersListed()
      requires curTask != null && (func.None? ==> curTask in queue.Members())
      modifies this`nextTid, timers, timers.nodes
      ensures queue.Valid() && timers.Valid() && SleepersListed()
      ensures View() == M.NewTimer(old(View()), func, timeout, curTask.id)
    {
      t := FileTimer(nextTid, func, ticks + timeout, curTask);
      nextTid := nextTid + 1;
    }

    /** The new record and insert_timer; neither touches the run queue. */
    method FileTimer(ghost tid: nat, func: Option<nat>, deadline: nat, task: TaskInfo) returns (t: TimerInfo)
      requires queue.Valid() && timers.Valid() && SleepersListed()
      requires func.None? ==> task in queue.Members()
      modifies timers, timers.nodes
      ensures queue.Valid() && timers.Valid() && SleepersListed()
      ensures queue.tasks == old(queue.tasks) && queue.nodes == old(queue.nodes)
      ensures timers.timers == M.File(old(timers.timers), M.Timer(tid, func, deadline, task.id))
    {
      t := new TimerInfo(tid, func, deadline, task);
      timers.Insert(t);
    }

    /** task_delay, from the sleep system call. */
    method TaskDelay(n: nat)
      requires Valid() && Distinct(queue.tasks) && onHart != null && !msip
      modifies this, queue, curTask, timers, timers.nodes
      ensures Valid() && View() == M.Step(old(View()), M.Sleep(n))
    {
      Suspend();
      var t := TimerCreate(None, n);
    }

    /** The parts of task_delay that touch the scheduler. */
    method Suspend()
      requires Valid() && Distinct(queue.tasks) && onHart != null && !msip
      modifies this`msip, queue, curTask
      ensures queue.Valid() && timers.Valid() && SleepersListed() && queue.Members() == old(queue.Members())
      ensures var s := old(View()); View() == s.(queue := RunQueue.SetState(s.queue, s.cur.id, SLEEPING), msip := true)
    {
      SetState(curTask, SLEEPING);
      msip := true;
    }

    /** task_exit. */
    method TaskExit()
      requires Valid() && Distinct(queue.tasks) && onHart != null && !msip
      requires forall t :: t in timers.nodes && t.func.None? ==> t.task != curTask
      modifies this`msip, queue, queue.nodes
      ensures Valid() && View() == M.Step(old(View()), M.Exit)
    {
      RemoveTask(curTask);
      msip := true;
    }

    method RemoveTask(task: TaskInfo)
      requires queue.Valid() && timers.Valid() && Distinct(queue.tasks) && task in queue.Members() && SleepersListed()
      requires forall t :: t in timers.nodes && t.func.None? ==> t.task != task
      modifies queue, queue.nodes
      ensures queue.Valid() && timers.Valid() && SleepersListed()
      ensures timers.nodes == old(timers.nodes) && timers.timers == old(timers.timers)
      ensures queue.tasks == RunQueue.Remove(old(queue.tasks), task.id)
    {
      queue.Remove(task);
    }

    /** task_create; -1 when there are MAX_TASK_NUM tasks already. */
    method TaskCreate(priority: int, timeslice: nat) returns (code: int)
      requires Valid() && !msip
      modifies this`nextId, queue, queue.nodes
      ensures Valid() && View() == M.Step(old(View()), M.CreateTask(priority, timeslice))
      ensures code == if |old(queue.tasks)| >= MAX_TASK_NUM then -1 else 0
    {
      if queue.count >= MAX_TASK_NUM { return -1; }
      var t := new TaskInfo(nextId, priority, timeslice);
      nextId := nextId + 1;
      code := InsertTask(t);
    }

    method InsertTask(t: TaskInfo) returns (code: int)
      requires Valid() && !msip && t !in queue.nodes && t.next == null && t != curTask
      modifies queue, t, queue.nodes
      ensures Valid() && code == 0
      ensures View() == old(View()).(queue := RunQueue.Insert(old(queue.tasks), old(t.Record())))
    {
      ghost var was := queue.nodes;
      code := queue.Insert(t);
      ghost var s := Slot(Priorities(old(queue.tasks)), t.priority);
      forall n | n in was ensures n in queue.nodes {
        var i :| 0 <= i < |was| && was[i] == n;
        assert queue.nodes[if i < s then i else i + 1] == n;
      }
    }

    /** timer_delete, called by a task for a callback timer that it created. */
    method TimerDelete(t: TimerInfo?)
      requires Valid() && MI.TimersOk(timers.timers, nextTid)
      requires t != null && timers.nodes != [] ==> t in timers.nodes && t.func.Some?
      modifies timers, timers.nodes
      ensures Valid()
      ensures View() == if t == null || old(timers.nodes) == [] then old(View())
                        else old(View()).(timers := M.Delete(old(timers.timers), t.tid))
    {
      if t == null || timers.first == null {
        timers.Delete(t, 0);
      } else {
        ghost var i: nat :| i < |timers.nodes| && timers.nodes[i] == t;
        assert timers.timers[i] == t.Record();
        DeleteTimer(t, i);
      }
    }

    // -------------------------------------------------------------- any event

    lemma RunningHasNoSleepTimer()
      requires Valid() && MI.Inv(View()) && onHart != null && !msip
      ensures forall t :: t in timers.nodes && t.func.None? ==> t.task != curTask
    {
      forall t | t in timers.nodes && t.func.None? ensures t.task != curTask {
        var i: nat :| i < |timers.nodes| && timers.nodes[i] == t;
        assert timers.timers[i] == t.Record();
        assert M.Asleep(queue.tasks, t.task.id);
        assert MI.Awake(queue.tasks, curTask.id);
      }
    }

    /** The kernel takes any event that is enabled; t is the timer that DeleteTimer names. */
    method Take(e: M.Event, t: TimerInfo?)
      requires Valid() && MI.Inv(View()) && M.Enabled(View(), e)
      requires e.DeleteTimer? ==> t != null && t in timers.nodes && t.tid == e.tid && t.func.Some?
      modifies this, queue, queue.nodes, timers, timers.nodes
      ensures Valid() && View() == M.Step(old(View()), e) && MI.Inv(View())
    {
      MI.StepKeeps(View(), e);
      match e
      case SoftInt => SoftInt();
      case Tick => TimerHandler();
      case Yield => Yield();
      case _ => TakeCall(e, t);
    }

    /** The calls that tasks make. */
    method TakeCall(e: M.Event, t: TimerInfo?)
      requires Valid() && MI.Inv(View()) && M.Enabled(View(), e) && !e.SoftInt? && !e.Tick? && !e.Yield?
      requires e.DeleteTimer? ==> t != null && t in timers.nodes && t.tid == e.tid && t.func.Some?
      modifies this, queue, queue.nodes, timers, timers.nodes
      ensures Valid() && View() == M.Step(old(View()), e)
    {
      match e
      case Sleep(n) => TaskDelay(n);
      case Exit =>
        RunningHasNoSleepTimer();
        TaskExit();
      case CreateTask(p, slice) => var code := TaskCreate(p, slice);
      case CreateTimer(f, n) => var c := TimerCreate(Some(f), n);
      case DeleteTimer(tid) => TimerDelete(t);
    }
  }
}
