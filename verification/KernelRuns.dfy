/** The scheduler and the hart together: the context on the hart is always the one the scheduler
    chose, and a task that sleeps comes back behind its ecall. */
module KernelRuns {
  import opened Flags
  import opened Hart
  import opened SortedLists
  import opened RunQueue
  import T = Trap
  import C = ContextRuns
  import M = Machine
  import MI = MachineInv
  import H = TrapHandler
  import F = Fairness
  import MF = MachineFairness

  /** addr gives the address of the context of the kernel and of each task. */
  datatype Sys = Sys(m: M.State, h: State, v: C.View, addr: map<M.Where, int>)

  ghost predicate Placed(m: M.State, v: C.View, addr: map<M.Where, int>) {
    && M.Os in addr && m.running in addr && v.running == addr[m.running]
    && (forall i :: 0 <= i < |m.queue| ==> M.User(m.queue[i].id) in addr)
    && (forall w :: w in addr ==> addr[w] in v.ctxs && (w.User? ==> w.id < m.nextId))
    && (forall u, w :: u in addr && w in addr && addr[u] == addr[w] ==> u == w)
  }

  ghost predicate Inv(a: Arch, s: Sys) {
    MI.Inv(s.m) && C.Inv(a, s.v) && C.Runs(a, s.h, s.v) && Placed(s.m, s.v, s.addr)
  }

  /** Code without a kernel call; a call of task_yield, task_exit, timer_create or timer_delete, or
      of task_create when there is no room; a task_create that succeeds; a trap; and the end of
      the context of a task that has exited. */
  datatype Event =
    | Work(k: C.Core)
    | Call(e: M.Event, k: C.Core)
    | Create(priority: int, timeslice: nat, p: int, c: Context, mem: map<int, int>)
    | Trap(cause: int, k: C.Core, end: C.End)
    | Forget(id: nat)

  /** A register value as the unsigned argument of a call. */
  function Unsigned(x: int): nat { if x < 0 then 0 else x }

  /** The event of the scheduler. */
  function Sched(h: State, e: Event): Option<M.Event>
    requires Ok(h)
  {
    match e
    case Call(me, _) => Some(me)
    case Create(priority, timeslice, _, _, _) => Some(M.CreateTask(priority, timeslice))
    case Trap(cause, _, _) => H.EventOf(cause, h.x[A7], Unsigned(h.x[A0]))
    case _ => None
  }

  /** What a trap is to the scheduler, by its cause, a7 and a0. */
  lemma TrapIs(a: Arch, h: State, interrupt: bool, code: nat, k: C.Core, end: C.End)
    requires Ok(h) && code < T.BIT31 && h.x[A0] >= 0
    ensures Sched(h, Trap(T.CauseOf(a, interrupt, code), k, end)) ==
      if interrupt && code == 3 then Some(M.SoftInt)
      else if interrupt && code == 7 then Some(M.Tick)
      else if !interrupt && (code == 8 || code == 9 || code == 11) && h.x[A7] == 1 then Some(M.Sleep(h.x[A0]))
      else None
  {
    H.EventIff(a, interrupt, code, h.x[A7], h.x[A0]);
  }

  /** The event of the hart. */
  function OnHart(s: Sys, e: Event): C.Event {
    match e
    case Work(k) => C.Code(k)
    case Call(_, k) => C.Code(k)
    case Create(_, _, p, c, mem) => C.Create(p, c, mem)
    case Trap(cause, k, end) => C.Event.Trap(cause, k, end)
    case Forget(id) => C.Forget(if M.User(id) in s.addr then s.addr[M.User(id)] else 0)
  }

  function SchedAfter(m: M.State, e: Option<M.Event>): M.State
    requires e.Some? ==> M.Enabled(m, e.value)
  {
    if e.Some? then M.Step(m, e.value) else m
  }

  ghost predicate Enabled(a: Arch, s: Sys, e: Event)
    requires Ok(s.h)
  {
    && C.Enabled(a, s.h, s.v, OnHart(s, e))
    && (Sched(s.h, e).Some? ==> M.Enabled(s.m, Sched(s.h, e).value))
    && match e
       case Work(_) => !s.m.msip
       case Call(me, _) =>
         me.Yield? || me.Exit? || me.CreateTimer? || me.DeleteTimer? || (me.CreateTask? && |s.m.queue| >= MAX_TASK_NUM)
       case Create(_, _, _, _, _) => |s.m.queue| < MAX_TASK_NUM
       case Trap(cause, k, end) =>
         // only other interrupts come before a pending software interrupt, and the handler
         // switches to the context that the scheduler has made current
         && (s.m.msip ==> T.Dispatch(cause).Software? || T.Dispatch(cause).External? || T.Dispatch(cause).Ignored?)
         && var next := SchedAfter(s.m, Sched(s.h, e)).running;
            if end.Switch? then next in s.addr && k.x[A0] == s.addr[next] else next == s.m.running
       case Forget(id) => !s.m.msip && M.User(id) in s.addr && s.m.running != M.User(id) && !Has(s.m.queue, id)
  }

  ghost function Next(a: Arch, s: Sys, e: Event): Sys
    requires Ok(s.h) && C.Good(s.v) && Enabled(a, s, e)
  {
    var addr := match e
      case Create(_, _, p, _, _) => s.addr[M.User(s.m.nextId) := p]
      case Forget(id) => s.addr - {M.User(id)}
      case _ => s.addr;
    Sys(SchedAfter(s.m, Sched(s.h, e)), C.Next(a, s.h, OnHart(s, e)), C.After(a, s.v, OnHart(s, e)), addr)
  }

  // ---------------------------------------------------------------- what the scheduler runs

  /** What a step of the scheduler can put on the hart and into the queue. */
  predicate Follows(m: M.State, r: M.State, created: bool) {
    && r.nextId == (if created then m.nextId + 1 else m.nextId)
    && (r.running == m.running || r.running == M.Os || (r.running.User? && Has(m.queue, r.running.id)))
    && (forall i :: 0 <= i < |r.queue| ==> Has(m.queue, r.queue[i].id) || (created && r.queue[i].id == m.nextId))
  }

  lemma SameIds(q: seq<Task>)
    ensures forall i :: 0 <= i < |q| ==> Has(q, q[i].id)
  {
  }

  lemma PopFollows(q: seq<Task>)
    requires FirstAwake(q) < |q|
    ensures forall i :: 0 <= i < |q| ==> Has(q, Pop(q)[i].id)
  {
  }

  lemma TickFollows(m: M.State)
    requires MI.Inv(m) && !m.msip
    ensures Follows(m, M.Handle(m), false)
  {
    MI.CheckFromSafe(m.timers, m.queue, m.ticks + 1, 0);
    MI.HandleIsFinish(m, M.Check(m.timers, m.queue, m.ticks + 1));
    SameIds(m.queue);
  }

  lemma StepFollows(m: M.State, e: M.Event)
    requires MI.Inv(m) && M.Enabled(m, e)
    ensures Follows(m, M.Step(m, e), e.CreateTask? && |m.queue| < MAX_TASK_NUM)
    ensures !e.SoftInt? && !e.Tick? ==> M.Step(m, e).running == m.running
  {
    match e
    case SoftInt => SoftIntFollows(m);
    case Tick => TickFollows(m);
    case _ => CallFollows(m, e);
  }

  lemma SoftIntFollows(m: M.State)
    ensures Follows(m, M.Schedule(m), false)
  {
    SameIds(m.queue);
    if FirstAwake(m.queue) < |m.queue| {
      PopFollows(m.queue);
    }
  }

  lemma CallFollows(m: M.State, e: M.Event)
    requires M.Enabled(m, e) && !e.SoftInt? && !e.Tick?
    ensures Follows(m, M.Step(m, e), e.CreateTask? && |m.queue| < MAX_TASK_NUM)
    ensures M.Step(m, e).running == m.running
  {
    SameIds(m.queue);
  }

  /** Whoever the scheduler chooses has a context. */
  lemma ChosenHasContext(a: Arch, s: Sys, e: Event)
    requires Inv(a, s) && Enabled(a, s, e) && !e.Create?
    ensures SchedAfter(s.m, Sched(s.h, e)).running in s.addr
  {
    var me := Sched(s.h, e);
    if me.Some? {
      StepFollows(s.m, me.value);
    }
  }

  lemma SchedKeeps(a: Arch, s: Sys, e: Event)
    requires Inv(a, s) && Enabled(a, s, e)
    ensures var r := SchedAfter(s.m, Sched(s.h, e)); MI.Inv(r) && Follows(s.m, r, e.Create?)
    ensures !e.Trap? ==> SchedAfter(s.m, Sched(s.h, e)).running == s.m.running
  {
    var me := Sched(s.h, e);
    SameIds(s.m.queue);
    if me.Some? {
      MI.StepKeeps(s.m, me.value);
      StepFollows(s.m, me.value);
    }
  }

  lemma TrapPlaced(a: Arch, s: Sys, e: Event)
    requires Inv(a, s) && Enabled(a, s, e) && e.Trap?
    ensures var t := Next(a, s, e); Placed(t.m, t.v, t.addr)
  {
    SchedKeeps(a, s, e);
    ChosenHasContext(a, s, e);
  }

  lemma FreshAddress(a: Arch, v: C.View, p: int)
    requires forall q :: q in v.ctxs ==> C.Disjoint(a, p, q)
    ensures p !in v.ctxs
  {
  }

  lemma NewAddress(m: M.State, r: M.State, v: C.View, w: C.View, addr: map<M.Where, int>, p: int)
    requires Placed(m, v, addr) && Follows(m, r, true) && r.running == m.running
    requires w.running == v.running && w.ctxs.Keys == v.ctxs.Keys + {p} && p !in v.ctxs
    ensures Placed(r, w, addr[M.User(m.nextId) := p])
  {
  }

  lemma CreatePlaced(a: Arch, s: Sys, e: Event)
    requires Inv(a, s) && Enabled(a, s, e) && e.Create?
    ensures var t := Next(a, s, e); Placed(t.m, t.v, t.addr)
  {
    SchedKeeps(a, s, e);
    FreshAddress(a, s.v, e.p);
    var t := Next(a, s, e);
    NewAddress(s.m, t.m, s.v, t.v, s.addr, e.p);
  }

  lemma ForgetPlaced(a: Arch, s: Sys, e: Event)
    requires Inv(a, s) && Enabled(a, s, e) && e.Forget?
    ensures var t := Next(a, s, e); Placed(t.m, t.v, t.addr)
  {
  }

  lemma CallPlaced(a: Arch, s: Sys, e: Event)
    requires Inv(a, s) && Enabled(a, s, e) && (e.Call? || e.Work?)
    ensures var t := Next(a, s, e); Placed(t.m, t.v, t.addr)
  {
    SchedKeeps(a, s, e);
  }

  /** Every step keeps the scheduler's invariant, the contexts, and the tie between them. */
  lemma StepKeeps(a: Arch, s: Sys, e: Event)
    requires Inv(a, s) && Enabled(a, s, e)
    ensures Inv(a, Next(a, s, e))
  {
    SchedKeeps(a, s, e);
    C.StepSimulates(a, s.h, s.v, OnHart(s, e));
    match e
    case Trap(_, _, _) => TrapPlaced(a, s, e);
    case Create(_, _, _, _, _) => CreatePlaced(a, s, e);
    case Forget(_) => ForgetPlaced(a, s, e);
    case _ => CallPlaced(a, s, e);
  }

  // ---------------------------------------------------------------- runs

  ghost predicate IsStep(a: Arch, s: Sys, e: Event, t: Sys) {
    Ok(s.h) && C.Good(s.v) && Enabled(a, s, e) && t == Next(a, s, e)
  }

  /** Every hart has its 32 registers. */
  ghost predicate HartsOk(ss: seq<Sys>) { forall j :: 0 <= j < |ss| ==> Ok(ss[j].h) }

  ghost predicate AreSteps(a: Arch, ss: seq<Sys>, es: seq<Event>) {
    |ss| == |es| + 1 && HartsOk(ss) &&
    forall i: nat {:trigger At(i)} :: i < |es| && At(i) ==> IsStep(a, ss[i], es[i], ss[i + 1])
  }

  ghost predicate IsRun(a: Arch, ss: seq<Sys>, es: seq<Event>) {
    AreSteps(a, ss, es) && Inv(a, ss[0])
  }

  lemma {:induction false} RunKeeps(a: Arch, ss: seq<Sys>, es: seq<Event>, i: nat)
    requires IsRun(a, ss, es) && i < |ss|
    ensures Inv(a, ss[i])
  {
    if i > 0 {
      RunKeeps(a, ss, es, i - 1);
      assert At(i - 1) && IsStep(a, ss[i - 1], es[i - 1], ss[i]);
      StepKeeps(a, ss[i - 1], es[i - 1]);
    }
  }

  /** A run may start with the kernel context on the hart and nothing else. */
  lemma BootInv(a: Arch, h: C.Core)
    ensures Inv(a, Sys(M.Boot(), h, C.View(h.mscratch, map[h.mscratch := Live(h)]), map[M.Os := h.mscratch]))
  {
    MI.BootInv();
  }

  /** At every point of every run the registers on the hart are those of the context that the
      scheduler has made current, and mscratch is its address; and unless a switch is pending
      that is the kernel or an awake task. */
  lemma HartRunsChosen(a: Arch, ss: seq<Sys>, es: seq<Event>, i: nat)
    requires IsRun(a, ss, es) && i < |ss|
    ensures var s := ss[i];
      && Ok(s.h) && s.m.running in s.addr && s.addr[s.m.running] in s.v.ctxs
      && s.h.mscratch == s.addr[s.m.running] && Live(s.h) == s.v.ctxs[s.addr[s.m.running]]
      && (s.m.running.User? && !s.m.msip ==> MI.Awake(s.m.queue, s.m.running.id))
  {
    RunKeeps(a, ss, es, i);
  }

  // ---------------------------------------------------------------- the scheduler's part of a run

  /** The events of the scheduler among the first k. */
  ghost function EventsOf(ss: seq<Sys>, es: seq<Event>, k: nat): seq<M.Event>
    requires HartsOk(ss) && k <= |es| < |ss|
  {
    if k == 0 then [] else
    var e := Sched(ss[k - 1].h, es[k - 1]);
    if e.Some? then EventsOf(ss, es, k - 1) + [e.value] else EventsOf(ss, es, k - 1)
  }

  /** The states of the scheduler between them. */
  ghost function StatesOf(ss: seq<Sys>, es: seq<Event>, k: nat): (ms: seq<M.State>)
    requires HartsOk(ss) && k <= |es| < |ss|
    ensures |ms| == |EventsOf(ss, es, k)| + 1 && ms[0] == ss[0].m
  {
    if k == 0 then [ss[0].m]
    else if Sched(ss[k - 1].h, es[k - 1]).Some? then StatesOf(ss, es, k - 1) + [ss[k].m]
    else StatesOf(ss, es, k - 1)
  }

  lemma RunExtended(ms: seq<M.State>, mes: seq<M.Event>, e: M.Event)
    requires MI.IsRun(ms, mes) && M.Enabled(ms[|mes|], e)
    ensures MI.IsRun(ms + [M.Step(ms[|mes|], e)], mes + [e])
  {
    var ns, nes := ms + [M.Step(ms[|mes|], e)], mes + [e];
    forall i: nat | i < |nes| ensures M.Enabled(ns[i], nes[i]) && ns[i + 1] == M.Step(ns[i], nes[i]) {
      if i < |mes| {
        MI.RunStep(ms, mes, i);
      }
    }
  }

  lemma SchedStep(a: Arch, ss: seq<Sys>, es: seq<Event>, k: nat)
    requires AreSteps(a, ss, es) && k < |es|
    ensures var e := Sched(ss[k].h, es[k]);
      if e.Some? then M.Enabled(ss[k].m, e.value) && ss[k + 1].m == M.Step(ss[k].m, e.value) else ss[k + 1].m == ss[k].m
  {
    assert At(k) && IsStep(a, ss[k], es[k], ss[k + 1]);
  }

  lemma {:induction false} LastState(a: Arch, ss: seq<Sys>, es: seq<Event>, k: nat)
    requires AreSteps(a, ss, es) && k <= |es|
    ensures StatesOf(ss, es, k)[|EventsOf(ss, es, k)|] == ss[k].m
  {
    if k > 0 {
      LastState(a, ss, es, k - 1);
      SchedStep(a, ss, es, k - 1);
    }
  }

  lemma {:induction false} SchedulerRunsFor(a: Arch, ss: seq<Sys>, es: seq<Event>, k: nat)
    requires AreSteps(a, ss, es) && k <= |es|
    ensures MI.IsRun(StatesOf(ss, es, k), EventsOf(ss, es, k))
  {
    if k > 0 {
      SchedulerRunsFor(a, ss, es, k - 1);
      SchedulerRunsOn(a, ss, es, k);
    }
  }

  /** The scheduler's part of every run is a run of the scheduling machine, so what is proved
      of those, the bounds on waiting, sleeping and running included, holds here too. */
  lemma SchedulerRuns(a: Arch, ss: seq<Sys>, es: seq<Event>, k: nat)
    requires AreSteps(a, ss, es) && k <= |es|
    ensures var ms, mes := StatesOf(ss, es, k), EventsOf(ss, es, k);
      MI.IsRun(ms, mes) && ms[0] == ss[0].m && ms[|mes|] == ss[k].m
  {
    SchedulerRunsFor(a, ss, es, k);
    LastState(a, ss, es, k);
  }

  lemma SchedulerRunsOn(a: Arch, ss: seq<Sys>, es: seq<Event>, k: nat)
    requires AreSteps(a, ss, es) && 0 < k <= |es| && MI.IsRun(StatesOf(ss, es, k - 1), EventsOf(ss, es, k - 1))
    ensures MI.IsRun(StatesOf(ss, es, k), EventsOf(ss, es, k))
  {
    var ms, mes, e := StatesOf(ss, es, k - 1), EventsOf(ss, es, k - 1), Sched(ss[k - 1].h, es[k - 1]);
    LastState(a, ss, es, k - 1);
    SchedulerTakes(a, ss, es, k - 1, ms, mes);
    if e.Some? {
      assert StatesOf(ss, es, k) == ms + [ss[k].m] && EventsOf(ss, es, k) == mes + [e.value];
    } else {
      assert StatesOf(ss, es, k) == ms && EventsOf(ss, es, k) == mes;
    }
  }

  lemma SchedulerTakes(a: Arch, ss: seq<Sys>, es: seq<Event>, k: nat, ms: seq<M.State>, mes: seq<M.Event>)
    requires AreSteps(a, ss, es) && k < |es| && MI.IsRun(ms, mes) && ms[|mes|] == ss[k].m
    ensures var e := Sched(ss[k].h, es[k]); e.Some? ==> MI.IsRun(ms + [ss[k + 1].m], mes + [e.value])
  {
    SchedStep(a, ss, es, k);
    var e := Sched(ss[k].h, es[k]);
    if e.Some? {
      RunExtended(ms, mes, e.value);
    }
  }

  // ---------------------------------------------------------------- a task that waits

  lemma StaysQueued(m: M.State, e: M.Event, id: nat)
    requires MI.Inv(m) && M.Enabled(m, e) && Has(m.queue, id) && m.running != M.User(id)
    ensures Has(M.Step(m, e).queue, id)
  {
    var i :| 0 <= i < |m.queue| && m.queue[i].id == id;
    IndexOfHas(m.queue, id, i);
    match e
    case SoftInt => if FirstAwake(m.queue) < |m.queue| { PopStaysQueued(m.queue, id); }
    case Tick => TickStaysQueued(m, id);
    case Sleep(n) => assert SetState(m.queue, m.cur.id, SLEEPING)[i].id == id;
    case Exit => RemoveStaysQueued(m.queue, m.cur.id, id);
    case CreateTask(p, slice) =>
      if |m.queue| < MAX_TASK_NUM { InsertStaysQueued(m.queue, Task(m.nextId, p, RUNNING, slice), id); }
    case _ =>
  }

  lemma InsertStaysQueued(q: seq<Task>, t: Task, id: nat)
    requires Has(q, id) || t.id == id
    ensures Has(Insert(q, t), id)
  {
    var r, s := Insert(q, t), Slot(Priorities(q), t.priority);
    if t.id == id {
      assert r[s].id == id;
    } else {
      var i :| 0 <= i < |q| && q[i].id == id;
      assert r[if i < s then i else i + 1].id == id;
    }
  }

  lemma RemoveStaysQueued(q: seq<Task>, other: nat, id: nat)
    requires Has(q, id) && other != id
    ensures Has(Remove(q, other), id)
  {
    var k := IndexOf(q, other);
    var i :| 0 <= i < |q| && q[i].id == id;
    if k < |q| {
      assert RemoveAt(q, k)[if i < k then i else i - 1].id == id;
    }
  }

  lemma PopStaysQueued(q: seq<Task>, id: nat)
    requires FirstAwake(q) < |q| && Has(q, id)
    ensures Has(Pop(q), id)
  {
    var k := FirstAwake(q);
    var i :| 0 <= i < |q| && q[i].id == id;
    if i != k {
      assert RemoveAt(q, k)[if i < k then i else i - 1].id == id;
    }
    InsertStaysQueued(RemoveAt(q, k), Aged(q[k]), id);
  }

  lemma TickStaysQueued(m: M.State, id: nat)
    requires MI.Inv(m) && !m.msip && Has(m.queue, id)
    ensures Has(M.Handle(m).queue, id)
  {
    MI.CheckFromSafe(m.timers, m.queue, m.ticks + 1, 0);
    var c := M.Check(m.timers, m.queue, m.ticks + 1);
    MI.HandleIsFinish(m, c);
    if c.woken.Some? {
      var i :| 0 <= i < |m.queue| && m.queue[i].id == id;
      assert SetState(m.queue, m.timers[c.woken.value].task, RUNNABLE)[i].id == id;
    }
  }

  /** The context of task id is at p, holds c, and is not on the hart. */
  ghost predicate Parked(s: Sys, id: nat, p: int, c: Context) {
    && Has(s.m.queue, id) && s.m.running != M.User(id)
    && M.User(id) in s.addr && s.addr[M.User(id)] == p && p in s.v.ctxs && s.v.ctxs[p] == c
  }

  lemma ParkedTrap(a: Arch, s: Sys, e: Event, id: nat, p: int, c: Context)
    requires Inv(a, s) && Enabled(a, s, e) && e.Trap? && Parked(s, id, p, c)
    ensures var t := Next(a, s, e);
      && t.addr == s.addr && p in t.v.ctxs && IsContext(c)
      && t.v.ctxs[p] == if t.m.running == M.User(id) then C.Resumed(a, p, c) else c
  {
  }

  lemma ParkedCode(a: Arch, s: Sys, e: Event, id: nat, p: int, c: Context)
    requires Inv(a, s) && Enabled(a, s, e) && !e.Trap? && Parked(s, id, p, c)
    ensures var t := Next(a, s, e);
      && t.m.running == s.m.running
      && M.User(id) in t.addr && t.addr[M.User(id)] == p && p in t.v.ctxs && t.v.ctxs[p] == c
  {
    SchedKeeps(a, s, e);
    ParkedAddress(a, s, e, id, p, c);
    match e
    case Create(_, _, q, _, _) => FreshAddress(a, s.v, q);
    case _ =>
  }

  lemma ParkedAddress(a: Arch, s: Sys, e: Event, id: nat, p: int, c: Context)
    requires Inv(a, s) && Enabled(a, s, e) && !e.Trap? && Parked(s, id, p, c)
    ensures var t := Next(a, s, e); M.User(id) in t.addr && t.addr[M.User(id)] == p
    ensures p != s.v.running
  {
  }

  lemma ParkedQueued(a: Arch, s: Sys, e: Event, id: nat)
    requires Inv(a, s) && Enabled(a, s, e) && Has(s.m.queue, id) && s.m.running != M.User(id)
    ensures Has(Next(a, s, e).m.queue, id)
  {
    if Sched(s.h, e).Some? {
      StaysQueued(s.m, Sched(s.h, e).value, id);
    }
  }

  lemma OnHartNow(a: Arch, s: Sys)
    requires Inv(a, s)
    ensures s.m.running in s.addr && s.addr[s.m.running] in s.v.ctxs && Ok(s.h)
    ensures Live(s.h) == s.v.ctxs[s.addr[s.m.running]] && s.h.mscratch == s.addr[s.m.running]
  {
  }

  /** A parked context stays as it is until the hart switches to it, and then comes back as
      reg_restore loads it. */
  lemma ParkedStep(a: Arch, s: Sys, e: Event, id: nat, p: int, c: Context)
    requires Inv(a, s) && Enabled(a, s, e) && Parked(s, id, p, c)
    ensures var t := Next(a, s, e);
      if t.m.running == M.User(id) then Ok(t.h) && IsContext(c) && Live(t.h) == C.Resumed(a, p, c) && t.h.mscratch == p
      else Parked(t, id, p, c)
  {
    StepKeeps(a, s, e);
    OnHartNow(a, Next(a, s, e));
    ParkedQueued(a, s, e, id);
    if e.Trap? {
      ParkedTrap(a, s, e, id, p, c);
    } else {
      ParkedCode(a, s, e, id, p, c);
    }
  }

  lemma ParkedStays(a: Arch, ss: seq<Sys>, es: seq<Event>, k: nat, id: nat, p: int, c: Context)
    requires IsRun(a, ss, es) && k < |es| && Parked(ss[k], id, p, c) && ss[k + 1].m.running != M.User(id)
    ensures Parked(ss[k + 1], id, p, c)
  {
    RunKeeps(a, ss, es, k);
    assert At(k) && IsStep(a, ss[k], es[k], ss[k + 1]);
    ParkedStep(a, ss[k], es[k], id, p, c);
  }

  lemma ParkedLeaves(a: Arch, ss: seq<Sys>, es: seq<Event>, k: nat, id: nat, p: int, c: Context)
    requires IsRun(a, ss, es) && k < |es| && Parked(ss[k], id, p, c) && ss[k + 1].m.running == M.User(id)
    ensures Ok(ss[k + 1].h) && IsContext(c) && Live(ss[k + 1].h) == C.Resumed(a, p, c) && ss[k + 1].h.mscratch == p
  {
    RunKeeps(a, ss, es, k);
    assert At(k) && IsStep(a, ss[k], es[k], ss[k + 1]);
    ParkedStep(a, ss[k], es[k], id, p, c);
  }

  /** Task id gets the hart back at k and has not had it since i. */
  ghost predicate BackAt(ss: seq<Sys>, i: nat, k: nat, id: nat) {
    i < k < |ss| && ss[k].m.running == M.User(id) && forall j :: i <= j < k ==> ss[j].m.running != M.User(id)
  }

  lemma {:induction false} ParkedReturns(a: Arch, ss: seq<Sys>, es: seq<Event>, i: nat, k: nat, id: nat, p: int,
      c: Context)
    requires IsRun(a, ss, es) && BackAt(ss, i, k, id) && Parked(ss[i], id, p, c)
    ensures Ok(ss[k].h) && IsContext(c) && Live(ss[k].h) == C.Resumed(a, p, c) && ss[k].h.mscratch == p
    decreases k - i
  {
    if i + 1 == k {
      ParkedLeaves(a, ss, es, i, id, p, c);
    } else {
      ParkedStays(a, ss, es, i, id, p, c);
      ParkedReturns(a, ss, es, i + 1, k, id, p, c);
    }
  }

  // ---------------------------------------------------------------- how long a task waits

  lemma {:induction false} ProjectedState(ss: seq<Sys>, es: seq<Event>, k: nat, j: nat) returns (i: nat)
    requires HartsOk(ss) && k <= |es| < |ss| && 0 < j < |StatesOf(ss, es, k)|
    ensures 0 < i <= k && ss[i].m == StatesOf(ss, es, k)[j]
  {
    if Sched(ss[k - 1].h, es[k - 1]).Some? && j == |StatesOf(ss, es, k)| - 1 {
      i := k;
    } else {
      i := ProjectedState(ss, es, k - 1, j);
    }
  }

  lemma {:induction false} FirstTime(ss: seq<Sys>, i: nat, id: nat) returns (k: nat)
    requires i < |ss| && ss[i].m.running == M.User(id) && ss[0].m.running != M.User(id)
    ensures BackAt(ss, 0, k, id)
  {
    if j: nat :| j < i && ss[j].m.running == M.User(id) {
      k := FirstTime(ss, j, id);
    } else {
      k := i;
    }
  }

  lemma GetsHart(ms: seq<M.State>, mes: seq<M.Event>, t: Task) returns (j: nat)
    requires MI.IsRun(ms, mes) && MI.Inv(ms[0]) && MF.Waits(ms[0], t)
    requires MF.SoftInts(mes, 0, |mes|) > F.Wait(ms[0].queue, t.id) + MF.Delays(mes, t.priority, 0, |mes|)
    ensures 0 < j < |ms| && ms[j].running == M.User(t.id)
  {
    if forall i :: 0 < i <= |mes| ==> ms[i].running != M.User(t.id) {
      MF.WaitBoundsSwitches(ms, mes, t, 0, |mes|);
      assert false;
    } else {
      j :| 0 < j <= |mes| && ms[j].running == M.User(t.id);
    }
  }

  /** An awake task of priority at most 256 that is off the hart is switched to before more
      software interrupts have passed it over than its wait allows, and then has every
      register and its pc as they were; only t6 is lost in the 64-bit build. */
  lemma WaitsAndReturns(a: Arch, ss: seq<Sys>, es: seq<Event>, t: Task, p: int, c: Context) returns (k: nat)
    requires IsRun(a, ss, es) && MF.Waits(ss[0].m, t) && Parked(ss[0], t.id, p, c)
    requires var mes := EventsOf(ss, es, |es|);
      MF.SoftInts(mes, 0, |mes|) > F.Wait(ss[0].m.queue, t.id) + MF.Delays(mes, t.priority, 0, |mes|)
    ensures BackAt(ss, 0, k, t.id) && IsContext(c) && Live(ss[k].h) == C.Resumed(a, p, c) && ss[k].h.mscratch == p
  {
    var ms, mes := StatesOf(ss, es, |es|), EventsOf(ss, es, |es|);
    SchedulerRuns(a, ss, es, |es|);
    var j := GetsHart(ms, mes, t);
    var i := ProjectedState(ss, es, |es|, j);
    k := FirstTime(ss, i, t.id);
    ParkedReturns(a, ss, es, 0, k, t.id, p, c);
  }

  // ---------------------------------------------------------------- sleep

  /** The ecall of sleep, made by task id. */
  ghost predicate SleepCall(s: Sys, e: Event, id: nat)
    requires Ok(s.h)
  {
    e.Trap? && T.Dispatch(e.cause).Syscall? && s.h.x[A7] == T.SYS_SLEEP && s.m.running == M.User(id)
  }

  lemma SleepCallSched(a: Arch, s: Sys, e: Event, id: nat)
    requires Inv(a, s) && Enabled(a, s, e) && SleepCall(s, e, id)
    ensures var r := Next(a, s, e).m; r.running == M.User(id) && r.msip && M.Asleep(r.queue, id)
  {
    SleepEvent(a, s, e, id);
    SleepStep(s.m, Unsigned(s.h.x[A0]), id);
  }

  lemma SleepEvent(a: Arch, s: Sys, e: Event, id: nat)
    requires Ok(s.h) && C.Good(s.v) && Enabled(a, s, e) && SleepCall(s, e, id)
    ensures var n := Unsigned(s.h.x[A0]); M.Enabled(s.m, M.Sleep(n)) && Next(a, s, e).m == M.Step(s.m, M.Sleep(n))
  {
    assert Sched(s.h, e) == Some(M.Sleep(Unsigned(s.h.x[A0])));
  }

  lemma SleepStep(m: M.State, n: nat, id: nat)
    requires MI.Inv(m) && M.Enabled(m, M.Sleep(n)) && m.running == M.User(id)
    ensures var r := M.Step(m, M.Sleep(n)); r.running == M.User(id) && r.msip && M.Asleep(r.queue, id)
  {
    MI.SleepIs(m, n);
    MI.SetStateSleepers(m.queue, id, SLEEPING, id);
  }

  lemma SleepCallOnHart(a: Arch, s: Sys, e: Event)
    requires Inv(a, s) && Enabled(a, s, e) && e.Trap? && T.Dispatch(e.cause).Syscall?
    ensures var t := Next(a, s, e);
      && t.addr == s.addr && t.v.running == s.v.running && s.v.running in t.v.ctxs
      && t.v.ctxs[s.v.running] == C.Resumed(a, s.v.running, C.Returned(a, e.cause, Live(s.h)))
  {
    C.EntryHolds(a, s.h, s.v, e.cause);
  }

  lemma SleepCallStep(a: Arch, s: Sys, e: Event, id: nat)
    requires Inv(a, s) && Enabled(a, s, e) && SleepCall(s, e, id)
    ensures var t := Next(a, s, e);
      && t.m.running == M.User(id) && t.m.msip && M.Asleep(t.m.queue, id)
      && t.addr == s.addr && Ok(t.h)
      && Live(t.h) == C.Resumed(a, s.v.running, C.Returned(a, e.cause, Live(s.h)))
  {
    StepKeeps(a, s, e);
    OnHartNow(a, Next(a, s, e));
    SleepCallSched(a, s, e, id);
    SleepCallOnHart(a, s, e);
  }

  /** Task id has called sleep, and the switch is pending. */
  ghost predicate Pending(s: Sys, id: nat, p: int, c: Context) {
    && s.m.running == M.User(id) && s.m.msip && M.Asleep(s.m.queue, id)
    && M.User(id) in s.addr && s.addr[M.User(id)] == p && Ok(s.h) && Live(s.h) == c
  }

  lemma PendingSwitch(a: Arch, s: Sys, e: Event, id: nat, p: int, c: Context)
    requires Inv(a, s) && Enabled(a, s, e) && Pending(s, id, p, c) && e.Trap? && T.Dispatch(e.cause).Software?
    ensures Parked(Next(a, s, e), id, p, c)
  {
    var q, i := s.m.queue, FirstAwake(s.m.queue);
    assert q[IndexOf(q, id)].id == id;
    if i < |q| {
      IndexOfHas(q, q[i].id, i);
      PopStaysQueued(q, id);
    }
  }

  lemma PendingInterrupt(a: Arch, s: Sys, e: Event, id: nat, p: int, c: Context)
    requires Inv(a, s) && Enabled(a, s, e) && Pending(s, id, p, c) && e.Trap? && !T.Dispatch(e.cause).Software?
    requires IsContext(c) && C.Resumed(a, p, c) == c
    ensures Pending(Next(a, s, e), id, p, c)
  {
    C.EntryHolds(a, s.h, s.v, e.cause);
    StepKeeps(a, s, e);
    OnHartNow(a, Next(a, s, e));
  }

  /** Until the switch that task_delay asked for only interrupts are taken, and then the hart
      leaves the sleeper. */
  lemma SleeperLeaves(a: Arch, s: Sys, e: Event, id: nat, p: int, c: Context)
    requires Inv(a, s) && Enabled(a, s, e) && Pending(s, id, p, c) && IsContext(c) && C.Resumed(a, p, c) == c
    ensures var t := Next(a, s, e); if t.m.running == M.User(id) then Pending(t, id, p, c) else Parked(t, id, p, c)
  {
    assert e.Trap?;
    if T.Dispatch(e.cause).Software? {
      PendingSwitch(a, s, e, id, p, c);
    } else {
      PendingInterrupt(a, s, e, id, p, c);
    }
  }

  lemma SleeperRunStep(a: Arch, ss: seq<Sys>, es: seq<Event>, j: nat, id: nat, p: int, c: Context)
    requires IsRun(a, ss, es) && j < |es| && Pending(ss[j], id, p, c) && IsContext(c) && C.Resumed(a, p, c) == c
    ensures if ss[j + 1].m.running == M.User(id) then Pending(ss[j + 1], id, p, c) else Parked(ss[j + 1], id, p, c)
  {
    RunKeeps(a, ss, es, j);
    assert At(j) && IsStep(a, ss[j], es[j], ss[j + 1]);
    SleeperLeaves(a, ss[j], es[j], id, p, c);
  }

  lemma {:induction false} PendingUntil(a: Arch, ss: seq<Sys>, es: seq<Event>, i: nat, j: nat, id: nat, p: int,
      c: Context)
    requires IsRun(a, ss, es) && i <= j < |ss| && Pending(ss[i], id, p, c) && IsContext(c) && C.Resumed(a, p, c) == c
    requires forall l :: i < l <= j ==> ss[l].m.running == M.User(id)
    ensures Pending(ss[j], id, p, c)
    decreases j - i
  {
    if i < j {
      PendingUntil(a, ss, es, i, j - 1, id, p, c);
      SleeperRunStep(a, ss, es, j - 1, id, p, c);
    }
  }

  /** A task that calls sleep comes back, whatever the other tasks, the timers and external
      interrupts do meanwhile, behind its ecall, with 0 in a0 and every other register as it was;
      only t6 is lost in the 64-bit build.  It has the hart from i to j, and again from k. */
  lemma SleepReturns(a: Arch, ss: seq<Sys>, es: seq<Event>, i: nat, j: nat, k: nat, id: nat)
    requires IsRun(a, ss, es) && i < |es| && SleepCall(ss[i], es[i], id)
    requires i < j && BackAt(ss, j, k, id) && forall l :: i < l < j ==> ss[l].m.running == M.User(id)
    ensures M.User(id) in ss[i].addr
    ensures var h, g, p := ss[i].h, ss[k].h, ss[i].addr[M.User(id)];
      && (forall r: reg :: r != 0 && r != A0 && r != T6 ==> g.x[r] == h.x[r])
      && g.x[A0] == 0 && g.pc == (h.pc + 4) % T.Words(a) && g.mscratch == p
      && g.x[T6] == if a.RV32? then h.x[T6] else p
  {
    var p, c := SleeperParked(a, ss, es, i, j, id);
    ParkedReturns(a, ss, es, j, k, id, p, c);
    ContextOfSleeper(a, es[i].cause, ss[i].h, ss[k].h, p);
  }

  lemma SleeperPending(a: Arch, ss: seq<Sys>, es: seq<Event>, i: nat, id: nat) returns (p: int, c: Context)
    requires IsRun(a, ss, es) && i < |es| && SleepCall(ss[i], es[i], id)
    ensures M.User(id) in ss[i].addr && p == ss[i].addr[M.User(id)]
    ensures c == C.Resumed(a, p, C.Returned(a, es[i].cause, Live(ss[i].h)))
    ensures Pending(ss[i + 1], id, p, c)
  {
    RunKeeps(a, ss, es, i);
    assert At(i) && IsStep(a, ss[i], es[i], ss[i + 1]);
    SleepCallStep(a, ss[i], es[i], id);
    p, c := ss[i].addr[M.User(id)], Live(ss[i + 1].h);
  }

  lemma SleeperParked(a: Arch, ss: seq<Sys>, es: seq<Event>, i: nat, j: nat, id: nat) returns (p: int, c: Context)
    requires IsRun(a, ss, es) && i < |es| && SleepCall(ss[i], es[i], id)
    requires i < j < |ss| && ss[j].m.running != M.User(id) && forall l :: i < l < j ==> ss[l].m.running == M.User(id)
    ensures M.User(id) in ss[i].addr && p == ss[i].addr[M.User(id)]
    ensures c == C.Resumed(a, p, C.Returned(a, es[i].cause, Live(ss[i].h)))
    ensures Parked(ss[j], id, p, c)
  {
    p, c := SleeperPending(a, ss, es, i, id);
    PendingUntil(a, ss, es, i + 1, j - 1, id, p, c);
    SleeperRunStep(a, ss, es, j - 1, id, p, c);
  }

  /** The registers of a context that went through an ecall and was switched out and in. */
  lemma ContextOfSleeper(a: Arch, cause: int, h: State, g: State, p: int)
    requires Ok(h) && Ok(g) && T.Dispatch(cause).Syscall? && h.x[A7] == T.SYS_SLEEP
    requires Live(g) == C.Resumed(a, p, C.Resumed(a, p, C.Returned(a, cause, Live(h))))
    ensures forall r: reg :: r != 0 && r != A0 && r != T6 ==> g.x[r] == h.x[r]
    ensures g.x[A0] == 0 && g.pc == (h.pc + 4) % T.Words(a) && g.x[T6] == if a.RV32? then h.x[T6] else p
  {
    forall r: reg | r != 0 ensures g.x[r] == Live(g).regs[r - 1] && h.x[r] == Live(h).regs[r - 1] {
    }
  }
}
