/** Whole runs of a hart that switches between contexts.  The hart is compared with a machine
    in which every context has registers of its own. */
module ContextRuns {
  import opened Hart
  import opened Trap

  /** Every context with a register file of its own: what a task may believe. */
  datatype View = View(running: int, ctxs: map<int, Context>)

  predicate Good(v: View) {
    v.running in v.ctxs && forall p :: p in v.ctxs ==> IsContext(v.ctxs[p])
  }

  ghost predicate Inv(a: Arch, v: View) {
    && Good(v)
    && (forall p, q :: p in v.ctxs && q in v.ctxs ==> p == q || Disjoint(a, p, q))
  }

  predicate Disjoint(a: Arch, p: int, q: int) { p + 32 * Bytes(a) <= q || q + 32 * Bytes(a) <= p }

  /** The hart runs the view: mscratch points to the running context, the live registers are its
      registers, and every other context is in memory. */
  ghost predicate Runs(a: Arch, h: State, v: View) {
    && Ok(h) && h.x[0] == 0 && h.mscratch == v.running
    && v.running in v.ctxs && Live(h) == v.ctxs[v.running]
    && (forall p :: p in v.ctxs && p != v.running ==> Holds(a, h.mem, p, v.ctxs[p]))
  }

  /** Where the code that cannot be seen leaves the hart; x0 is hardwired to zero. */
  type Core = h: State | Ok(h) && h.x[0] == 0 witness State(seq(32, i => 0), map[], 0, 0, 0, 0)

  datatype End = Return | Switch

  /** A task, or the kernel, runs on to k; a trap, with k the hart when the C handler returns or
      calls switch_to; task_create, which leaves memory m; a task that exited is forgotten. */
  datatype Event =
    | Code(k: Core)
    | Trap(cause: int, k: Core, end: End)
    | Create(p: int, c: Context, m: map<int, int>)
    | Forget(p: int)

  /** The hardware's part of a trap. */
  function Taken(h: State, cause: int): (k: State)
    requires Ok(h)
    ensures Ok(k)
  {
    h.(mepc := h.pc, mcause := cause)
  }

  /** C code does not touch the contexts in memory. */
  ghost predicate CtxsKept(a: Arch, m: map<int, int>, n: map<int, int>, v: View) {
    forall p :: p in v.ctxs ==> CtxKept(a, m, n, p)
  }

  ghost predicate CtxKept(a: Arch, m: map<int, int>, n: map<int, int>, p: int) {
    forall i: nat :: i < 32 ==> Read(n, WordAt(a, p, i)) == Read(m, WordAt(a, p, i))
  }

  /** do_syscall writes the a0 word of the running context, which is word 9; a7 is word 16. */
  function AfterHandler(a: Arch, g: State): map<int, int> {
    if Dispatch(g.mcause).Syscall? then
      g.mem[WordAt(a, g.mscratch, 9) := SyscallResult(a, Read(g.mem, WordAt(a, g.mscratch, 16)))]
    else g.mem
  }

  /** What trap_handler may do between trap entry, which leaves the hart in g, and its end in k:
      everything to the registers, everything to memory but the contexts.  schedule always ends
      in switch_to, timer_handler either way, and a panic does not end. */
  ghost predicate Handled(a: Arch, g: State, k: Core, v: View, end: End) {
    && k.mscratch == g.mscratch && CtxsKept(a, AfterHandler(a, g), k.mem, v)
    && match end
       case Return => !Dispatch(g.mcause).Software? && !Dispatch(g.mcause).Panic?
           && k.x[A0] == ReturnEpc(a, g.mcause, g.mepc)
       case Switch => (Dispatch(g.mcause).Software? || Dispatch(g.mcause).Timer?) && k.x[A0] in v.ctxs
  }

  ghost predicate Enabled(a: Arch, h: State, v: View, e: Event)
    requires Ok(h)
  {
    match e
    case Code(k) => k.mscratch == h.mscratch && CtxsKept(a, h.mem, k.mem, v)
    case Trap(cause, k, end) => Handled(a, Entered(a, Taken(h, cause)), k, v, end)
    case Create(p, c, m) =>
      && (forall q :: q in v.ctxs ==> Disjoint(a, p, q))
      && CtxsKept(a, h.mem, m, v) && Holds(a, m, p, c)
    case Forget(p) => p != v.running
  }

  function Next(a: Arch, h: State, e: Event): (k: State)
    requires Ok(h)
    ensures Ok(k)
  {
    match e
    case Code(k) => k
    case Trap(cause, k, end) =>
      if end.Return? then ExecAll(a, k, TrapExit(a)) else ExecAll(a, k, SwitchTo(a))
    case Create(p, c, m) => h.(mem := m)
    case Forget(p) => h
  }

  /** A context as reg_restore brings it back: the 64-bit build does not load t6. */
  function Resumed(a: Arch, p: int, c: Context): (r: Context)
    requires IsContext(c)
    ensures IsContext(r)
  {
    if a.RV32? then c else c.(regs := c.regs[30 := p])
  }

  /** What the running context is after the handler returned to it. */
  function Returned(a: Arch, cause: int, c: Context): (r: Context)
    requires IsContext(c)
    ensures IsContext(r)
  {
    if Dispatch(cause).Syscall? then
      Context(c.regs[9 := SyscallResult(a, c.regs[16])], ReturnEpc(a, cause, c.pc))
    else c
  }

  function After(a: Arch, v: View, e: Event): (w: View)
    requires Good(v)
    ensures Good(w)
  {
    match e
    case Code(k) => v.(ctxs := v.ctxs[v.running := Live(k)])
    case Trap(cause, k, end) =>
      if end.Return? then
        v.(ctxs := v.ctxs[v.running := Resumed(a, v.running, Returned(a, cause, v.ctxs[v.running]))])
      else if k.x[A0] in v.ctxs then
        View(k.x[A0], v.ctxs[k.x[A0] := Resumed(a, k.x[A0], v.ctxs[k.x[A0]])])
      else v
    case Create(p, c, m) => if IsContext(c) then v.(ctxs := v.ctxs[p := c]) else v
    case Forget(p) => if p == v.running then v else v.(ctxs := v.ctxs - {p})
  }

  // ---------------------------------------------------------------- every step is simulated

  lemma DisjointOutside(a: Arch, p: int, q: int, k: nat)
    requires Disjoint(a, p, q) && k < 32
    ensures Outside(a, p, WordAt(a, q, k))
  {
    forall j: nat | j < 32 ensures WordAt(a, q, k) != WordAt(a, p, j) {
    }
  }

  /** After trap entry every context, the running one too, is in memory. */
  lemma EntryHolds(a: Arch, h: State, v: View, cause: int)
    requires Inv(a, v) && Runs(a, h, v)
    ensures var g := Entered(a, Taken(h, cause));
      && g.mscratch == v.running && g.mepc == h.pc && g.mcause == cause
      && forall p :: p in v.ctxs ==> Holds(a, g.mem, p, v.ctxs[p])
  {
    EntrySaves(a, Taken(h, cause));
    var g := Entered(a, Taken(h, cause));
    forall p | p in v.ctxs ensures Holds(a, g.mem, p, v.ctxs[p]) {
      if p != v.running {
        forall k: nat | k < 32 ensures Read(g.mem, WordAt(a, p, k)) == Read(h.mem, WordAt(a, p, k)) {
          DisjointOutside(a, v.running, p, k);
        }
      }
    }
  }

  lemma KeptHolds(a: Arch, m: map<int, int>, n: map<int, int>, p: int, c: Context)
    requires CtxKept(a, m, n, p) && Holds(a, m, p, c)
    ensures Holds(a, n, p, c)
  {
    assert Read(n, WordAt(a, p, 31)) == Read(m, WordAt(a, p, 31));
    forall k | 0 <= k < 31 ensures Read(n, WordAt(a, p, k)) == c.regs[k] {
      assert Read(n, WordAt(a, p, k)) == Read(m, WordAt(a, p, k));
    }
  }

  lemma RestoredIs(a: Arch, h: State, p: int, c: Context)
    requires Ok(h) && Restored(a, h.x, p, c)
    ensures Live(h) == Resumed(a, p, c).(pc := h.pc)
  {
    assert Live(h).regs == Resumed(a, p, c).regs;
  }

  /** The running context as the system call leaves it in memory, and every other context. */
  lemma HandlerHolds(a: Arch, g: State, v: View)
    requires Inv(a, v) && g.mscratch == v.running && forall p :: p in v.ctxs ==> Holds(a, g.mem, p, v.ctxs[p])
    ensures var c := v.ctxs[v.running];
      Holds(a, AfterHandler(a, g), v.running, Returned(a, g.mcause, c).(pc := c.pc))
    ensures forall p :: p in v.ctxs && p != v.running ==> Holds(a, AfterHandler(a, g), p, v.ctxs[p])
  {
    var n, c := AfterHandler(a, g), v.ctxs[v.running];
    if Dispatch(g.mcause).Syscall? {
      forall k: nat | k < 32 && k != 9
          ensures Read(n, WordAt(a, v.running, k)) == Read(g.mem, WordAt(a, v.running, k)) {
        WordsDiffer(a, v.running, k, 9);
      }
      forall p | p in v.ctxs && p != v.running ensures Holds(a, n, p, v.ctxs[p]) {
        forall k: nat | k < 32 ensures Read(n, WordAt(a, p, k)) == Read(g.mem, WordAt(a, p, k)) {
          DisjointOutside(a, v.running, p, k);
        }
      }
    }
  }

  /** The hart when the handler is done: every context but the running one is as it was, and
      the running one is what its task is to see next. */
  lemma HandledHolds(a: Arch, h: State, v: View, cause: int, k: Core, end: End)
    requires Inv(a, v) && Runs(a, h, v) && Handled(a, Entered(a, Taken(h, cause)), k, v, end)
    ensures var c := v.ctxs[v.running];
      && Holds(a, k.mem, v.running, Returned(a, cause, c).(pc := c.pc))
      && k.mscratch == v.running
    ensures forall p :: p in v.ctxs && p != v.running ==> Holds(a, k.mem, p, v.ctxs[p])
  {
    EntryHolds(a, h, v, cause);
    var g, c := Entered(a, Taken(h, cause)), v.ctxs[v.running];
    HandlerHolds(a, g, v);
    var n := AfterHandler(a, g);
    KeptHolds(a, n, k.mem, v.running, Returned(a, cause, c).(pc := c.pc));
    forall p | p in v.ctxs && p != v.running ensures Holds(a, k.mem, p, v.ctxs[p]) {
      KeptHolds(a, n, k.mem, p, v.ctxs[p]);
    }
  }

  lemma ReturnSimulates(a: Arch, h: State, v: View, cause: int, k: Core)
    requires Inv(a, v) && Runs(a, h, v) && Enabled(a, h, v, Event.Trap(cause, k, Return))
    ensures Runs(a, Next(a, h, Event.Trap(cause, k, Return)), After(a, v, Event.Trap(cause, k, Return)))
  {
    EntryHolds(a, h, v, cause);
    HandledHolds(a, h, v, cause, k, Return);
    var c := v.ctxs[v.running];
    var r := Returned(a, cause, c).(pc := c.pc);
    ExitRestores(a, k, r);
    RestoredIs(a, Next(a, h, Event.Trap(cause, k, Return)), v.running, r);
  }

  lemma SwitchSimulates(a: Arch, h: State, v: View, cause: int, k: Core)
    requires Inv(a, v) && Runs(a, h, v) && Enabled(a, h, v, Event.Trap(cause, k, Switch))
    ensures Runs(a, Next(a, h, Event.Trap(cause, k, Switch)), After(a, v, Event.Trap(cause, k, Switch)))
  {
    EntryHolds(a, h, v, cause);
    HandledHolds(a, h, v, cause, k, Switch);
    var p := k.x[A0];
    assert Holds(a, k.mem, p, v.ctxs[p]);
    SwitchRestores(a, k, v.ctxs[p]);
    RestoredIs(a, Next(a, h, Event.Trap(cause, k, Switch)), p, v.ctxs[p]);
  }

  lemma CreateSimulates(a: Arch, h: State, v: View, p: int, c: Context, m: map<int, int>)
    requires Inv(a, v) && Runs(a, h, v) && IsContext(c) && Enabled(a, h, v, Create(p, c, m))
    ensures Runs(a, Next(a, h, Create(p, c, m)), After(a, v, Create(p, c, m))) && Inv(a, After(a, v, Create(p, c, m)))
  {
    assert p !in v.ctxs;
    forall q | q in v.ctxs && q != v.running ensures Holds(a, m, q, v.ctxs[q]) {
      KeptHolds(a, h.mem, m, q, v.ctxs[q]);
    }
  }

  lemma CodeSimulates(a: Arch, h: State, v: View, k: Core)
    requires Inv(a, v) && Runs(a, h, v) && Enabled(a, h, v, Code(k))
    ensures Runs(a, Next(a, h, Code(k)), After(a, v, Code(k)))
  {
    forall q | q in v.ctxs && q != v.running ensures Holds(a, k.mem, q, v.ctxs[q]) {
      KeptHolds(a, h.mem, k.mem, q, v.ctxs[q]);
    }
  }

  lemma AfterKeepsInv(a: Arch, h: State, v: View, e: Event)
    requires Inv(a, v) && Ok(h) && Enabled(a, h, v, e)
    ensures Inv(a, After(a, v, e))
  {
  }

  /** Every step of the hart, trap entry and exit instruction by instruction, is one step of the
      machine with separate registers. */
  lemma StepSimulates(a: Arch, h: State, v: View, e: Event)
    requires Inv(a, v) && Runs(a, h, v) && Enabled(a, h, v, e)
    ensures Runs(a, Next(a, h, e), After(a, v, e)) && Inv(a, After(a, v, e))
  {
    AfterKeepsInv(a, h, v, e);
    match e
    case Code(k) => CodeSimulates(a, h, v, k);
    case Trap(cause, k, end) =>
      if end.Return? {
        ReturnSimulates(a, h, v, cause, k);
      } else {
        SwitchSimulates(a, h, v, cause, k);
      }
    case Create(p, c, m) => CreateSimulates(a, h, v, p, c, m);
    case Forget(p) =>
  }

  // ---------------------------------------------------------------- runs

  function HartAfter(a: Arch, h: State, es: seq<Event>): (k: State)
    requires Ok(h)
    ensures Ok(k)
    decreases |es|
  {
    if es == [] then h else HartAfter(a, Next(a, h, es[0]), es[1..])
  }

  function ViewAfter(a: Arch, v: View, es: seq<Event>): (w: View)
    requires Good(v)
    ensures Good(w)
    decreases |es|
  {
    if es == [] then v else ViewAfter(a, After(a, v, es[0]), es[1..])
  }

  ghost predicate IsRun(a: Arch, h: State, v: View, es: seq<Event>)
    requires Ok(h) && Good(v)
    decreases |es|
  {
    es == [] || (Enabled(a, h, v, es[0]) && IsRun(a, Next(a, h, es[0]), After(a, v, es[0]), es[1..]))
  }

  /** At every point of every run mscratch points to the running context, its registers are on
      the hart, and all the others are in memory. */
  lemma {:induction false} RunSimulates(a: Arch, h: State, v: View, es: seq<Event>)
    requires Inv(a, v) && Runs(a, h, v) && IsRun(a, h, v, es)
    ensures Runs(a, HartAfter(a, h, es), ViewAfter(a, v, es)) && Inv(a, ViewAfter(a, v, es))
    decreases |es|
  {
    if es != [] {
      StepSimulates(a, h, v, es[0]);
      RunSimulates(a, Next(a, h, es[0]), After(a, v, es[0]), es[1..]);
    }
  }

  /** p does not run until the last event of es, and runs after it. */
  ghost predicate FirstBack(a: Arch, v: View, es: seq<Event>, p: int)
    requires Good(v)
    decreases |es|
  {
    es != [] && es[0] != Forget(p) &&
    var w := After(a, v, es[0]);
    if |es| == 1 then w.running == p else w.running != p && FirstBack(a, w, es[1..], p)
  }

  /** A context that waits does not change, and comes back as reg_restore loads it. */
  lemma {:induction false} ComesBack(a: Arch, h: State, v: View, es: seq<Event>, p: int)
    requires Inv(a, v) && Runs(a, h, v) && IsRun(a, h, v, es)
    requires p in v.ctxs && p != v.running && FirstBack(a, v, es, p)
    ensures ViewAfter(a, v, es).running == p && Live(HartAfter(a, h, es)) == Resumed(a, p, v.ctxs[p])
    decreases |es|
  {
    StepSimulates(a, h, v, es[0]);
    var k, w := Next(a, h, es[0]), After(a, v, es[0]);
    if |es| == 1 {
      assert es[1..] == [];
    } else {
      assert w.ctxs[p] == v.ctxs[p];
      ComesBack(a, k, w, es[1..], p);
    }
  }

  /** Context integrity: a task that is switched out, in whatever way the run goes on until the
      hart switches back to it, finds all its registers and its pc as they were, in the 32-bit
      build always and in the 64-bit build exactly if its t6 held the address of its own
      context. */
  lemma SwitchedBack(a: Arch, h: State, v: View, out: Event, es: seq<Event>)
    requires Inv(a, v) && Runs(a, h, v)
    requires out.Trap? && IsRun(a, h, v, [out] + es)
    requires After(a, v, out).running != v.running && FirstBack(a, After(a, v, out), es, v.running)
    ensures var k := HartAfter(a, h, [out] + es);
      && k.mscratch == v.running
      && Live(k) == Resumed(a, v.running, Live(h))
      && (Live(k) == Live(h) <==> a.RV32? || h.x[T6] == v.running)
  {
    assert ([out] + es)[1..] == es;
    var k, w := Next(a, h, out), After(a, v, out);
    StepSimulates(a, h, v, out);
    ComesBack(a, k, w, es, v.running);
    RunSimulates(a, k, w, es);
    ResumedIsSame(a, v.running, Live(h));
  }

  lemma ResumedIsSame(a: Arch, p: int, c: Context)
    requires IsContext(c)
    ensures Resumed(a, p, c) == c <==> a.RV32? || c.regs[30] == p
  {
    if a.RV64? {
      assert c.regs[30 := p][30] == p;
    }
  }

  /** An ecall resumes at the next instruction with the result of the system call in a0 and
      every other register as it was; any other trap that returns resumes where it hit. */
  lemma TrapReturns(a: Arch, h: State, v: View, cause: int, k: Core)
    requires Inv(a, v) && Runs(a, h, v) && Enabled(a, h, v, Event.Trap(cause, k, Return))
    ensures var r := Next(a, h, Event.Trap(cause, k, Return));
      && (forall i: reg :: i != T6 && !(i == A0 && Dispatch(cause).Syscall?) ==> r.x[i] == h.x[i])
      && r.x[T6] == (if a.RV32? then h.x[T6] else v.running)
      && (if Dispatch(cause).Syscall? then r.x[A0] == SyscallResult(a, h.x[A7]) && r.pc == (h.pc + 4) % Words(a)
          else r.pc == h.pc)
  {
    ReturnSimulates(a, h, v, cause, k);
    var r := Next(a, h, Event.Trap(cause, k, Return));
    forall i: reg | i != 0 ensures h.x[i] == Live(h).regs[i - 1] && r.x[i] == Live(r).regs[i - 1] {
    }
  }

  /** The 64-bit restore at work: an external interrupt whose handler touches nothing leaves
      the address of the context in a t6 that held 0. */
  lemma AsWritten64LosesT6()
    ensures exists h, v, cause, k: Core ::
      && Inv(RV64, v) && Runs(RV64, h, v) && Dispatch(cause).External?
      && Enabled(RV64, h, v, Event.Trap(cause, k, Return))
      && h.x[T6] == 0 && Next(RV64, h, Event.Trap(cause, k, Return)).x[T6] == 4096
  {
    var h := State(seq(32, i => 0), map[], 4096, 0, 0, 0);
    var v := View(4096, map[4096 := Live(h)]);
    var cause := CauseOf(RV64, true, 11);
    EntrySaves(RV64, Taken(h, cause));
    var k := Entered(RV64, Taken(h, cause));
    TrapReturns(RV64, h, v, cause, k);
  }
}
