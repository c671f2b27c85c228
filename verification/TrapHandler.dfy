/** trap_handler and do_syscall on top of the kernel: os/trap.c:39-87 and os/syscall.c:9-30. */
module TrapHandler {
  import opened Flags
  import opened Hart
  import T = Trap
  import M = Machine
  import MI = MachineInv
  import K = Kernel

  /** The event of the scheduling machine that a trap stands for, if it is one.  number and
      argument are a7 and a0 of the interrupted context. */
  function EventOf(cause: int, number: int, argument: nat): Option<M.Event> {
    match T.Dispatch(cause)
    case Software => Some(M.SoftInt)
    case Timer => Some(M.Tick)
    case Syscall => if number == T.SYS_SLEEP then Some(M.Sleep(argument)) else None
    case _ => None
  }

  /** Where the trap ends: back in the interrupted code at epc, with a0 changed by a system call,
      or in panic's loop.  A handler that switches does not come back, and then the context that
      runs next is the kernel's onHart. */
  datatype Outcome = Resumes(epc: int, a0: Option<int>) | Panics

  function OutcomeOf(a: Arch, epc: int, cause: int, number: int): Outcome {
    match T.Dispatch(cause)
    case Panic => Panics
    case Syscall => Resumes(T.ReturnEpc(a, cause, epc), Some(T.SyscallResult(a, number)))
    case _ => Resumes(T.ReturnEpc(a, cause, epc), None)
  }

  /** Which cause takes which step of the scheduling machine: interrupt 3 a switch, interrupt 7 a tick,
      and an environment call with number 1 in a7 a sleep for as many ticks as a0 says; nothing else
      does anything to it. */
  lemma EventIff(a: Arch, interrupt: bool, code: nat, number: int, argument: nat)
    requires code < T.BIT31
    ensures var e := EventOf(T.CauseOf(a, interrupt, code), number, argument);
      && (e == Some(M.SoftInt) <==> interrupt && code == 3)
      && (e == Some(M.Tick) <==> interrupt && code == 7)
      && (e == Some(M.Sleep(argument)) <==> !interrupt && (code == 8 || code == 9 || code == 11) && number == 1)
      && (e == None || e == Some(M.SoftInt) || e == Some(M.Tick) || e == Some(M.Sleep(argument)))
  {
    T.DispatchIff(a, interrupt, code);
  }

  /** Where each cause ends: every interrupt back where it hit with a0 untouched, an environment call
      four bytes further with 0 for sleep and with -1, in two's complement, for any other number, and
      every other exception in panic. */
  lemma OutcomeIs(a: Arch, interrupt: bool, code: nat, epc: int, number: int)
    requires code < T.BIT31 && 0 <= epc < T.Words(a)
    ensures var r := OutcomeOf(a, epc, T.CauseOf(a, interrupt, code), number);
      if interrupt then r == Resumes(epc, None)
      else if code == 8 || code == 9 || code == 11 then
        && r.Resumes? && r.epc == (if epc + 4 < T.Words(a) then epc + 4 else epc + 4 - T.Words(a))
        && r.a0.Some? && 0 <= r.a0.value < T.Words(a)
        && (if number == 1 then r.a0.value == 0 else r.a0.value + 1 == T.Words(a))
      else r == Panics
  {
    T.DispatchIff(a, interrupt, code);
  }

  method TrapHandler(a: Arch, k: K.Kernel, epc: int, cause: int, number: int, argument: nat) returns (r: Outcome)
    requires k.Valid() && MI.Inv(k.View())
    requires var e := EventOf(cause, number, argument); e.Some? ==> M.Enabled(k.View(), e.value)
    modifies k, k.queue, k.queue.nodes, k.timers, k.timers.nodes
    ensures k.Valid() && MI.Inv(k.View())
    ensures var e := EventOf(cause, number, argument);
      k.View() == if e.Some? then M.Step(old(k.View()), e.value) else old(k.View())
    ensures r == OutcomeOf(a, epc, cause, number)
  {
    var returnEpc, a0 := epc, None;
    match T.Dispatch(cause) {
    case Software => k.Take(M.SoftInt, null);
    case Timer => k.Take(M.Tick, null);
    case External =>
    case Ignored =>
    case Syscall =>
      a0 := DoSyscall(a, k, number, argument);
      returnEpc := (returnEpc + 4) % T.Words(a);
    case Panic =>
      return Panics;
    }
    r := Resumes(returnEpc, a0);
  }

  method DoSyscall(a: Arch, k: K.Kernel, number: int, argument: nat) returns (a0: Option<int>)
    requires k.Valid() && MI.Inv(k.View())
    requires number == T.SYS_SLEEP ==> M.Enabled(k.View(), M.Sleep(argument))
    modifies k, k.queue, k.queue.nodes, k.timers, k.timers.nodes
    ensures k.Valid() && MI.Inv(k.View())
    ensures k.View() == if number == T.SYS_SLEEP then M.Step(old(k.View()), M.Sleep(argument)) else old(k.View())
    ensures a0 == Some(T.SyscallResult(a, number))
  {
    if number == T.SYS_SLEEP {
      k.Take(M.Sleep(argument), null);
      a0 := Some(0);
    } else {
      a0 := Some(T.Words(a) - 1);
    }
  }
}
