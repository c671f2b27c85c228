/** os/trap.c: how a trap is told apart and where it resumes; os/syscall.c: what a system call
    returns. */
module Trap {
  import opened Hart

  /** 2 to the power of XLEN. */
  function Words(a: Arch): nat { if a.RV32? then 0x1_0000_0000 else 0x1_0000_0000_0000_0000 }

  /** MXLEN is 32 in either build, so the bit tested is bit 31; 1 << 31 is negative, so in the
      64-bit build the mask covers bits 31 to 63. */
  const BIT31 := 0x8000_0000

  predicate IsInterrupt(cause: int) { cause / BIT31 != 0 }

  function CauseCode(cause: int): int { cause % BIT31 }

  datatype Action = Software | Timer | External | Ignored | Syscall | Panic

  function Dispatch(cause: int): Action {
    var code := CauseCode(cause);
    if IsInterrupt(cause) then
      if code == 3 then Software else if code == 7 then Timer else if code == 11 then External else Ignored
    else
      if code == 8 || code == 9 || code == 11 then Syscall else Panic
  }

  /** mcause as the hart sets it: the top bit of the register, and a code below it. */
  function CauseOf(a: Arch, interrupt: bool, code: nat): nat {
    (if interrupt then Words(a) / 2 else 0) + code
  }

  /** In both builds the handler finds the interrupt bit and the code, although it tests bit 31
      and not bit XLEN - 1. */
  lemma CauseDecodes(a: Arch, interrupt: bool, code: nat)
    requires code < BIT31
    ensures IsInterrupt(CauseOf(a, interrupt, code)) == interrupt
    ensures CauseCode(CauseOf(a, interrupt, code)) == code
  {
    var high := if a.RV32? then 1 else 0x1_0000_0000;
    if interrupt {
      assert CauseOf(a, interrupt, code) == high * BIT31 + code;
    }
  }

  /** What each interrupt and each exception leads to, in both builds. */
  lemma DispatchIff(a: Arch, interrupt: bool, code: nat)
    requires code < BIT31
    ensures var d := Dispatch(CauseOf(a, interrupt, code));
      && (d == Software <==> interrupt && code == 3)
      && (d == Timer <==> interrupt && code == 7)
      && (d == External <==> interrupt && code == 11)
      && (d == Ignored <==> interrupt && code != 3 && code != 7 && code != 11)
      && (d == Syscall <==> !interrupt && (code == 8 || code == 9 || code == 11))
      && (d == Panic <==> !interrupt && code != 8 && code != 9 && code != 11)
  {
    CauseDecodes(a, interrupt, code);
  }

  /** A code that needs bit 31 is taken for an interrupt in the 64-bit build. */
  lemma LargeCodeMistaken(code: nat)
    requires code < 0x8000_0000_0000_0000
    ensures IsInterrupt(CauseOf(RV64, false, code)) <==> code >= BIT31
  {
  }

  /** The address the handler returns. */
  function ReturnEpc(a: Arch, cause: int, epc: int): int {
    if Dispatch(cause).Syscall? then (epc + 4) % Words(a) else epc
  }

  const SYS_SLEEP := 1

  /** What do_syscall leaves in a0: 0, or -1 for an unknown number. */
  function SyscallResult(a: Arch, number: int): int {
    if number == SYS_SLEEP then 0 else Words(a) - 1
  }
}
