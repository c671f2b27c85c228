/** A hart that changes state instruction by instruction, and takes traps with the code of
    os/entry.S. */
module Processor {
  import opened Hart
  import C = ContextRuns

  class Processor {
    const arch: Arch
    const x: array<int>
    var mem: map<int, int>
    var mscratch: int
    var mepc: int
    var mcause: int
    var pc: int

    ghost predicate Valid() { x.Length == 32 }

    ghost function View(): (h: State)
      reads this, x
      requires Valid()
      ensures Ok(h)
    {
      State(x[..], mem, mscratch, mepc, mcause, pc)
    }

    constructor (arch: Arch, entry: int, context: int)
      ensures Valid() && fresh(x) && this.arch == arch
      ensures View() == State(seq(32, i => 0), map[], context, 0, 0, entry)
    {
      this.arch, mem, mscratch, mepc, mcause, pc := arch, map[], context, 0, 0, entry;
      x := new int[32](i => 0);
      new;
      assert x[..] == seq(32, i => 0);
    }

    method SetReg(r: reg, v: int)
      requires Valid()
      modifies x
      ensures View() == Hart.SetReg(old(View()), r, v)
    {
      if r != 0 {
        x[r] := v;
      }
    }

    method SetCsr(c: Csr, v: int)
      requires Valid()
      modifies this
      ensures View() == Hart.SetCsr(old(View()), c, v)
    {
      match c
      case Mscratch => mscratch := v;
      case Mepc => mepc := v;
      case Mcause => mcause := v;
    }

    method Execute(i: Instr)
      requires Valid()
      modifies this, x
      ensures View() == Exec(arch, old(View()), i)
    {
      match i
      case Store(rs, off, base) => mem := mem[x[base] + off * Bytes(arch) := x[rs]];
      case Load(rd, off, base) => SetReg(rd, Read(mem, x[base] + off * Bytes(arch)));
      case Mv(rd, rs) => SetReg(rd, x[rs]);
      case Csrr(rd, c) => SetReg(rd, ReadCsr(c));
      case Csrw(c, rs) => SetCsr(c, x[rs]);
      case Csrrw(rd, c, rs) =>
        var was := ReadCsr(c);
        SetCsr(c, x[rs]);
        SetReg(rd, was);
      case Mret => pc := mepc;
    }

    function ReadCsr(c: Csr): int
      reads this
    {
      match c
      case Mscratch => mscratch
      case Mepc => mepc
      case Mcause => mcause
    }

    method Run(code: seq<Instr>)
      requires Valid()
      modifies this, x
      ensures View() == ExecAll(arch, old(View()), code)
    {
      ghost var h := View();
      var i := 0;
      while i < |code|
        invariant 0 <= i <= |code|
        invariant View() == ExecAll(arch, h, code[..i])
      {
        Execute(code[i]);
        i := i + 1;
        assert code[..i][..i - 1] == code[..i - 1];
      }
      assert code[..i] == code;
    }

    /** trap_vector up to the call of the C handler: the interrupted registers and pc are in the
        context that mscratch points to, and the handler has its three arguments. */
    method Enter()
      requires Valid()
      modifies this, x
      ensures View() == Entered(arch, old(View()))
      ensures Holds(arch, mem, mscratch, Context(old(View()).x[1..], mepc))
      ensures forall q :: Outside(arch, mscratch, q) ==> Read(mem, q) == Read(old(mem), q)
      ensures mscratch == old(mscratch) && mepc == old(mepc) && mcause == old(mcause)
      ensures x[A0] == mepc && x[A1] == mcause && x[A2] == mscratch
    {
      EntrySaves(arch, View());
      Run(TrapEntry());
    }

    /** trap_vector after the C handler has returned. */
    method Leave(ghost c: Context)
      requires Valid() && Holds(arch, mem, mscratch, c)
      modifies this, x
      ensures View() == ExecAll(arch, old(View()), TrapExit(arch))
      ensures Restored(arch, x[..], mscratch, c) && pc == old(x[A0])
      ensures mem == old(mem) && mscratch == old(mscratch)
    {
      ExitRestores(arch, View(), c);
      Run(TrapExit(arch));
    }

    /** switch_to. */
    method SwitchTo(ghost c: Context)
      requires Valid() && Holds(arch, mem, x[A0], c)
      modifies this, x
      ensures View() == ExecAll(arch, old(View()), Hart.SwitchTo(arch))
      ensures Restored(arch, x[..], mscratch, c) && pc == c.pc
      ensures mem == old(mem) && mscratch == old(x[A0])
    {
      SwitchRestores(arch, View(), c);
      Run(Hart.SwitchTo(arch));
    }

    /** Code that is not seen leaves the hart in k. */
    method Become(k: C.Core)
      requires Valid()
      modifies this, x
      ensures View() == k
    {
      forall i | 0 <= i < 32 {
        x[i] := k.x[i];
      }
      mem, mscratch, mepc, mcause, pc := k.mem, k.mscratch, k.mepc, k.mcause, k.pc;
      assert x[..] == k.x;
    }

    /** A whole trap: the hardware saves pc and cause, trap_vector saves the context, the C handler
        leaves the hart in k, and trap_vector or switch_to restores a context. */
    method Trap(cause: int, k: C.Core, end: C.End, ghost v: C.View)
      requires Valid() && C.Inv(arch, v) && C.Runs(arch, View(), v)
      requires C.Enabled(arch, View(), v, C.Event.Trap(cause, k, end))
      modifies this, x
      ensures C.Runs(arch, View(), C.After(arch, v, C.Event.Trap(cause, k, end)))
    {
      ghost var h, e := View(), C.Event.Trap(cause, k, end);
      C.StepSimulates(arch, h, v, e);
      mepc, mcause := pc, cause;
      Enter();
      Become(k);
      C.HandledHolds(arch, h, v, cause, k, end);
      ghost var c := v.ctxs[v.running];
      match end
      case Return => Leave(C.Returned(arch, cause, c).(pc := c.pc));
      case Switch => SwitchTo(v.ctxs[k.x[A0]]);
      assert View() == C.Next(arch, h, e);
    }
  }
}
