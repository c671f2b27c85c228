/** A hart that executes the instruction sequences of os/entry.S over its registers, the two
    control registers they use, and memory. */
module Hart {

  /** The two builds: registers of 4 or 8 bytes. */
  datatype Arch = RV32 | RV64

  function Bytes(a: Arch): nat { if a.RV32? then 4 else 8 }

  /** A register number, x0 to x31. */
  type reg = r: nat | r < 32

  const RA: reg := 1
  const SP: reg := 2
  const GP: reg := 3
  const TP: reg := 4
  const T0: reg := 5
  const T1: reg := 6
  const T2: reg := 7
  const S0: reg := 8
  const S1: reg := 9
  const A0: reg := 10
  const A1: reg := 11
  const A2: reg := 12
  const A3: reg := 13
  const A4: reg := 14
  const A5: reg := 15
  const A6: reg := 16
  const A7: reg := 17
  const S2: reg := 18
  const S3: reg := 19
  const S4: reg := 20
  const S5: reg := 21
  const S6: reg := 22
  const S7: reg := 23
  const S8: reg := 24
  const S9: reg := 25
  const S10: reg := 26
  const S11: reg := 27
  const T3: reg := 28
  const T4: reg := 29
  const T5: reg := 30
  const T6: reg := 31

  datatype Csr = Mscratch | Mepc | Mcause

  /** Offsets count words: the byte offset is off * Bytes(arch). */
  datatype Instr =
    | Store(rs: reg, off: nat, base: reg)
    | Load(rd: reg, off: nat, base: reg)
    | Mv(rd: reg, rs: reg)
    | Csrr(rd: reg, csr: Csr)
    | Csrw(csr: Csr, rs: reg)
    | Csrrw(rd: reg, csr: Csr, rs: reg)
    | Mret

  datatype State = State(x: seq<int>, mem: map<int, int>, mscratch: int, mepc: int, mcause: int, pc: int)

  predicate Ok(h: State) { |h.x| == 32 }

  function Read(m: map<int, int>, a: int): int { if a in m then m[a] else 0 }

  function SetReg(h: State, r: reg, v: int): (k: State)
    requires Ok(h)
    ensures Ok(k)
  {
    if r == 0 then h else h.(x := h.x[r := v])
  }

  function GetCsr(h: State, c: Csr): int {
    match c
    case Mscratch => h.mscratch
    case Mepc => h.mepc
    case Mcause => h.mcause
  }

  function SetCsr(h: State, c: Csr, v: int): State {
    match c
    case Mscratch => h.(mscratch := v)
    case Mepc => h.(mepc := v)
    case Mcause => h.(mcause := v)
  }

  function Exec(a: Arch, h: State, i: Instr): (k: State)
    requires Ok(h)
    ensures Ok(k)
  {
    match i
    case Store(rs, off, base) => h.(mem := h.mem[h.x[base] + off * Bytes(a) := h.x[rs]])
    case Load(rd, off, base) => SetReg(h, rd, Read(h.mem, h.x[base] + off * Bytes(a)))
    case Mv(rd, rs) => SetReg(h, rd, h.x[rs])
    case Csrr(rd, c) => SetReg(h, rd, GetCsr(h, c))
    case Csrw(c, rs) => SetCsr(h, c, h.x[rs])
    case Csrrw(rd, c, rs) => SetReg(SetCsr(h, c, h.x[rs]), rd, GetCsr(h, c))
    case Mret => h.(pc := h.mepc)
  }

  function ExecAll(a: Arch, h: State, code: seq<Instr>): (k: State)
    requires Ok(h)
    ensures Ok(k)
  {
    if code == [] then h else Exec(a, ExecAll(a, h, code[..|code| - 1]), code[|code| - 1])
  }

  lemma {:induction false} ExecAppend(a: Arch, h: State, c: seq<Instr>, d: seq<Instr>)
    requires Ok(h)
    ensures ExecAll(a, h, c + d) == ExecAll(a, ExecAll(a, h, c), d)
  {
    if d == [] {
      assert c + d == c;
    } else {
      assert (c + d)[..|c + d| - 1] == c + d[..|d| - 1];
      ExecAppend(a, h, c, d[..|d| - 1]);
    }
  }

  // ---------------------------------------------------------------- the sequences of entry.S

  /** reg_save t6: every register but t6 itself. */
  function RegSave(): seq<Instr> {
    [ Store(RA, 0, T6), Store(SP, 1, T6), Store(GP, 2, T6), Store(TP, 3, T6), Store(T0, 4, T6),
      Store(T1, 5, T6), Store(T2, 6, T6), Store(S0, 7, T6), Store(S1, 8, T6), Store(A0, 9, T6),
      Store(A1, 10, T6), Store(A2, 11, T6), Store(A3, 12, T6), Store(A4, 13, T6), Store(A5, 14, T6),
      Store(A6, 15, T6), Store(A7, 16, T6), Store(S2, 17, T6), Store(S3, 18, T6), Store(S4, 19, T6),
      Store(S5, 20, T6), Store(S6, 21, T6), Store(S7, 22, T6), Store(S8, 23, T6), Store(S9, 24, T6),
      Store(S10, 25, T6), Store(S11, 26, T6), Store(T3, 27, T6), Store(T4, 28, T6), Store(T5, 29, T6) ]
  }

  /** reg_restore t6; t6 comes last, and only in the 32-bit build. */
  function RegRestore(a: Arch): seq<Instr> {
    [ Load(RA, 0, T6), Load(SP, 1, T6), Load(GP, 2, T6), Load(TP, 3, T6), Load(T0, 4, T6),
      Load(T1, 5, T6), Load(T2, 6, T6), Load(S0, 7, T6), Load(S1, 8, T6), Load(A0, 9, T6),
      Load(A1, 10, T6), Load(A2, 11, T6), Load(A3, 12, T6), Load(A4, 13, T6), Load(A5, 14, T6),
      Load(A6, 15, T6), Load(A7, 16, T6), Load(S2, 17, T6), Load(S3, 18, T6), Load(S4, 19, T6),
      Load(S5, 20, T6), Load(S6, 21, T6), Load(S7, 22, T6), Load(S8, 23, T6), Load(S9, 24, T6),
      Load(S10, 25, T6), Load(S11, 26, T6), Load(T3, 27, T6), Load(T4, 28, T6), Load(T5, 29, T6) ]
    + if a.RV32? then [ Load(T6, 30, T6) ] else []
  }

  /** trap_vector up to the call of trap_handler. */
  function TrapEntry(): seq<Instr> {
    [ Csrrw(T6, Mscratch, T6) ] + RegSave() + (SaveLast() + Arguments())
  }

  /** t6 and the interrupted pc go to the last two words, and mscratch is put back. */
  function SaveLast(): seq<Instr> {
    [ Mv(T5, T6), Csrr(T6, Mscratch), Store(T6, 30, T5), Csrr(A0, Mepc), Store(A0, 31, T5), Csrw(Mscratch, T5) ]
  }

  function Arguments(): seq<Instr> {
    [ Csrr(A0, Mepc), Csrr(A1, Mcause), Csrr(A2, Mscratch) ]
  }

  /** trap_vector after the handler has returned. */
  function TrapExit(a: Arch): seq<Instr> {
    [ Csrw(Mepc, A0), Csrr(T6, Mscratch) ] + RegRestore(a) + [ Mret ]
  }

  /** switch_to. */
  function SwitchTo(a: Arch): seq<Instr> {
    SwitchHead() + (RegRestore(a) + [ Mret ])
  }

  function SwitchHead(): seq<Instr> {
    [ Csrw(Mscratch, A0), Load(A1, 31, A0), Csrw(Mepc, A1), Mv(T6, A0) ]
  }

  // ---------------------------------------------------------------- contexts in memory

  /** struct context: x1 to x31, then pc. */
  datatype Context = Context(regs: seq<int>, pc: int)

  predicate IsContext(c: Context) { |c.regs| == 31 }

  /** Word k of the context at address p. */
  function WordAt(a: Arch, p: int, k: nat): int { p + k * Bytes(a) }

  predicate Holds(a: Arch, m: map<int, int>, p: int, c: Context) {
    IsContext(c) && (forall k :: 0 <= k < 31 ==>
        Read(m, WordAt(a, p, k)) == c.regs[k]) && Read(m, WordAt(a, p, 31)) == c.pc
  }

  /** The registers of a hart as a context. */
  function Live(h: State): (c: Context)
    requires Ok(h)
    ensures IsContext(c)
  {
    Context(h.x[1..], h.pc)
  }

  /** Memory after the first n words of a context were stored. */
  function Stored(a: Arch, m: map<int, int>, p: int, regs: seq<int>, n: nat): map<int, int>
    requires n <= |regs|
  {
    if n == 0 then m else Stored(a, m, p, regs, n - 1)[WordAt(a, p, n - 1) := regs[n - 1]]
  }

  lemma {:induction false} StoredAt(a: Arch, m: map<int, int>, p: int, regs: seq<int>, n: nat)
    requires n <= |regs|
    ensures forall k :: 0 <= k < n ==> Read(Stored(a, m, p, regs, n), WordAt(a, p, k)) == regs[k]
    ensures forall q :: (forall k: nat :: k < n ==> q != WordAt(a, p, k)) ==>
        Read(Stored(a, m, p, regs, n), q) == Read(m, q)
  {
    if n > 0 {
      StoredAt(a, m, p, regs, n - 1);
    }
  }

  /** Every store of reg_save writes register k + 1 to word k. */
  lemma SaveCode(k: nat)
    requires k < 30
    ensures |RegSave()| == 30 && RegSave()[k] == Store(k + 1, k, T6)
  {
  }

  lemma RestoreCode(a: Arch, k: nat)
    requires k < |RegRestore(a)|
    ensures |RegRestore(a)| == if a.RV32? then 31 else 30
    ensures RegRestore(a)[k] == Load(k + 1, k, T6)
  {
  }

  lemma SaveStep(a: Arch, h: State, n: nat)
    requires Ok(h) && n < 30
    ensures |RegSave()| == 30
    ensures var regs := h.x[1..];
      Exec(a, h.(mem := Stored(a, h.mem, h.x[T6], regs, n)), RegSave()[n]) ==
          h.(mem := Stored(a, h.mem, h.x[T6], regs, n + 1))
  {
    SaveCode(n);
  }

  lemma {:induction false} SaveRuns(a: Arch, h: State, n: nat)
    requires Ok(h) && n <= 30
    ensures ExecAll(a, h, RegSave()[..n]) == h.(mem := Stored(a, h.mem, h.x[T6], h.x[1..], n))
  {
    if n > 0 {
      SaveRuns(a, h, n - 1);
      SaveStep(a, h, n - 1);
      var code := RegSave();
      assert |code| == 30;
      assert code[..n][..n - 1] == code[..n - 1];
    }
  }

  lemma ExecCons(a: Arch, h: State, i: Instr, rest: seq<Instr>)
    requires Ok(h)
    ensures ExecAll(a, h, [i] + rest) == ExecAll(a, Exec(a, h, i), rest)
  {
    ExecAppend(a, h, [i], rest);
    assert [i][..0] == [];
  }

  /** The registers after the first n words of a context were loaded. */
  function Loaded(x: seq<int>, regs: seq<int>, n: nat): (y: seq<int>)
    requires |x| == 32 && n <= 31 && |regs| == 31
    ensures |y| == 32
  {
    seq(32, j requires 0 <= j < 32 => if 1 <= j <= n then regs[j - 1] else x[j])
  }

  lemma LoadedStep(x: seq<int>, regs: seq<int>, n: nat)
    requires |x| == 32 && 0 < n <= 31 && |regs| == 31
    ensures Loaded(x, regs, n) == Loaded(x, regs, n - 1)[n := regs[n - 1]]
    ensures Loaded(x, regs, n - 1)[T6] == x[T6]
  {
  }

  lemma RestoreStep(a: Arch, h: State, k: State, c: Context, n: nat)
    requires Ok(h) && Holds(a, h.mem, h.x[T6], c) && n < |RegRestore(a)| <= 31
    requires k == h.(x := Loaded(h.x, c.regs, n))
    ensures Exec(a, k, RegRestore(a)[n]) == h.(x := Loaded(h.x, c.regs, n + 1))
  {
    RestoreCode(a, n);
    LoadedStep(h.x, c.regs, n + 1);
  }

  lemma {:induction false} RestoreRuns(a: Arch, h: State, c: Context, n: nat)
    requires Ok(h) && Holds(a, h.mem, h.x[T6], c) && n <= |RegRestore(a)|
    ensures n <= 31 && ExecAll(a, h, RegRestore(a)[..n]) == h.(x := Loaded(h.x, c.regs, n))
  {
    RestoreLength(a);
    var code := RegRestore(a);
    if n == 0 {
      assert Loaded(h.x, c.regs, 0) == h.x;
    } else {
      RestoreRuns(a, h, c, n - 1);
      RestoreStep(a, h, ExecAll(a, h, code[..n - 1]), c, n - 1);
      assert code[..n][..n - 1] == code[..n - 1];
    }
  }

  lemma RestoreLength(a: Arch)
    ensures |RegRestore(a)| == if a.RV32? then 31 else 30
  {
  }

  // ---------------------------------------------------------------- trap entry

  /** The hart when the C handler is called. */
  function Entered(a: Arch, h: State): (k: State)
    requires Ok(h)
    ensures Ok(k)
  {
    ExecAll(a, h, TrapEntry())
  }

  function LastSaved(a: Arch, h: State): (k: State)
    requires Ok(h)
    ensures Ok(k)
  {
    var p, t6 := h.x[T6], h.mscratch;
    h.(x := h.x[T5 := p][T6 := t6][A0 := h.mepc],
       mem := h.mem[WordAt(a, p, 30) := t6][WordAt(a, p, 31) := h.mepc], mscratch := p)
  }

  lemma SaveLastRuns(a: Arch, h: State)
    requires Ok(h)
    ensures ExecAll(a, h, SaveLast()) == LastSaved(a, h)
  {
    var code := SaveLast();
    var h1 := Exec(a, h, code[0]);
    var h2 := Exec(a, h1, code[1]);
    var h3 := Exec(a, h2, code[2]);
    var h4 := Exec(a, h3, code[3]);
    var h5 := Exec(a, h4, code[4]);
    StepAlong(a, h, code, 0);
    StepAlong(a, h1, code, 1);
    StepAlong(a, h2, code, 2);
    StepAlong(a, h3, code, 3);
    StepAlong(a, h4, code, 4);
    StepAlong(a, h5, code, 5);
    assert code[6..] == [] && code[0..] == code;
  }

  lemma ArgumentsRun(a: Arch, h: State)
    requires Ok(h)
    ensures ExecAll(a, h, Arguments()) == h.(x := h.x[A0 := h.mepc][A1 := h.mcause][A2 := h.mscratch])
  {
    var code := Arguments();
    var h1 := Exec(a, h, code[0]);
    var h2 := Exec(a, h1, code[1]);
    StepAlong(a, h, code, 0);
    StepAlong(a, h1, code, 1);
    StepAlong(a, h2, code, 2);
    assert code[3..] == [] && code[0..] == code;
  }

  lemma StepAlong(a: Arch, h: State, code: seq<Instr>, i: nat)
    requires Ok(h) && i < |code|
    ensures ExecAll(a, h, code[i..]) == ExecAll(a, Exec(a, h, code[i]), code[i + 1..])
  {
    assert code[i..] == [code[i]] + code[i + 1..];
    ExecCons(a, h, code[i], code[i + 1..]);
  }

  /** The hart in the middle of trap entry, when reg_save is done. */
  function Saved(a: Arch, h: State): (k: State)
    requires Ok(h)
    ensures Ok(k)
  {
    var g := Exec(a, h, Csrrw(T6, Mscratch, T6));
    g.(mem := Stored(a, g.mem, g.x[T6], g.x[1..], 30))
  }

  lemma EntryRuns(a: Arch, h: State)
    requires Ok(h)
    ensures var k := LastSaved(a, Saved(a, h));
      Entered(a, h) == k.(x := k.x[A0 := k.mepc][A1 := k.mcause][A2 := k.mscratch])
  {
    var first := [Csrrw(T6, Mscratch, T6)];
    var g := Exec(a, h, first[0]);
    ExecAppend(a, h, first + RegSave(), SaveLast() + Arguments());
    ExecAppend(a, Saved(a, h), SaveLast(), Arguments());
    ExecAppend(a, h, first, RegSave());
    assert first[..0] == [];
    SaveRuns(a, g, 30);
    SaveCode(0);
    assert RegSave()[..30] == RegSave();
    SaveLastRuns(a, Saved(a, h));
    ArgumentsRun(a, LastSaved(a, Saved(a, h)));
  }

  /** No word of the context at p is at q. */
  predicate Outside(a: Arch, p: int, q: int) {
    forall k: nat :: k < 32 ==> q != WordAt(a, p, k)
  }

  lemma WordsDiffer(a: Arch, p: int, j: nat, k: nat)
    requires j != k
    ensures WordAt(a, p, j) != WordAt(a, p, k)
  {
  }

  /** Trap entry stores all 31 registers and the pc of the interrupted code in the context
      that mscratch points to, touches no other memory, puts mscratch back, and passes epc,
      cause and context to the handler. */
  lemma EntrySaves(a: Arch, h: State)
    requires Ok(h)
    ensures var k := Entered(a, h);
      && Holds(a, k.mem, h.mscratch, Context(h.x[1..], h.mepc))
      && (forall q :: Outside(a, h.mscratch, q) ==> Read(k.mem, q) == Read(h.mem, q))
      && k.mscratch == h.mscratch && k.mepc == h.mepc && k.mcause == h.mcause
      && k.x[A0] == h.mepc && k.x[A1] == h.mcause && k.x[A2] == h.mscratch && k.x[0] == h.x[0]
  {
    EntryRuns(a, h);
    var p, g, k := h.mscratch, Exec(a, h, Csrrw(T6, Mscratch, T6)), Entered(a, h);
    StoredAt(a, h.mem, p, g.x[1..], 30);
    forall j | 0 <= j < 31 ensures Read(k.mem, WordAt(a, p, j)) == h.x[1..][j] {
      if j < 30 {
        WordsDiffer(a, p, j, 30);
      }
      WordsDiffer(a, p, j, 31);
    }
  }

  // ---------------------------------------------------------------- trap exit and switch_to

  /** What the general registers hold after a restore: in the 64-bit build t6 keeps the
      address of the context. */
  predicate Restored(a: Arch, x: seq<int>, p: int, c: Context) {
    |x| == 32 && IsContext(c) && (forall k :: 0 <= k < 30 ==> x[k + 1] == c.regs[k]) &&
    x[T6] == if a.RV32? then c.regs[30] else p
  }

  lemma RestoreThenMret(a: Arch, h: State, c: Context)
    requires Ok(h) && Holds(a, h.mem, h.x[T6], c)
    ensures var k := ExecAll(a, h, RegRestore(a) + [Mret]);
      Restored(a, k.x, h.x[T6], c) && k == h.(x := k.x, pc := h.mepc) && k.x[0] == h.x[0]
  {
    var code := RegRestore(a);
    RestoreLength(a);
    RestoreRuns(a, h, c, |code|);
    assert code[..|code|] == code;
    ExecAppend(a, h, code, [Mret]);
    assert [Mret][..0] == [];
  }

  /** Returning from the handler resumes the context mscratch points to, at the address the
      handler returned in a0. */
  lemma ExitRestores(a: Arch, h: State, c: Context)
    requires Ok(h) && Holds(a, h.mem, h.mscratch, c)
    ensures var k := ExecAll(a, h, TrapExit(a));
      && Restored(a, k.x, h.mscratch, c) && k.pc == h.x[A0]
      && k.mem == h.mem && k.mscratch == h.mscratch && k.x[0] == h.x[0]
  {
    var code := TrapExit(a);
    var h1 := Exec(a, h, Csrw(Mepc, A0));
    var h2 := Exec(a, h1, Csrr(T6, Mscratch));
    var rest := RegRestore(a) + [Mret];
    assert code == [Csrw(Mepc, A0)] + ([Csrr(T6, Mscratch)] + rest);
    ExecCons(a, h, Csrw(Mepc, A0), [Csrr(T6, Mscratch)] + rest);
    ExecCons(a, h1, Csrr(T6, Mscratch), rest);
    RestoreThenMret(a, h2, c);
  }

  lemma SwitchHeadRuns(a: Arch, h: State)
    requires Ok(h)
    ensures var pc := Read(h.mem, WordAt(a, h.x[A0], 31));
      ExecAll(a, h, SwitchHead()) == h.(x := h.x[A1 := pc][T6 := h.x[A0]], mscratch := h.x[A0], mepc := pc)
  {
    var code := SwitchHead();
    var h1 := Exec(a, h, code[0]);
    var h2 := Exec(a, h1, code[1]);
    var h3 := Exec(a, h2, code[2]);
    StepAlong(a, h, code, 0);
    StepAlong(a, h1, code, 1);
    StepAlong(a, h2, code, 2);
    StepAlong(a, h3, code, 3);
    assert code[4..] == [] && code[0..] == code;
  }

  /** switch_to(p) resumes the context at p and leaves mscratch pointing to it. */
  lemma SwitchRestores(a: Arch, h: State, c: Context)
    requires Ok(h) && Holds(a, h.mem, h.x[A0], c)
    ensures var k := ExecAll(a, h, SwitchTo(a));
      && Restored(a, k.x, h.x[A0], c) && k.pc == c.pc
      && k.mem == h.mem && k.mscratch == h.x[A0] && k.x[0] == h.x[0]
  {
    SwitchHeadRuns(a, h);
    ExecAppend(a, h, SwitchHead(), RegRestore(a) + [Mret]);
    RestoreThenMret(a, ExecAll(a, h, SwitchHead()), c);
  }
}
