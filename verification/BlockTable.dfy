/** The block allocator inside one malloc page (os/page.c:306-476, 593-635): 819 four-byte
    blocks, described by the 820 descriptor bytes at the end of the page.  The last byte and
    the top two bits of the byte before it hold a ten-bit count of the taken blocks. */
module BlockTable {
  import opened Flags
  import opened Runs

  const MALLOC_SIZE := 4
  const TABLE_SIZE := 820
  const BLOCKS := 819

  // ---------------------------------------------------------------- the packed counter

  /** The ten bits of the counter; like the packed bytes they wrap at 1024. */
  type counter = bv10

  /** What the bytes of a table mean: the flags of the 819 blocks, and the count. */
  datatype Table = Table(blocks: seq<byte>, count: nat)

  function Value(c: counter): nat
    decreases c
  {
    if c == 0 then 0 else Value(c - 1) + 1
  }

  lemma {:induction false} ValueAdds(b: counter, c: counter)
    requires b <= 1023 - c
    ensures Value(b + c) == Value(b) + Value(c)
    decreases c
  {
    if c == 0 {
      assert b + c == b;
    } else {
      OneLess(b, c);
      ValueAdds(b, c - 1);
      ValueStep(b, c, Value(b));
    }
  }

  lemma OneLess(b: counter, c: counter)
    requires c != 0 && b <= 1023 - c
    ensures b + c != 0 && b + c - 1 == b + (c - 1) && b <= 1023 - (c - 1)
  {
  }

  lemma ValueStep(b: counter, c: counter, x: nat)
    requires c != 0 && b <= 1023 - c && Value(b + (c - 1)) == x + Value(c - 1)
    ensures Value(b + c) == x + Value(c)
  {
    OneLess(b, c);
    assert Value(c) == Value(c - 1) + 1 && Value(b + c) == Value(b + c - 1) + 1;
  }

  lemma LargestValue()
    ensures Value(1023) == 1023
  {
    ValueAdds(1, 1);
    ValueAdds(2, 2);
    ValueAdds(4, 4);
    ValueAdds(8, 8);
    ValueAdds(16, 16);
    ValueAdds(32, 32);
    ValueAdds(64, 64);
    ValueAdds(128, 128);
    ValueAdds(256, 256);
    ValueAdds(512, 256);
    ValueAdds(768, 128);
    ValueAdds(896, 64);
    ValueAdds(960, 32);
    ValueAdds(992, 16);
    ValueAdds(1008, 8);
    ValueAdds(1016, 4);
    ValueAdds(1020, 2);
    ValueAdds(1022, 1);
  }

  /** n as ten bits. */
  function Ten(n: nat): counter {
    if n == 0 then 0 else Ten(n - 1) + 1
  }

  lemma ValueWraps(c: counter)
    ensures Value(c) < 1024
    ensures Value(c + 1) == (Value(c) + 1) % 1024
    ensures Value(c - 1) == (Value(c) + 1023) % 1024
  {
    LargestValue();
    ValueAdds(c, 1023 - c);
    assert c + (1023 - c) == 1023;
    if c == 0 { assert c - 1 == 1023; }
    if c == 1023 { assert c + 1 == 0; } else { assert c + 1 - 1 == c; }
  }

  lemma {:induction false} TenOfValue(c: counter)
    ensures Ten(Value(c)) == c
    decreases c
  {
    if c != 0 {
      TenOfValue(c - 1);
    }
  }

  lemma {:induction false} ValueOfTen(n: nat)
    requires n < 1024
    ensures Value(Ten(n)) == n
  {
    if n > 0 {
      ValueOfTen(n - 1);
      ValueWraps(Ten(n - 1));
    }
  }

  function CountOf(hi: byte, lo: byte): counter {
    ((hi >> 6) as counter << 8) | lo as counter
  }

  function Unpack(t: seq<byte>): (v: Table)
    requires |t| == TABLE_SIZE
    ensures |v.blocks| == BLOCKS
  {
    Table(t[..818] + [t[818] & 63], Value(CountOf(t[818], t[819])))
  }

  function Pack(v: Table): (t: seq<byte>)
    requires |v.blocks| == BLOCKS
    ensures |t| == TABLE_SIZE
  {
    v.blocks[..818] + [v.blocks[818] | ((Ten(v.count) >> 8) as byte << 6), (Ten(v.count) & 255) as byte]
  }

  lemma PackBytes(hi: byte, lo: byte)
    ensures (hi & 63) | ((CountOf(hi, lo) >> 8) as byte << 6) == hi
    ensures (CountOf(hi, lo) & 255) as byte == lo
  {
  }

  lemma UnpackBytes(low: byte, count: counter)
    requires low < 64
    ensures var hi := low | ((count >> 8) as byte << 6);
      hi & 63 == low && CountOf(hi, (count & 255) as byte) == count
  {
  }

  /** The ten-bit counter and the block flags share a byte without losing anything: the
      bytes of a table and its meaning determine each other. */
  lemma PackUnpack(t: seq<byte>)
    requires |t| == TABLE_SIZE
    ensures Pack(Unpack(t)) == t
  {
    PackBytes(t[818], t[819]);
    TenOfValue(CountOf(t[818], t[819]));
  }

  /** ... and the other way round, for any six-bit last descriptor and ten-bit count. */
  lemma UnpackPack(v: Table)
    requires |v.blocks| == BLOCKS && v.blocks[818] < 64 && v.count < 1024
    ensures Unpack(Pack(v)) == v
  {
    UnpackBytes(v.blocks[818], Ten(v.count));
    ValueOfTen(v.count);
    assert Unpack(Pack(v)).blocks == v.blocks;
  }

  lemma CountUp(hi: byte, lo: byte)
    ensures var hi' := if lo == 255 then hi + 64 else hi;
      CountOf(hi', lo + 1) == CountOf(hi, lo) + 1 && hi' & 63 == hi & 63
  {
  }

  lemma CountDown(hi: byte, lo: byte)
    ensures var hi' := if lo == 0 then hi - 64 else hi;
      CountOf(hi', lo - 1) == CountOf(hi, lo) - 1 && hi' & 63 == hi & 63
  {
  }

  lemma TopKept(b: byte, f: byte, lo: byte)
    requires f < 64
    ensures CountOf(b | f, lo) == CountOf(b, lo)
    ensures (b | f) & 63 == (b & 63) | f
  {
  }

  function SetFlag(t: seq<byte>, k: nat, f: byte): (u: seq<byte>)
    requires k < |t|
    ensures |u| == |t|
  {
    t[k := t[k] | f]
  }

  /** Writing a descriptor byte below block 818 writes that block. */
  lemma UnpackLow(t: seq<byte>, k: nat, x: byte)
    requires |t| == TABLE_SIZE && k < 818
    ensures Unpack(t[k := x]) == Table(Unpack(t).blocks[k := x], Unpack(t).count)
  {
    assert t[k := x][..818] == t[..818][k := x];
    assert (t[..818] + [t[818] & 63])[k := x] == t[..818][k := x] + [t[818] & 63];
  }

  /** Writing descriptor byte 818 with the same top bits writes block 818. */
  lemma UnpackHigh(t: seq<byte>, x: byte, low: byte)
    requires |t| == TABLE_SIZE && CountOf(x, t[819]) == CountOf(t[818], t[819]) && x & 63 == low
    ensures Unpack(t[818 := x]) == Table(Unpack(t).blocks[818 := low], Unpack(t).count)
  {
    assert t[818 := x][..818] == t[..818];
    assert (t[..818] + [t[818] & 63])[818 := low] == t[..818] + [low];
  }

  /** Setting one of the low six flags of a block leaves the count and the others alone. */
  lemma UnpackFlag(t: seq<byte>, k: nat, f: byte)
    requires |t| == TABLE_SIZE && k < BLOCKS && f < 64
    ensures Unpack(SetFlag(t, k, f)) == Table(SetFlag(Unpack(t).blocks, k, f), Unpack(t).count)
  {
    if k < 818 {
      UnpackLow(t, k, t[k] | f);
      assert Unpack(t).blocks[k] == t[k];
    } else {
      LastBlockFlag(t, f);
    }
  }

  lemma LastBlockFlag(t: seq<byte>, f: byte)
    requires |t| == TABLE_SIZE && f < 64
    ensures Unpack(SetFlag(t, 818, f)) == Table(SetFlag(Unpack(t).blocks, 818, f), Unpack(t).count)
  {
    TopKept(t[818], f, t[819]);
    var low := Unpack(t).blocks[818];
    LastBlockByte(t);
    UnpackHigh(t, t[818] | f, low | f);
  }

  lemma LastBlockByte(t: seq<byte>)
    requires |t| == TABLE_SIZE
    ensures Unpack(t).blocks[818] == t[818] & 63
  {
  }

  /** The bytes after _increase_block_usage_of_malloc. */
  function Increased(t: seq<byte>): (u: seq<byte>)
    requires |t| == TABLE_SIZE
    ensures |u| == TABLE_SIZE
  {
    t[818 := if t[819] == 255 then t[818] + 64 else t[818]][819 := t[819] + 1]
  }

  /** The bytes after _decrease_block_usage_of_malloc. */
  function Decreased(t: seq<byte>): (u: seq<byte>)
    requires |t| == TABLE_SIZE
    ensures |u| == TABLE_SIZE
  {
    t[818 := if t[819] == 0 then t[818] - 64 else t[818]][819 := t[819] - 1]
  }

  /** An increment adds one to the ten-bit count and touches no block flag. */
  lemma IncreasedMeans(t: seq<byte>)
    requires |t| == TABLE_SIZE
    ensures Unpack(Increased(t)) == Table(Unpack(t).blocks, (Unpack(t).count + 1) % 1024)
  {
    CountUp(t[818], t[819]);
    ValueWraps(CountOf(t[818], t[819]));
    assert Increased(t)[..818] == t[..818];
  }

  /** A decrement subtracts one from the ten-bit count and touches no block flag. */
  lemma DecreasedMeans(t: seq<byte>)
    requires |t| == TABLE_SIZE
    ensures Unpack(Decreased(t)) == Table(Unpack(t).blocks, (Unpack(t).count + 1023) % 1024)
  {
    CountDown(t[818], t[819]);
    ValueWraps(CountOf(t[818], t[819]));
    assert Decreased(t)[..818] == t[..818];
  }

  method IncreaseUsage(t: array<byte>)
    requires t.Length == TABLE_SIZE
    modifies t
    ensures t[..] == Increased(old(t[..]))
  {
    if t[819] == 255 {
      t[818] := t[818] + (1 << 6);
    }
    t[819] := t[819] + 1;
  }

  method DecreaseUsage(t: array<byte>)
    requires t.Length == TABLE_SIZE
    modifies t
    ensures t[..] == Decreased(old(t[..]))
  {
    if t[819] == 0 {
      t[819] := 255;
      t[818] := t[818] - (1 << 6);
    } else {
      t[819] := t[819] - 1;
    }
  }

  /** _get_memory_usage_of_malloc. */
  method Usage(t: array<byte>) returns (count: counter)
    requires t.Length == TABLE_SIZE
    ensures Value(count) == Unpack(t[..]).count
  {
    count := t[818] as counter;
    count := (count >> 6) << 8;
    count := count + t[819] as counter;
  }

  // ---------------------------------------------------------------- _try_malloc

  /** os/page.c:450-459 restarts at the first block of the window, so as written it never
      reads the window's last block; page_alloc (os/page.c:234-242) shows the intended check,
      which reads every member. */
  datatype Code = AsWritten | AsIntended

  /** How many blocks of an n-block window the scan reads. */
  function Checked(n: nat, code: Code): nat {
    if code.AsIntended? || n < 2 then n else n - 1
  }

  function BlocksFor(size: nat): nat { (size + 3) / 4 }

  /** The scan accepts block i as the start of n blocks. */
  predicate Fits(b: seq<byte>, i: nat, n: nat, code: Code) {
    i + n <= |b| && FreeWindow(b, i, Checked(n, code))
  }

  /** i is the least block the scan accepts. */
  predicate FirstAccepted(b: seq<byte>, i: nat, n: nat, code: Code) {
    Fits(b, i, n, code) && forall k :: 0 <= k < i ==> !Fits(b, k, n, code)
  }

  /** The meaning of a table after n blocks from i were marked and counted. */
  function Take(v: Table, i: nat, n: nat): Table
    requires i + n <= |v.blocks|
  {
    Table(MarkRun(v.blocks, i, n), (v.count + n) % 1024)
  }

  method MallocInit(t: array<byte>)
    requires t.Length == TABLE_SIZE
    modifies t
    ensures Unpack(t[..]) == Fresh()
  {
    var i := 0;
    while i < TABLE_SIZE
      invariant 0 <= i <= TABLE_SIZE
      invariant forall k :: 0 <= k < i ==> t[k] == 0
    {
      t[i] := 0;
      i := i + 1;
    }
    assert Unpack(t[..]).blocks == Fresh().blocks;
  }

  function Fresh(): Table {
    Table(seq(BLOCKS, _ => 0), 0)
  }

  method TryMalloc(t: array<byte>, size: nat, code: Code) returns (r: Option<nat>)
    requires t.Length == TABLE_SIZE
    modifies t
    ensures r.Some? ==> size > 0 && FirstAccepted(Unpack(old(t[..])).blocks, r.value, BlocksFor(size), code)
    ensures r.Some? ==> Unpack(t[..]) == Take(Unpack(old(t[..])), r.value, BlocksFor(size))
    ensures r.None? ==> t[..] == old(t[..])
    ensures r.None? ==> size == 0 || forall k: nat :: !Fits(Unpack(t[..]).blocks, k, BlocksFor(size), code)
  {
    var total := size / MALLOC_SIZE;
    if size % MALLOC_SIZE != 0 { total := total + 1; }
    assert total == BlocksFor(size);
    if total == 0 { return None; }
    ghost var b := Unpack(t[..]).blocks;
    assert forall k :: 0 <= k < BLOCKS ==> (IsTaken(b[k]) <==> IsTaken(t[k]));
    var skip := if code.AsIntended? then 1 else 0;
    var endIndex := TABLE_SIZE - total;
    var i := 0;
    while i < endIndex
      invariant 0 <= i
      invariant i <= endIndex || i == 0
      invariant t[..] == old(t[..])
      invariant forall k: nat :: k < i ==> !Fits(b, k, total, code)
    {
      if !IsTaken(t[i]) {
        var found := true;
        var j := 1;
        while j < total
          invariant 1 <= j <= total
          invariant found
          invariant forall k :: i <= k < i + j - 1 + skip ==> !IsTaken(b[k])
        {
          if IsTaken(t[i + j - 1 + skip]) {
            found := false;
            assert IsTaken(b[i + j - 1 + skip]);
            break;
          }
          j := j + 1;
        }
        if found {
          assert FirstAccepted(b, i, total, code);
          TakeBlocks(t, i, total);
          return Some(i);
        }
      }
      i := i + 1;
    }
    return None;
  }

  /** The bytes after j rounds of the marking loop. */
  function MarkBytes(t: seq<byte>, i: nat, j: nat): (u: seq<byte>)
    requires |t| == TABLE_SIZE && i + j <= BLOCKS
    ensures |u| == TABLE_SIZE
  {
    if j == 0 then t else Increased(SetFlag(MarkBytes(t, i, j - 1), i + j - 1, TAKEN))
  }

  /** The marking part of _try_malloc: FIRST, then TAKEN and one count a block, then LAST. */
  method TakeBlocks(t: array<byte>, i: nat, n: nat)
    requires t.Length == TABLE_SIZE && n >= 1 && i + n <= BLOCKS
    modifies t
    ensures Unpack(t[..]) == Take(Unpack(old(t[..])), i, n)
  {
    ghost var was := t[..];
    SetFlags(t, i, FIRST);
    var j := 0;
    while j < n
      invariant 0 <= j <= n
      invariant t[..] == MarkBytes(SetFlag(was, i, FIRST), i, j)
    {
      SetFlags(t, i + j, TAKEN);
      IncreaseUsage(t);
      j := j + 1;
    }
    SetFlags(t, i + n - 1, LAST);
    TakeMeans(was, i, n);
  }

  /** One round of the marking loop, on the meaning of the table. */
  function AddBlock(v: Table, k: nat): Table
    requires k < |v.blocks|
  {
    Table(SetFlag(v.blocks, k, TAKEN), (v.count + 1) % 1024)
  }

  function AddBlocks(v: Table, i: nat, j: nat): (w: Table)
    requires i + j <= |v.blocks|
    ensures |w.blocks| == |v.blocks|
  {
    if j == 0 then v else AddBlock(AddBlocks(v, i, j - 1), i + j - 1)
  }

  lemma AddBlockMeans(t: seq<byte>, k: nat)
    requires |t| == TABLE_SIZE && k < BLOCKS
    ensures Unpack(Increased(SetFlag(t, k, TAKEN))) == AddBlock(Unpack(t), k)
  {
    UnpackFlag(t, k, TAKEN);
    IncreasedMeans(SetFlag(t, k, TAKEN));
  }

  lemma {:induction false} MarkMeans(t: seq<byte>, i: nat, j: nat)
    requires |t| == TABLE_SIZE && i + j <= BLOCKS
    ensures Unpack(MarkBytes(t, i, j)) == AddBlocks(Unpack(t), i, j)
  {
    if j > 0 {
      MarkMeans(t, i, j - 1);
      AddBlockMeans(MarkBytes(t, i, j - 1), i + j - 1);
    }
  }

  lemma {:induction false} AddBlocksIsPartial(v: Table, b: seq<byte>, i: nat, j: nat)
    requires i + j <= |b| && v.blocks == Partial(b, i, 0)
    ensures AddBlocks(v, i, j).blocks == Partial(b, i, j)
  {
    if j > 0 {
      AddBlocksIsPartial(v, b, i, j - 1);
      PartialStep(b, i, j - 1);
    }
  }

  lemma WrapStep(n: nat)
    ensures (n % 1024 + 1) % 1024 == (n + 1) % 1024
  {
  }

  lemma {:induction false} AddBlocksCounts(v: Table, i: nat, j: nat)
    requires i + j <= |v.blocks| && v.count < 1024
    ensures AddBlocks(v, i, j).count == (v.count + j) % 1024
  {
    if j > 0 {
      AddBlocksCounts(v, i, j - 1);
      WrapStep(v.count + j - 1);
    }
  }

  lemma TakeSteps(v: Table, i: nat, n: nat)
    requires n >= 1 && i + n <= |v.blocks| && v.count < 1024
    ensures var w := AddBlocks(Table(SetFlag(v.blocks, i, FIRST), v.count), i, n);
      Table(SetFlag(w.blocks, i + n - 1, LAST), w.count) == Take(v, i, n)
  {
    var u := Table(SetFlag(v.blocks, i, FIRST), v.count);
    assert u.blocks == Partial(v.blocks, i, 0);
    AddBlocksIsPartial(u, v.blocks, i, n);
    AddBlocksCounts(u, i, n);
    PartialDone(v.blocks, i, n);
  }

  lemma TakeMeans(t: seq<byte>, i: nat, n: nat)
    requires |t| == TABLE_SIZE && n >= 1 && i + n <= BLOCKS
    ensures Unpack(SetFlag(MarkBytes(SetFlag(t, i, FIRST), i, n), i + n - 1, LAST)) == Take(Unpack(t), i, n)
  {
    UnpackFlag(t, i, FIRST);
    MarkMeans(SetFlag(t, i, FIRST), i, n);
    UnpackFlag(MarkBytes(SetFlag(t, i, FIRST), i, n), i + n - 1, LAST);
    ValueWraps(CountOf(t[818], t[819]));
    TakeSteps(Unpack(t), i, n);
  }

  lemma PartialStep(b: seq<byte>, i: nat, j: nat)
    requires i + j < |b|
    ensures Partial(b, i, j + 1) == Partial(b, i, j)[i + j := Partial(b, i, j)[i + j] | TAKEN]
  {
  }

  lemma PartialDone(b: seq<byte>, i: nat, n: nat)
    requires n >= 1 && i + n <= |b|
    ensures Partial(b, i, n)[i + n - 1 := Partial(b, i, n)[i + n - 1] | LAST] == MarkRun(b, i, n)
  {
  }

  /** The blocks while _try_malloc is marking: FIRST is set, j blocks are TAKEN. */
  ghost function Partial(b: seq<byte>, i: nat, j: nat): seq<byte> {
    seq(|b|, k requires 0 <= k < |b| => b[k] | (if k == i then FIRST else 0) | (if i <= k < i + j then TAKEN else 0))
  }

  /** _set_block_flags. */
  method SetFlags(t: array<byte>, k: nat, f: byte)
    requires k < t.Length
    modifies t
    ensures t[..] == SetFlag(old(t[..]), k, f)
  {
    t[k] := t[k] | f;
  }

  // ---------------------------------------------------------------- the block half of free

  /** The low six bits go, counter bits stay. */
  function KeepTop(b: byte): byte { (b >> 6) << 6 }

  /** The bytes after the clearing loop started at block k (no seal). */
  function ClearBytes(t: seq<byte>, k: nat): (u: seq<byte>)
    requires |t| == TABLE_SIZE
    ensures |u| == TABLE_SIZE
    decreases BLOCKS - k
  {
    if k >= BLOCKS || !IsTaken(t[k]) then t
    else if IsLast(t[k]) then Decreased(t[k := KeepTop(t[k])])
    else ClearBytes(Decreased(t[k := KeepTop(t[k])]), k + 1)
  }

  /** The clearing loop on the meaning of the table. */
  function ClearBlocks(v: Table, k: nat): (w: Table)
    ensures |w.blocks| == |v.blocks|
    decreases |v.blocks| - k
  {
    if k >= |v.blocks| || !IsTaken(v.blocks[k]) then v
    else if IsLast(v.blocks[k]) then DropBlock(v, k)
    else ClearBlocks(DropBlock(v, k), k + 1)
  }

  function DropBlock(v: Table, k: nat): Table
    requires k < |v.blocks|
  {
    Table(v.blocks[k := KeepTop(v.blocks[k])], (v.count + 1023) % 1024)
  }

  /** The meaning of a table after the block at k was freed. */
  function Release(v: Table, k: nat): Table
    requires k < |v.blocks|
  {
    ClearBlocks(Table(SealPrevious(v.blocks, k), v.count), k)
  }

  lemma DropBits(b: byte)
    ensures KeepTop(b) & 63 == 0 && KeepTop(b & 63) == 0
    ensures KeepTop(b) >> 6 == b >> 6
  {
  }

  lemma DropMeans(t: seq<byte>, k: nat)
    requires |t| == TABLE_SIZE && k < BLOCKS
    ensures Unpack(t[k := KeepTop(t[k])]) == Table(Unpack(t).blocks[k := KeepTop(Unpack(t).blocks[k])], Unpack(t).count)
  {
    if k < 818 {
      UnpackLow(t, k, KeepTop(t[k]));
    } else {
      DropBits(t[818]);
      LastBlockByte(t);
      UnpackHigh(t, KeepTop(t[818]), KeepTop(Unpack(t).blocks[818]));
    }
  }

  lemma DropBlockMeans(t: seq<byte>, k: nat)
    requires |t| == TABLE_SIZE && k < BLOCKS
    ensures Unpack(Decreased(t[k := KeepTop(t[k])])) == DropBlock(Unpack(t), k)
  {
    DropMeans(t, k);
    DecreasedMeans(t[k := KeepTop(t[k])]);
  }

  lemma SameFlags(t: seq<byte>, k: nat)
    requires |t| == TABLE_SIZE && k < BLOCKS
    ensures IsTaken(Unpack(t).blocks[k]) == IsTaken(t[k])
    ensures IsLast(Unpack(t).blocks[k]) == IsLast(t[k])
    ensures IsFirst(Unpack(t).blocks[k]) == IsFirst(t[k])
  {
  }

  lemma {:induction false} ClearMeans(t: seq<byte>, k: nat)
    requires |t| == TABLE_SIZE
    ensures Unpack(ClearBytes(t, k)) == ClearBlocks(Unpack(t), k)
    decreases BLOCKS - k
  {
    if k < BLOCKS {
      SameFlags(t, k);
      DropBlockMeans(t, k);
      if IsTaken(t[k]) && !IsLast(t[k]) {
        ClearMeans(Decreased(t[k := KeepTop(t[k])]), k + 1);
      }
    }
  }

  /** A mid-run free first makes the block before it LAST. */
  method Seal(t: array<byte>, k: nat)
    requires t.Length == TABLE_SIZE && k < BLOCKS
    modifies t
    ensures Unpack(t[..]) == Table(SealPrevious(Unpack(old(t[..])).blocks, k), Unpack(old(t[..])).count)
  {
    SameFlags(t[..], k);
    if !IsFirst(t[k]) {
      if k > 0 { SameFlags(t[..], k - 1); }
      if k > 0 && IsTaken(t[k - 1]) {
        UnpackFlag(t[..], k - 1, LAST);
        SetFlags(t, k - 1, LAST);
      }
    }
  }

  /** Frees the run that starts at block k.  The loop has no bound of its own: it must meet
      a free or LAST block before it reaches the counter byte. */
  method FreeBlocks(t: array<byte>, k: nat)
    requires t.Length == TABLE_SIZE && k < BLOCKS
    requires WalkEnd(Unpack(t[..]).blocks, k) <= BLOCKS
    modifies t
    ensures Unpack(t[..]) == Release(Unpack(old(t[..])), k)
  {
    ghost var v := Unpack(t[..]);
    Seal(t, k);
    ghost var sealed := t[..];
    if k > 0 { WalkIgnoresBefore(v.blocks, k - 1, WithLast(v.blocks[k - 1]), k); }
    ClearMeans(sealed, k);
    var block := k;
    while IsTaken(t[block])
      invariant k <= block < BLOCKS
      invariant WalkEnd(Unpack(t[..]).blocks, block) <= BLOCKS
      invariant ClearBytes(t[..], block) == ClearBytes(sealed, k)
      decreases BLOCKS - block
    {
      ghost var now := t[..];
      SameFlags(now, block);
      DropBlockMeans(now, block);
      var isLast := IsLast(t[block]);
      t[block] := KeepTop(t[block]);
      DecreaseUsage(t);
      if isLast { break; }
      WalkIgnoresBefore(Unpack(now).blocks, block, KeepTop(Unpack(now).blocks[block]), block + 1);
      block := block + 1;
    }
  }
}
