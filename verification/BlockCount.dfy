/** What the block table of a malloc page keeps: the ten-bit count is the number of taken
    blocks, through every allocation and free. */
module BlockCount {
  import opened Flags
  import opened Runs
  import opened BlockTable

  /** The number of taken blocks. */
  function TakenCount(b: seq<byte>): (n: nat)
    ensures n <= |b|
  {
    if b == [] then 0
    else TakenCount(b[..|b| - 1]) + (if IsTaken(b[|b| - 1]) then 1 else 0)
  }

  /** The table of a malloc page between calls. */
  predicate TableOk(v: Table) {
    && |v.blocks| == BLOCKS
    && WellFormed(v.blocks)
    && (forall j :: 0 <= j < BLOCKS ==> v.blocks[j] < 64)
    && v.count == TakenCount(v.blocks)
  }

  // ---------------------------------------------------------------- counting

  /** Two tables that agree outside [i, i + n), where the first is all free and the second
      all taken. */
  lemma {:induction false} CountWindow(p: seq<byte>, q: seq<byte>, i: nat, n: nat)
    requires |p| == |q|
    requires forall j :: 0 <= j < |p| && !(i <= j < i + n) ==> IsTaken(p[j]) == IsTaken(q[j])
    requires forall j :: i <= j < i + n && j < |p| ==> !IsTaken(p[j]) && IsTaken(q[j])
    ensures i + n <= |p| ==> TakenCount(q) == TakenCount(p) + n
    ensures |p| < i + n ==> TakenCount(q) == TakenCount(p) + if |p| <= i then 0 else |p| - i
  {
    if |p| > 0 {
      CountWindow(p[..|p| - 1], q[..|q| - 1], i, n);
    }
  }

  lemma {:induction false} CountZero(p: seq<byte>)
    ensures TakenCount(p) == 0 <==> forall j :: 0 <= j < |p| ==> !IsTaken(p[j])
  {
    if |p| > 0 {
      CountZero(p[..|p| - 1]);
      assert p == p[..|p| - 1] + [p[|p| - 1]];
    }
  }

  /** The page is given back exactly when none of its blocks is taken. */
  lemma CountReachesZero(v: Table)
    requires TableOk(v)
    ensures v.count == 0 <==> forall j :: 0 <= j < BLOCKS ==> !IsTaken(v.blocks[j])
  {
    CountZero(v.blocks);
  }

  // ---------------------------------------------------------------- allocation

  lemma FreshOk()
    ensures TableOk(Fresh())
  {
    CountZero(Fresh().blocks);
  }

  /** A freshly initialised page satisfies any request of 1 to 3276 bytes at block 0. */
  lemma FreshFits(size: nat, code: Code)
    requires 1 <= size <= 3276
    ensures FirstAccepted(Fresh().blocks, 0, BlocksFor(size), code)
  {
  }

  /** Taking a window of free blocks keeps the table. */
  lemma TakeKeepsTable(v: Table, i: nat, n: nat)
    requires TableOk(v) && n >= 1 && FreeWindow(v.blocks, i, n)
    ensures TableOk(Take(v, i, n))
    ensures IsMarked(Take(v, i, n).blocks, i, n)
    ensures Take(v, i, n).count == v.count + n
  {
    MarkKeepsWellFormed(v.blocks, i, n);
    CountWindow(v.blocks, Take(v, i, n).blocks, i, n);
  }

  /** As written, _try_malloc accepts windows whose last block is in use.  It keeps the table
      exactly when that block, which the scan never reads, happens to be free. */
  lemma AsWrittenTakeKeepsTableIff(v: Table, i: nat, n: nat)
    requires TableOk(v) && n >= 1 && Fits(v.blocks, i, n, AsWritten)
    ensures TableOk(Take(v, i, n)) <==> !IsTaken(v.blocks[i + n - 1])
  {
    if IsTaken(v.blocks[i + n - 1]) {
      CountWindow(v.blocks, Take(v, i, n).blocks, i, n - 1);
    } else {
      TakeKeepsTable(v, i, n);
    }
  }

  /** Two one-block requests, the first of them freed: as written, a two-block request is
      placed over the block that is still in use. */
  lemma AsWrittenScanOverlaps()
    ensures var v := Release(Take(Take(Fresh(), 0, 1), 1, 1), 0);
      && TableOk(v) && IsTaken(v.blocks[1])
      && FirstAccepted(v.blocks, 0, 2, AsWritten)
      && !TableOk(Take(v, 0, 2))
  {
    FreshOk();
    var u := Take(Fresh(), 0, 1);
    TakeKeepsTable(Fresh(), 0, 1);
    var w := Take(u, 1, 1);
    TakeKeepsTable(u, 1, 1);
    ReleaseKeepsTable(w, 0);
    FreeWholeRun(w.blocks, 0, 1);
    AsWrittenTakeKeepsTableIff(Release(w, 0), 0, 2);
  }

  // ---------------------------------------------------------------- free

  lemma {:induction false} ClearBlocksMeans(v: Table, k: nat)
    requires WalkEnd(v.blocks, k) <= |v.blocks| && k < |v.blocks|
    requires WalkEnd(v.blocks, k) - k <= v.count < 1024
    ensures ClearBlocks(v, k).count == v.count - (WalkEnd(v.blocks, k) - k)
    ensures forall j :: 0 <= j < |v.blocks| ==>
      ClearBlocks(v, k).blocks[j] == if k <= j < WalkEnd(v.blocks, k) then KeepTop(v.blocks[j]) else v.blocks[j]
    decreases |v.blocks| - k
  {
    if IsTaken(v.blocks[k]) && !IsLast(v.blocks[k]) {
      WalkIgnoresBefore(v.blocks, k, KeepTop(v.blocks[k]), k + 1);
      ClearBlocksMeans(DropBlock(v, k), k + 1);
    }
  }

  lemma SixBitsClear(b: byte)
    requires b < 64
    ensures KeepTop(b) == 0 && WithLast(b) < 64
  {
  }

  lemma SealKeepsSixBits(b: seq<byte>, k: nat)
    requires k < |b| && forall j :: 0 <= j < |b| ==> b[j] < 64
    ensures forall j :: 0 <= j < |b| ==> SealPrevious(b, k)[j] < 64 && KeepTop(SealPrevious(b, k)[j]) == 0
  {
    forall j | 0 <= j < |b| ensures SealPrevious(b, k)[j] < 64 && KeepTop(SealPrevious(b, k)[j]) == 0 {
      SixBitsClear(b[j]);
      SixBitsClear(WithLast(b[j]));
    }
  }

  lemma WalkIsCounted(b: seq<byte>, k: nat)
    requires WellFormed(b) && k < |b|
    ensures k <= WalkEnd(b, k) <= |b|
    ensures TakenCount(b) == TakenCount(FreeRun(b, k)) + (WalkEnd(b, k) - k)
  {
    FreeClearsExactSuffix(b, k);
    CountWindow(FreeRun(b, k), b, k, WalkEnd(b, k) - k);
  }

  lemma WalkIgnoresSeal(b: seq<byte>, k: nat)
    requires k < |b|
    ensures WalkEnd(SealPrevious(b, k), k) == WalkEnd(b, k)
  {
    if k > 0 { WalkIgnoresBefore(b, k - 1, WithLast(b[k - 1]), k); }
  }

  lemma ReleaseMeans(v: Table, k: nat)
    requires TableOk(v) && k < BLOCKS
    ensures k <= WalkEnd(v.blocks, k) <= BLOCKS
    ensures Release(v, k).blocks == FreeRun(v.blocks, k)
    ensures Release(v, k).count == v.count - (WalkEnd(v.blocks, k) - k)
  {
    var b := v.blocks;
    WalkIsCounted(b, k);
    WalkIgnoresSeal(b, k);
    SealKeepsSixBits(b, k);
    ClearBlocksMeans(Table(SealPrevious(b, k), v.count), k);
  }

  /** A free anywhere in the page keeps the table; the block walk ends before the counter
      byte, clears the rest of one run, and takes its length off the count. */
  lemma ReleaseKeepsTable(v: Table, k: nat)
    requires TableOk(v) && k < BLOCKS
    ensures k <= WalkEnd(v.blocks, k) <= BLOCKS
    ensures Release(v, k).blocks == FreeRun(v.blocks, k)
    ensures Release(v, k).count == v.count - (WalkEnd(v.blocks, k) - k)
    ensures TableOk(Release(v, k))
  {
    ReleaseMeans(v, k);
    WalkIsCounted(v.blocks, k);
    FreeKeepsWellFormed(v.blocks, k);
    SealKeepsSixBits(v.blocks, k);
  }

  // ---------------------------------------------------------------- tables that are not sound

  lemma TakenOff(count: nat, r: nat, n: nat)
    requires n > 0 && (r + (n - 1)) % 1024 == (count + 1023) % 1024 % 1024
    ensures (r + n) % 1024 == count % 1024
  {
    WrapStep(r + (n - 1));
    WrapStep(count + 1023);
  }

  /** The clearing loop takes the length of its walk off any ten-bit count, modulo 1024. */
  lemma {:induction false} ClearCount(v: Table, k: nat)
    requires k < |v.blocks| && WalkEnd(v.blocks, k) <= |v.blocks| && v.count < 1024
    ensures ClearBlocks(v, k).count < 1024
    ensures (ClearBlocks(v, k).count + (WalkEnd(v.blocks, k) - k)) % 1024 == v.count % 1024
    decreases |v.blocks| - k
  {
    if IsTaken(v.blocks[k]) {
      var w := DropBlock(v, k);
      if !IsLast(v.blocks[k]) {
        WalkIgnoresBefore(v.blocks, k, KeepTop(v.blocks[k]), k + 1);
        ClearCount(w, k + 1);
      }
      TakenOff(v.count, ClearBlocks(v, k).count, WalkEnd(v.blocks, k) - k);
    }
  }

  /** Any bytes whose walk stops, read as a table and freed from block 0, end with a zero count if
      and only if their ten-bit count is the length of the run that they spell from block 0. */
  lemma ReleaseReachesZeroIff(v: Table)
    requires |v.blocks| == BLOCKS && WalkEnd(v.blocks, 0) <= BLOCKS && v.count < 1024
    ensures Release(v, 0).count == 0 <==> v.count == WalkEnd(v.blocks, 0)
  {
    assert SealPrevious(v.blocks, 0) == v.blocks;
    ClearCount(v, 0);
  }
}
