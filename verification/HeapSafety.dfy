/** Live allocations.  The invariant ties the descriptors to the set of allocations that have
    been handed out and not freed: each live allocation holds its pages and blocks, no two
    share one, and every taken page and block belongs to a live allocation. */
module HeapSafety {
  import opened Flags
  import opened Runs
  import opened BlockTable
  import opened BlockCount
  import opened HeapState

  /** What the caller of malloc knows: where the memory starts and how much was asked for. */
  datatype Alloc = Alloc(page: nat, block: nat, size: nat)

  ghost predicate OwnsPage(a: Alloc, k: nat) {
    a.page <= k < a.page + FullPages(a.size)
  }

  /** The malloc page that holds the blocks of a, if it has any. */
  function TailPage(a: Alloc): nat { a.page + FullPages(a.size) }

  ghost predicate InTail(a: Alloc, j: nat) {
    a.block <= j < a.block + TailBlocks(a.size)
  }

  ghost predicate OwnsBlock(a: Alloc, k: nat, j: nat) {
    k == TailPage(a) && InTail(a, j)
  }

  ghost predicate Held(s: State, a: Alloc)
    requires Shaped(s)
  {
    && a.size > 0
    && a.page + PageCount(a.size) <= |s.pages|
    && (FullPages(a.size) > 0 ==> a.block == 0)
    && (forall k: nat :: OwnsPage(a, k) ==> s.pages[k] == RunFlags(a.page, PageCount(a.size), k))
    && (TailBlocks(a.size) > 0 ==>
          IsMalloced(s.pages[TailPage(a)]) && IsMarked(s.tabs[TailPage(a)].blocks, a.block, TailBlocks(a.size)))
  }

  // ---------------------------------------------------------------- memory as an interval

  /** Allocations are intervals of four-byte cells, 1024 cells a page. */
  function Start(a: Alloc): nat { a.page * 1024 + a.block }
  function Cells(a: Alloc): nat { FullPages(a.size) * 1024 + TailBlocks(a.size) }

  ghost predicate Apart(a: Alloc, b: Alloc) {
    Start(a) + Cells(a) <= Start(b) || Start(b) + Cells(b) <= Start(a)
  }

  ghost predicate Placed(a: Alloc) {
    a.size > 0 && (FullPages(a.size) > 0 ==> a.block == 0) && a.block + TailBlocks(a.size) <= BLOCKS
  }

  /** A cell of the interval is in a page or in a block that a owns. */
  lemma CellIsOwned(a: Alloc, x: nat)
    requires Placed(a) && Start(a) <= x < Start(a) + Cells(a)
    ensures OwnsPage(a, x / 1024) || OwnsBlock(a, x / 1024, x % 1024)
  {
  }

  /** Allocations that are not apart share a page or a block. */
  lemma NotApartShares(a: Alloc, b: Alloc) returns (x: nat)
    requires Placed(a) && Placed(b) && !Apart(a, b)
    ensures OwnsPage(a, x / 1024) || OwnsBlock(a, x / 1024, x % 1024)
    ensures OwnsPage(b, x / 1024) || OwnsBlock(b, x / 1024, x % 1024)
  {
    x := if Start(a) < Start(b) then Start(b) else Start(a);
    CellIsOwned(a, x);
    CellIsOwned(b, x);
  }

  lemma ApartOwnsPage(a: Alloc, b: Alloc, k: nat)
    requires Placed(a) && Placed(b) && Apart(a, b) && OwnsPage(a, k)
    ensures !OwnsPage(b, k) && forall j :: !OwnsBlock(b, k, j)
  {
  }

  lemma ApartOwnsBlock(a: Alloc, b: Alloc, k: nat, j: nat)
    requires Placed(a) && Placed(b) && Apart(a, b) && OwnsBlock(a, k, j)
    ensures !OwnsPage(b, k) && !OwnsBlock(b, k, j)
  {
  }

  // ---------------------------------------------------------------- the invariant

  ghost predicate PageCovered(live: set<Alloc>, k: nat) {
    exists a: Alloc :: a in live && OwnsPage(a, k)
  }

  ghost predicate BlockCovered(live: set<Alloc>, k: nat, j: nat) {
    exists a: Alloc :: a in live && OwnsBlock(a, k, j)
  }

  ghost predicate Covered(s: State, live: set<Alloc>)
    requires Shaped(s)
  {
    && (forall k :: 0 <= k < |s.pages| && IsTaken(s.pages[k]) && !IsMalloced(s.pages[k]) ==> PageCovered(live, k))
    && (forall k, j ::
          0 <= k < |s.pages| && IsMalloced(s.pages[k]) && 0 <= j < BLOCKS && IsTaken(s.tabs[k].blocks[j]) ==>
          BlockCovered(live, k, j))
  }

  ghost predicate Inv(s: State, live: set<Alloc>) {
    && HeapOk(s)
    && (forall a :: a in live ==> Held(s, a))
    && (forall a, b :: a in live && b in live && a != b ==> Apart(a, b))
    && Covered(s, live)
  }

  lemma HeldIsPlaced(s: State, a: Alloc)
    requires Shaped(s) && Held(s, a)
    ensures Placed(a)
  {
    SizesCover(a.size);
  }

  lemma HeldPage(s: State, a: Alloc, k: nat)
    requires Shaped(s) && Held(s, a) && OwnsPage(a, k)
    ensures k < |s.pages| && IsTaken(s.pages[k]) && !IsMalloced(s.pages[k])
  {
    assert s.pages[k] == RunFlags(a.page, PageCount(a.size), k);
  }

  lemma HeldBlock(s: State, a: Alloc, k: nat, j: nat)
    requires Shaped(s) && Held(s, a) && OwnsBlock(a, k, j)
    ensures k < |s.pages| && IsMalloced(s.pages[k]) && j < BLOCKS && IsTaken(s.tabs[k].blocks[j])
  {
    assert s.tabs[k].blocks[j] == RunFlags(a.block, TailBlocks(a.size), j);
  }

  // ---------------------------------------------------------------- allocation

  /** s' is s after a was allocated from free pages and free blocks only. */
  ghost predicate Grants(s: State, a: Alloc, s': State)
    requires Shaped(s)
  {
    && HeapOk(s') && |s'.pages| == |s.pages| && Held(s', a)
    && (forall k: nat :: OwnsPage(a, k) ==> !IsTaken(s.pages[k]))
    && (forall k :: 0 <= k < |s.pages| && !OwnsPage(a, k) && !(k == TailPage(a) && TailBlocks(a.size) > 0) ==>
          s'.pages[k] == s.pages[k] && s'.tabs[k] == s.tabs[k])
    && (TailBlocks(a.size) > 0 ==> TailGranted(s, a, s'))
  }

  ghost predicate TailGranted(s: State, a: Alloc, s': State)
    requires Shaped(s) && Shaped(s') && |s'.pages| == |s.pages| && TailPage(a) < |s.pages|
  {
    var t := TailPage(a);
    if IsMalloced(s.pages[t]) then
      && s'.pages[t] == s.pages[t]
      && (forall j :: 0 <= j < BLOCKS && InTail(a, j) ==> !IsTaken(s.tabs[t].blocks[j]))
      && (forall j :: 0 <= j < BLOCKS && !InTail(a, j) ==> s'.tabs[t].blocks[j] == s.tabs[t].blocks[j])
    else
      && !IsTaken(s.pages[t])
      && (forall j :: 0 <= j < BLOCKS && !InTail(a, j) ==> !IsTaken(s'.tabs[t].blocks[j]))
  }

  /** No live allocation overlaps memory taken from free pages and blocks. */
  lemma GrantIsApart(s: State, live: set<Alloc>, a: Alloc, s': State, b: Alloc)
    requires Inv(s, live) && Grants(s, a, s') && b in live
    ensures Apart(a, b) && a != b
  {
    HeldIsPlaced(s', a);
    HeldIsPlaced(s, b);
    SizesCover(a.size);
    if !Apart(a, b) {
      var x := NotApartShares(a, b);
      if OwnsPage(b, x / 1024) {
        HeldPage(s, b, x / 1024);
      } else {
        HeldBlock(s, b, x / 1024, x % 1024);
      }
    }
  }

  lemma GrantKeepsHeld(s: State, live: set<Alloc>, a: Alloc, s': State, b: Alloc)
    requires Inv(s, live) && Grants(s, a, s') && b in live
    ensures Held(s', b)
  {
    HeldIsPlaced(s, b);
    HeldIsPlaced(s', a);
    GrantIsApart(s, live, a, s', b);
    forall k: nat | OwnsPage(b, k) ensures s'.pages[k] == s.pages[k] {
      HeldPage(s, b, k);
      ApartOwnsPage(b, a, k);
    }
    if TailBlocks(b.size) > 0 {
      GrantKeepsTail(s, a, s', b);
    }
  }

  lemma GrantKeepsTail(s: State, a: Alloc, s': State, b: Alloc)
    requires HeapOk(s) && Grants(s, a, s') && Held(s, b) && Apart(a, b) && TailBlocks(b.size) > 0
    ensures IsMalloced(s'.pages[TailPage(b)])
    ensures IsMarked(s'.tabs[TailPage(b)].blocks, b.block, TailBlocks(b.size))
  {
    var t := TailPage(b);
    HeldIsPlaced(s, b);
    HeldIsPlaced(s', a);
    assert IsTaken(s.pages[t]);
    forall j: nat | InTail(b, j) ensures s'.tabs[t].blocks[j] == s.tabs[t].blocks[j] {
      assert OwnsBlock(b, t, j);
      ApartOwnsBlock(b, a, t, j);
    }
  }

  lemma GrantCovers(s: State, live: set<Alloc>, a: Alloc, s': State)
    requires Inv(s, live) && Grants(s, a, s')
    ensures Covered(s', live + {a})
  {
    forall k | 0 <= k < |s'.pages| && IsTaken(s'.pages[k]) && !IsMalloced(s'.pages[k])
      ensures PageCovered(live + {a}, k)
    {
      if OwnsPage(a, k) {
        assert a in live + {a};
      } else {
        assert PageCovered(live, k);
        var b :| b in live && OwnsPage(b, k);
        assert b in live + {a};
      }
    }
    forall k, j | 0 <= k < |s'.pages| && IsMalloced(s'.pages[k]) && 0 <= j < BLOCKS && IsTaken(s'.tabs[k].blocks[j])
      ensures BlockCovered(live + {a}, k, j)
    {
      if OwnsBlock(a, k, j) {
        assert a in live + {a};
      } else {
        assert !OwnsPage(a, k);
        assert BlockCovered(live, k, j);
        var b :| b in live && OwnsBlock(b, k, j);
        assert b in live + {a};
      }
    }
  }

  lemma GrantKeepsInv(s: State, live: set<Alloc>, a: Alloc, s': State)
    requires Inv(s, live) && Grants(s, a, s')
    ensures Inv(s', live + {a}) && a !in live
  {
    forall b | b in live ensures Held(s', b) && Apart(a, b) && Apart(b, a) && a != b {
      GrantKeepsHeld(s, live, a, s', b);
      GrantIsApart(s, live, a, s', b);
    }
    GrantCovers(s, live, a, s');
  }

  // ---------------------------------------------------------------- free

  /** s' is s after exactly the pages and blocks of a were given back. */
  ghost predicate Reclaims(s: State, a: Alloc, s': State)
    requires Shaped(s)
  {
    && HeapOk(s') && |s'.pages| == |s.pages|
    && (forall k: nat :: OwnsPage(a, k) && k < |s.pages| ==> s'.pages[k] == 0)
    && (forall k :: 0 <= k < |s.pages| && !OwnsPage(a, k) && !(k == TailPage(a) && TailBlocks(a.size) > 0) ==>
          s'.pages[k] == s.pages[k] && s'.tabs[k] == s.tabs[k])
    && (TailBlocks(a.size) > 0 && TailPage(a) < |s.pages| ==> TailReclaimed(s, a, s'))
  }

  ghost predicate TailReclaimed(s: State, a: Alloc, s': State)
    requires Shaped(s) && Shaped(s') && |s'.pages| == |s.pages| && TailPage(a) < |s.pages|
  {
    var t := TailPage(a);
    && (forall j :: 0 <= j < BLOCKS ==>
          s'.tabs[t].blocks[j] == if InTail(a, j) then 0 else s.tabs[t].blocks[j])
    && (s'.pages[t] == s.pages[t] ||
        (s'.pages[t] == 0 && forall j :: 0 <= j < BLOCKS ==> !IsTaken(s'.tabs[t].blocks[j])))
  }

  lemma ReclaimKeepsTail(s: State, a: Alloc, s': State, b: Alloc)
    requires HeapOk(s) && Held(s, a) && Held(s, b) && Reclaims(s, a, s') && Apart(b, a) && TailBlocks(b.size) > 0
    ensures IsMalloced(s'.pages[TailPage(b)])
    ensures IsMarked(s'.tabs[TailPage(b)].blocks, b.block, TailBlocks(b.size))
  {
    var t := TailPage(b);
    HeldIsPlaced(s, b);
    HeldIsPlaced(s, a);
    if OwnsPage(a, t) { HeldPage(s, a, t); }
    forall j: nat | InTail(b, j) ensures s'.tabs[t].blocks[j] == s.tabs[t].blocks[j] {
      assert OwnsBlock(b, t, j);
      ApartOwnsBlock(b, a, t, j);
    }
    assert s'.tabs[t].blocks[b.block] == RunFlags(b.block, TailBlocks(b.size), b.block);
  }

  lemma ReclaimKeepsHeld(s: State, a: Alloc, s': State, b: Alloc)
    requires HeapOk(s) && Held(s, a) && Held(s, b) && Reclaims(s, a, s') && Apart(b, a)
    ensures Held(s', b)
  {
    HeldIsPlaced(s, b);
    HeldIsPlaced(s, a);
    forall k: nat | OwnsPage(b, k) ensures s'.pages[k] == s.pages[k] {
      HeldPage(s, b, k);
      ApartOwnsPage(b, a, k);
    }
    if TailBlocks(b.size) > 0 {
      ReclaimKeepsTail(s, a, s', b);
    }
  }

  lemma ReclaimCoversPages(s: State, live: set<Alloc>, a: Alloc, s': State)
    requires Inv(s, live) && a in live && Reclaims(s, a, s')
    ensures forall k :: 0 <= k < |s'.pages| && IsTaken(s'.pages[k]) && !IsMalloced(s'.pages[k]) ==>
        PageCovered(live - {a}, k)
  {
    forall k | 0 <= k < |s'.pages| && IsTaken(s'.pages[k]) && !IsMalloced(s'.pages[k])
      ensures PageCovered(live - {a}, k)
    {
      assert s'.pages[k] == s.pages[k];
      assert PageCovered(live, k);
      var b :| b in live && OwnsPage(b, k);
      assert b in live - {a};
    }
  }

  lemma ReclaimCovers(s: State, live: set<Alloc>, a: Alloc, s': State)
    requires Inv(s, live) && a in live && Reclaims(s, a, s')
    ensures Covered(s', live - {a})
  {
    ReclaimCoversPages(s, live, a, s');
    forall k, j | 0 <= k < |s'.pages| && IsMalloced(s'.pages[k]) && 0 <= j < BLOCKS && IsTaken(s'.tabs[k].blocks[j])
      ensures BlockCovered(live - {a}, k, j)
    {
      assert !OwnsBlock(a, k, j);
      assert BlockCovered(live, k, j);
      var b :| b in live && OwnsBlock(b, k, j);
      assert b in live - {a};
    }
  }

  lemma ReclaimKeepsInv(s: State, live: set<Alloc>, a: Alloc, s': State)
    requires Inv(s, live) && a in live && Reclaims(s, a, s')
    ensures Inv(s', live - {a})
  {
    forall b | b in live - {a} ensures Held(s', b) {
      ReclaimKeepsHeld(s, a, s', b);
    }
    ReclaimCovers(s, live, a, s');
  }
}
