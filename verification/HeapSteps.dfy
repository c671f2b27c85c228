/** malloc grants free memory only, and free gives back exactly what malloc granted. */
module HeapSteps {
  import opened Flags
  import opened Runs
  import opened BlockTable
  import opened BlockCount
  import opened HeapState
  import opened HeapSafety

  function AllocAt(p: Ptr, size: nat): Alloc { Alloc(p.page, p.block, size) }
  function PtrOf(a: Alloc): Ptr { Ptr(a.page, a.block) }

  // ---------------------------------------------------------------- malloc

  lemma FreshTaken(n: nat)
    requires 1 <= n <= BLOCKS
    ensures var v := Take(Fresh(), 0, n); TableOk(v) && IsMarked(v.blocks, 0, n) && v.count == n
    ensures forall j :: n <= j < BLOCKS ==> Take(Fresh(), 0, n).blocks[j] == 0
  {
    FreshOk();
    CountZero(Fresh().blocks);
    TakeKeepsTable(Fresh(), 0, n);
  }

  lemma NewPageFlags()
    ensures var b := NewMallocPage(); IsTaken(b) && IsLast(b) && IsFirst(b) && IsMalloced(b) && 0 | b == b
  {
  }

  /** A small request served by a malloc page: sound as long as the whole window is free. */
  lemma SmallInPageGrants(s: State, size: nat, p: Ptr)
    requires HeapOk(s) && 0 < size <= ALLOCABLE_SIZE
    requires p.page < |s.pages| && IsMalloced(s.pages[p.page])
    requires FreeWindow(s.tabs[p.page].blocks, p.block, BlocksFor(size))
    ensures Grants(s, AllocAt(p, size), State(s.pages, s.tabs[p.page := Take(s.tabs[p.page], p.block,
        BlocksFor(size))]))
  {
    TakeKeepsTable(s.tabs[p.page], p.block, BlocksFor(size));
    NewTableKeeps(s, p.page, Take(s.tabs[p.page], p.block, BlocksFor(size)));
  }

  /** A malloc page with another sound table that is not empty. */
  lemma NewTableKeeps(s: State, t: nat, v: Table)
    requires HeapOk(s) && t < |s.pages| && IsMalloced(s.pages[t]) && TableOk(v) && v.count > 0
    ensures HeapOk(State(s.pages, s.tabs[t := v]))
  {
  }

  lemma SmallNewPageGrants(s: State, size: nat, p: Ptr)
    requires HeapOk(s) && 0 < size <= ALLOCABLE_SIZE
    requires p.page < |s.pages| && !IsTaken(s.pages[p.page]) && !IsMalloced(s.pages[p.page]) && p.block == 0
    ensures BlocksFor(size) <= BLOCKS
    ensures Grants(s, AllocAt(p, size),
      State(s.pages[p.page := s.pages[p.page] | NewMallocPage()], s.tabs[p.page := Take(Fresh(), 0, BlocksFor(size))]))
  {
    SizesCover(size);
    NewPageFlags();
    FreshTaken(BlocksFor(size));
  }

  lemma LargePagesKeep(p: seq<byte>, i: nat, n: nat)
    requires WellFormed(p) && n >= 1 && FreeWindow(p, i, n)
    ensures var q, t := MarkRun(p, i, n), i + n - 1;
      && WellFormed(q) && WellFormed(q[t := q[t] | MALLOC])
      && (forall k :: i <= k < i + n ==> q[k] == RunFlags(i, n, k))
      && IsTaken(q[t] | MALLOC) && IsLast(q[t] | MALLOC) && IsMalloced(q[t] | MALLOC)
  {
    MarkKeepsWellFormed(p, i, n);
    TailFlags(i, n);
    assert MarkRun(p, i, n)[i + n - 1] == RunFlags(i, n, i + n - 1);
  }

  lemma LargeGrantsPages(s: State, size: nat, p: Ptr)
    requires HeapOk(s) && size > ALLOCABLE_SIZE && TailBlocks(size) == 0
    requires FreeWindow(s.pages, p.page, PageCount(size)) && p.block == 0
    ensures Grants(s, AllocAt(p, size), State(MarkRun(s.pages, p.page, PageCount(size)), s.tabs))
  {
    SizesCover(size);
    LargePagesKeep(s.pages, p.page, PageCount(size));
  }

  lemma LargeGrantsTail(s: State, size: nat, p: Ptr, t: nat)
    requires HeapOk(s) && size > ALLOCABLE_SIZE && TailBlocks(size) > 0
    requires FreeWindow(s.pages, p.page, PageCount(size)) && p.block == 0 && t == p.page + PageCount(size) - 1
    ensures TailBlocks(size) <= BLOCKS
    ensures var q := MarkRun(s.pages, p.page, PageCount(size));
      Grants(s, AllocAt(p, size), State(q[t := q[t] | MALLOC], s.tabs[t := Take(Fresh(), 0, TailBlocks(size))]))
  {
    SizesCover(size);
    LargePagesKeep(s.pages, p.page, PageCount(size));
    FreshTaken(TailBlocks(size));
  }

  lemma LargeGrants(s: State, size: nat, p: Ptr, s': State)
    requires HeapOk(s) && size > ALLOCABLE_SIZE
    requires LargeMalloc(s, PageCount(size), TailBlocks(size), p, s')
    ensures Grants(s, AllocAt(p, size), s')
  {
    if TailBlocks(size) == 0 {
      LargeGrantsPages(s, size, p);
    } else {
      LargeGrantsTail(s, size, p, p.page + PageCount(size) - 1);
    }
  }

  lemma TailFlags(i: nat, n: nat)
    requires n >= 1
    ensures var b := RunFlags(i, n, i + n - 1) | MALLOC;
      IsTaken(b) && IsLast(b) && IsMalloced(b) && (IsFirst(b) <==> n == 1)
  {
  }

  /** With the intended scan malloc only hands out free memory. */
  lemma MallocGrants(s: State, size: nat, p: Ptr, s': State)
    requires HeapOk(s) && Malloc(s, size, AsIntended, p, s')
    ensures Grants(s, AllocAt(p, size), s')
  {
    if size > ALLOCABLE_SIZE {
      LargeGrants(s, size, p, s');
    } else if IsMalloced(s.pages[p.page]) {
      SmallInPageGrants(s, size, p);
    } else {
      SmallNewPageGrants(s, size, p);
    }
  }

  // ---------------------------------------------------------------- free

  /** The page before t is not left open, so giving t back touches t only. */
  predicate Sealed(p: seq<byte>, t: nat)
    requires t < |p|
  {
    t > 0 && IsTaken(p[t - 1]) ==> IsFirst(p[t]) || IsLast(p[t - 1])
  }

  lemma ToggleMalloc(b: byte)
    requires IsMalloced(b)
    ensures var c := b ^ MALLOC;
      !IsMalloced(c) && IsTaken(c) == IsTaken(b) && IsLast(c) == IsLast(b) && IsFirst(c) == IsFirst(b)
  {
  }

  lemma GiveBackPage(p: seq<byte>, t: nat)
    requires WellFormed(p) && t < |p| && IsTaken(p[t]) && IsLast(p[t]) && IsMalloced(p[t]) && Sealed(p, t)
    ensures FreeRun(p[t := p[t] ^ MALLOC], t) == p[t := 0]
    ensures WellFormed(p[t := 0])
  {
    var q := p[t := p[t] ^ MALLOC];
    ToggleMalloc(p[t]);
    assert WellFormed(q);
    FreeClearsExactSuffix(q, t);
    FreeKeepsWellFormed(q, t);
    assert FreeRun(q, t) == p[t := 0];
  }

  /** Freeing the blocks of one allocation of page t. */
  lemma FreeBlocksOf(s: State, t: nat, i: nat, n: nat)
    requires HeapOk(s) && t < |s.pages| && IsMalloced(s.pages[t])
    requires n >= 1 && IsMarked(s.tabs[t].blocks, i, n) && i < BLOCKS
    ensures var v := Release(s.tabs[t], i);
      && TableOk(v)
      && (forall j :: 0 <= j < BLOCKS ==> v.blocks[j] == if i <= j < i + n then 0 else s.tabs[t].blocks[j])
      && (v.count == 0 <==> forall j :: 0 <= j < BLOCKS ==> !IsTaken(v.blocks[j]))
  {
    ReleaseKeepsTable(s.tabs[t], i);
    FreeWholeRun(s.tabs[t].blocks, i, n);
    CountReachesZero(Release(s.tabs[t], i));
  }

  lemma FreeBlockAtKeeps(s: State, t: nat, i: nat, n: nat)
    requires HeapOk(s) && t < |s.pages| && IsMalloced(s.pages[t])
    requires n >= 1 && IsMarked(s.tabs[t].blocks, i, n) && i < BLOCKS
    requires Release(s.tabs[t], i).count == 0 ==> Sealed(s.pages, t)
    ensures var r := FreeBlockAt(s, t, t, i);
      && HeapOk(r) && r.tabs == s.tabs[t := Release(s.tabs[t], i)]
      && r.pages == if Release(s.tabs[t], i).count == 0 then s.pages[t := 0] else s.pages
  {
    var v := Release(s.tabs[t], i);
    FreeBlocksOf(s, t, i, n);
    if v.count == 0 {
      GiveBackPage(s.pages, t);
      EmptyPageKeeps(s, t, v);
    } else {
      NewTableKeeps(s, t, v);
    }
  }

  lemma EmptyPageKeeps(s: State, t: nat, v: Table)
    requires HeapOk(s) && t < |s.pages| && |v.blocks| == BLOCKS && WellFormed(s.pages[t := 0])
    ensures HeapOk(State(s.pages[t := 0], s.tabs[t := v]))
  {
  }

  /** While a small allocation is live, the page before its own is never left open, unless
      by the allocation whose tail shares the page. */
  lemma SealedWhenLastLeaves(s: State, live: set<Alloc>, a: Alloc)
    requires Inv(s, live) && a in live && FullPages(a.size) == 0
    requires Release(s.tabs[a.page], a.block).count == 0
    ensures Sealed(s.pages, a.page)
  {
    var t := a.page;
    HeldIsPlaced(s, a);
    FreeBlocksOf(s, t, a.block, TailBlocks(a.size));
    if t > 0 && IsTaken(s.pages[t - 1]) && !IsMalloced(s.pages[t - 1]) {
      assert PageCovered(live, t - 1);
      var b :| b in live && OwnsPage(b, t - 1);
      HeldIsPlaced(s, b);
      assert s.pages[t - 1] == RunFlags(b.page, PageCount(b.size), t - 1);
      if TailPage(b) == t && TailBlocks(b.size) > 0 {
        HeldBlock(s, b, t, b.block);
        assert OwnsBlock(b, t, b.block);
        ApartOwnsBlock(b, a, t, b.block);
      }
    }
  }

  lemma FreeSmall(s: State, a: Alloc)
    requires HeapOk(s) && Held(s, a) && FullPages(a.size) == 0
    requires Release(s.tabs[a.page], a.block).count == 0 ==> Sealed(s.pages, a.page)
    ensures FreeOk(s, PtrOf(a)) && IsMalloced(s.pages[a.page])
    ensures Reclaims(s, a, Free(s, PtrOf(a), AsIntended))
  {
    HeldIsPlaced(s, a);
    FreeBlocksOf(s, a.page, a.block, TailBlocks(a.size));
    FreeBlockAtKeeps(s, a.page, a.block, TailBlocks(a.size));
  }

  lemma LastPageOfLarge(s: State, a: Alloc)
    requires HeapOk(s) && Held(s, a) && FullPages(a.size) > 0
    ensures IsTaken(s.pages[a.page]) && !IsMalloced(s.pages[a.page])
    ensures NextLast(s.pages, a.page) == a.page + PageCount(a.size) - 1 < |s.pages|
    ensures IsMalloced(s.pages[NextLast(s.pages, a.page)]) <==> TailBlocks(a.size) > 0
  {
    var k, n := a.page, PageCount(a.size);
    HeldPage(s, a, k);
    forall j | k <= j < k + n ensures IsTaken(s.pages[j]) && (IsLast(s.pages[j]) <==> j == k + n - 1) {
      if OwnsPage(a, j) { assert s.pages[j] == RunFlags(k, n, j); }
    }
    WalkEndOfRun(s.pages, k, n, k);
    NextLastOfTaken(s.pages, k);
    if TailBlocks(a.size) == 0 { HeldPage(s, a, k + n - 1); }
  }

  lemma ShorterRun(i: nat, n: nat, j: nat)
    requires i <= j < i + n
    ensures RunFlags(i, n, j) == if j == i + n - 1 then WithLast(RunFlags(i, n + 1, j)) else RunFlags(i, n + 1, j)
  {
  }

  lemma FreePagesBeforeMeans(p: seq<byte>, k: nat, f: nat)
    requires WellFormed(p) && f >= 1 && k + f < |p|
    requires forall j :: k <= j < k + f ==> p[j] == RunFlags(k, f + 1, j)
    ensures var q := FreePagesBefore(p, k, k + f);
      && WellFormed(q)
      && forall j :: 0 <= j < |p| ==> q[j] == if k <= j < k + f then 0 else p[j]
  {
    CutRun(p, k, f);
    var q := p[k + f - 1 := WithLast(p[k + f - 1])];
    FreeWholeRun(q, k, f);
    FreeKeepsWellFormed(q, k);
  }

  /** A run cut before its last page is a run, and so is the rest. */
  lemma CutRun(p: seq<byte>, k: nat, f: nat)
    requires WellFormed(p) && f >= 1 && k + f < |p|
    requires forall j :: k <= j < k + f ==> p[j] == RunFlags(k, f + 1, j)
    ensures var q := p[k + f - 1 := WithLast(p[k + f - 1])]; WellFormed(q) && IsMarked(q, k, f)
  {
    var q := p[k + f - 1 := WithLast(p[k + f - 1])];
    forall j | k <= j < k + f ensures q[j] == RunFlags(k, f, j) {
      ShorterRun(k, f, j);
    }
  }

  lemma FreeLargePages(s: State, a: Alloc)
    requires HeapOk(s) && Held(s, a) && FullPages(a.size) > 0 && TailBlocks(a.size) == 0
    ensures Reclaims(s, a, State(FreeRun(s.pages, a.page), s.tabs))
  {
    FreeWholeRun(s.pages, a.page, FullPages(a.size));
    FreeKeepsWellFormed(s.pages, a.page);
  }

  /** The heap after the full pages of a are gone and before its tail is. */
  lemma HeadFreed(s: State, a: Alloc, u: State, t: nat)
    requires HeapOk(s) && Held(s, a) && FullPages(a.size) > 0 && TailBlocks(a.size) > 0
    requires t == TailPage(a) && u == State(FreePagesBefore(s.pages, a.page, t), s.tabs)
    ensures HeapOk(u) && IsMalloced(u.pages[t]) && Sealed(u.pages, t)
    ensures forall k :: 0 <= k < |s.pages| ==> u.pages[k] == if OwnsPage(a, k) then 0 else s.pages[k]
  {
    FreePagesBeforeMeans(s.pages, a.page, FullPages(a.size));
  }

  lemma FreeLargeTail(s: State, a: Alloc, u: State, t: nat)
    requires HeapOk(s) && Held(s, a) && FullPages(a.size) > 0 && TailBlocks(a.size) > 0
    requires t == TailPage(a) && u == State(FreePagesBefore(s.pages, a.page, t), s.tabs)
    ensures Reclaims(s, a, FreeBlockAt(u, t, t, 0))
  {
    HeadFreed(s, a, u, t);
    FreeBlockAtKeeps(u, t, 0, TailBlocks(a.size));
    FreeBlocksOf(u, t, 0, TailBlocks(a.size));
  }

  /** free of an allocation, with the intended tail pointer, gives back exactly the memory of
      that allocation. */
  lemma FreeReclaims(s: State, a: Alloc)
    requires HeapOk(s) && Held(s, a)
    requires FullPages(a.size) == 0 && Release(s.tabs[a.page], a.block).count == 0 ==> Sealed(s.pages, a.page)
    ensures FreeOk(s, PtrOf(a)) && IsTaken(s.pages[a.page])
    ensures Reclaims(s, a, Free(s, PtrOf(a), AsIntended))
  {
    HeldIsPlaced(s, a);
    if FullPages(a.size) == 0 {
      FreeSmall(s, a);
    } else {
      LastPageOfLarge(s, a);
      if TailBlocks(a.size) == 0 {
        FreeLargePages(s, a);
      } else {
        FreeLargeTail(s, a, State(FreePagesBefore(s.pages, a.page, TailPage(a)), s.tabs), TailPage(a));
      }
    }
  }

  lemma FreeLive(s: State, live: set<Alloc>, a: Alloc)
    requires Inv(s, live) && a in live
    ensures FreeOk(s, PtrOf(a)) && IsTaken(s.pages[a.page])
    ensures Reclaims(s, a, Free(s, PtrOf(a), AsIntended))
  {
    HeldIsPlaced(s, a);
    if FullPages(a.size) == 0 && Release(s.tabs[a.page], a.block).count == 0 {
      SealedWhenLastLeaves(s, live, a);
    }
    FreeReclaims(s, a);
  }

  // ---------------------------------------------------------------- round trip

  /** What a caller can see of the descriptors: every page flag, and the block table of every
      malloc page. */
  predicate SameHeap(s: State, r: State)
    requires Shaped(s) && Shaped(r)
  {
    s.pages == r.pages && forall k :: 0 <= k < |s.pages| && IsMalloced(s.pages[k]) ==> s.tabs[k] == r.tabs[k]
  }

  lemma GrantedTailComesBack(s: State, a: Alloc, s': State, r: State)
    requires HeapOk(s) && Grants(s, a, s') && Reclaims(s', a, r) && TailBlocks(a.size) > 0
    ensures r.pages[TailPage(a)] == s.pages[TailPage(a)]
    ensures IsMalloced(s.pages[TailPage(a)]) ==> r.tabs[TailPage(a)] == s.tabs[TailPage(a)]
  {
    var t := TailPage(a);
    HeldIsPlaced(s', a);
    if IsMalloced(s.pages[t]) {
      assert r.tabs[t].blocks == s.tabs[t].blocks;
      CountZero(s.tabs[t].blocks);
    } else if r.pages[t] != 0 {
      CountZero(r.tabs[t].blocks);
    }
  }

  lemma GrantThenReclaim(s: State, a: Alloc, s': State, r: State)
    requires HeapOk(s) && Grants(s, a, s') && Reclaims(s', a, r)
    ensures SameHeap(s, r)
  {
    HeldIsPlaced(s', a);
    if TailBlocks(a.size) > 0 {
      GrantedTailComesBack(s, a, s', r);
    }
    forall k | 0 <= k < |s.pages| ensures r.pages[k] == s.pages[k] {
    }
  }

  /** A page that one free empties again had just been created for that allocation. */
  lemma OnlyAllocationOfPage(s: State, a: Alloc, s': State)
    requires HeapOk(s) && Grants(s, a, s') && FullPages(a.size) == 0
    requires !IsMalloced(s.pages[a.page]) ==> IsFirst(s'.pages[a.page])
    requires a.block < BLOCKS && Release(s'.tabs[a.page], a.block).count == 0
    ensures Sealed(s'.pages, a.page)
  {
    HeldIsPlaced(s', a);
    FreeBlocksOf(s', a.page, a.block, TailBlocks(a.size));
    CountZero(s.tabs[a.page].blocks);
  }

  lemma MallocedIsSealed(s: State, size: nat, p: Ptr, s': State)
    requires HeapOk(s) && Malloc(s, size, AsIntended, p, s') && FullPages(size) == 0
    requires Grants(s, AllocAt(p, size), s') && p.block < BLOCKS
    requires Release(s'.tabs[p.page], p.block).count == 0
    ensures Sealed(s'.pages, p.page)
  {
    NewPageFlags();
    OnlyAllocationOfPage(s, AllocAt(p, size), s');
  }

  /** free(malloc(size)) restores every page flag, and the block flags and count of every
      page that already held blocks, from any well-formed heap and for every size. */
  lemma MallocFreeRoundTrip(s: State, size: nat, p: Ptr, s': State)
    requires HeapOk(s) && Malloc(s, size, AsIntended, p, s')
    ensures HeapOk(s') && FreeOk(s', p)
    ensures SameHeap(s, Free(s', p, AsIntended))
  {
    var a := AllocAt(p, size);
    MallocGrants(s, size, p, s');
    HeldIsPlaced(s', a);
    if FullPages(size) == 0 && Release(s'.tabs[p.page], p.block).count == 0 {
      MallocedIsSealed(s, size, p, s');
    }
    FreeReclaims(s', a);
    GrantThenReclaim(s, a, s', Free(s', p, AsIntended));
  }
}
