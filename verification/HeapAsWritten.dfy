/** The heap with the two lines of os/page.c exactly as written: the window scan that skips the
    last block (450-459), and the free that looks for the tail's block table in the first page
    of the allocation (590).  Each is shown unsafe on a concrete heap, and the calls on which it
    keeps the heap sound are characterised. */
module HeapAsWritten {
  import opened Flags
  import opened Runs
  import opened BlockTable
  import opened BlockCount
  import opened HeapState
  import opened HeapSafety
  import opened HeapSteps
  import opened HeapRuns

  // ---------------------------------------------------------------- malloc

  /** The one block of the window that the scan does not read is free. */
  predicate WindowReallyFree(s: State, size: nat, p: Ptr)
    requires Shaped(s) && p.page < |s.pages| && p.block + BlocksFor(size) <= BLOCKS && size > 0
  {
    IsMalloced(s.pages[p.page]) ==> !IsTaken(s.tabs[p.page].blocks[p.block + BlocksFor(size) - 1])
  }

  /** As written, a small request keeps the heap sound if and only if that block is free. */
  lemma AsWrittenSmallMallocSafeIff(s: State, live: set<Alloc>, size: nat, p: Ptr, s': State)
    requires Inv(s, live) && size <= ALLOCABLE_SIZE && Malloc(s, size, AsWritten, p, s')
    ensures Inv(s', live + {AllocAt(p, size)}) <==> WindowReallyFree(s, size, p)
  {
    var n, a := BlocksFor(size), AllocAt(p, size);
    if !IsMalloced(s.pages[p.page]) {
      SmallNewPageGrants(s, size, p);
      GrantKeepsInv(s, live, a, s');
    } else {
      AsWrittenTakeKeepsTableIff(s.tabs[p.page], p.block, n);
      if WindowReallyFree(s, size, p) {
        SmallInPageGrants(s, size, p);
        GrantKeepsInv(s, live, a, s');
      } else {
        assert s'.tabs[p.page] == Take(s.tabs[p.page], p.block, n);
      }
    }
  }

  /** ... and otherwise the caller is given memory that a live allocation already owns. */
  lemma AsWrittenSmallMallocOverlaps(s: State, live: set<Alloc>, size: nat, p: Ptr, s': State) returns (b: Alloc)
    requires Inv(s, live) && size <= ALLOCABLE_SIZE && Malloc(s, size, AsWritten, p, s')
    requires !WindowReallyFree(s, size, p)
    ensures b in live && !Apart(AllocAt(p, size), b)
  {
    var a, j := AllocAt(p, size), p.block + BlocksFor(size) - 1;
    assert BlockCovered(live, p.page, j);
    b :| b in live && OwnsBlock(b, p.page, j);
    HeldIsPlaced(s, b);
  }

  /** As written, a request for more than a page's blocks keeps the heap sound if and only if its
      page count fits in an int; otherwise fewer pages are handed out than were asked for. */
  lemma AsWrittenLargeMallocSafeIff(s: State, live: set<Alloc>, size: nat, p: Ptr, s': State)
    requires Inv(s, live) && size > ALLOCABLE_SIZE && Malloc(s, size, AsWritten, p, s')
    ensures Inv(s', live + {AllocAt(p, size)}) <==> PageCount(size) < 0x8000_0000
  {
    if PageCount(size) < 0x8000_0000 {
      CutLosesNothing(s, size, p, s');
      MallocGrants(s, size, p, s');
      GrantKeepsInv(s, live, AllocAt(p, size), s');
    } else {
      CutLosesPages(s, size, p, s');
    }
  }

  lemma CutLosesNothing(s: State, size: nat, p: Ptr, s': State)
    requires Shaped(s) && size > ALLOCABLE_SIZE && PageCount(size) < 0x8000_0000
    ensures Malloc(s, size, AsWritten, p, s') <==> Malloc(s, size, AsIntended, p, s')
  {
    assert CutToInt(PageCount(size)) == PageCount(size);
  }

  lemma CutIsLess(n: nat)
    requires n >= 0x8000_0000
    ensures CutToInt(n) <= n - 0x1_0000_0000
  {
  }

  lemma CutLosesPages(s: State, size: nat, p: Ptr, s': State)
    requires Shaped(s) && Shaped(s') && size > ALLOCABLE_SIZE && PageCount(size) >= 0x8000_0000
    requires Malloc(s, size, AsWritten, p, s')
    ensures !Held(s', AllocAt(p, size))
  {
    CutIsLess(PageCount(size));
    var n := CutToInt(PageCount(size));
    var k := p.page + n - 1;
    assert MarkRun(s.pages, p.page, n)[k] == s.pages[k] | RunFlags(p.page, n, k);
    LastStays(s.pages[k], RunFlags(p.page, n, k));
    assert OwnsPage(AllocAt(p, size), k);
  }

  lemma LastStays(b: byte, f: byte)
    requires IsLast(f)
    ensures IsLast(b | f) && IsLast(b | f | MALLOC)
  {
  }

  /** 2 to the power of 44 and another page, asked for on a heap of one page: malloc succeeds. */
  lemma AsWrittenHugeRequest()
    ensures var s, size := State([0], [Fresh()]), 0x1000_0000_1000;
      && Shaped(s)
      && exists s' ::
           Shaped(s') && Malloc(s, size, AsWritten, Ptr(0, 0), s') && !Held(s', AllocAt(Ptr(0, 0), size))
  {
    var s, size := State([0], [Fresh()]), 0x1000_0000_1000;
    var s' := State(MarkRun(s.pages, 0, 1), s.tabs);
    assert PagesAsked(size, AsWritten) == 1 && TailBlocks(size) == 0;
    assert FreeWindow(s.pages, 0, 1);
    assert Malloc(s, size, AsWritten, Ptr(0, 0), s');
    CutLosesPages(s, size, Ptr(0, 0), s');
  }

  // ---------------------------------------------------------------- free

  /** The ten bits at the end of the first page are the length of the run that its last 820 bytes,
      read as a block table, spell from block 0. */
  predicate GarbageSpellsRun(s: State, a: Alloc)
    requires Shaped(s) && a.page < |s.pages|
  {
    s.tabs[a.page].count == WalkEnd(s.tabs[a.page].blocks, 0)
  }

  /** Read as a block table, those bytes have a ten-bit count and end the walk of free. */
  predicate GarbageStops(s: State, a: Alloc)
    requires Shaped(s) && a.page < |s.pages|
  {
    s.tabs[a.page].count < 1024 && WalkEnd(s.tabs[a.page].blocks, 0) <= BLOCKS
  }

  /** The tail page holds no blocks of anybody else. */
  predicate TailIsAlone(s: State, a: Alloc)
    requires Shaped(s) && TailPage(a) < |s.pages|
  {
    s.tabs[TailPage(a)].count == TailBlocks(a.size)
  }

  lemma FreeAsWrittenState(s: State, a: Alloc, u: State)
    requires HeapOk(s) && Held(s, a) && FullPages(a.size) > 0 && TailBlocks(a.size) > 0
    requires u == State(FreePagesBefore(s.pages, a.page, TailPage(a)), s.tabs) && GarbageStops(s, a)
    ensures FreeOk(s, PtrOf(a))
    ensures Free(s, PtrOf(a), AsWritten) == FreeBlockAt(u, TailPage(a), a.page, 0)
    ensures FreeBlockAt(u, TailPage(a), a.page, 0).tabs == s.tabs[a.page := Release(s.tabs[a.page], 0)]
    ensures FreeBlockAt(u, TailPage(a), a.page, 0).pages ==
        if GarbageSpellsRun(s, a) then u.pages[TailPage(a) := 0] else u.pages
  {
    HeldIsPlaced(s, a);
    LastPageOfLarge(s, a);
    HeadFreed(s, a, u, TailPage(a));
    GiveBackPage(u.pages, TailPage(a));
    ReleaseReachesZeroIff(s.tabs[a.page]);
  }

  /** When the tail page holds only blocks of a, freeing a whole empties it. */
  lemma AloneMeansEmptied(s: State, a: Alloc)
    requires HeapOk(s) && Held(s, a) && TailBlocks(a.size) > 0
    ensures a.block < BLOCKS
    ensures TailIsAlone(s, a) <==> Release(s.tabs[TailPage(a)], a.block).count == 0
  {
    HeldIsPlaced(s, a);
    ReleaseKeepsTable(s.tabs[TailPage(a)], a.block);
    WalkEndOfTail(s, a);
  }

  lemma WalkEndOfTail(s: State, a: Alloc)
    requires HeapOk(s) && Held(s, a) && TailBlocks(a.size) > 0
    ensures WalkEnd(s.tabs[TailPage(a)].blocks, a.block) == a.block + TailBlocks(a.size)
  {
    WalkEndOfRun(s.tabs[TailPage(a)].blocks, a.block, TailBlocks(a.size), a.block);
  }

  lemma IntendedFreeState(s: State, a: Alloc, u: State)
    requires HeapOk(s) && Held(s, a) && FullPages(a.size) > 0 && TailBlocks(a.size) > 0
    requires u == State(FreePagesBefore(s.pages, a.page, TailPage(a)), s.tabs)
    requires TailIsAlone(s, a)
    ensures FreeOk(s, PtrOf(a))
    ensures Free(s, PtrOf(a), AsIntended).pages == u.pages[TailPage(a) := 0]
    ensures forall k :: 0 <= k < |s.pages| && k != TailPage(a) ==> Free(s, PtrOf(a), AsIntended).tabs[k] == s.tabs[k]
  {
    HeldIsPlaced(s, a);
    LastPageOfLarge(s, a);
    HeadFreed(s, a, u, TailPage(a));
    AloneMeansEmptied(s, a);
    FreeBlockAtKeeps(u, TailPage(a), 0, TailBlocks(a.size));
  }

  lemma BothFreesLookAlike(s: State, a: Alloc, u: State)
    requires HeapOk(s) && Held(s, a) && FullPages(a.size) > 0 && TailBlocks(a.size) > 0
    requires u == State(FreePagesBefore(s.pages, a.page, TailPage(a)), s.tabs)
    requires TailIsAlone(s, a) && GarbageStops(s, a) && GarbageSpellsRun(s, a)
    ensures FreeOk(s, PtrOf(a))
    ensures SameHeap(Free(s, PtrOf(a), AsIntended), Free(s, PtrOf(a), AsWritten))
  {
    HeldIsPlaced(s, a);
    IntendedFreeState(s, a, u);
    FreeAsWrittenState(s, a, u);
    HeadFreed(s, a, u, TailPage(a));
  }

  /** The good case: the page that should be given back is given back. */
  lemma AsWrittenFreeSound(s: State, live: set<Alloc>, a: Alloc)
    requires Inv(s, live) && a in live && FullPages(a.size) > 0 && TailBlocks(a.size) > 0
    requires TailIsAlone(s, a) && GarbageStops(s, a) && GarbageSpellsRun(s, a)
    ensures FreeOk(s, PtrOf(a)) && Inv(Free(s, PtrOf(a), AsWritten), live - {a})
  {
    FreeLive(s, live, a);
    var r := Free(s, PtrOf(a), AsIntended);
    ReclaimKeepsInv(s, live, a, r);
    BothFreesLookAlike(s, a, State(FreePagesBefore(s.pages, a.page, TailPage(a)), s.tabs));
    UserWritesKeepInv(r, Free(s, PtrOf(a), AsWritten), live - {a});
  }

  lemma SomebodyElse(s: State, live: set<Alloc>, a: Alloc) returns (b: Alloc)
    requires Inv(s, live) && a in live && FullPages(a.size) > 0 && TailBlocks(a.size) > 0 && !TailIsAlone(s, a)
    ensures b in live && b != a && TailPage(b) == TailPage(a) && TailBlocks(b.size) > 0
  {
    var t := TailPage(a);
    HeldIsPlaced(s, a);
    AloneMeansEmptied(s, a);
    FreeBlocksOf(s, t, 0, TailBlocks(a.size));
    var j: nat :| j < BLOCKS && IsTaken(Release(s.tabs[t], 0).blocks[j]);
    assert BlockCovered(live, t, j);
    b :| b in live && OwnsBlock(b, t, j);
  }

  /** A page with blocks of somebody else is given back under them. */
  lemma AsWrittenFreeDropsOthers(s: State, live: set<Alloc>, a: Alloc) returns (b: Alloc)
    requires Inv(s, live) && a in live && FullPages(a.size) > 0 && TailBlocks(a.size) > 0
    requires !TailIsAlone(s, a) && GarbageStops(s, a) && GarbageSpellsRun(s, a)
    ensures FreeOk(s, PtrOf(a))
    ensures b in live && b != a && !Held(Free(s, PtrOf(a), AsWritten), b)
  {
    FreeAsWrittenState(s, a, State(FreePagesBefore(s.pages, a.page, TailPage(a)), s.tabs));
    b := SomebodyElse(s, live, a);
  }

  /** Blocks stay taken in a page that survives, though nobody owns them any more. */
  lemma AsWrittenFreeLeaks(s: State, live: set<Alloc>, a: Alloc)
    requires Inv(s, live) && a in live && FullPages(a.size) > 0 && TailBlocks(a.size) > 0
    requires GarbageStops(s, a) && !GarbageSpellsRun(s, a)
    ensures FreeOk(s, PtrOf(a))
    ensures !Covered(Free(s, PtrOf(a), AsWritten), live - {a})
  {
    var t := TailPage(a);
    var u := State(FreePagesBefore(s.pages, a.page, t), s.tabs);
    HeldIsPlaced(s, a);
    FreeAsWrittenState(s, a, u);
    HeadFreed(s, a, u, t);
    var r := Free(s, PtrOf(a), AsWritten);
    HeldBlock(s, a, t, 0);
    assert IsMalloced(r.pages[t]) && IsTaken(r.tabs[t].blocks[0]);
    forall b | b in live - {a} ensures !OwnsBlock(b, t, 0) {
      HeldIsPlaced(s, b);
      ApartOwnsBlock(a, b, t, 0);
    }
    assert !BlockCovered(live - {a}, t, 0);
  }

  /** As written, free of an allocation with a tail keeps the heap sound if and only if
      nobody else has blocks in the tail page and the user's bytes at the end of the first page spell
      a run of blocks and its length.  (The walk over them is taken to stop inside that page.) */
  lemma AsWrittenFreeSafeIff(s: State, live: set<Alloc>, a: Alloc)
    requires Inv(s, live) && a in live && FullPages(a.size) > 0 && TailBlocks(a.size) > 0
    requires GarbageStops(s, a)
    ensures FreeOk(s, PtrOf(a))
    ensures Inv(Free(s, PtrOf(a), AsWritten), live - {a}) <==> TailIsAlone(s, a) && GarbageSpellsRun(s, a)
  {
    if !GarbageSpellsRun(s, a) {
      AsWrittenFreeLeaks(s, live, a);
    } else if TailIsAlone(s, a) {
      AsWrittenFreeSound(s, live, a);
    } else {
      var b := AsWrittenFreeDropsOthers(s, live, a);
    }
  }

  // ---------------------------------------------------------------- a concrete heap

  lemma ConcreteSizes()
    ensures FullPages(4100) == 1 && TailBlocks(4100) == 1 && PageCount(4100) == 2
    ensures FullPages(4) == 0 && TailBlocks(4) == 1 && BlocksFor(4) == 1
  {
  }

  // Two pages; malloc(4100); malloc(4), which lands in the page of the first request's tail.
  function Empty(): State { State([0, 0], [Fresh(), Fresh()]) }
  function AfterFirst(): State { State([TAKEN | FIRST, TAKEN | LAST | MALLOC], [Fresh(), Take(Fresh(), 0, 1)]) }
  function AfterSecond(): State { State(AfterFirst().pages, [Fresh(), Take(Take(Fresh(), 0, 1), 1, 1)]) }
  const BIG := Alloc(0, 0, 4100)
  const SMALL := Alloc(1, 1, 4)

  lemma FirstRequestServed()
    ensures Malloc(Empty(), 4100, AsWritten, Ptr(0, 0), AfterFirst())
  {
    ConcreteSizes();
    var q := MarkRun([0, 0], 0, 2);
    assert q == [TAKEN | FIRST, TAKEN | LAST];
    assert q[1 := q[1] | MALLOC] == AfterFirst().pages;
    assert FreeWindow([0, 0], 0, 2);
  }

  lemma EmptyIsSound()
    ensures Inv(Empty(), {})
  {
  }

  lemma FirstRequest()
    ensures Malloc(Empty(), 4100, AsWritten, Ptr(0, 0), AfterFirst())
    ensures Inv(AfterFirst(), {BIG})
  {
    ConcreteSizes();
    FirstRequestServed();
    EmptyIsSound();
    FirstRequestSound(Empty(), 4100, Ptr(0, 0), AfterFirst());
  }

  lemma FirstRequestSound(s: State, size: nat, p: Ptr, s': State)
    requires Inv(s, {}) && size > ALLOCABLE_SIZE && PageCount(size) < 0x8000_0000 && Malloc(s, size, AsWritten, p, s')
    ensures Inv(s', {AllocAt(p, size)})
  {
    AsWrittenLargeMallocSafeIff(s, {}, size, p, s');
    assert {} + {AllocAt(p, size)} == {AllocAt(p, size)};
  }

  lemma SecondFits()
    ensures FirstAccepted(AfterFirst().tabs[1].blocks, 1, 1, AsWritten)
    ensures AfterSecond().tabs == AfterFirst().tabs[1 := Take(AfterFirst().tabs[1], 1, 1)]
    ensures !IsTaken(AfterFirst().tabs[1].blocks[1])
  {
    FreshTaken(1);
    assert IsTaken(AfterFirst().tabs[1].blocks[0]);
  }

  lemma SecondRequestServed()
    ensures Malloc(AfterFirst(), 4, AsWritten, Ptr(1, 1), AfterSecond())
    ensures IsMalloced(AfterFirst().pages[1])
  {
    ConcreteSizes();
    SecondFits();
    assert !Serves(AfterFirst(), 0, 1, AsWritten);
  }

  /** A small request whose window is really free, beside one live allocation. */
  lemma SecondRequestSound(s: State, a: Alloc, size: nat, p: Ptr, s': State)
    requires Inv(s, {a}) && 0 < size <= ALLOCABLE_SIZE && Malloc(s, size, AsWritten, p, s')
    requires WindowReallyFree(s, size, p)
    ensures Inv(s', {a, AllocAt(p, size)})
  {
    AsWrittenSmallMallocSafeIff(s, {a}, size, p, s');
    assert {a} + {AllocAt(p, size)} == {a, AllocAt(p, size)};
  }

  lemma ZeroesSpellRun()
    ensures Fresh().count == WalkEnd(Fresh().blocks, 0) == 0
  {
  }

  /** As written, free of an allocation whose first page spells a run gives the tail page back
      under everybody else who has blocks there. */
  lemma AsWrittenFreeDropsOther(s: State, a: Alloc, b: Alloc)
    requires HeapOk(s) && Held(s, a) && FullPages(a.size) > 0 && TailBlocks(a.size) > 0
    requires Held(s, b) && TailPage(b) == TailPage(a) && TailBlocks(b.size) > 0
    requires GarbageStops(s, a) && GarbageSpellsRun(s, a)
    ensures FreeOk(s, PtrOf(a)) && !Held(Free(s, PtrOf(a), AsWritten), b)
  {
    HeldIsPlaced(s, b);
    HeldBlock(s, b, TailPage(b), b.block);
    FreeAsWrittenState(s, a, State(FreePagesBefore(s.pages, a.page, TailPage(a)), s.tabs));
  }

  /** Freeing the first request as written, with nothing but zeros in its memory, gives back
      both pages: the second allocation is live and no longer held. */
  lemma AsWrittenFreeDropsLiveBlock() returns (s1: State, s2: State)
    ensures Malloc(Empty(), 4100, AsWritten, Ptr(0, 0), s1) && Shaped(s1)
    ensures Malloc(s1, 4, AsWritten, Ptr(1, 1), s2)
    ensures Inv(s2, {BIG, SMALL}) && FreeOk(s2, Ptr(0, 0))
    ensures !Held(Free(s2, Ptr(0, 0), AsWritten), SMALL)
  {
    s1, s2 := AfterFirst(), AfterSecond();
    FirstRequest();
    SecondRequestServed();
    SecondFits();
    ConcreteSizes();
    SecondRequestSound(s1, BIG, 4, Ptr(1, 1), s2);
    ZeroesSpellRun();
    AsWrittenFreeDropsOther(s2, BIG, SMALL);
  }
}
