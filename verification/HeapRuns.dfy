/** Whole runs of the allocator: what stays true however malloc, free, page_alloc, page_free and
    writes by the users of the memory are interleaved. */
module HeapRuns {
  import opened Flags
  import opened Runs
  import opened BlockTable
  import opened BlockCount
  import opened HeapState
  import opened HeapSafety
  import opened HeapSteps

  datatype Op =
    | DoMalloc(size: nat)
    | DoFree(a: Alloc)
    | DoPageAlloc(n: int)
    | DoPageFree(a: Alloc)
    | UserWrites

  /** The descriptors and the allocations that are live. */
  datatype Config = Config(s: State, live: set<Alloc>)

  /** One call, or one store by a user into memory it was given or into a free page.  free
      and page_free are called with the pointer of a live allocation; page_free only with
      one that page_alloc could have returned. */
  ghost predicate Step(c: Config, op: Op, d: Config) {
    Shaped(c.s) && Shaped(d.s) && WellFormed(c.s.pages) &&
    match op
    case DoMalloc(size) =>
      || (NoRoom(c.s, size, AsIntended) && d == c)
      || (exists p: Ptr :: Malloc(c.s, size, AsIntended, p, d.s) && d.live == c.live + {AllocAt(p, size)})
    case DoFree(a) =>
      && a in c.live && d.live == c.live - {a}
      && FreeOk(c.s, PtrOf(a)) && d.s == Free(c.s, PtrOf(a), AsIntended)
    case DoPageAlloc(n) =>
      || (d == c && (n < 1 || forall k: nat :: !FreeWindow(c.s.pages, k, n)))
      || (n >= 1 && exists p: Ptr :: LargeMalloc(c.s, n, 0, p, d.s) && d.live == c.live + {AllocAt(p, n * PAGE_SIZE)})
    case DoPageFree(a) =>
      && a in c.live && d.live == c.live - {a} && TailBlocks(a.size) == 0
      && a.page < |c.s.pages| && d.s == State(FreeRun(c.s.pages, a.page), c.s.tabs)
    case UserWrites =>
      && d.live == c.live && SameHeap(c.s, d.s)
  }

  lemma UserWritesKeepInv(s: State, r: State, live: set<Alloc>)
    requires Inv(s, live) && Shaped(r) && SameHeap(s, r)
    ensures Inv(r, live)
  {
    forall a | a in live ensures Held(r, a) {
      HeldIsPlaced(s, a);
    }
    forall k, j | 0 <= k < |r.pages| && IsMalloced(r.pages[k]) && 0 <= j < BLOCKS && IsTaken(r.tabs[k].blocks[j])
      ensures BlockCovered(live, k, j)
    {
      assert IsTaken(s.tabs[k].blocks[j]);
    }
  }

  lemma PageAllocSizes(n: nat)
    requires n >= 1
    ensures FullPages(n * PAGE_SIZE) == n && TailBlocks(n * PAGE_SIZE) == 0 && n * PAGE_SIZE > ALLOCABLE_SIZE
  {
    assert n * PAGE_SIZE % PAGE_SIZE == 0;
  }

  lemma DoMallocKeepsInv(c: Config, size: nat, d: Config)
    requires Inv(c.s, c.live) && Step(c, DoMalloc(size), d) && d != c
    ensures Inv(d.s, d.live)
  {
    var p: Ptr :| Malloc(c.s, size, AsIntended, p, d.s) && d.live == c.live + {AllocAt(p, size)};
    MallocGrants(c.s, size, p, d.s);
    GrantKeepsInv(c.s, c.live, AllocAt(p, size), d.s);
  }

  lemma DoPageAllocKeepsInv(c: Config, n: nat, d: Config)
    requires Inv(c.s, c.live) && Step(c, DoPageAlloc(n), d) && d != c
    ensures Inv(d.s, d.live)
  {
    var p: Ptr :| LargeMalloc(c.s, n, 0, p, d.s) && d.live == c.live + {AllocAt(p, n * PAGE_SIZE)};
    PageAllocSizes(n);
    LargeGrants(c.s, n * PAGE_SIZE, p, d.s);
    GrantKeepsInv(c.s, c.live, AllocAt(p, n * PAGE_SIZE), d.s);
  }

  /** Every call keeps the invariant. */
  lemma StepKeepsInv(c: Config, op: Op, d: Config)
    requires Inv(c.s, c.live) && Step(c, op, d)
    ensures Inv(d.s, d.live)
  {
    match op
    case DoMalloc(size) =>
      if d != c {
        DoMallocKeepsInv(c, size, d);
      }
    case DoFree(a) =>
      FreeLive(c.s, c.live, a);
      ReclaimKeepsInv(c.s, c.live, a, d.s);
    case DoPageAlloc(n) =>
      if d != c {
        DoPageAllocKeepsInv(c, n, d);
      }
    case DoPageFree(a) =>
      HeldIsPlaced(c.s, a);
      FreeLargePages(c.s, a);
      ReclaimKeepsInv(c.s, c.live, a, d.s);
    case UserWrites =>
      UserWritesKeepInv(c.s, d.s, c.live);
  }

  // ---------------------------------------------------------------- runs

  ghost predicate IsRunOf(cs: seq<Config>, ops: seq<Op>) {
    && |cs| == |ops| + 1
    && Shaped(cs[0].s) && (forall k :: 0 <= k < |cs[0].s.pages| ==> cs[0].s.pages[k] == 0) && cs[0].live == {}
    && forall i: nat {:trigger At(i)} :: i < |ops| && At(i) ==> Step(cs[i], ops[i], cs[i + 1])
  }

  lemma RunStep(cs: seq<Config>, ops: seq<Op>, i: nat)
    requires IsRunOf(cs, ops) && i < |ops|
    ensures Step(cs[i], ops[i], cs[i + 1])
  {
    assert At(i);
  }

  lemma RunStepKeeps(cs: seq<Config>, ops: seq<Op>, i: nat)
    requires IsRunOf(cs, ops) && i < |ops| && Inv(cs[i].s, cs[i].live)
    ensures Inv(cs[i + 1].s, cs[i + 1].live)
  {
    RunStep(cs, ops, i);
    StepKeepsInv(cs[i], ops[i], cs[i + 1]);
  }

  lemma {:induction false} RunKeepsInv(cs: seq<Config>, ops: seq<Op>, i: nat)
    requires IsRunOf(cs, ops) && i < |cs|
    ensures Inv(cs[i].s, cs[i].live)
  {
    if i > 0 {
      RunKeepsInv(cs, ops, i - 1);
      RunStepKeeps(cs, ops, i - 1);
    }
  }

  /** The first byte of an allocation, as an offset from _alloc_start. */
  function Offset(a: Alloc): nat { a.page * PAGE_SIZE + a.block * MALLOC_SIZE }

  lemma CellsHoldBytes(a: Alloc)
    ensures Offset(a) == Start(a) * 4
    ensures a.size <= Cells(a) * 4
  {
    SizesCover(a.size);
  }

  lemma HeldInHeap(s: State, a: Alloc)
    requires Shaped(s) && Held(s, a)
    ensures 0 < a.size && Offset(a) + a.size <= |s.pages| * PAGE_SIZE
  {
    HeldIsPlaced(s, a);
    CellsHoldBytes(a);
  }

  lemma ApartBytes(a: Alloc, b: Alloc)
    requires Apart(a, b)
    ensures Offset(a) + a.size <= Offset(b) || Offset(b) + b.size <= Offset(a)
  {
    CellsHoldBytes(a);
    CellsHoldBytes(b);
  }

  lemma InvIsSafe(s: State, live: set<Alloc>)
    requires Inv(s, live)
    ensures forall a :: a in live ==> 0 < a.size && Offset(a) + a.size <= |s.pages| * PAGE_SIZE
    ensures forall a, b :: a in live && b in live && a != b ==>
      Offset(a) + a.size <= Offset(b) || Offset(b) + b.size <= Offset(a)
  {
    forall a | a in live ensures 0 < a.size && Offset(a) + a.size <= |s.pages| * PAGE_SIZE {
      HeldInHeap(s, a);
    }
    forall a, b | a in live && b in live && a != b
      ensures Offset(a) + a.size <= Offset(b) || Offset(b) + b.size <= Offset(a)
    {
      ApartBytes(a, b);
    }
  }

  /** Heap safety: at every point of every run the bytes of live allocations lie inside the
      heap and no two allocations share a byte. */
  lemma HeapSafe(cs: seq<Config>, ops: seq<Op>, i: nat)
    requires IsRunOf(cs, ops) && i < |cs|
    ensures forall a :: a in cs[i].live ==> 0 < a.size && Offset(a) + a.size <= |cs[i].s.pages| * PAGE_SIZE
    ensures forall a, b :: a in cs[i].live && b in cs[i].live && a != b ==>
      Offset(a) + a.size <= Offset(b) || Offset(b) + b.size <= Offset(a)
  {
    RunKeepsInv(cs, ops, i);
    InvIsSafe(cs[i].s, cs[i].live);
  }

  /** Nothing leaks: once everything that was handed out has been freed, every page is free. */
  lemma NothingLeaks(cs: seq<Config>, ops: seq<Op>, i: nat)
    requires IsRunOf(cs, ops) && i < |cs| && cs[i].live == {}
    ensures forall k :: 0 <= k < |cs[i].s.pages| ==> cs[i].s.pages[k] == 0
  {
    RunKeepsInv(cs, ops, i);
    var s := cs[i].s;
    forall k: nat | k < |s.pages| ensures s.pages[k] == 0 {
      assert !PageCovered({}, k) && forall j: nat :: !BlockCovered({}, k, j);
      if IsMalloced(s.pages[k]) {
        CountReachesZero(s.tabs[k]);
      }
    }
  }

  /** Memory that is free can be handed out again: malloc fails only for want of room, and
      never hands out memory twice. */
  lemma MallocIsFresh(cs: seq<Config>, ops: seq<Op>, i: nat, size: nat, p: Ptr, s': State)
    requires IsRunOf(cs, ops) && i < |cs| && Shaped(cs[i].s) && Malloc(cs[i].s, size, AsIntended, p, s')
    ensures forall b :: b in cs[i].live ==> Apart(AllocAt(p, size), b)
  {
    RunKeepsInv(cs, ops, i);
    MallocGrants(cs[i].s, size, p, s');
    forall b | b in cs[i].live ensures Apart(AllocAt(p, size), b) {
      GrantIsApart(cs[i].s, cs[i].live, AllocAt(p, size), s', b);
    }
  }
}
