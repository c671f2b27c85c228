/** Frees from anywhere: page_free of any page and free of any block of a taken page, whether or
    not an allocation starts there, and whether or not it was freed before.  Such calls may take
    memory from under its users, but they keep the descriptors sound, so that the walks of
    os/page.c that have no bound of their own stay inside their tables. */
module HeapAnyFree {
  import opened Flags
  import opened Runs
  import opened BlockTable
  import opened BlockCount
  import opened HeapState
  import opened HeapSteps

  datatype AnyOp =
    | DoMalloc(size: nat)
    | DoFree(p: Ptr)
    | DoPageAlloc(n: int)
    | DoPageFree(k: nat)
    | UserWrites

  ghost predicate AnyStep(s: State, op: AnyOp, s': State) {
    Shaped(s) && Shaped(s') && WellFormed(s.pages) &&
    match op
    case DoMalloc(size) => (s' == s
        && NoRoom(s, size, AsIntended)) || exists p: Ptr :: Malloc(s, size, AsIntended, p, s')
    case DoFree(p) =>
      && FreeOk(s, p) && IsTaken(s.pages[p.page])
      && s' == Free(s, p, AsIntended)
    case DoPageAlloc(n) =>
      || (s' == s && (n < 1 || forall k: nat :: !FreeWindow(s.pages, k, n)))
      || (n >= 1 && exists p: Ptr :: LargeMalloc(s, n, 0, p, s'))
    case DoPageFree(k) => k < |s.pages| && s' == State(FreeRun(s.pages, k), s.tabs)
    case UserWrites => SameHeap(s, s')
  }

  lemma PageFreeKeeps(s: State, k: nat)
    requires HeapOk(s) && k < |s.pages|
    ensures HeapOk(State(FreeRun(s.pages, k), s.tabs))
  {
    FreeKeepsWellFormed(s.pages, k);
    FreeClearsExactSuffix(s.pages, k);
  }

  /** A malloc page without blocks loses its MALLOC flag and is given back. */
  lemma GiveBackKeeps(s: State, t: nat, v: Table)
    requires HeapOk(s) && t < |s.pages| && IsMalloced(s.pages[t]) && |v.blocks| == BLOCKS
    ensures HeapOk(State(FreeRun(s.pages[t := s.pages[t] ^ MALLOC], t), s.tabs[t := v]))
  {
    ToggleMalloc(s.pages[t]);
    PageFreeKeeps(State(s.pages[t := s.pages[t] ^ MALLOC], s.tabs[t := v]), t);
  }

  lemma FreeBlockKeeps(s: State, t: nat, i: nat)
    requires HeapOk(s) && t < |s.pages| && IsMalloced(s.pages[t]) && i < BLOCKS
    ensures HeapOk(FreeBlockAt(s, t, t, i))
  {
    ReleaseKeepsTable(s.tabs[t], i);
    if Release(s.tabs[t], i).count == 0 {
      GiveBackKeeps(s, t, Release(s.tabs[t], i));
    }
  }

  /** A member of a table that a free from i to e touches: cleared, or made LAST. */
  function AfterFree(b: seq<byte>, i: nat, e: nat, j: nat): byte
    requires i < |b| && j < |b|
  {
    if i <= j < e then 0 else if j + 1 == i && IsTaken(b[j]) && !IsFirst(b[i]) then WithLast(b[j]) else b[j]
  }

  predicate RunEndsAt(b: seq<byte>, i: nat, e: nat) {
    i < e <= |b| && forall j :: i <= j < e ==> IsTaken(b[j]) && (IsLast(b[j]) <==> j == e - 1)
  }

  lemma ReleaseInsideRun(v: Table, i: nat, e: nat)
    requires TableOk(v) && RunEndsAt(v.blocks, i, e)
    ensures var w := Release(v, i);
      && TableOk(w) && w.count == v.count - (e - i)
      && forall j :: 0 <= j < BLOCKS ==> w.blocks[j] == AfterFree(v.blocks, i, e, j)
  {
    WalkEndOfRun(v.blocks, i, e - i, i);
    ReleaseKeepsTable(v, i);
  }

  lemma PageGoes(p: seq<byte>, t: nat)
    requires WellFormed(p) && t < |p| && IsTaken(p[t]) && IsLast(p[t]) && IsMalloced(p[t])
    ensures var q := FreeRun(p[t := p[t] ^ MALLOC], t);
      q[t] == 0 && forall k :: 0 <= k < |p| && k != t && k + 1 != t ==> q[k] == p[k]
  {
    ToggleMalloc(p[t]);
    FreeClearsExactSuffix(p[t := p[t] ^ MALLOC], t);
  }

  /** free at any block of a malloc page, e being the end of the run that it lies in: exactly the
      blocks from there to e become free, what is left of the run in front ends in LAST, the count
      drops by their number, and the page is given back if and only if no block is left. */
  lemma FreeInsideRun(s: State, p: Ptr, e: nat, code: Code)
    requires HeapOk(s) && p.page < |s.pages| && IsMalloced(s.pages[p.page])
    requires RunEndsAt(s.tabs[p.page].blocks, p.block, e)
    ensures FreeOk(s, p)
    ensures var r, t := Free(s, p, code), p.page;
      && r.tabs == s.tabs[t := r.tabs[t]] && r.tabs[t].count == s.tabs[t].count - (e - p.block)
      && forall j :: 0 <= j < BLOCKS ==> r.tabs[t].blocks[j] == AfterFree(s.tabs[t].blocks, p.block, e, j)
    ensures var r, t := Free(s, p, code), p.page;
      if exists j :: 0 <= j < BLOCKS && IsTaken(r.tabs[t].blocks[j]) then r.pages == s.pages
      else r.pages[t] == 0 && forall k :: 0 <= k < |s.pages| && k != t && k + 1 != t ==> r.pages[k] == s.pages[k]
  {
    ReleaseInsideRun(s.tabs[p.page], p.block, e);
    CountReachesZero(Release(s.tabs[p.page], p.block));
    PageGoes(s.pages, p.page);
  }

  lemma ReleaseOfFreeBlock(v: Table, i: nat)
    requires TableOk(v) && i < BLOCKS && !IsTaken(v.blocks[i])
    ensures Release(v, i) == v
  {
    ReleaseKeepsTable(v, i);
    assert i > 0 && IsTaken(v.blocks[i - 1]) ==> IsLast(v.blocks[i - 1]);
    assert FreeRun(v.blocks, i) == v.blocks;
  }

  /** free of a block that is free already changes nothing, as the page holds other blocks. */
  lemma FreeOfFreeBlock(s: State, p: Ptr, code: Code)
    requires HeapOk(s) && p.page < |s.pages| && IsMalloced(s.pages[p.page]) && p.block < BLOCKS
    requires !IsTaken(s.tabs[p.page].blocks[p.block])
    ensures FreeOk(s, p) && Free(s, p, code) == s
  {
    ReleaseOfFreeBlock(s.tabs[p.page], p.block);
    assert s.tabs[p.page := s.tabs[p.page]] == s.tabs;
  }

  /** Cutting a run in front of its last page and freeing what is before the cut. */
  lemma CutKeeps(s: State, k: nat, t: nat)
    requires HeapOk(s) && k < t < |s.pages| && IsTaken(s.pages[t - 1])
    ensures HeapOk(State(FreePagesBefore(s.pages, k, t), s.tabs))
    ensures FreePagesBefore(s.pages, k, t)[t] == s.pages[t]
  {
    var q := s.pages[t - 1 := WithLast(s.pages[t - 1])];
    assert WellFormed(q);
    assert IsLast(q[t - 1]);
    PageFreeKeeps(State(q, s.tabs), k);
    assert WalkEnd(q, k) <= t;
  }

  lemma FreeKeeps(s: State, p: Ptr)
    requires HeapOk(s) && FreeOk(s, p) && IsTaken(s.pages[p.page])
    ensures HeapOk(Free(s, p, AsIntended))
  {
    if IsMalloced(s.pages[p.page]) {
      FreeBlockKeeps(s, p.page, p.block);
    } else {
      var t := NextLast(s.pages, p.page);
      NextLastOfTaken(s.pages, p.page);
      if IsMalloced(s.pages[t]) {
        CutKeeps(s, p.page, t);
        FreeBlockKeeps(State(FreePagesBefore(s.pages, p.page, t), s.tabs), t, 0);
      } else {
        PageFreeKeeps(s, p.page);
      }
    }
  }

  lemma PageAllocKeeps(s: State, n: nat, p: Ptr, s': State)
    requires HeapOk(s) && n >= 1 && LargeMalloc(s, n, 0, p, s')
    ensures HeapOk(s')
  {
    MarkKeepsWellFormed(s.pages, p.page, n);
    assert forall k :: p.page <= k < p.page + n ==> s'.pages[k] == RunFlags(p.page, n, k);
  }

  lemma MallocKeeps(s: State, size: nat, s': State)
    requires HeapOk(s) && exists p: Ptr :: Malloc(s, size, AsIntended, p, s')
    ensures HeapOk(s')
  {
    var p: Ptr :| Malloc(s, size, AsIntended, p, s');
    MallocGrants(s, size, p, s');
  }

  lemma StepKeeps(s: State, op: AnyOp, s': State)
    requires HeapOk(s) && AnyStep(s, op, s')
    ensures HeapOk(s')
  {
    match op
    case DoMalloc(size) => if s' != s { MallocKeeps(s, size, s'); }
    case DoFree(p) => FreeKeeps(s, p);
    case DoPageAlloc(n) =>
      if s' != s {
        var p: Ptr :| LargeMalloc(s, n, 0, p, s');
        PageAllocKeeps(s, n, p, s');
      }
    case DoPageFree(k) => PageFreeKeeps(s, k);
    case UserWrites =>
  }

  ghost predicate IsAnyRun(ss: seq<State>, ops: seq<AnyOp>) {
    && |ss| == |ops| + 1
    && Shaped(ss[0]) && (forall k :: 0 <= k < |ss[0].pages| ==> ss[0].pages[k] == 0)
    && forall i: nat {:trigger At(i)} :: i < |ops| && At(i) ==> AnyStep(ss[i], ops[i], ss[i + 1])
  }

  lemma {:induction false} RunKeeps(ss: seq<State>, ops: seq<AnyOp>, i: nat)
    requires IsAnyRun(ss, ops) && i < |ss|
    ensures HeapOk(ss[i])
  {
    if i > 0 {
      RunKeeps(ss, ops, i - 1);
      assert At(i - 1);
      StepKeeps(ss[i - 1], ops[i - 1], ss[i]);
    }
  }

  /** However allocations and frees from anywhere are interleaved: a walk over pages ends inside
      the page table, a walk over the blocks of a malloc page ends in front of the counter byte,
      and the counter is the number of taken blocks and is never left at 0. */
  lemma WalksStayInside(ss: seq<State>, ops: seq<AnyOp>, i: nat)
    requires IsAnyRun(ss, ops) && i < |ss|
    ensures Shaped(ss[i])
    ensures forall k: nat :: k < |ss[i].pages| ==> WalkEnd(ss[i].pages, k) <= |ss[i].pages|
    ensures forall t, j: nat :: 0 <= t < |ss[i].pages| && IsMalloced(ss[i].pages[t]) && j < BLOCKS ==>
      WalkEnd(ss[i].tabs[t].blocks, j) <= BLOCKS
    ensures forall t :: 0 <= t < |ss[i].pages| && IsMalloced(ss[i].pages[t]) ==>
      ss[i].tabs[t].count == TakenCount(ss[i].tabs[t].blocks) > 0
  {
    RunKeeps(ss, ops, i);
    var s := ss[i];
    forall k: nat | k < |s.pages| ensures WalkEnd(s.pages, k) <= |s.pages| {
      WalkStaysInRun(s.pages, k);
    }
    forall t, j: nat | 0 <= t < |s.pages| && IsMalloced(s.pages[t]) && j < BLOCKS
      ensures WalkEnd(s.tabs[t].blocks, j) <= BLOCKS
    {
      WalkStaysInRun(s.tabs[t].blocks, j);
    }
  }
}
