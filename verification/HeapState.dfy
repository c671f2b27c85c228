/** What malloc and free (os/page.c:478-643) do to the descriptors of the whole heap: the page
    table, and for every page the meaning of its last 820 bytes.  Only malloc pages use those
    bytes as a block table; in every other page they belong to the user. */
module HeapState {
  import opened Flags
  import opened Runs
  import opened BlockTable
  import opened BlockCount

  const PAGE_SIZE := 4096
  const ALLOCABLE_SIZE := 3276

  datatype State = State(pages: seq<byte>, tabs: seq<Table>)

  /** A pointer handed out by malloc: a page, and the block in it. */
  datatype Ptr = Ptr(page: nat, block: nat)

  predicate Shaped(s: State) {
    |s.tabs| == |s.pages| && forall k :: 0 <= k < |s.tabs| ==> |s.tabs[k].blocks| == BLOCKS
  }

  /** Between calls: a malloc page is the LAST of its run and has a sound, non-empty table. */
  predicate HeapOk(s: State) {
    && Shaped(s)
    && WellFormed(s.pages)
    && forall k :: 0 <= k < |s.pages| && IsMalloced(s.pages[k]) ==> MallocPageOk(s.pages[k], s.tabs[k])
  }

  predicate MallocPageOk(flags: byte, v: Table) {
    IsTaken(flags) && IsLast(flags) && TableOk(v) && v.count > 0
  }

  // ---------------------------------------------------------------- sizes

  /** A request is served by whole pages followed by blocks of one malloc page. */
  function FullPages(size: nat): nat {
    if size <= ALLOCABLE_SIZE then 0
    else if size <= PAGE_SIZE then 1
    else if 0 < size % PAGE_SIZE <= ALLOCABLE_SIZE then size / PAGE_SIZE
    else (size + PAGE_SIZE - 1) / PAGE_SIZE
  }

  function TailBlocks(size: nat): nat {
    if size <= ALLOCABLE_SIZE then BlocksFor(size)
    else if size <= PAGE_SIZE then 0
    else if size % PAGE_SIZE <= ALLOCABLE_SIZE then BlocksFor(size % PAGE_SIZE)
    else 0
  }

  function PageCount(size: nat): nat {
    FullPages(size) + if TailBlocks(size) > 0 then 1 else 0
  }

  lemma SizesCover(size: nat)
    ensures size <= FullPages(size) * PAGE_SIZE + TailBlocks(size) * MALLOC_SIZE
    ensures TailBlocks(size) <= BLOCKS
    ensures size > 0 ==> FullPages(size) + TailBlocks(size) > 0
    ensures size > PAGE_SIZE ==> FullPages(size) >= 1 && PageCount(size) == (size + PAGE_SIZE - 1) / PAGE_SIZE
  {
  }

  /** At most three bytes of a request are wasted, unless what is left over beside whole pages would
      not fit in the blocks of a page; then the rest of one page is. */
  lemma LittleIsWasted(size: nat)
    requires size > 0
    ensures var waste := FullPages(size) * PAGE_SIZE + TailBlocks(size) * MALLOC_SIZE - size;
      if size % PAGE_SIZE > ALLOCABLE_SIZE then waste == PAGE_SIZE - size % PAGE_SIZE else 0 <= waste < 4
  {
  }

  /** A size_t stored in an int. */
  function CutToInt(n: nat): int { (n + 0x8000_0000) % 0x1_0000_0000 - 0x8000_0000 }

  /** The number of pages that malloc asks page_alloc for.  os/page.c:527-529 counts them in an int,
      which loses the upper bits of a count of 2 to the power of 31 or more. */
  function PagesAsked(size: nat, code: Code): int {
    if code.AsIntended? then PageCount(size) else CutToInt(PageCount(size))
  }

  // ---------------------------------------------------------------- malloc

  /** The page loop of the small branch stops at page k. */
  ghost predicate Serves(s: State, k: nat, n: nat, code: Code)
    requires Shaped(s) && k < |s.pages|
  {
    if IsMalloced(s.pages[k]) then exists i: nat :: Fits(s.tabs[k].blocks, i, n, code)
    else !IsTaken(s.pages[k])
  }

  /** malloc(size) finds nothing. */
  ghost predicate NoRoom(s: State, size: nat, code: Code)
    requires Shaped(s)
  {
    || size == 0
    || (0 < size <= ALLOCABLE_SIZE && forall k :: 0 <= k < |s.pages| ==> !Serves(s, k, BlocksFor(size), code))
    || (size > ALLOCABLE_SIZE && NoWindow(s, PagesAsked(size, code)))
  }

  /** page_alloc(n) finds nothing. */
  ghost predicate NoWindow(s: State, n: int) {
    n < 1 || forall k: nat :: !FreeWindow(s.pages, k, n)
  }

  /** malloc(size) returns p and leaves s'. */
  ghost predicate Malloc(s: State, size: nat, code: Code, p: Ptr, s': State)
    requires Shaped(s)
  {
    size > 0 &&
    if size <= ALLOCABLE_SIZE then SmallMalloc(s, BlocksFor(size), code, p, s')
    else LargeMalloc(s, PagesAsked(size, code), TailBlocks(size), p, s')
  }

  ghost predicate SmallMalloc(s: State, n: nat, code: Code, p: Ptr, s': State)
    requires Shaped(s)
  {
    && p.page < |s.pages| && p.block + n <= BLOCKS
    && (forall k :: 0 <= k < p.page ==> !Serves(s, k, n, code))
    && if IsMalloced(s.pages[p.page]) then
         && FirstAccepted(s.tabs[p.page].blocks, p.block, n, code)
         && s' == State(s.pages, s.tabs[p.page := Take(s.tabs[p.page], p.block, n)])
       else
         && !IsTaken(s.pages[p.page]) && p.block == 0
         && s' == State(s.pages[p.page := s.pages[p.page] | NewMallocPage()], s.tabs[p.page := Take(Fresh(), 0, n)])
  }

  function NewMallocPage(): byte { TAKEN | LAST | FIRST | MALLOC }

  ghost predicate LargeMalloc(s: State, n: int, blocks: nat, p: Ptr, s': State)
    requires Shaped(s)
  {
    && n >= 1 && p.block == 0 && blocks <= BLOCKS
    && FreeWindow(s.pages, p.page, n)
    && (forall k :: 0 <= k < p.page ==> !FreeWindow(s.pages, k, n))
    && var q := MarkRun(s.pages, p.page, n);
       var t := p.page + n - 1;
       s' == if blocks == 0 then State(q, s.tabs)
             else State(q[t := q[t] | MALLOC], s.tabs[t := Take(Fresh(), 0, blocks)])
  }

  // ---------------------------------------------------------------- free

  /** The block half of free: release the run at block `at` in table `tab`, and give page
      `page` back once the count is zero. */
  function FreeBlockAt(s: State, page: nat, tab: nat, at: nat): (r: State)
    requires Shaped(s) && page < |s.pages| && tab < |s.pages| && at < BLOCKS
    ensures Shaped(r) && |r.pages| == |s.pages|
  {
    var v := Release(s.tabs[tab], at);
    var tabs := s.tabs[tab := v];
    if v.count == 0 then State(FreeRun(s.pages[page := s.pages[page] ^ MALLOC], page), tabs)
    else State(s.pages, tabs)
  }

  /** The first LAST page at or after k, where the search of free stops; |p| if the search leaves
      the table. */
  function NextLast(p: seq<byte>, k: nat): (t: nat)
    requires k <= |p|
    ensures k <= t <= |p|
    ensures t < |p| ==> IsLast(p[t])
    ensures forall j :: k <= j < t ==> !IsLast(p[j])
    decreases |p| - k
  {
    if k == |p| || IsLast(p[k]) then k else NextLast(p, k + 1)
  }

  /** From a taken page the search ends on the last page of its run. */
  lemma NextLastOfTaken(p: seq<byte>, k: nat)
    requires WellFormed(p) && k < |p| && IsTaken(p[k])
    ensures NextLast(p, k) == WalkEnd(p, k) - 1 < |p|
    ensures forall j :: k <= j <= NextLast(p, k) ==> IsTaken(p[j])
  {
    WalkStaysInRun(p, k);
    var t, e := NextLast(p, k), WalkEnd(p, k);
    assert t <= e - 1;
  }

  /** A walk that clears pages ends at the latest behind a LAST page. */
  lemma {:induction false} WalkEndsByLast(p: seq<byte>, k: nat, t: nat)
    requires k <= t < |p| && IsLast(p[t])
    ensures WalkEnd(p, k) <= t + 1
    decreases t - k
  {
    if k < t {
      WalkEndsByLast(p, k + 1, t);
    }
  }

  /** The page half of free for a run whose last page t holds blocks of others too. */
  function FreePagesBefore(p: seq<byte>, k: nat, t: nat): (q: seq<byte>)
    requires k < t < |p|
    ensures |q| == |p|
  {
    FreeRun(p[t - 1 := WithLast(p[t - 1])], k)
  }

  /** free(p), wherever p points.  os/page.c:588-590 wants the block table of the last page of a multi-page run;
      as written it recomputes the page p lies in, so it reads the table out of the first,
      already freed page. */
  function Free(s: State, p: Ptr, code: Code): (r: State)
    requires Shaped(s) && FreeOk(s, p)
    ensures Shaped(r) && |r.pages| == |s.pages|
  {
    if IsMalloced(s.pages[p.page]) then FreeBlockAt(s, p.page, p.page, p.block)
    else FreePages(s, p.page, code)
  }

  /** What keeps free inside the page table: a pointer into a malloc page lies in front of the
      block table, and from any other page there is a LAST page to be found. */
  predicate FreeOk(s: State, p: Ptr) {
    p.page < |s.pages| &&
    if IsMalloced(s.pages[p.page]) then p.block < BLOCKS else NextLast(s.pages, p.page) < |s.pages|
  }

  /** free of a pointer into a page that is not a malloc page. */
  function FreePages(s: State, k: nat, code: Code): (r: State)
    requires Shaped(s) && k < |s.pages| && !IsMalloced(s.pages[k]) && NextLast(s.pages, k) < |s.pages|
    ensures Shaped(r) && |r.pages| == |s.pages|
  {
    var t := NextLast(s.pages, k);
    if !IsMalloced(s.pages[t]) then State(FreeRun(s.pages, k), s.tabs)
    else FreeBlockAt(State(FreePagesBefore(s.pages, k, t), s.tabs), t, if code.AsIntended? then t else k, 0)
  }
}
