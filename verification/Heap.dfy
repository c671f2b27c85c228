/** The heap of os/page.c as it is laid out in memory: an array of page descriptors, and for
    every page its last 820 bytes.  Each method is proved to do what HeapState says. */
module Heap {
  import opened Flags
  import opened Runs
  import opened BlockTable
  import opened BlockCount
  import HR = HeapRuns
  import HS = HeapState
  import HT = HeapSteps
  import PageTable

  class Heap {
    const allocStart: nat
    const flags: array<byte>
    const tails: seq<array<byte>>

    ghost predicate Valid() {
      && |tails| == flags.Length
      && (forall k :: 0 <= k < |tails| ==> tails[k].Length == TABLE_SIZE && tails[k] != flags)
      && (forall i, k :: 0 <= i < k < |tails| ==> tails[i] != tails[k])
    }

    ghost function View(): (s: HS.State)
      requires Valid()
      reads flags, tails
      ensures HS.Shaped(s) && |s.pages| == flags.Length
    {
      HS.State(flags[..], seq(|tails|, k requires 0 <= k < |tails| reads tails => Unpack(tails[k][..])))
    }

    /** page_init: every descriptor is cleared; the pages themselves hold anything. */
    constructor (heapPages: nat, start: nat)
      ensures Valid() && fresh(flags) && allocStart == start && flags.Length == heapPages
      ensures forall k :: 0 <= k < heapPages ==> flags[k] == 0
    {
      allocStart := start;
      var f := new byte[heapPages];
      var t: seq<array<byte>> := [];
      for i := 0 to heapPages
        invariant fresh(f) && |t| == i
        invariant forall k :: 0 <= k < i ==> fresh(t[k]) && t[k].Length == TABLE_SIZE && t[k] != f
        invariant forall k, l :: 0 <= k < l < i ==> t[k] != t[l]
      {
        var tail := new byte[TABLE_SIZE];
        t := t + [tail];
      }
      for i := 0 to heapPages
        invariant forall k :: 0 <= k < i ==> f[k] == 0
        invariant f.Length == heapPages
      {
        f[i] := 0;
      }
      flags, tails := f, t;
    }

    method Malloc(size: nat, code: Code) returns (r: Option<HS.Ptr>)
      requires Valid()
      modifies flags, tails
      ensures r.None? ==> View() == old(View()) && HS.NoRoom(old(View()), size, code)
      ensures r.Some? ==> HS.Malloc(old(View()), size, code, r.value, View())
    {
      if size == 0 { return None; }
      if size <= HS.ALLOCABLE_SIZE {
        r := SmallMalloc(size, code);
      } else if size <= HS.PAGE_SIZE {
        r := OnePage();
      } else {
        r := LargeMalloc(size, code);
      }
    }

    method SmallMalloc(size: nat, code: Code) returns (r: Option<HS.Ptr>)
      requires Valid() && 0 < size <= HS.ALLOCABLE_SIZE
      modifies flags, tails
      ensures r.None? ==> View() == old(View()) && HS.NoRoom(old(View()), size, code)
      ensures r.Some? ==> HS.Malloc(old(View()), size, code, r.value, View())
    {
      var i := 0;
      while i < flags.Length
        invariant 0 <= i <= flags.Length
        invariant flags[..] == old(flags[..])
        invariant forall k :: 0 <= k < |tails| ==> tails[k][..] == old(tails[k][..])
        invariant forall k :: 0 <= k < i ==> !HS.Serves(old(View()), k, BlocksFor(size), code)
      {
        if IsMalloced(flags[i]) {
          var m := TryMalloc(tails[i], size, code);
          if m.Some? {
            TabChanged(i);
            return Some(HS.Ptr(i, m.value));
          }
        } else if !IsTaken(flags[i]) {
          flags[i] := flags[i] | (TAKEN | LAST | FIRST | MALLOC);
          MallocInit(tails[i]);
          FreshFits(size, code);
          var m := TryMalloc(tails[i], size, code);
          TabChanged(i);
          if m.Some? {
            return Some(HS.Ptr(i, m.value));
          }
        }
        i := i + 1;
      }
      assert View().tabs == old(View()).tabs;
      return None;
    }

    /** 3277 to 4096 bytes: the first free page, by way of page_alloc(1). */
    method OnePage() returns (r: Option<HS.Ptr>)
      requires Valid()
      modifies flags
      ensures r.None? ==> flags[..] == old(flags[..]) && forall k: nat :: !FreeWindow(flags[..], k, 1)
      ensures r.Some? ==> HS.LargeMalloc(old(View()), 1, 0, r.value, View())
    {
      var i := 0;
      while i < flags.Length
        invariant 0 <= i <= flags.Length
        invariant flags[..] == old(flags[..])
        invariant forall k :: 0 <= k < i ==> IsTaken(flags[k])
      {
        if !IsTaken(flags[i]) {
          var mem := PageTable.PageAlloc(flags, 1);
          assert FreeWindow(old(flags[..]), i, 1);
          if mem.Some? {
            TabsKept();
            return Some(HS.Ptr(mem.value, 0));
          }
        }
        i := i + 1;
      }
      forall k: nat | k < flags.Length ensures !FreeWindow(flags[..], k, 1) {
        assert IsTaken(flags[..][k]);
      }
      return None;
    }

    /** More than a page: whole pages, and the rest in blocks of the last page if it fits. */
    method LargeMalloc(size: nat, code: Code) returns (r: Option<HS.Ptr>)
      requires Valid() && size > HS.PAGE_SIZE
      modifies flags, tails
      ensures r.None? ==> View() == old(View()) && HS.NoRoom(old(View()), size, code)
      ensures r.Some? ==> HS.LargeMalloc(old(View()), HS.PagesAsked(size, code), HS.TailBlocks(size), r.value, View())
    {
      HS.SizesCover(size);
      var rest := size % HS.PAGE_SIZE;
      var pageCount := PageCount(size, code);
      var mem := PageTable.PageAlloc(flags, pageCount);
      TabsKept();
      if mem.None? { return None; }
      if 0 < rest <= HS.ALLOCABLE_SIZE {
        FillTail(mem.value + pageCount - 1, rest, code);
      }
      return Some(HS.Ptr(mem.value, 0));
    }

    static method PageCount(size: nat, code: Code) returns (pageCount: int)
      requires size > HS.PAGE_SIZE
      ensures pageCount == HS.PagesAsked(size, code)
    {
      var pages := size / HS.PAGE_SIZE;
      if size % HS.PAGE_SIZE > 0 { pages := pages + 1; }
      pageCount := if code.AsIntended? then pages else HS.CutToInt(pages);
    }

    /** The last page becomes a malloc page and holds the rest in its first blocks. */
    method FillTail(t: nat, rest: nat, code: Code)
      requires Valid() && t < flags.Length && 0 < rest <= HS.ALLOCABLE_SIZE
      modifies flags, tails
      ensures var s := old(View());
        View() == HS.State(s.pages[t := s.pages[t] | MALLOC], s.tabs[t := Take(Fresh(), 0, BlocksFor(rest))])
    {
      MallocInit(tails[t]);
      flags[t] := flags[t] | MALLOC;
      FreshFits(rest, code);
      var m := TryMalloc(tails[t], rest, code);
      TabChanged(t);
      assert Fits(Fresh().blocks, 0, BlocksFor(rest), code);
    }

    twostate lemma TabsKept()
      requires Valid() && forall k :: 0 <= k < |tails| ==> tails[k][..] == old(tails[k][..])
      ensures View().tabs == old(View()).tabs
    {
    }

    /** Writing the tail of one page changes the meaning of that page's table only. */
    twostate lemma TabChanged(i: nat)
      requires Valid() && i < |tails|
      requires forall k :: 0 <= k < |tails| && k != i ==> tails[k][..] == old(tails[k][..])
      ensures View().tabs == old(View()).tabs[i := Unpack(tails[i][..])]
    {
    }

    // -------------------------------------------------------------- free

    /** The block walk of this free stays among the blocks of the table it reads. */
    ghost predicate WalkStops(p: HS.Ptr, code: Code)
      requires Valid() && HS.FreeOk(View(), p)
      reads flags, tails
    {
      if IsMalloced(flags[p.page]) then WalkEnd(View().tabs[p.page].blocks, p.block) <= BLOCKS
      else
        var t := HS.NextLast(flags[..], p.page);
        IsMalloced(flags[t]) ==>
          WalkEnd(View().tabs[if code.AsIntended? then t else p.page].blocks, 0) <= BLOCKS
    }

    /** free(p), for a pointer anywhere in the heap as long as no walk leaves its table. */
    method Free(p: HS.Ptr, code: Code)
      requires Valid() && HS.FreeOk(View(), p) && WalkStops(p, code)
      requires IsMalloced(flags[p.page]) ==> WalkEnd(flags[..], p.page) <= flags.Length
      modifies flags, tails
      ensures View() == HS.Free(old(View()), p, code)
    {
      if IsMalloced(flags[p.page]) {
        FreeBlocksAt(p.page, p.page, p.block);
      } else {
        FreePages(p.page, code);
      }
    }

    /** The branch of free for a pointer into a page that is not a malloc page. */
    method FreePages(k: nat, code: Code)
      requires Valid() && k < flags.Length && !IsMalloced(flags[k]) && HS.NextLast(flags[..], k) < flags.Length
      requires WalkStops(HS.Ptr(k, 0), code)
      modifies flags, tails
      ensures View() == HS.FreePages(old(View()), k, code)
    {
      var page := FindLast(k);
      if !IsMalloced(flags[page]) {
        HS.WalkEndsByLast(flags[..], k, page);
        PageTable.PageFree(flags, k);
        TabsKept();
      } else {
        FreeWithTail(k, page, if code.AsIntended? then page else k);
      }
    }

    /** The search for a LAST page, which has no bound of its own. */
    method FindLast(k: nat) returns (page: nat)
      requires k < flags.Length && HS.NextLast(flags[..], k) < flags.Length
      ensures page == HS.NextLast(flags[..], k)
    {
      page := k;
      ghost var last := HS.NextLast(flags[..], k);
      while !IsLast(flags[page])
        invariant k <= page <= last
        decreases last - page
      {
        page := page + 1;
      }
    }

    /** The pages from k on, whose first LAST page t is a malloc page: everything before t is
        freed, then the blocks that the table of page `tab` describes from block 0. */
    method FreeWithTail(k: nat, t: nat, tab: nat)
      requires Valid() && k < t < flags.Length && tab < flags.Length
      requires IsMalloced(flags[t]) && IsLast(flags[t])
      requires WalkEnd(View().tabs[tab].blocks, 0) <= BLOCKS
      modifies flags, tails
      ensures View() == HS.FreeBlockAt(HS.State(HS.FreePagesBefore(old(flags[..]), k, t), old(View()).tabs), t, tab, 0)
    {
      FreePagesBefore(k, t);
      TabsKept();
      HS.WalkEndsByLast(flags[..], t, t);
      FreeBlocksAt(t, tab, 0);
    }

    /** The run is cut before its last page, and everything before the cut is freed. */
    method FreePagesBefore(k: nat, t: nat)
      requires k < t < flags.Length
      modifies flags
      ensures flags[..] == HS.FreePagesBefore(old(flags[..]), k, t)
      ensures flags[t] == old(flags[t])
    {
      ghost var q := flags[..][t - 1 := WithLast(flags[t - 1])];
      flags[t - 1] := WithLast(flags[t - 1]);
      assert flags[..] == q;
      HS.WalkEndsByLast(q, k, t - 1);
      PageTable.PageFree(flags, k);
      assert flags[t] == flags[..][t];
    }

    method FreeBlocksAt(page: nat, tab: nat, block: nat)
      requires Valid() && page < flags.Length && tab < flags.Length && block < BLOCKS
      requires IsMalloced(flags[page]) && WalkEnd(flags[..], page) <= flags.Length
      requires WalkEnd(View().tabs[tab].blocks, block) <= BLOCKS
      modifies flags, tails
      ensures View() == HS.FreeBlockAt(old(View()), page, tab, block)
    {
      FreeBlocks(tails[tab], block);
      TabChanged(tab);
      var usage := Usage(tails[tab]);
      if usage == 0 {
        ToggleAndFree(page);
      }
    }

    /** A malloc page without blocks is given back. */
    method ToggleAndFree(page: nat)
      requires page < flags.Length && IsMalloced(flags[page]) && WalkEnd(flags[..], page) <= flags.Length
      modifies flags
      ensures flags[..] == FreeRun(old(flags[..])[page := old(flags[page]) ^ MALLOC], page)
    {
      ghost var was := flags[..];
      flags[page] := flags[page] ^ MALLOC;
      assert flags[..] == was[page := was[page] ^ MALLOC];
      ToggleKeepsWalk(was, page);
      PageTable.PageFree(flags, page);
    }

    lemma ToggleKeepsWalk(p: seq<byte>, k: nat)
      requires k < |p| && IsMalloced(p[k])
      ensures WalkEnd(p[k := p[k] ^ MALLOC], k) == WalkEnd(p, k)
    {
      WalkIgnoresBefore(p, k, p[k] ^ MALLOC, k + 1);
    }

    /** On a sound heap the walk of free always stops among the blocks: it never reaches the
        counter byte. */
    lemma WalkStopsWhenSound(p: HS.Ptr)
      requires Valid() && HS.HeapOk(View())
      requires p.page < flags.Length && IsTaken(flags[p.page]) && (IsMalloced(flags[p.page]) ==> p.block < BLOCKS)
      ensures HS.FreeOk(View(), p) && WalkEnd(flags[..], p.page) <= flags.Length && WalkStops(p, AsIntended)
    {
      WalkStaysInRun(flags[..], p.page);
      if IsMalloced(flags[p.page]) {
        WalkStaysInRun(View().tabs[p.page].blocks, p.block);
      } else {
        HS.NextLastOfTaken(flags[..], p.page);
        var t := HS.NextLast(flags[..], p.page);
        if IsMalloced(flags[t]) {
          WalkStaysInRun(View().tabs[t].blocks, 0);
        }
      }
    }

    // -------------------------------------------------------------- addresses

    function AllocEnd(): nat { allocStart + flags.Length * HS.PAGE_SIZE }

    function PageOf(p: nat): nat
      requires p >= allocStart
    {
      (p - allocStart) / HS.PAGE_SIZE
    }

    function BlockOf(p: nat): nat
      requires p >= allocStart
    {
      (p - allocStart) % HS.PAGE_SIZE / MALLOC_SIZE
    }

    function Address(p: HS.Ptr): nat { allocStart + p.page * HS.PAGE_SIZE + p.block * MALLOC_SIZE }

    /** The address malloc returns leads free back to the same page and block. */
    lemma AddressRoundTrip(p: HS.Ptr)
      requires p.block < BLOCKS
      ensures PageOf(Address(p)) == p.page && BlockOf(Address(p)) == p.block
    {
      assert Address(p) - allocStart == p.page * HS.PAGE_SIZE + p.block * MALLOC_SIZE;
      assert p.block * MALLOC_SIZE < HS.PAGE_SIZE;
    }

    /** In every run the bytes from the address of each live allocation lie between _alloc_start and
        _alloc_end, and those of two allocations do not meet. */
    lemma AddressesApart(cs: seq<HR.Config>, ops: seq<HR.Op>, i: nat)
      requires HR.IsRunOf(cs, ops) && i < |cs| && |cs[i].s.pages| == flags.Length
      ensures forall x :: x in cs[i].live ==>
        allocStart <= Address(HT.PtrOf(x)) && Address(HT.PtrOf(x)) + x.size <= AllocEnd()
      ensures forall x, y :: x in cs[i].live && y in cs[i].live && x != y ==>
        || Address(HT.PtrOf(x)) + x.size <= Address(HT.PtrOf(y))
        || Address(HT.PtrOf(y)) + y.size <= Address(HT.PtrOf(x))
    {
      HR.HeapSafe(cs, ops, i);
      forall x | x in cs[i].live ensures Address(HT.PtrOf(x)) == allocStart + HR.Offset(x) {
      }
    }

    /** free's address check (os/page.c:546, 552) lets _alloc_end itself through; that is the
        one accepted address whose descriptor lies outside the table. */
    predicate FreeAccepts(p: nat) { p != 0 && allocStart <= p <= AllocEnd() }

    lemma FreeAcceptsOneTooMany(p: nat)
      requires FreeAccepts(p)
      ensures PageOf(p) < flags.Length <==> p != AllocEnd()
      ensures AllocEnd() > 0 ==> FreeAccepts(AllocEnd())
    {
      var d := p - allocStart;
      assert d == d / HS.PAGE_SIZE * HS.PAGE_SIZE + d % HS.PAGE_SIZE;
    }

    /** free(p) by address: an address outside the heap panics, from any other the walks have to
        stay inside their tables. */
    method FreeAddress(p: nat, code: Code) returns (panicked: bool)
      requires Valid()
      requires FreeAccepts(p) ==>
        && HS.FreeOk(View(), HS.Ptr(PageOf(p), BlockOf(p))) && WalkStops(HS.Ptr(PageOf(p), BlockOf(p)), code)
        && (IsMalloced(flags[PageOf(p)]) ==> WalkEnd(flags[..], PageOf(p)) <= flags.Length)
      modifies flags, tails
      ensures panicked <==> !FreeAccepts(p)
      ensures panicked ==> View() == old(View())
      ensures !panicked ==> View() == HS.Free(old(View()), HS.Ptr(PageOf(p), BlockOf(p)), code)
    {
      if p == 0 || p < allocStart || p > AllocEnd() { return true; }
      Free(HS.Ptr(PageOf(p), BlockOf(p)), code);
      return false;
    }

    /** page_free(p) by address; anything outside the heap is ignored. */
    method PageFreeAddress(p: nat)
      requires Valid() && WellFormed(flags[..])
      modifies flags
      ensures p == 0 || p < allocStart || p >= AllocEnd() ==> flags[..] == old(flags[..])
      ensures p != 0 && allocStart <= p < AllocEnd() ==>
        PageOf(p) < flags.Length && flags[..] == FreeRun(old(flags[..]), PageOf(p))
      ensures WellFormed(flags[..])
    {
      if p == 0 || p >= AllocEnd() || p < allocStart { return; }
      FreeAcceptsOneTooMany(p);
      FreeKeepsWellFormed(flags[..], PageOf(p));
      WalkStaysInRun(flags[..], PageOf(p));
      PageTable.PageFree(flags, PageOf(p));
    }
  }
}
