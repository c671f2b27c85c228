/** free of a pointer into a free page, as after a free of the same allocation that gave its pages
    back (os/page.c:574-592).  The search for a LAST page then runs on into whatever comes next. */
module HeapDoubleFree {
  import opened Flags
  import opened Runs
  import opened BlockTable
  import opened HeapState
  import opened HeapSafety
  import opened HeapSteps
  import opened HeapRuns

  /** page_free of a free page changes nothing. */
  lemma FreePageStays(p: seq<byte>, k: nat)
    requires WellFormed(p) && k < |p| && !IsTaken(p[k])
    ensures FreeRun(p, k) == p
  {
    assert SealPrevious(p, k) == p;
  }

  /** When the search ends on a malloc page, the page before it is marked LAST, and stays so. */
  lemma MarksPageBefore(s: State, p: Ptr, code: Code, t: nat)
    requires HeapOk(s) && FreeOk(s, p) && !IsTaken(s.pages[p.page]) && t == NextLast(s.pages, p.page)
    requires IsMalloced(s.pages[t])
    ensures p.page < t && Free(s, p, code).pages[t - 1] == WithLast(s.pages[t - 1])
  {
    var k, q := p.page, s.pages[t - 1 := WithLast(s.pages[t - 1])];
    assert s.pages[k] == 0 && k < t;
    assert !IsTaken(q[k]);
    assert FreeRun(q, k)[t - 1] == q[t - 1];
  }

  lemma NotHeldAnyMore(s: State, live: set<Alloc>, k: nat, r: State)
    requires Inv(s, live) && Shaped(r) && k < |s.pages| == |r.pages| && !IsLast(s.pages[k])
        && r.pages[k] == WithLast(s.pages[k])
    ensures !Inv(r, live)
  {
    if IsTaken(s.pages[k]) {
      assert PageCovered(live, k);
      var b :| b in live && OwnsPage(b, k);
      assert s.pages[k] == RunFlags(b.page, PageCount(b.size), k);
    } else {
      assert s.pages[k] == 0 && r.pages[k] != 0 && !IsTaken(r.pages[k]);
    }
  }

  lemma ChangesNothing(s: State, p: Ptr, code: Code)
    requires HeapOk(s) && FreeOk(s, p) && !IsTaken(s.pages[p.page])
    requires !IsMalloced(s.pages[NextLast(s.pages, p.page)])
    ensures Free(s, p, code) == s
  {
    FreePageStays(s.pages, p.page);
  }

  /** free of a pointer into a free page leaves the heap sound if and only if the first LAST page
      behind it is not a malloc page; then it changes nothing. */
  lemma DoubleFreeSafeIff(s: State, live: set<Alloc>, p: Ptr, code: Code)
    requires Inv(s, live) && FreeOk(s, p) && !IsTaken(s.pages[p.page])
    ensures Inv(Free(s, p, code), live) <==> !IsMalloced(s.pages[NextLast(s.pages, p.page)])
    ensures !IsMalloced(s.pages[NextLast(s.pages, p.page)]) ==> Free(s, p, code) == s
  {
    var t := NextLast(s.pages, p.page);
    if IsMalloced(s.pages[t]) {
      MarksPageBefore(s, p, code, t);
      NotHeldAnyMore(s, live, t - 1, Free(s, p, code));
    } else {
      ChangesNothing(s, p, code);
    }
  }
}
