/** Which memory malloc picks and when it finds none, and what a free inside a run of blocks
    leaves: os/page.c:486-643, said without the loops. */
module HeapChoice {
  import opened Flags
  import opened Runs
  import opened BlockTable
  import opened BlockCount
  import opened HeapState
  import opened HeapSafety
  import opened HeapSteps

  // ---------------------------------------------------------------- 1 to 3276 bytes

  /** n blocks from i on, all free; as written the last of several is not looked at. */
  predicate Window(b: seq<byte>, i: nat, n: nat, code: Code) {
    i + n <= |b| && forall j :: i <= j < i + n && (code.AsIntended? || j == i || j < i + n - 1) ==> !IsTaken(b[j])
  }

  /** Page k is of no use for n blocks: it is taken, and if it is a malloc page it has no window. */
  ghost predicate Useless(s: State, k: nat, n: nat, code: Code)
    requires Shaped(s) && k < |s.pages|
  {
    IsTaken(s.pages[k]) && (IsMalloced(s.pages[k]) ==> forall i: nat :: !Window(s.tabs[k].blocks, i, n, code))
  }

  lemma WindowIsFit(b: seq<byte>, i: nat, n: nat, code: Code)
    requires n >= 1
    ensures Window(b, i, n, code) <==> Fits(b, i, n, code)
    ensures code.AsIntended? ==> (Window(b, i, n, code) <==> FreeWindow(b, i, n))
  {
    if code.AsWritten? && n >= 2 && Window(b, i, n, code) {
      assert FreeWindow(b, i, n - 1);
    }
  }

  lemma UselessIff(s: State, k: nat, n: nat, code: Code)
    requires HeapOk(s) && k < |s.pages| && n >= 1
    ensures Useless(s, k, n, code) <==> !Serves(s, k, n, code)
  {
    forall i: nat ensures Window(s.tabs[k].blocks, i, n, code) <==> Fits(s.tabs[k].blocks, i, n, code) {
      WindowIsFit(s.tabs[k].blocks, i, n, code);
    }
  }

  /** malloc(size) returns NULL if and only if every page is taken and no malloc page has
      ceil(size / 4) free blocks in a row. */
  lemma SmallFailsIff(s: State, size: nat, n: nat, code: Code)
    requires HeapOk(s) && 0 < size <= ALLOCABLE_SIZE && n == (size + 3) / 4
    ensures NoRoom(s, size, code) <==> forall k :: 0 <= k < |s.pages| ==> Useless(s, k, n, code)
  {
    assert BlocksFor(size) == n;
    forall k | 0 <= k < |s.pages| ensures Useless(s, k, n, code) <==> !Serves(s, k, n, code) {
      UselessIff(s, k, n, code);
    }
  }

  /** malloc(size) takes the first page that is free or a malloc page with a window, and in a malloc
      page the least window.  The blocks of that window form one run; no other block of a malloc
      page and no other page changes. */
  lemma SmallPicksLeast(s: State, size: nat, n: nat, code: Code, p: Ptr, s': State)
    requires HeapOk(s) && 0 < size <= ALLOCABLE_SIZE && n == (size + 3) / 4 && Malloc(s, size, code, p, s')
    ensures p.page < |s.pages| == |s'.pages| && Shaped(s')
    ensures forall k :: 0 <= k < p.page ==> Useless(s, k, n, code)
    ensures if IsTaken(s.pages[p.page]) then
              && IsMalloced(s.pages[p.page]) && Window(s.tabs[p.page].blocks, p.block, n, code)
              && forall i: nat :: i < p.block ==> !Window(s.tabs[p.page].blocks, i, n, code)
            else p.block == 0
    ensures IsTaken(s'.pages[p.page]) && IsMalloced(s'.pages[p.page])
    ensures forall k :: 0 <= k < |s.pages| && k != p.page ==> s'.pages[k] == s.pages[k] && s'.tabs[k] == s.tabs[k]
    ensures forall j :: p.block <= j < p.block + n <= BLOCKS ==> IsTaken(s'.tabs[p.page].blocks[j])
    ensures forall j :: 0 <= j < BLOCKS && !(p.block <= j < p.block + n) ==>
      s'.tabs[p.page].blocks[j] == if IsTaken(s.pages[p.page]) then s.tabs[p.page].blocks[j] else 0
  {
    forall k | 0 <= k < p.page ensures Useless(s, k, n, code) {
      UselessIff(s, k, n, code);
    }
    NewPageBits(s.pages[p.page]);
    if IsMalloced(s.pages[p.page]) {
      forall i: nat ensures Window(s.tabs[p.page].blocks, i, n, code) <==> Fits(s.tabs[p.page].blocks, i, n, code) {
        WindowIsFit(s.tabs[p.page].blocks, i, n, code);
      }
      MarkBits(s.tabs[p.page].blocks, p.block, n);
    } else {
      MarkBits(Fresh().blocks, 0, n);
    }
  }

  lemma NewPageBits(b: byte)
    ensures IsTaken(b | NewMallocPage()) && IsMalloced(b | NewMallocPage())
  {
  }

  lemma MarkBits(b: seq<byte>, i: nat, n: nat)
    requires i + n <= |b|
    ensures forall j :: i <= j < i + n ==> IsTaken(MarkRun(b, i, n)[j])
  {
    forall j | i <= j < i + n ensures IsTaken(MarkRun(b, i, n)[j]) {
      TakenStays(b[j], RunFlags(i, n, j));
    }
  }

  lemma TakenStays(b: byte, c: byte)
    requires IsTaken(c)
    ensures IsTaken(b | c)
  {
  }

  // ---------------------------------------------------------------- more than 3276 bytes

  /** Above 3276 bytes malloc returns NULL if and only if no ceil(size / 4096) pages in a row are
      free. */
  lemma LargeFailsIff(s: State, size: nat, n: nat)
    requires Shaped(s) && size > ALLOCABLE_SIZE && n == (size + 4095) / 4096
    ensures NoRoom(s, size, AsIntended) <==> forall k: nat :: !FreeWindow(s.pages, k, n)
  {
    SizesCover(size);
  }

  /** Otherwise it takes the first such pages. */
  lemma LargePicksLeast(s: State, size: nat, n: nat, p: Ptr, s': State)
    requires Shaped(s) && size > ALLOCABLE_SIZE && n == (size + 4095) / 4096 && Malloc(s, size, AsIntended, p, s')
    ensures p.block == 0 && FreeWindow(s.pages, p.page, n)
    ensures forall k: nat :: k < p.page ==> !FreeWindow(s.pages, k, n)
  {
    SizesCover(size);
  }

  /** Nothing is handed out for 0 bytes, nor when there is no room. */
  lemma NeverBoth(s: State, size: nat, code: Code, p: Ptr, s': State)
    requires HeapOk(s) && Malloc(s, size, code, p, s')
    ensures size > 0 && !NoRoom(s, size, code)
  {
    if size <= ALLOCABLE_SIZE {
      SmallFailsIff(s, size, BlocksFor(size), code);
      SmallPicksLeast(s, size, BlocksFor(size), code, p, s');
      assert !Useless(s, p.page, BlocksFor(size), code);
    }
  }

  // ---------------------------------------------------------------- an example

  lemma FirstSmall(s: State, code: Code, p: Ptr, t: State)
    requires HeapOk(s) && s.pages != [] && forall k :: 0 <= k < |s.pages| ==> s.pages[k] == 0
    requires Malloc(s, 4, code, p, t)
    ensures !NoRoom(s, 4, code) && p == Ptr(0, 0) && |t.pages| == |s.pages| && Shaped(t)
    ensures IsTaken(t.pages[0]) && IsMalloced(t.pages[0]) && HeapOk(t)
    ensures IsTaken(t.tabs[0].blocks[0]) && !IsTaken(t.tabs[0].blocks[1])
  {
    SmallFailsIff(s, 4, 1, code);
    SmallPicksLeast(s, 4, 1, code, p, t);
    assert !Useless(s, 0, 1, code);
    SmallNewPageGrants(s, 4, p);
  }

  lemma SecondSmall(t: State, code: Code, q: Ptr, u: State)
    requires HeapOk(t) && t.pages != [] && IsTaken(t.pages[0]) && IsMalloced(t.pages[0])
    requires IsTaken(t.tabs[0].blocks[0]) && !IsTaken(t.tabs[0].blocks[1])
    requires Malloc(t, 4, code, q, u)
    ensures !NoRoom(t, 4, code) && q == Ptr(0, 1)
  {
    assert Window(t.tabs[0].blocks, 1, 1, code) && !Useless(t, 0, 1, code);
    SmallFailsIff(t, 4, 1, code);
    SmallPicksLeast(t, 4, 1, code, q, u);
    assert q.page == 0;
    assert !Window(t.tabs[0].blocks, 0, 1, code);
  }

  /** Two requests of 4 bytes on an empty heap get the first two blocks of its first page. */
  lemma TwoSmall(s: State, code: Code, p: Ptr, t: State, q: Ptr, u: State)
    requires HeapOk(s) && s.pages != [] && forall k :: 0 <= k < |s.pages| ==> s.pages[k] == 0
    requires Malloc(s, 4, code, p, t) && Shaped(t) && Malloc(t, 4, code, q, u)
    ensures !NoRoom(s, 4, code) && !NoRoom(t, 4, code) && p == Ptr(0, 0) && q == Ptr(0, 1)
  {
    FirstSmall(s, code, p, t);
    SecondSmall(t, code, q, u);
  }
}
