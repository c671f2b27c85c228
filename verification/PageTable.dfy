/** The page allocator (os/page.c:214-304), working in place on the array of page
    descriptors.  An address is modelled by the index of the page it lies in. */
module PageTable {
  import opened Flags
  import opened Runs

  /** i is the least index that starts n consecutive free pages. */
  predicate FirstFit(p: seq<byte>, n: nat, i: nat) {
    FreeWindow(p, i, n) && forall k :: 0 <= k < i ==> !FreeWindow(p, k, n)
  }

  /** page_alloc: exact first fit, and NULL exactly when no window exists. */
  method PageAlloc(flags: array<byte>, npages: int) returns (r: Option<nat>)
    modifies flags
    ensures r.Some? ==> npages >= 1 && FirstFit(old(flags[..]), npages, r.value)
    ensures r.Some? ==> flags[..] == MarkRun(old(flags[..]), r.value, npages)
    ensures r.None? ==> flags[..] == old(flags[..])
    ensures r.None? ==> npages < 1 || forall k: nat :: !FreeWindow(old(flags[..]), k, npages)
  {
    if npages < 1 { return None; }
    var endPage := flags.Length - npages;
    var i := 0;
    while i <= endPage
      invariant 0 <= i
      invariant i <= endPage + 1 || i == 0
      invariant flags[..] == old(flags[..])
      invariant forall k: nat :: k < i ==> !FreeWindow(flags[..], k, npages)
    {
      if !IsTaken(flags[i]) {
        var found := true;
        var j := 1;
        while j < npages
          invariant 1 <= j <= npages
          invariant found
          invariant forall k :: i <= k < i + j ==> !IsTaken(flags[k])
        {
          if IsTaken(flags[i + j]) {
            found := false;
            assert IsTaken(flags[..][i + j]);
            break;
          }
          j := j + 1;
        }
        if found {
          SetRun(flags, i, npages);
          return Some(i);
        }
      } else {
        assert IsTaken(flags[..][i]);
      }
      i := i + 1;
    }
    return None;
  }

  /** The flag-setting part of page_alloc: FIRST, then TAKEN on each page, then LAST. */
  method SetRun(flags: array<byte>, i: nat, n: nat)
    requires 1 <= n && i + n <= flags.Length
    modifies flags
    ensures flags[..] == MarkRun(old(flags[..]), i, n)
  {
    flags[i] := flags[i] | FIRST;
    var j := 0;
    while j < n
      invariant 0 <= j <= n
      invariant forall k :: 0 <= k < flags.Length ==>
        flags[k] == old(flags[k]) | (if k == i then FIRST else 0) | (if i <= k < i + j then TAKEN else 0)
    {
      flags[i + j] := flags[i + j] | TAKEN;
      j := j + 1;
    }
    flags[i + n - 1] := flags[i + n - 1] | LAST;
  }

  /** page_free of any address inside page k.  The clearing loop has no bound of its own. */
  method PageFree(flags: array<byte>, k: nat)
    requires k < flags.Length && WalkEnd(flags[..], k) <= flags.Length
    modifies flags
    ensures flags[..] == FreeRun(old(flags[..]), k)
  {
    ghost var p := flags[..];
    ghost var e := WalkEnd(p, k);
    if !IsFirst(flags[k]) {
      if k > 0 && IsTaken(flags[k - 1]) {
        flags[k - 1] := WithLast(flags[k - 1]);
      }
    }
    ghost var s := SealPrevious(p, k);
    assert flags[..] == s;
    var page := k;
    while IsTaken(flags[page])
      invariant k <= page < flags.Length
      invariant WalkEnd(p, page) == e
      invariant forall j :: 0 <= j < flags.Length ==> flags[j] == if k <= j < page then 0 else s[j]
      decreases e - page
    {
      assert flags[page] == p[page];
      if IsLast(flags[page]) {
        flags[page] := 0;
        break;
      } else {
        flags[page] := 0;
        page := page + 1;
      }
    }
  }
}
