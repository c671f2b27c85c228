/** Runs of descriptors.  Pages (os/page.c:83-86) and blocks (os/page.c:101-104) are tracked the
    same way: an allocation is a run of TAKEN descriptors whose first is FIRST and whose last
    is LAST. */
module Runs {
  import opened Flags

  /** A free member has no flags at all, and a taken member that is not LAST is continued by
      a taken member that is not FIRST. */
  predicate WellFormed(p: seq<byte>) {
    && (forall i :: 0 <= i < |p| && !IsTaken(p[i]) ==> p[i] == 0)
    && (forall i :: 0 <= i < |p| && IsTaken(p[i]) && !IsLast(p[i]) ==>
          i + 1 < |p| && IsTaken(p[i + 1]) && !IsFirst(p[i + 1]))
  }

  /** n consecutive free members start at i. */
  predicate FreeWindow(p: seq<byte>, i: nat, n: nat) {
    i + n <= |p| && forall j :: i <= j < i + n ==> !IsTaken(p[j])
  }

  // ---------------------------------------------------------------- taking a run

  /** The table after the run [i, i + n) has been marked. */
  function MarkRun(p: seq<byte>, i: nat, n: nat): (q: seq<byte>)
    requires i + n <= |p|
    ensures |q| == |p|
  {
    seq(|p|, j requires 0 <= j < |p| => if i <= j < i + n then p[j] | RunFlags(i, n, j) else p[j])
  }

  /** [i, i + n) carries exactly the flags one allocation leaves. */
  predicate IsMarked(p: seq<byte>, i: nat, n: nat) {
    i + n <= |p| && forall j :: i <= j < i + n ==> p[j] == RunFlags(i, n, j)
  }

  lemma MarkKeepsWellFormed(p: seq<byte>, i: nat, n: nat)
    requires WellFormed(p) && n >= 1 && FreeWindow(p, i, n)
    ensures WellFormed(MarkRun(p, i, n)) && IsMarked(MarkRun(p, i, n), i, n)
  {
    var q := MarkRun(p, i, n);
    forall j | 0 <= j < |q| && IsTaken(q[j]) && !IsLast(q[j])
      ensures j + 1 < |q| && IsTaken(q[j + 1]) && !IsFirst(q[j + 1])
    {
      if i <= j < i + n {
        assert q[j] == RunFlags(i, n, j);
        assert q[j + 1] == RunFlags(i, n, j + 1);
      }
    }
  }

  // ---------------------------------------------------------------- freeing a run

  /** Where the clearing loop that starts at k stops: one past the last cleared member.  The
      loop has no bound of its own; |p| + 1 says that it leaves the table. */
  function WalkEnd(p: seq<byte>, k: nat): (e: nat)
    ensures k < |p| && !IsTaken(p[k]) ==> e == k
    ensures k < |p| && IsTaken(p[k]) ==> e > k
    ensures e <= |p| + 1
    ensures forall j :: k <= j < e && j < |p| ==> IsTaken(p[j])
    ensures forall j :: k <= j < e - 1 && j < |p| ==> !IsLast(p[j])
    decreases |p| - k
  {
    if k >= |p| then |p| + 1
    else if !IsTaken(p[k]) then k
    else if IsLast(p[k]) then k + 1
    else WalkEnd(p, k + 1)
  }

  /** On a well-formed table the unbounded walk ends on the LAST member of the run it
      started in, inside the table and before any other run. */
  lemma {:induction false} WalkStaysInRun(p: seq<byte>, k: nat)
    requires WellFormed(p) && k < |p|
    ensures WalkEnd(p, k) <= |p|
    ensures IsTaken(p[k]) ==> IsLast(p[WalkEnd(p, k) - 1])
    ensures forall j :: k < j < WalkEnd(p, k) ==> !IsFirst(p[j])
    decreases |p| - k
  {
    if IsTaken(p[k]) && !IsLast(p[k]) {
      WalkStaysInRun(p, k + 1);
    }
  }

  lemma {:induction false} WalkIgnoresBefore(p: seq<byte>, i: nat, x: byte, k: nat)
    requires i < k && i < |p|
    ensures WalkEnd(p[i := x], k) == WalkEnd(p, k)
    decreases |p| - k
  {
    if k < |p| {
      WalkIgnoresBefore(p, i, x, k + 1);
    }
  }

  /** The member before a mid-run free becomes the LAST of the truncated run. */
  function SealPrevious(p: seq<byte>, k: nat): (q: seq<byte>)
    requires k < |p|
    ensures |q| == |p|
  {
    if !IsFirst(p[k]) && k > 0 && IsTaken(p[k - 1]) then p[k - 1 := WithLast(p[k - 1])] else p
  }

  /** The table after a free at member k. */
  function FreeRun(p: seq<byte>, k: nat): (q: seq<byte>)
    requires k < |p|
    ensures |q| == |p|
  {
    var e := WalkEnd(p, k);
    var s := SealPrevious(p, k);
    seq(|p|, j requires 0 <= j < |p| => if k <= j < e then 0 else s[j])
  }

  /** A free keeps the table well formed wherever it starts: at the head of a run, in the
      middle of one, or at a member that is already free. */
  lemma FreeKeepsWellFormed(p: seq<byte>, k: nat)
    requires WellFormed(p) && k < |p|
    ensures WellFormed(FreeRun(p, k))
  {
    WalkStaysInRun(p, k);
    var q, e := FreeRun(p, k), WalkEnd(p, k);
    forall i | 0 <= i < |q| && IsTaken(q[i]) && !IsLast(q[i])
      ensures i + 1 < |q| && IsTaken(q[i + 1]) && !IsFirst(q[i + 1])
    {
      assert IsTaken(p[i]) && !IsLast(p[i]);
      assert i + 1 != k;
      assert i + 1 < k || i >= e;
    }
  }

  /** A free clears exactly the suffix of the one run that member k lies in, and what is
      left of that run ends in LAST.  Nothing else changes. */
  lemma FreeClearsExactSuffix(p: seq<byte>, k: nat)
    requires WellFormed(p) && k < |p|
    ensures WalkEnd(p, k) <= |p|
    ensures forall j :: k <= j < WalkEnd(p, k) ==> FreeRun(p, k)[j] == 0
    ensures forall j :: 0 <= j < |p| && !(k <= j < WalkEnd(p, k)) && j != k - 1 ==> FreeRun(p, k)[j] == p[j]
    ensures k > 0 && (IsLast(p[k - 1]) || !IsTaken(p[k - 1])) ==> FreeRun(p, k)[k - 1] == p[k - 1]
    ensures k > 0 && IsTaken(p[k - 1]) ==>
      IsTaken(FreeRun(p, k)[k - 1]) && (IsFirst(p[k]) || IsLast(FreeRun(p, k)[k - 1]))
  {
    WalkStaysInRun(p, k);
  }

  /** The walk over the run of one allocation stops at its end. */
  lemma {:induction false} WalkEndOfRun(p: seq<byte>, i: nat, n: nat, k: nat)
    requires i <= k < i + n <= |p|
    requires forall j :: i <= j < i + n ==> IsTaken(p[j]) && (IsLast(p[j]) <==> j == i + n - 1)
    ensures WalkEnd(p, k) == i + n
    decreases i + n - k
  {
    if k + 1 < i + n {
      WalkEndOfRun(p, i, n, k + 1);
    }
  }

  /** Freeing a whole run leaves every other member alone. */
  lemma FreeWholeRun(p: seq<byte>, i: nat, n: nat)
    requires n >= 1 && IsMarked(p, i, n)
    ensures FreeRun(p, i) == seq(|p|, j requires 0 <= j < |p| => if i <= j < i + n then 0 else p[j])
  {
    WalkEndOfRun(p, i, n, i);
    assert p[i] == RunFlags(i, n, i);
  }

  /** Freeing what was just allocated restores every flag. */
  lemma MarkFreeRoundTrip(p: seq<byte>, i: nat, n: nat)
    requires WellFormed(p) && n >= 1 && FreeWindow(p, i, n)
    ensures FreeRun(MarkRun(p, i, n), i) == p
  {
    MarkKeepsWellFormed(p, i, n);
    FreeWholeRun(MarkRun(p, i, n), i, n);
  }
}
