/** Both kernel lists are kept sorted, and a new member goes after those with an equal key
    (os/sched.c:47-66, os/timer.c:125-139). */
module SortedLists {

  predicate Sorted(keys: seq<int>) {
    forall i, j :: 0 <= i < j < |keys| ==> keys[i] <= keys[j]
  }

  function SlotFrom(keys: seq<int>, k: int, i: nat): (r: nat)
    requires i <= |keys|
    ensures i <= r <= |keys|
    ensures forall j :: i <= j < r ==> keys[j] <= k
    ensures r < |keys| ==> k < keys[r]
    decreases |keys| - i
  {
    if i == |keys| || k < keys[i] then i else SlotFrom(keys, k, i + 1)
  }

  /** Where the list walk stops: past every leading key that does not exceed k. */
  function Slot(keys: seq<int>, k: int): (r: nat)
    ensures r <= |keys|
    ensures forall j :: 0 <= j < r ==> keys[j] <= k
    ensures r < |keys| ==> k < keys[r]
  {
    SlotFrom(keys, k, 0)
  }

  /** The two facts that pin the slot down. */
  lemma SlotIs(keys: seq<int>, k: int, i: nat)
    requires i <= |keys| && (forall j :: 0 <= j < i ==> keys[j] <= k) && (i < |keys| ==> k < keys[i])
    ensures Slot(keys, k) == i
  {
  }

  function InsertAt<T>(q: seq<T>, i: nat, t: T): (r: seq<T>)
    requires i <= |q|
    ensures |r| == |q| + 1
    ensures forall j :: 0 <= j < i ==> r[j] == q[j]
    ensures r[i] == t
    ensures forall j :: i < j <= |q| ==> r[j] == q[j - 1]
  {
    q[..i] + [t] + q[i..]
  }

  function RemoveAt<T>(q: seq<T>, i: nat): (r: seq<T>)
    requires i < |q|
    ensures |r| == |q| - 1
    ensures forall j :: 0 <= j < i ==> r[j] == q[j]
    ensures forall j :: i <= j < |q| - 1 ==> r[j] == q[j + 1]
  {
    q[..i] + q[i + 1..]
  }

  lemma InsertKeepsSorted(keys: seq<int>, k: int)
    requires Sorted(keys)
    ensures Sorted(InsertAt(keys, Slot(keys, k), k))
    ensures forall j :: Slot(keys, k) <= j < |keys| ==> k < keys[j]
  {
  }

  lemma RemoveKeepsSorted(keys: seq<int>, i: nat)
    requires Sorted(keys) && i < |keys|
    ensures Sorted(RemoveAt(keys, i))
  {
  }

  lemma RemoveInserted<T>(q: seq<T>, i: nat, t: T)
    requires i <= |q|
    ensures RemoveAt(InsertAt(q, i, t), i) == q
  {
  }

  /** The first position at or after i that holds id; |ids| if there is none. */
  function FirstWith(ids: seq<nat>, id: nat, i: nat): (r: nat)
    requires i <= |ids|
    ensures i <= r <= |ids|
    ensures r < |ids| ==> ids[r] == id
    ensures forall j :: i <= j < r ==> ids[j] != id
    decreases |ids| - i
  {
    if i == |ids| || ids[i] == id then i else FirstWith(ids, id, i + 1)
  }
}
