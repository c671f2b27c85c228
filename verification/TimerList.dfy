/** The timer list of os/timer.c as it is kept in memory: timer records linked by `next`. */
module TimerList {
  import opened Flags
  import opened SortedLists
  import opened Machine
  import opened TaskList

  /** struct timer.  Everything but `next` is set once, by timer_create; tid stands for the
      address of the record. */
  class TimerInfo {
    ghost const tid: nat
    const func: Option<nat>
    const timeout: nat
    const task: TaskInfo
    var next: TimerInfo?

    constructor (ghost tid: nat, func: Option<nat>, timeout: nat, task: TaskInfo)
      ensures this.tid == tid && this.func == func && this.timeout == timeout && this.task == task && next == null
    {
      this.tid, this.func, this.timeout, this.task := tid, func, timeout, task;
      next := null;
    }

    ghost function Record(): Timer { Timer(tid, func, timeout, task.id) }
  }

  function TimerAt(ns: seq<TimerInfo>, i: nat): TimerInfo? {
    if i < |ns| then ns[i] else null
  }

  ghost predicate TimersChained(ns: seq<TimerInfo>)
    reads ns
  {
    forall i: nat {:trigger At(i)} :: i < |ns| && At(i) ==> ns[i].next == TimerAt(ns, i + 1)
  }

  /** first_timer. */
  class TimerList {
    var first: TimerInfo?
    ghost var nodes: seq<TimerInfo>
    ghost var timers: seq<Timer>

    ghost predicate Valid()
      reads this, nodes
    {
      && first == TimerAt(nodes, 0)
      && TimersChained(nodes)
      && (forall i, j :: 0 <= i < j < |nodes| ==> nodes[i] != nodes[j])
      && |timers| == |nodes| && forall i :: 0 <= i < |nodes| ==> timers[i] == nodes[i].Record()
    }

    constructor ()
      ensures Valid() && nodes == [] && timers == []
    {
      first, nodes, timers := null, [], [];
    }

    /** The walk of insert_timer: past every timer whose deadline does not exceed d. */
    method FindSlot(d: nat) returns (prev: TimerInfo, it: TimerInfo?)
      requires Valid() && first != null && first.timeout <= d
      ensures var k := Slot(Deadlines(timers), d);
        0 < k <= |nodes| && prev == nodes[k - 1] && it == TimerAt(nodes, k)
    {
      ghost var k := 0;
      it, prev := first, first;
      while it != null && it.timeout <= d
        invariant 0 <= k <= |nodes|
        invariant it == TimerAt(nodes, k)
        invariant prev == nodes[if k == 0 then 0 else k - 1]
        invariant forall j :: 0 <= j < k ==> timers[j].deadline <= d
        decreases |nodes| - k
      {
        assert At(k) && timers[k] == it.Record();
        prev := it;
        it := it.next;
        k := k + 1;
      }
      assert k < |nodes| ==> timers[k] == it.Record();
      SlotIs(Deadlines(timers), d, k);
    }

    /** insert_timer of a new record. */
    method Insert(t: TimerInfo)
      requires Valid() && t !in nodes && t.next == null
      modifies this, t`next, nodes`next
      ensures Valid() && nodes == InsertAt(old(nodes), Slot(Deadlines(old(timers)), t.timeout), t)
      ensures timers == File(old(timers), t.Record())
    {
      ghost var was, slot := nodes, Slot(Deadlines(timers), t.timeout);
      if first == null {
        first := t;
        nodes, timers := [t], [t.Record()];
        return;
      }
      assert timers[0] == first.Record();
      if t.timeout < first.timeout {
        t.next := first;
        first := t;
        SlotIs(Deadlines(timers), t.timeout, 0);
      } else {
        var prev, it := FindSlot(t.timeout);
        prev.next := t;
        t.next := it;
      }
      nodes, timers := InsertAt(was, slot, t), InsertAt(timers, slot, t.Record());
      ChainedAfterInsert(was, slot, t);
    }

    lemma ChainedAfterInsert(was: seq<TimerInfo>, slot: nat, t: TimerInfo)
      requires slot <= |was| && nodes == InsertAt(was, slot, t)
      requires t.next == TimerAt(was, slot) && (slot > 0 ==> was[slot - 1].next == t)
      requires forall i: nat {:trigger At(i)} :: i < |was| && i + 1 != slot && At(i) ==>
          was[i].next == TimerAt(was, i + 1)
      ensures TimersChained(nodes)
    {
      forall i: nat | i < |nodes| && At(i) ensures nodes[i].next == TimerAt(nodes, i + 1) {
        if i < slot { assert At(i); }
        if i > slot { assert At(i - 1); }
      }
    }

    lemma ChainedAfterRemove(was: seq<TimerInfo>, i: nat)
      requires i < |was| && nodes == RemoveAt(was, i)
      requires i > 0 ==> was[i - 1].next == TimerAt(was, i + 1)
      requires forall k: nat {:trigger At(k)} :: k < |was| && k + 1 != i && At(k) ==> was[k].next == TimerAt(was, k + 1)
      ensures TimersChained(nodes)
    {
      forall k: nat | k < |nodes| && At(k) ensures nodes[k].next == TimerAt(nodes, k + 1) {
        if k >= i { assert At(k + 1); }
      }
    }

    /** timer_delete of no timer, from an empty list, or of the timer at position i. */
    method Delete(t: TimerInfo?, ghost i: nat)
      requires Valid() && (t != null && nodes != [] ==> i < |nodes| && nodes[i] == t)
      modifies this, nodes`next
      ensures Valid()
      ensures if t == null || old(nodes) == [] then nodes == old(nodes) && timers == old(timers)
              else nodes == RemoveAt(old(nodes), i) && timers == RemoveAt(old(timers), i)
    {
      if first == null || t == null { return; }
      ghost var was := nodes;
      assert At(0) && At(i);
      if t == first {
        first := first.next;
      } else {
        var it, prev := first, first;
        ghost var k := 0;
        while it != null && it != t
          invariant 0 <= k <= i
          invariant it == TimerAt(nodes, k)
          invariant prev == nodes[if k == 0 then 0 else k - 1]
          decreases i - k
        {
          assert At(k);
          prev := it;
          it := it.next;
          k := k + 1;
        }
        prev.next := it.next;
      }
      nodes, timers := RemoveAt(was, i), RemoveAt(timers, i);
      ChainedAfterRemove(was, i);
    }
  }
}
