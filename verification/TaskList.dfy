/** The run queue of os/sched.c as it is kept in memory: task records linked by `next`. */
module TaskList {
  import opened Flags
  import opened SortedLists
  import opened RunQueue

  /** struct taskInfo.  Its id and timeslice are set once, by task_create. */
  class TaskInfo {
    const id: nat
    const timeslice: nat
    var priority: int
    var state: TaskState
    var next: TaskInfo?

    constructor (id: nat, priority: int, timeslice: nat)
      ensures this.id == id && this.timeslice == timeslice
      ensures this.priority == priority && state == RUNNING && next == null
    {
      this.id, this.timeslice := id, timeslice;
      this.priority, this.state, this.next := priority, RUNNING, null;
    }

    function Record(): Task
      reads this
    {
      Task(id, priority, state, timeslice)
    }
  }

  function NodeAt(ns: seq<TaskInfo>, i: nat): TaskInfo? {
    if i < |ns| then ns[i] else null
  }

  /** The nodes are linked in order, and the last one ends the list. */
  ghost predicate Chained(ns: seq<TaskInfo>)
    reads ns
  {
    forall i: nat {:trigger At(i)} :: i < |ns| && At(i) ==> ns[i].next == NodeAt(ns, i + 1)
  }

  lemma SameMembers(ns: seq<TaskInfo>, i: nat, k: nat)
    requires i < |ns| && k < |ns|
    ensures forall n: TaskInfo :: n in InsertAt(RemoveAt(ns, i), k, ns[i]) <==> n in ns
    ensures (set n | n in InsertAt(RemoveAt(ns, i), k, ns[i])) == (set n | n in ns)
  {
    var rest := RemoveAt(ns, i);
    var r := InsertAt(rest, k, ns[i]);
    forall n: TaskInfo | n in ns ensures n in r {
      var j :| 0 <= j < |ns| && ns[j] == n;
      if j == i {
        assert r[k] == n;
      } else {
        var mid := if j < i then j else j - 1;
        assert rest[mid] == n;
        assert r[if mid < k then mid else mid + 1] == n;
      }
    }
  }

  /** first_task and _tasks_num.  `tasks` is what the linked records say, in order. */
  class TaskList {
    var first: TaskInfo?
    var count: int
    ghost var nodes: seq<TaskInfo>
    ghost var tasks: seq<Task>

    ghost predicate Valid()
      reads this, nodes
    {
      count == |nodes| && Linked()
    }

    /** Everything but the count. */
    ghost predicate Linked()
      reads this, nodes
    {
      && first == NodeAt(nodes, 0)
      && Chained(nodes)
      && (forall i, j :: 0 <= i < j < |nodes| ==> nodes[i] != nodes[j])
      && |tasks| == |nodes| && forall i :: 0 <= i < |nodes| ==> tasks[i] == nodes[i].Record()
    }

    ghost function Members(): set<TaskInfo>
      reads this
    {
      set n | n in nodes
    }

    constructor ()
      ensures Valid() && nodes == [] && tasks == []
    {
      first, count, nodes, tasks := null, 0, [], [];
    }

    // -------------------------------------------------------------- insert_task

    /** The walk of insert_task: past every task whose priority does not exceed p. */
    method FindSlot(p: int) returns (prev: TaskInfo, it: TaskInfo?)
      requires Valid() && first != null && first.priority <= p
      ensures var k := Slot(Priorities(tasks), p);
        0 < k <= |nodes| && prev == nodes[k - 1] && it == NodeAt(nodes, k)
    {
      ghost var k := 0;
      it, prev := first, first;
      while it != null && p >= it.priority
        invariant 0 <= k <= |nodes|
        invariant it == NodeAt(nodes, k)
        invariant prev == nodes[if k == 0 then 0 else k - 1]
        invariant forall j :: 0 <= j < k ==> tasks[j].priority <= p
        decreases |nodes| - k
      {
        assert At(k) && tasks[k] == it.Record();
        prev := it;
        it := it.next;
        k := k + 1;
      }
      assert k < |nodes| ==> tasks[k] == it.Record();
      SlotIs(Priorities(tasks), p, k);
    }

    /** insert_task. */
    method Insert(t: TaskInfo) returns (code: int)
      requires Valid() && t !in nodes && (nodes == [] ==> t.next == null)
      modifies this, t`next, nodes`next
      ensures Valid() && code == 0
      ensures tasks == RunQueue.Insert(old(tasks), old(t.Record()))
      ensures nodes == InsertAt(old(nodes), Slot(Priorities(old(tasks)), t.priority), t)
    {
      if first == null && count == 0 {
        first := t;
        count := count + 1;
        nodes, tasks := [t], [t.Record()];
        return 0;
      }
      if first == null { return -1; }
      LinkIn(t);
      count := count + 1;
      return 0;
    }

    method LinkIn(t: TaskInfo)
      requires Valid() && t !in nodes && nodes != []
      modifies this`first, this`nodes, this`tasks, t`next, nodes`next
      ensures Linked()
      ensures tasks == RunQueue.Insert(old(tasks), old(t.Record()))
      ensures nodes == InsertAt(old(nodes), Slot(Priorities(old(tasks)), t.priority), t)
    {
      ghost var was, slot := nodes, Slot(Priorities(tasks), t.priority);
      assert tasks[0] == first.Record();
      if t.priority < first.priority {
        t.next := first;
        first := t;
        SlotIs(Priorities(tasks), t.priority, 0);
      } else {
        LinkBehind(t);
      }
      nodes, tasks := InsertAt(was, slot, t), InsertAt(tasks, slot, t.Record());
      ChainedAfterInsert(was, slot, t);
    }

    /** The relinking behind the first task; the list is whole again once t is listed. */
    method LinkBehind(t: TaskInfo)
      requires Valid() && t !in nodes && first != null && first.priority <= t.priority
      modifies t`next, nodes`next
      ensures var k := Slot(Priorities(tasks), t.priority);
        && 0 < k <= |nodes| && t.next == NodeAt(nodes, k) && nodes[k - 1].next == t
        && forall i: nat {:trigger At(i)} :: i < |nodes| && i + 1 != k && At(i) ==>
            nodes[i].next == NodeAt(nodes, i + 1)
    {
      var prev, it := FindSlot(t.priority);
      prev.next := t;
      t.next := it;
    }

    /** The chain with t linked in at slot is the chain of the longer list. */
    lemma ChainedAfterInsert(was: seq<TaskInfo>, slot: nat, t: TaskInfo)
      requires slot <= |was| && nodes == InsertAt(was, slot, t)
      requires t.next == NodeAt(was, slot) && (slot > 0 ==> was[slot - 1].next == t)
      requires forall i: nat {:trigger At(i)} :: i < |was| && i + 1 != slot && At(i) ==>
          was[i].next == NodeAt(was, i + 1)
      ensures Chained(nodes)
    {
      forall i: nat | i < |nodes| && At(i) ensures nodes[i].next == NodeAt(nodes, i + 1) {
        if i < slot { assert At(i); }
        if i > slot { assert At(i - 1); }
      }
    }

    // -------------------------------------------------------------- pop_task

    /** The walk of pop_task: past every leading sleeping task. */
    method FindAwake() returns (prev: TaskInfo, task: TaskInfo?)
      requires Valid() && first != null
      ensures var i := FirstAwake(tasks);
        task == NodeAt(nodes, i) && prev == nodes[if i == 0 then 0 else i - 1]
    {
      ghost var i := 0;
      task, prev := first, first;
      while task != null && task.state == SLEEPING
        invariant 0 <= i <= |nodes|
        invariant task == NodeAt(nodes, i)
        invariant prev == nodes[if i == 0 then 0 else i - 1]
        invariant forall j :: 0 <= j < i ==> tasks[j].state == SLEEPING
        decreases |nodes| - i
      {
        assert At(i) && tasks[i] == task.Record();
        prev := task;
        task := task.next;
        i := i + 1;
      }
      assert i < |nodes| ==> tasks[i] == task.Record();
    }

    /** Takes the node at position i out of the chain; prev is the one before it. */
    method Unlink(prev: TaskInfo, task: TaskInfo, ghost i: nat)
      requires Valid() && Distinct(tasks) && i < |nodes| && task == nodes[i]
      requires prev == nodes[if i == 0 then 0 else i - 1]
      modifies this, prev`next
      ensures Valid() && nodes == RemoveAt(old(nodes), i) && tasks == RemoveAt(old(tasks), i)
      ensures nodes == [] ==> task.next == null
    {
      ghost var was := nodes;
      assert tasks[i].id == task.id && tasks[0].id == first.id;
      assert At(i) && At(0);
      if task.id == first.id {
        first := first.next;
      } else {
        prev.next := task.next;
      }
      count := count - 1;
      nodes, tasks := RemoveAt(was, i), RemoveAt(tasks, i);
      ChainedAfterRemove(was, i);
    }

    lemma ChainedAfterRemove(was: seq<TaskInfo>, i: nat)
      requires i < |was| && nodes == RemoveAt(was, i)
      requires i > 0 ==> was[i - 1].next == NodeAt(was, i + 1)
      requires forall k: nat {:trigger At(k)} :: k < |was| && k + 1 != i && At(k) ==> was[k].next == NodeAt(was, k + 1)
      ensures Chained(nodes)
    {
      forall k: nat | k < |nodes| && At(k) ensures nodes[k].next == NodeAt(nodes, k + 1) {
        if k >= i { assert At(k + 1); }
      }
    }

    /** The second half of pop_task: the task ages, is taken out and filed again. */
    method Refile(prev: TaskInfo, task: TaskInfo, ghost i: nat)
      requires Valid() && Distinct(tasks) && i < |nodes| && task == nodes[i]
      requires prev == nodes[if i == 0 then 0 else i - 1]
      modifies this, nodes
      ensures Valid() && tasks == RunQueue.Insert(RemoveAt(old(tasks), i), Aged(old(tasks)[i]))
      ensures Members() == old(Members())
    {
      ghost var was, q := nodes, tasks;
      if task.priority < LOWEST {
        task.priority := task.priority + 1;
      }
      tasks := q[i := Aged(q[i])];
      Unlink(prev, task, i);
      assert tasks == RemoveAt(q, i) && task.Record() == Aged(q[i]);
      ghost var k := Slot(Priorities(tasks), task.priority);
      var code := Insert(task);
      SameMembers(was, i, k);
    }

    /** pop_task. */
    method Pop() returns (r: TaskInfo?)
      requires Valid() && Distinct(tasks)
      modifies this, nodes
      ensures Valid() && Members() == old(Members())
      ensures r == null <==> FirstAwake(old(tasks)) == |old(tasks)|
      ensures r == null ==> tasks == old(tasks)
      ensures r != null ==>
        r in Members() && tasks == RunQueue.Pop(old(tasks)) && old(r.Record()) == Popped(old(tasks))
    {
      if first == null { return null; }
      var prev, task := FindAwake();
      if task == null { return null; }
      ghost var i := FirstAwake(tasks);
      Refile(prev, task, i);
      return task;
    }

    // -------------------------------------------------------------- task_exit, task_delay

    /** The unlinking part of task_exit. */
    method Remove(task: TaskInfo)
      requires Valid() && Distinct(tasks) && task in Members()
      modifies this, nodes
      ensures Valid() && tasks == RunQueue.Remove(old(tasks), task.id)
      ensures Members() == old(Members()) - {task}
    {
      ghost var i: nat :| i < |nodes| && nodes[i] == task;
      assert tasks[i].id == task.id;
      IndexOfHas(tasks, task.id, i);
      var it, prev := first, first;
      ghost var k := 0;
      while it != null && it.id != task.id
        invariant 0 <= k <= i
        invariant it == NodeAt(nodes, k)
        invariant prev == nodes[if k == 0 then 0 else k - 1]
        decreases i - k
      {
        assert At(k) && tasks[k].id == it.id;
        prev := it;
        it := it.next;
        k := k + 1;
      }
      assert tasks[k].id == it.id;
      Unlink(prev, task, i);
    }

    /** The state of a listed task is set. */
    method SetState(task: TaskInfo, st: TaskState)
      requires Valid() && Distinct(tasks) && task in Members()
      modifies this`tasks, task`state
      ensures Valid() && tasks == RunQueue.SetState(old(tasks), task.id, st)
    {
      ghost var i: nat :| i < |nodes| && nodes[i] == task;
      assert tasks[i].id == task.id;
      IndexOfHas(tasks, task.id, i);
      task.state := st;
      tasks := RunQueue.SetState(tasks, task.id, st);
    }

    /** A listed record and its entry agree. */
    lemma Listed(task: TaskInfo)
      requires Valid() && Distinct(tasks) && task in Members()
      ensures IndexOf(tasks, task.id) < |tasks| && tasks[IndexOf(tasks, task.id)] == task.Record()
    {
      var i: nat :| i < |nodes| && nodes[i] == task;
      assert tasks[i] == task.Record();
      IndexOfHas(tasks, task.id, i);
    }
  }
}
