/** The run queue of os/sched.c as a sequence of task records, and what each operation on it
    does.  `priority` orders the queue, lowest first. */
module RunQueue {
  import opened SortedLists

  datatype TaskState = RUNNING | RUNNABLE | SLEEPING

  datatype Task = Task(id: nat, priority: int, state: TaskState, timeslice: nat)

  const MAX_TASK_NUM := 10
  const LOWEST := 256

  function Priorities(q: seq<Task>): (r: seq<int>)
    ensures |r| == |q| && forall i :: 0 <= i < |q| ==> r[i] == q[i].priority
  {
    seq(|q|, i requires 0 <= i < |q| => q[i].priority)
  }

  /** insert_task. */
  function Insert(q: seq<Task>, t: Task): (r: seq<Task>)
    ensures |r| == |q| + 1
  {
    InsertAt(q, Slot(Priorities(q), t.priority), t)
  }

  /** Index of the first task at or after i that is not sleeping; |q| if they all are. */
  function AwakeFrom(q: seq<Task>, i: nat): (r: nat)
    requires i <= |q|
    ensures i <= r <= |q|
    ensures r < |q| ==> q[r].state != SLEEPING
    ensures forall j :: i <= j < r ==> q[j].state == SLEEPING
    decreases |q| - i
  {
    if i == |q| || q[i].state != SLEEPING then i else AwakeFrom(q, i + 1)
  }

  function FirstAwake(q: seq<Task>): (r: nat)
    ensures r <= |q|
    ensures r < |q| ==> q[r].state != SLEEPING
    ensures forall j :: 0 <= j < r ==> q[j].state == SLEEPING
  {
    AwakeFrom(q, 0)
  }

  function Aged(t: Task): Task {
    if t.priority < LOWEST then t.(priority := t.priority + 1) else t
  }

  /** pop_task, when somebody is awake: the first awake task ages and is filed again. */
  function Pop(q: seq<Task>): (r: seq<Task>)
    requires FirstAwake(q) < |q|
    ensures |r| == |q| && FirstAwake(r) < |r|
  {
    Insert(RemoveAt(q, FirstAwake(q)), Aged(q[FirstAwake(q)]))
  }

  /** The task pop_task returns, as it was in the queue. */
  function Popped(q: seq<Task>): Task
    requires FirstAwake(q) < |q|
  {
    q[FirstAwake(q)]
  }

  predicate Distinct(q: seq<Task>) {
    forall i, j :: 0 <= i < j < |q| ==> q[i].id != q[j].id
  }

  predicate QueueOk(q: seq<Task>) {
    Sorted(Priorities(q)) && Distinct(q)
  }

  predicate Has(q: seq<Task>, id: nat) {
    exists i :: 0 <= i < |q| && q[i].id == id
  }

  function Ids(q: seq<Task>): (ids: seq<nat>)
    ensures |ids| == |q| && forall i :: 0 <= i < |q| ==> ids[i] == q[i].id
  {
    seq(|q|, i requires 0 <= i < |q| => q[i].id)
  }

  /** Position of the task with this id; |q| if there is none. */
  function IndexOf(q: seq<Task>, id: nat): (i: nat)
    ensures i <= |q|
    ensures i < |q| ==> q[i].id == id
    ensures forall j :: 0 <= j < i ==> q[j].id != id
  {
    FirstWith(Ids(q), id, 0)
  }

  /** task_exit takes the task with this id out of the queue. */
  function Remove(q: seq<Task>, id: nat): seq<Task> {
    var i := IndexOf(q, id);
    if i < |q| then RemoveAt(q, i) else q
  }

  function SetState(q: seq<Task>, id: nat, st: TaskState): (r: seq<Task>)
    ensures |r| == |q|
    ensures forall i :: 0 <= i < |q| ==> r[i] == if i == IndexOf(q, id) then q[i].(state := st) else q[i]
  {
    var i := IndexOf(q, id);
    if i < |q| then q[i := q[i].(state := st)] else q
  }

  // ---------------------------------------------------------------- what every operation keeps

  lemma IndexOfHas(q: seq<Task>, id: nat, i: nat)
    requires Distinct(q) && i < |q| && q[i].id == id
    ensures IndexOf(q, id) == i
  {
  }

  lemma InsertKeeps(q: seq<Task>, t: Task)
    requires QueueOk(q) && !Has(q, t.id)
    ensures QueueOk(Insert(q, t))
    ensures forall j :: 0 <= j < |q| && j >= Slot(Priorities(q), t.priority) ==> t.priority < q[j].priority
  {
    InsertKeepsSorted(Priorities(q), t.priority);
    var s := Slot(Priorities(q), t.priority);
    assert Priorities(Insert(q, t)) == InsertAt(Priorities(q), s, t.priority);
  }

  lemma RemoveKeeps(q: seq<Task>, i: nat)
    requires QueueOk(q) && i < |q|
    ensures QueueOk(RemoveAt(q, i)) && !Has(RemoveAt(q, i), q[i].id)
  {
    assert Priorities(RemoveAt(q, i)) == RemoveAt(Priorities(q), i);
    RemoveKeepsSorted(Priorities(q), i);
  }

  /** pop_task keeps the queue sorted and its ids distinct, and the other tasks keep their
      relative order: taking the returned task out of either queue leaves the same rest. */
  lemma PopKeeps(q: seq<Task>)
    requires QueueOk(q) && FirstAwake(q) < |q|
    ensures QueueOk(Pop(q))
    ensures Remove(Pop(q), Popped(q).id) == Remove(q, Popped(q).id)
  {
    var i := FirstAwake(q);
    var rest, t := RemoveAt(q, i), Aged(q[i]);
    RemoveKeeps(q, i);
    InsertKeeps(rest, t);
    var s := Slot(Priorities(rest), t.priority);
    IndexOfHas(q, t.id, i);
    IndexOfHas(Pop(q), t.id, s);
    RemoveInserted(rest, s, t);
  }

  lemma SetStateKeeps(q: seq<Task>, id: nat, st: TaskState)
    requires QueueOk(q)
    ensures QueueOk(SetState(q, id, st)) && Priorities(SetState(q, id, st)) == Priorities(q)
  {
    assert Priorities(SetState(q, id, st)) == Priorities(q);
  }
}
