/** How long an awake task can be passed over by pop_task, and what the ageing in
    os/sched.c:86-87 converges to. */
module Fairness {
  import opened SortedLists
  import opened RunQueue

  /** How often a task of priority q can be returned before it is filed behind one of
      priority p >= q. */
  function Turns(p: int, q: int): nat { if p - q > 1 then p - q else 1 }

  function Weight(q: seq<Task>, p: int): nat {
    if q == [] then 0 else Weight(q[..|q| - 1], p) + Turns(p, q[|q| - 1].priority)
  }

  /** The number of pops that can still return somebody else before this task. */
  function Wait(q: seq<Task>, id: nat): nat
    requires IndexOf(q, id) < |q|
  {
    Weight(q[..IndexOf(q, id)], q[IndexOf(q, id)].priority)
  }

  lemma {:induction false} WeightAppend(a: seq<Task>, b: seq<Task>, p: int)
    ensures Weight(a + b, p) == Weight(a, p) + Weight(b, p)
  {
    if b == [] {
      assert a + b == a;
    } else {
      assert (a + b)[..|a + b| - 1] == a + b[..|b| - 1];
      WeightAppend(a, b[..|b| - 1], p);
    }
  }

  lemma WeightOne(t: Task, p: int)
    ensures Weight([t], p) == Turns(p, t.priority)
  {
    assert [t][..0] == [];
  }

  lemma WeightRemove(q: seq<Task>, i: nat, p: int)
    requires i < |q|
    ensures Weight(q, p) == Weight(RemoveAt(q, i), p) + Turns(p, q[i].priority)
  {
    assert q == q[..i] + ([q[i]] + q[i + 1..]);
    WeightAppend(q[..i], [q[i]] + q[i + 1..], p);
    WeightAppend([q[i]], q[i + 1..], p);
    WeightAppend(q[..i], q[i + 1..], p);
    WeightOne(q[i], p);
  }

  lemma WeightInsert(q: seq<Task>, i: nat, t: Task, p: int)
    requires i <= |q|
    ensures Weight(InsertAt(q, i, t), p) == Weight(q, p) + Turns(p, t.priority)
  {
    WeightRemove(InsertAt(q, i, t), i, p);
    RemoveInserted(q, i, t);
  }

  // ---------------------------------------------------------------- one step

  /** Where a new key lands, as seen from a member. */
  lemma SlotBeforeIff(keys: seq<int>, k: int, pos: nat)
    requires Sorted(keys) && pos < |keys|
    ensures k < keys[pos] <==> Slot(keys, k) <= pos
  {
  }

  lemma WaitAt(q: seq<Task>, id: nat, pos: nat)
    requires Distinct(q) && pos < |q| && q[pos].id == id
    ensures IndexOf(q, id) == pos && Wait(q, id) == Weight(q[..pos], q[pos].priority)
  {
    IndexOfHas(q, id, pos);
  }

  lemma InsertAhead(q: seq<Task>, t: Task, pos: nat, s: nat)
    requires s <= pos < |q|
    ensures Weight(InsertAt(q, s, t)[..pos + 1], q[pos].priority) ==
      Weight(q[..pos], q[pos].priority) + Turns(q[pos].priority, t.priority)
  {
    assert InsertAt(q, s, t)[..pos + 1] == InsertAt(q[..pos], s, t);
    WeightInsert(q[..pos], s, t, q[pos].priority);
  }

  lemma InsertFrom(q: seq<Task>, t: Task, id: nat, pos: nat, s: nat)
    requires QueueOk(q) && pos < |q| && q[pos].id == id && !Has(q, t.id) && s == Slot(Priorities(q), t.priority)
    ensures IndexOf(Insert(q, t), id) == if s <= pos then pos + 1 else pos
    ensures Insert(q, t)[if s <= pos then pos + 1 else pos] == q[pos]
    ensures Wait(Insert(q, t), id) ==
      Weight(q[..pos], q[pos].priority) + if s <= pos then Turns(q[pos].priority, t.priority) else 0
  {
    var r := Insert(q, t);
    InsertKeeps(q, t);
    if s <= pos {
      assert r[pos + 1] == q[pos];
      WaitAt(r, id, pos + 1);
      InsertAhead(q, t, pos, s);
    } else {
      assert r[pos] == q[pos];
      WaitAt(r, id, pos);
      assert r[..pos] == q[..pos];
    }
  }

  /** A task filed into the queue delays T only if it has a lower priority value, and then
      by the gap. */
  lemma InsertProgress(q: seq<Task>, t: Task, id: nat)
    requires QueueOk(q) && IndexOf(q, id) < |q| && !Has(q, t.id)
    ensures IndexOf(Insert(q, t), id) < |q| + 1
    ensures Insert(q, t)[IndexOf(Insert(q, t), id)] == q[IndexOf(q, id)]
    ensures var p := q[IndexOf(q, id)].priority;
      Wait(Insert(q, t), id) == Wait(q, id) + if t.priority < p then p - t.priority else 0
  {
    InsertFrom(q, t, id, IndexOf(q, id), Slot(Priorities(q), t.priority));
    SlotBeforeIff(Priorities(q), t.priority, IndexOf(q, id));
  }

  lemma RemoveAhead(q: seq<Task>, i: nat, pos: nat)
    requires i < pos < |q|
    ensures Weight(RemoveAt(q, i)[..pos - 1], q[pos].priority) ==
      Weight(q[..pos], q[pos].priority) - Turns(q[pos].priority, q[i].priority)
  {
    assert RemoveAt(q, i)[..pos - 1] == RemoveAt(q[..pos], i);
    WeightRemove(q[..pos], i, q[pos].priority);
  }

  lemma RemoveFrom(q: seq<Task>, i: nat, id: nat, pos: nat)
    requires QueueOk(q) && pos < |q| && q[pos].id == id && i < |q| && i != pos
    ensures IndexOf(RemoveAt(q, i), id) == if i < pos then pos - 1 else pos
    ensures RemoveAt(q, i)[if i < pos then pos - 1 else pos] == q[pos]
    ensures Wait(RemoveAt(q, i), id) ==
      Weight(q[..pos], q[pos].priority) - if i < pos then Turns(q[pos].priority, q[i].priority) else 0
  {
    var r := RemoveAt(q, i);
    RemoveKeeps(q, i);
    if i < pos {
      WaitAt(r, id, pos - 1);
      RemoveAhead(q, i, pos);
    } else {
      WaitAt(r, id, pos);
      assert r[..pos] == q[..pos];
    }
  }

  /** Taking out another task shortens the wait by that task's turns if it was ahead. */
  lemma RemoveProgress(q: seq<Task>, i: nat, id: nat)
    requires QueueOk(q) && IndexOf(q, id) < |q| && i < |q| && i != IndexOf(q, id)
    ensures IndexOf(RemoveAt(q, i), id) < |q| - 1
    ensures RemoveAt(q, i)[IndexOf(RemoveAt(q, i), id)] == q[IndexOf(q, id)]
    ensures Wait(RemoveAt(q, i), id) ==
      Wait(q, id) - if i < IndexOf(q, id) then Turns(q[IndexOf(q, id)].priority, q[i].priority) else 0
  {
    RemoveFrom(q, i, id, IndexOf(q, id));
  }

  /** A pop that returns somebody else takes exactly one off the wait. */
  lemma PopProgress(q: seq<Task>, id: nat)
    requires QueueOk(q) && IndexOf(q, id) < |q|
    requires q[IndexOf(q, id)].state != SLEEPING && q[IndexOf(q, id)].priority <= LOWEST
    ensures FirstAwake(q) <= IndexOf(q, id)
    ensures Popped(q).id != id ==>
      && IndexOf(Pop(q), id) < |Pop(q)| && Pop(q)[IndexOf(Pop(q), id)] == q[IndexOf(q, id)]
      && Wait(Pop(q), id) == Wait(q, id) - 1
  {
    var pos, i := IndexOf(q, id), FirstAwake(q);
    if i != pos {
      RemoveProgress(q, i, id);
      RemoveKeeps(q, i);
      InsertProgress(RemoveAt(q, i), Aged(q[i]), id);
      assert Priorities(q)[i] <= Priorities(q)[pos];
    }
  }

  /** The exit of another task never delays T. */
  lemma ExitProgress(q: seq<Task>, other: nat, id: nat)
    requires QueueOk(q) && IndexOf(q, id) < |q| && other != id
    ensures IndexOf(Remove(q, other), id) < |Remove(q, other)|
    ensures Remove(q, other)[IndexOf(Remove(q, other), id)] == q[IndexOf(q, id)]
    ensures Wait(Remove(q, other), id) <= Wait(q, id)
  {
    if IndexOf(q, other) < |q| {
      RemoveProgress(q, IndexOf(q, other), id);
    }
  }

  lemma {:induction false} WeightSame(q: seq<Task>, r: seq<Task>, p: int)
    requires Priorities(q) == Priorities(r)
    ensures Weight(q, p) == Weight(r, p)
  {
    if q != [] {
      forall i | 0 <= i < |q| ensures q[i].priority == r[i].priority {
        assert Priorities(q)[i] == Priorities(r)[i];
      }
      assert Priorities(q[..|q| - 1]) == Priorities(r[..|r| - 1]);
      WeightSame(q[..|q| - 1], r[..|r| - 1], p);
    }
  }

  /** Sleeping and waking of other tasks does not move anybody. */
  lemma StateProgress(q: seq<Task>, other: nat, st: TaskState, id: nat)
    requires QueueOk(q) && IndexOf(q, id) < |q| && other != id
    ensures IndexOf(SetState(q, other, st), id) == IndexOf(q, id)
    ensures SetState(q, other, st)[IndexOf(q, id)] == q[IndexOf(q, id)]
    ensures Wait(SetState(q, other, st), id) == Wait(q, id)
  {
    var pos, r := IndexOf(q, id), SetState(q, other, st);
    SetStateKeeps(q, other, st);
    IndexOfHas(r, id, pos);
    assert Priorities(r[..pos]) == Priorities(q[..pos]);
    WeightSame(q[..pos], r[..pos], q[pos].priority);
  }

  // ---------------------------------------------------------------- pops only

  function Iterate<T>(f: T -> T, x: T, k: nat): T {
    if k == 0 then x else f(Iterate(f, x, k - 1))
  }

  /** Marks a value, and the number of steps before it, at which a proof looks. */
  predicate Seen<T>(x: T, i: nat) { true }

  /** What holds at first and is kept by each step holds after k steps. */
  lemma {:induction false} IterateKeeps<T(!new)>(f: T -> T, x: T, k: nat, P: (T, nat) -> bool)
    requires P(x, 0)
    requires forall y: T, i: nat {:trigger Seen(y, i)} :: Seen(y, i) && P(y, i) ==> P(f(y), i + 1)
    ensures P(Iterate(f, x, k), k)
  {
    if k > 0 {
      IterateKeeps(f, x, k - 1, P);
      assert Seen(Iterate(f, x, k - 1), k - 1);
    }
  }

  /** pop_task on any queue: it stays as it is when everybody sleeps. */
  function PopOrStay(q: seq<Task>): seq<Task> {
    if FirstAwake(q) < |q| then Pop(q) else q
  }

  /** The queue after k pops. */
  function PopN(q: seq<Task>, k: nat): (r: seq<Task>)
    requires FirstAwake(q) < |q|
    ensures |r| == |q| && FirstAwake(r) < |r|
  {
    StaysAwake(q, k);
    Iterate(PopOrStay, q, k)
  }

  lemma StaysAwake(q: seq<Task>, k: nat)
    requires FirstAwake(q) < |q|
    ensures var r := Iterate(PopOrStay, q, k); |r| == |q| && FirstAwake(r) < |r|
  {
    IterateKeeps(PopOrStay, q, k, (r: seq<Task>, i: nat) => |r| == |q| && FirstAwake(r) < |r|);
  }

  /** The task that pop number k (from 0) returns. */
  function Returned(q: seq<Task>, k: nat): Task
    requires FirstAwake(q) < |q|
  {
    Popped(PopN(q, k))
  }

  predicate AwakeUpTo(q: seq<Task>, pos: nat) {
    pos < |q| && forall j :: 0 <= j <= pos ==> q[j].state != SLEEPING
  }

  lemma FirstAwakeIs(q: seq<Task>, i: nat)
    requires i < |q| && q[i].state != SLEEPING && forall j :: 0 <= j < i ==> q[j].state == SLEEPING
    ensures FirstAwake(q) == i
  {
  }

  /** Where member pos of a list goes when member i is replaced by t at slot s of the rest. */
  function NewPlace(i: nat, s: nat, pos: nat): nat
    requires pos != i
  {
    var mid := if i < pos then pos - 1 else pos;
    if s <= mid then mid + 1 else mid
  }

  lemma NewPlaceAt(q: seq<Task>, i: nat, s: nat, t: Task, pos: nat)
    requires i < |q| && pos < |q| && pos != i && s < |q|
    ensures NewPlace(i, s, pos) < |q| && NewPlace(i, s, pos) != s
    ensures InsertAt(RemoveAt(q, i), s, t)[NewPlace(i, s, pos)] == q[pos]
  {
  }

  function PopSlot(q: seq<Task>): (s: nat)
    requires FirstAwake(q) < |q|
    ensures s < |q| && Pop(q) == InsertAt(RemoveAt(q, FirstAwake(q)), s, Aged(q[FirstAwake(q)]))
  {
    Slot(Priorities(RemoveAt(q, FirstAwake(q))), Aged(q[FirstAwake(q)]).priority)
  }

  lemma AwakeMoves(q: seq<Task>, s: nat, t: Task, pos: nat)
    requires AwakeUpTo(q, pos) && pos > 0 && s < |q| && t.state != SLEEPING
    ensures AwakeUpTo(InsertAt(RemoveAt(q, 0), s, t), NewPlace(0, s, pos))
  {
  }

  lemma PopKeepsAwakeAhead(q: seq<Task>, pos: nat) returns (at: nat)
    requires QueueOk(q) && AwakeUpTo(q, pos) && pos > 0
    ensures FirstAwake(q) == 0 && QueueOk(Pop(q)) && AwakeUpTo(Pop(q), at) && Pop(q)[at] == q[pos]
  {
    FirstAwakeIs(q, 0);
    PopKeeps(q);
    var s := PopSlot(q);
    at := NewPlace(0, s, pos);
    NewPlaceAt(q, 0, s, Aged(q[0]), pos);
    AwakeMoves(q, s, Aged(q[0]), pos);
  }

  lemma NobodyAhead(q: seq<Task>, pos: nat)
    requires AwakeUpTo(q, pos)
    ensures Weight(q[..pos], q[pos].priority) == 0 <==> pos == 0
    ensures FirstAwake(q) == 0
  {
    FirstAwakeIs(q, 0);
    if pos > 0 {
      assert Turns(q[pos].priority, q[..pos][pos - 1].priority) > 0;
    }
  }

  /** T is awake at position pos and still has w pops to wait. */
  predicate Waiting(q: seq<Task>, t: Task, pos: nat, w: nat) {
    && QueueOk(q) && AwakeUpTo(q, pos) && q[pos] == t && t.priority <= LOWEST
    && Weight(q[..pos], t.priority) == w
  }

  lemma WaitStep(q: seq<Task>, t: Task, pos: nat, w: nat) returns (at: nat)
    requires Waiting(q, t, pos, w) && w > 0
    ensures FirstAwake(q) < |q| && Waiting(Pop(q), t, at, w - 1)
  {
    WaitAt(q, t.id, pos);
    NobodyAhead(q, pos);
    PopProgress(q, t.id);
    at := PopKeepsAwakeAhead(q, pos);
    WaitAt(Pop(q), t.id, at);
  }

  /** After i pops T still has w - i others to wait for. */
  ghost predicate WaitsFor(q: seq<Task>, t: Task, w: nat, i: nat) {
    i <= w ==> exists at: nat, left: nat :: left == w - i && Waiting(q, t, at, left)
  }

  lemma WaitsStep(q: seq<Task>, t: Task, w: nat, i: nat)
    requires WaitsFor(q, t, w, i)
    ensures WaitsFor(PopOrStay(q), t, w, i + 1)
  {
    if i < w {
      var at: nat, left: nat :| left == w - i && Waiting(q, t, at, left);
      NobodyAhead(q, at);
      var at' := WaitStep(q, t, at, left);
    }
  }

  lemma WaitCountsDown(q: seq<Task>, t: Task, pos: nat, w: nat, k: nat)
    requires Waiting(q, t, pos, w) && k <= w
    ensures FirstAwake(q) < |q| && WaitsFor(PopN(q, k), t, w, k)
  {
    NobodyAhead(q, pos);
    assert WaitsFor(q, t, w, 0);
    forall r: seq<Task>, i: nat | Seen(r, i) && WaitsFor(r, t, w, i) ensures WaitsFor(PopOrStay(r), t, w, i + 1) {
      WaitsStep(r, t, w, i);
    }
    IterateKeeps(PopOrStay, q, k, (r: seq<Task>, i: nat) => WaitsFor(r, t, w, i));
  }

  /** The count is exact: while the tasks ahead stay awake and nothing else happens, T is
      returned by the pop after Wait(q, id) others, and by none before it. */
  lemma WaitIsExact(q: seq<Task>, id: nat, pos: nat, k: nat)
    requires QueueOk(q) && AwakeUpTo(q, pos) && q[pos].id == id && q[pos].priority <= LOWEST
    requires IndexOf(q, id) < |q| && k <= Wait(q, id)
    ensures FirstAwake(q) < |q|
    ensures Returned(q, k).id == id <==> k == Wait(q, id)
  {
    WaitAt(q, id, pos);
    WaitCountsDown(q, q[pos], pos, Wait(q, id), k);
    var at: nat, left: nat :| left == Wait(q, id) - k && Waiting(PopN(q, k), q[pos], at, left);
    NobodyAhead(PopN(q, k), at);
  }

  // ---------------------------------------------------------------- priorities above 256

  /** T has a priority above 256, and somebody awake has a lower priority value. */
  predicate Starving(q: seq<Task>, id: nat, pos: nat, other: nat) {
    && QueueOk(q) && pos < |q| && q[pos].id == id && q[pos].priority > LOWEST
    && other < |q| && q[other].priority < q[pos].priority && q[other].state != SLEEPING
  }

  /** The task that is returned stays below T: it ages only up to 256. */
  lemma StarveStep(q: seq<Task>, id: nat, pos: nat, other: nat) returns (at: nat, s: nat)
    requires Starving(q, id, pos, other)
    ensures FirstAwake(q) < |q| && Popped(q).id != id && Starving(Pop(q), id, at, s)
  {
    var i := FirstAwake(q);
    assert Priorities(q)[i] <= Priorities(q)[other];
    assert q[i].id != q[pos].id;
    PopKeeps(q);
    s := PopSlot(q);
    at := NewPlace(i, s, pos);
    NewPlaceAt(q, i, s, Aged(q[i]), pos);
  }

  ghost predicate Starves(q: seq<Task>, id: nat) {
    exists at: nat, s: nat :: Starving(q, id, at, s)
  }

  lemma StarvesStep(q: seq<Task>, id: nat)
    requires Starves(q, id)
    ensures Starves(PopOrStay(q), id)
  {
    var at: nat, s: nat :| Starving(q, id, at, s);
    var at', s' := StarveStep(q, id, at, s);
  }

  lemma StaysStarving(q: seq<Task>, id: nat, pos: nat, other: nat, k: nat)
    requires Starving(q, id, pos, other)
    ensures FirstAwake(q) < |q| && Starves(PopN(q, k), id)
  {
    var at, s := StarveStep(q, id, pos, other);
    assert Starves(q, id);
    forall r: seq<Task>, i: nat | Seen(r, i) && Starves(r, id) ensures Starves(PopOrStay(r), id) {
      StarvesStep(r, id);
    }
    IterateKeeps(PopOrStay, q, k, (r: seq<Task>, i: nat) => Starves(r, id));
  }

  /** Above priority 256 a task is never returned, however many pops there are, while somebody
      awake has a lower priority value: not even when that one is above 256 itself. */
  lemma StarvesAbove256(q: seq<Task>, id: nat, pos: nat, other: nat, k: nat)
    requires Starving(q, id, pos, other)
    ensures FirstAwake(q) < |q| && Returned(q, k).id != id
  {
    StaysStarving(q, id, pos, other, k);
    var at: nat, s: nat :| Starving(PopN(q, k), id, at, s);
    at, s := StarveStep(PopN(q, k), id, at, s);
  }

  /** The awake tasks of a list. */
  function AwakeCount(q: seq<Task>): nat {
    if q == [] then 0 else AwakeCount(q[..|q| - 1]) + if q[|q| - 1].state != SLEEPING then 1 else 0
  }

  /** T is awake, has a priority above 256 that nobody awake beats, and has n awake tasks ahead. */
  predicate Leading(q: seq<Task>, t: Task, pos: nat, n: nat) {
    && QueueOk(q) && pos < |q| && q[pos] == t && t.state != SLEEPING && t.priority > LOWEST
    && (forall j :: 0 <= j < |q| && q[j].state != SLEEPING ==> q[j].priority >= t.priority)
    && AwakeCount(q[..pos]) == n
  }

  lemma {:induction false} AwakeCountZero(q: seq<Task>)
    ensures AwakeCount(q) == 0 <==> forall j :: 0 <= j < |q| ==> q[j].state == SLEEPING
  {
    if q != [] {
      AwakeCountZero(q[..|q| - 1]);
      assert q == q[..|q| - 1] + [q[|q| - 1]];
    }
  }

  lemma {:induction false} AwakeCountRemove(q: seq<Task>, i: nat)
    requires i < |q| && q[i].state != SLEEPING
    ensures AwakeCount(q) == AwakeCount(RemoveAt(q, i)) + 1
  {
    var n := |q| - 1;
    if i < n {
      AwakeCountRemove(q[..n], i);
      assert RemoveAt(q, i)[..n - 1] == RemoveAt(q[..n], i);
    } else {
      assert RemoveAt(q, i) == q[..n];
    }
  }

  lemma LeadIsFirst(q: seq<Task>, t: Task, pos: nat, n: nat)
    requires Leading(q, t, pos, n)
    ensures FirstAwake(q) <= pos && (FirstAwake(q) == pos <==> n == 0)
    ensures q[FirstAwake(q)].priority == t.priority
  {
    var i := FirstAwake(q);
    assert Priorities(q)[i] <= Priorities(q)[pos];
    AwakeCountZero(q[..pos]);
    if i < pos {
      assert q[..pos][i].state != SLEEPING;
    }
  }

  /** The task in front does not age and goes behind T. */
  lemma LeadSlot(q: seq<Task>, t: Task, pos: nat, n: nat)
    requires Leading(q, t, pos, n) && n > 0
    ensures var i := FirstAwake(q);
      i < pos && Aged(q[i]) == q[i] && PopSlot(q) >= pos && Pop(q)[pos - 1] == t
          && Pop(q)[..pos - 1] == RemoveAt(q[..pos], i)
  {
    LeadIsFirst(q, t, pos, n);
    var i := FirstAwake(q);
    var rest := RemoveAt(q, i);
    RemoveKeeps(q, i);
    assert Priorities(rest)[pos - 1] == t.priority;
    assert Pop(q)[..pos - 1] == RemoveAt(q[..pos], i);
  }

  lemma LeadCount(q: seq<Task>, t: Task, pos: nat, n: nat)
    requires Leading(q, t, pos, n) && n > 0
    ensures FirstAwake(q) < pos && Pop(q)[pos - 1] == t && AwakeCount(Pop(q)[..pos - 1]) == n - 1
  {
    LeadIsFirst(q, t, pos, n);
    LeadSlot(q, t, pos, n);
    assert q[..pos][FirstAwake(q)] == q[FirstAwake(q)];
    AwakeCountRemove(q[..pos], FirstAwake(q));
  }

  lemma StaysUnbeaten(q: seq<Task>, p: int)
    requires FirstAwake(q) < |q| && forall j :: 0 <= j < |q| && q[j].state != SLEEPING ==> q[j].priority >= p
    ensures forall j :: 0 <= j < |q| && Pop(q)[j].state != SLEEPING ==> Pop(q)[j].priority >= p
  {
  }

  lemma LeadStep(q: seq<Task>, t: Task, pos: nat, n: nat)
    requires Leading(q, t, pos, n) && n > 0
    ensures FirstAwake(q) < |q| && pos > 0 && Leading(Pop(q), t, pos - 1, n - 1)
  {
    LeadCount(q, t, pos, n);
    PopKeeps(q);
    StaysUnbeaten(q, t.priority);
  }

  /** After i pops T still leads, with n - i awake tasks ahead. */
  ghost predicate Leads(q: seq<Task>, t: Task, n: nat, i: nat) {
    i <= n ==> exists at: nat, left: nat :: left == n - i && Leading(q, t, at, left)
  }

  lemma LeadsStep(q: seq<Task>, t: Task, n: nat, i: nat)
    requires Leads(q, t, n, i)
    ensures Leads(PopOrStay(q), t, n, i + 1)
  {
    if i < n {
      var at: nat, left: nat :| left == n - i && Leading(q, t, at, left);
      LeadStep(q, t, at, left);
    }
  }

  lemma LeadsFor(q: seq<Task>, t: Task, pos: nat, n: nat, k: nat)
    requires Leading(q, t, pos, n) && k <= n
    ensures FirstAwake(q) < |q| && Leads(PopN(q, k), t, n, k)
  {
    LeadIsFirst(q, t, pos, n);
    assert Leads(q, t, n, 0);
    forall r: seq<Task>, i: nat | Seen(r, i) && Leads(r, t, n, i) ensures Leads(PopOrStay(r), t, n, i + 1) {
      LeadsStep(r, t, n, i);
    }
    IterateKeeps(PopOrStay, q, k, (r: seq<Task>, i: nat) => Leads(r, t, n, i));
  }

  /** A task above 256 that nobody awake beats is returned by the pop after as many others as are
      awake ahead of it, and by none before. */
  lemma LeadIsExact(q: seq<Task>, t: Task, pos: nat, n: nat, k: nat)
    requires Leading(q, t, pos, n) && k <= n
    ensures FirstAwake(q) < |q| && (Returned(q, k).id == t.id <==> k == n)
  {
    LeadsFor(q, t, pos, n, k);
    var at: nat, left: nat :| left == n - k && Leading(PopN(q, k), t, at, left);
    LeadIsFirst(PopN(q, k), t, at, left);
    assert PopN(q, k)[at].id == t.id;
  }

  /** Starvation above 256, exactly: an awake task of priority p is ever returned if and only if no
      awake task has a priority value below p. */
  lemma ReturnedAbove256Iff(q: seq<Task>, pos: nat)
    requires QueueOk(q) && pos < |q| && q[pos].state != SLEEPING && q[pos].priority > LOWEST
    ensures FirstAwake(q) < |q|
    ensures (exists k: nat :: Returned(q, k).id == q[pos].id) <==>
      forall j :: 0 <= j < |q| && q[j].state != SLEEPING ==> q[j].priority >= q[pos].priority
  {
    var t := q[pos];
    if j :| 0 <= j < |q| && q[j].state != SLEEPING && q[j].priority < t.priority {
      StarvesAbove256(q, t.id, pos, j, 0);
      forall k: nat ensures Returned(q, k).id != t.id {
        StarvesAbove256(q, t.id, pos, j, k);
      }
    } else {
      var n := AwakeCount(q[..pos]);
      LeadIsExact(q, t, pos, n, n);
    }
  }

  // ---------------------------------------------------------------- round robin

  predicate AllAwake(q: seq<Task>) {
    forall i :: 0 <= i < |q| ==> q[i].state != SLEEPING && q[i].priority <= LOWEST
  }

  function Deficit(q: seq<Task>): nat
    requires forall i :: 0 <= i < |q| ==> q[i].priority <= LOWEST
  {
    if q == [] then 0 else Deficit(q[..|q| - 1]) + (LOWEST - q[|q| - 1].priority)
  }

  predicate AllLowest(q: seq<Task>) {
    forall i :: 0 <= i < |q| ==> q[i].priority == LOWEST
  }

  lemma {:induction false} DeficitZero(q: seq<Task>)
    requires AllAwake(q)
    ensures Deficit(q) == 0 <==> AllLowest(q)
  {
    if q != [] {
      DeficitZero(q[..|q| - 1]);
      assert q == q[..|q| - 1] + [q[|q| - 1]];
    }
  }

  lemma {:induction false} DeficitRemove(q: seq<Task>, i: nat)
    requires AllAwake(q) && i < |q|
    ensures Deficit(q) == Deficit(RemoveAt(q, i)) + (LOWEST - q[i].priority)
  {
    var n := |q| - 1;
    if i < n {
      DeficitRemove(q[..n], i);
      assert RemoveAt(q, i)[..n - 1] == RemoveAt(q[..n], i);
    } else {
      assert RemoveAt(q, i) == q[..n];
    }
  }

  lemma SomeBelow(q: seq<Task>)
    requires QueueOk(q) && AllAwake(q) && q != []
    ensures Deficit(q) > 0 <==> q[0].priority < LOWEST
  {
    DeficitZero(q);
    forall i | 0 <= i < |q| ensures q[0].priority <= q[i].priority {
      assert Priorities(q)[0] <= Priorities(q)[i];
    }
  }

  lemma DeficitInsert(q: seq<Task>, s: nat, t: Task)
    requires AllAwake(q) && s <= |q| && t.state != SLEEPING && t.priority <= LOWEST
    ensures AllAwake(InsertAt(q, s, t)) && Deficit(InsertAt(q, s, t)) == Deficit(q) + (LOWEST - t.priority)
  {
    DeficitRemove(InsertAt(q, s, t), s);
    RemoveInserted(q, s, t);
  }

  /** Each pop takes exactly one off the sum of the distances to 256, until it is zero. */
  lemma PopDeficit(q: seq<Task>)
    requires QueueOk(q) && AllAwake(q) && q != []
    ensures FirstAwake(q) == 0 && AllAwake(Pop(q)) && QueueOk(Pop(q))
    ensures Deficit(Pop(q)) == if Deficit(q) > 0 then Deficit(q) - 1 else 0
  {
    FirstAwakeIs(q, 0);
    PopKeeps(q);
    SomeBelow(q);
    DeficitRemove(q, 0);
    var rest, t := RemoveAt(q, 0), Aged(q[0]);
    DeficitInsert(rest, Slot(Priorities(rest), t.priority), t);
  }

  /** q is an awake queue with deficit d. */
  predicate Short(q: seq<Task>, d: nat) {
    QueueOk(q) && AllAwake(q) && q != [] && Deficit(q) == d
  }

  lemma ShortStep(q: seq<Task>, d: nat)
    requires Short(q, d)
    ensures FirstAwake(q) < |q| && Short(Pop(q), Less(d, 1))
  {
    PopDeficit(q);
  }

  function Less(d: nat, k: nat): nat { if k <= d then d - k else 0 }

  lemma ShortSteps(q: seq<Task>, d: nat, i: nat)
    requires Short(q, Less(d, i))
    ensures Short(PopOrStay(q), Less(d, i + 1))
  {
    ShortStep(q, Less(d, i));
    assert Less(Less(d, i), 1) == Less(d, i + 1);
  }

  lemma DeficitAfter(q: seq<Task>, d: nat, k: nat)
    requires Short(q, d)
    ensures FirstAwake(q) < |q| && Short(PopN(q, k), Less(d, k))
  {
    ShortStep(q, d);
    forall r: seq<Task>, i: nat | Seen(r, i) && Short(r, Less(d, i)) ensures Short(PopOrStay(r), Less(d, i + 1)) {
      ShortSteps(r, d, i);
    }
    assert Less(d, 0) == d;
    IterateKeeps(PopOrStay, q, k, (r: seq<Task>, i: nat) => Short(r, Less(d, i)));
  }

  /** Exactly Deficit(q) pops bring every task to priority 256: not fewer, and more change
      nothing. */
  lemma ConvergesExactly(q: seq<Task>, k: nat)
    requires QueueOk(q) && AllAwake(q) && q != []
    ensures FirstAwake(q) < |q| && AllAwake(PopN(q, k)) && QueueOk(PopN(q, k))
    ensures AllLowest(PopN(q, k)) <==> Deficit(q) <= k
  {
    DeficitAfter(q, Deficit(q), k);
    DeficitZero(PopN(q, k));
  }

  lemma SlotAtEnd(keys: seq<int>, k: int)
    requires forall i :: 0 <= i < |keys| ==> keys[i] <= k
    ensures Slot(keys, k) == |keys|
  {
  }

  lemma RotationStep(q: seq<Task>, k: nat)
    requires k < |q|
    ensures var r := q[k..] + q[..k]; r[1..] + [r[0]] == q[k + 1..] + q[..k + 1]
  {
    var r := q[k..] + q[..k];
    assert r[1..] == q[k + 1..] + q[..k];
    assert q[..k + 1] == q[..k] + [q[k]];
  }

  lemma PopRotates(q: seq<Task>)
    requires QueueOk(q) && AllAwake(q) && AllLowest(q) && q != []
    ensures FirstAwake(q) == 0 && Pop(q) == q[1..] + [q[0]] && Popped(q) == q[0]
  {
    FirstAwakeIs(q, 0);
    var rest := RemoveAt(q, 0);
    assert rest == q[1..];
    assert Aged(q[0]) == q[0];
    SlotAtEnd(Priorities(rest), LOWEST);
  }

  /** n awake tasks, all of them aged as far as they go. */
  predicate Level(q: seq<Task>) {
    QueueOk(q) && AllAwake(q) && AllLowest(q) && q != []
  }

  lemma RotateStep(q: seq<Task>)
    requires Level(q)
    ensures FirstAwake(q) == 0 && Level(Pop(q))
  {
    PopRotates(q);
    PopKeeps(q);
  }

  lemma RotateFurther(q: seq<Task>, r: seq<Task>, k: nat)
    requires k < |q| && r == q[k..] + q[..k] && Level(r)
    ensures FirstAwake(r) == 0 && Pop(r) == q[k + 1..] + q[..k + 1] && Popped(r) == q[k]
  {
    PopRotates(r);
    RotationStep(q, k);
  }

  predicate Rotated(q: seq<Task>, r: seq<Task>, i: nat) {
    Level(r) && (i <= |q| ==> r == q[i..] + q[..i])
  }

  lemma RotatedStep(q: seq<Task>, r: seq<Task>, i: nat)
    requires Rotated(q, r, i)
    ensures Rotated(q, PopOrStay(r), i + 1)
  {
    RotateStep(r);
    if i < |q| {
      RotateFurther(q, r, i);
    }
  }

  lemma PopNRotates(q: seq<Task>, k: nat)
    requires Level(q)
    ensures FirstAwake(q) < |q| && Rotated(q, PopN(q, k), k)
  {
    RotateStep(q);
    forall r: seq<Task>, i: nat | Seen(r, i) && Rotated(q, r, i) ensures Rotated(q, PopOrStay(r), i + 1) {
      RotatedStep(q, r, i);
    }
    assert q[0..] + q[..0] == q;
    IterateKeeps(PopOrStay, q, k, (r: seq<Task>, i: nat) => Rotated(q, r, i));
  }

  /** From then on the queue rotates: the next n pops return every task once, in queue order,
      and leave the queue as it was. */
  lemma RoundRobin(q: seq<Task>)
    requires Level(q)
    ensures FirstAwake(q) < |q| && PopN(q, |q|) == q
    ensures forall k :: 0 <= k < |q| ==> Returned(q, k) == q[k]
  {
    assert q[|q|..] + q[..|q|] == q;
    PopNRotates(q, |q|);
    forall k | 0 <= k < |q| ensures Returned(q, k) == q[k] {
      PopNRotates(q, k);
      RotateFurther(q, PopN(q, k), k);
    }
  }
}
