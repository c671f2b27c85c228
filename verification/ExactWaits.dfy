/** The wait for the hart, exactly: over runs of the machine, and for priorities above 256. */
module ExactWaits {
  import opened Flags
  import opened SortedLists
  import opened RunQueue
  import opened Fairness
  import opened Machine
  import opened MachineInv
  import opened MachineFairness

  /** Nobody ahead of T is asleep, the event takes nobody ahead of T away, and it files nobody
      ahead of T.  Behind T anything may happen. */
  predicate Undisturbed(s: State, e: Event, t: Task) {
    && (forall j :: 0 <= j < IndexOf(s.queue, t.id) && j < |s.queue| ==> s.queue[j].state != SLEEPING)
    && (e.Exit? && s.cur.Cur? ==> IndexOf(s.queue, s.cur.id) > IndexOf(s.queue, t.id))
    && (e.CreateTask? ==> e.priority >= t.priority)
  }

  /** schedule switches to T if and only if its wait is over. */
  lemma SwitchesWhenOver(s: State, t: Task)
    requires Inv(s) && Waits(s, t) && Undisturbed(s, SoftInt, t)
    ensures Schedule(s).running == User(t.id) <==> Wait(s.queue, t.id) == 0
  {
    var pos := IndexOf(s.queue, t.id);
    NobodyAhead(s.queue, pos);
    assert pos > 0 ==> s.queue[0].id != s.queue[pos].id;
  }

  /** Every other event leaves the wait as it is. */
  lemma OtherKeepsWait(s: State, e: Event, t: Task)
    requires Inv(s) && Enabled(s, e) && e != SoftInt && e != Tick && Waits(s, t) && Undisturbed(s, e, t)
    ensures Waits(Step(s, e), t) && Wait(Step(s, e).queue, t.id) == Wait(s.queue, t.id)
  {
    match e
    case Sleep(n) =>
      SleepIs(s, n);
      StateProgress(s.queue, s.cur.id, SLEEPING, t.id);
    case Exit =>
      if IndexOf(s.queue, s.cur.id) < |s.queue| {
        RemoveProgress(s.queue, IndexOf(s.queue, s.cur.id), t.id);
      }
    case CreateTask(p, slice) =>
      if |s.queue| < MAX_TASK_NUM {
        InsertProgress(s.queue, Task(s.nextId, p, RUNNING, slice), t.id);
      }
    case CreateTimer(f, n) => CreateTimerIs(s, f, n);
    case _ =>
  }

  lemma WaitStepExact(ss: seq<State>, es: seq<Event>, t: Task, k: nat)
    requires IsRun(ss, es) && k < |es| && Inv(ss[k]) && Waits(ss[k], t) && ss[k + 1].running != User(t.id)
    requires Undisturbed(ss[k], es[k], t)
    ensures Waits(ss[k + 1], t)
    ensures Wait(ss[k + 1].queue, t.id) + Bonus(es[k]) == Wait(ss[k].queue, t.id)
  {
    RunStep(ss, es, k);
    match es[k]
    case SoftInt => SoftIntProgress(ss[k], t);
    case Tick => TickProgress(ss[k], t);
    case e => OtherKeepsWait(ss[k], e, t);
  }

  lemma {:induction false} WaitShrinks(ss: seq<State>, es: seq<Event>, t: Task, i: nat, k: nat)
    requires IsRun(ss, es) && Inv(ss[0]) && i <= k < |ss| && Waits(ss[i], t)
    requires forall j :: i < j <= k ==> ss[j].running != User(t.id)
    requires forall j :: i <= j < k ==> Undisturbed(ss[j], es[j], t)
    ensures Waits(ss[k], t) && Wait(ss[k].queue, t.id) + SoftInts(es, i, k) == Wait(ss[i].queue, t.id)
    decreases k - i
  {
    if i < k {
      RunKeeps(ss, es, k - 1);
      WaitShrinks(ss, es, t, i, k - 1);
      WaitStepExact(ss, es, t, k - 1);
    }
  }

  /** The wait is exact in runs of the whole machine: while those ahead of T stay awake, none of
      them exits and nobody is created ahead of T, a software interrupt switches to T if and
      only if exactly Wait others have passed it over, whatever sleeps, wakes, exits or is
      created behind it and whatever the timers do. */
  lemma WaitIsExactInRuns(ss: seq<State>, es: seq<Event>, t: Task, i: nat, k: nat)
    requires IsRun(ss, es) && Inv(ss[0]) && i <= k < |es| && Waits(ss[i], t) && es[k] == SoftInt
    requires forall j :: i < j <= k ==> ss[j].running != User(t.id)
    requires forall j :: i <= j <= k ==> Undisturbed(ss[j], es[j], t)
    ensures ss[k + 1].running == User(t.id) <==> SoftInts(es, i, k) == Wait(ss[i].queue, t.id)
  {
    WaitShrinks(ss, es, t, i, k);
    RunKeeps(ss, es, k);
    RunStep(ss, es, k);
    SwitchesWhenOver(ss[k], t);
  }

  // ---------------------------------------------------------------- above 256

  /** Two tasks of priorities 300 and 301, created from the kernel. */
  function TwoAbove(): State {
    Step(Step(Boot(), CreateTask(300, 1)), CreateTask(301, 1))
  }

  /** The second is awake and never returned, though the first is above 256 as well. */
  lemma SecondStarves(k: nat)
    ensures TwoAbove().queue == [Task(1, 300, RUNNING, 1), Task(2, 301, RUNNING, 1)]
    ensures FirstAwake(TwoAbove().queue) < 2 && Returned(TwoAbove().queue, k).id != 2
  {
    var q := TwoAbove().queue;
    SlotIs([], 300, 0);
    SlotIs([300], 301, 1);
    assert Priorities([Task(1, 300, RUNNING, 1)]) == [300];
    assert q == [Task(1, 300, RUNNING, 1), Task(2, 301, RUNNING, 1)];
    StarvesAbove256(q, 2, 1, 0, k);
  }
}
