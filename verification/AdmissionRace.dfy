/** A run in which a task created while the service shuts down starts ahead of one that waits. */
module AdmissionRace {
  import opened Sequences
  import opened Lifecycle
  import opened Admission
  import opened AdmissionTheorems

  const ONE_SLOT := Limits(1, 2, 100)

  function Asking(id: TaskId): Request {
    Request(id, None, None, id, true, 0)
  }

  /** Task 1 runs, 2 and 3 wait; 1 fails, its release cannot start 2 and so leaves the slot idle; then the
      event is set while task 4 is being created. */
  const RACE: seq<Step> := [
    Create(Asking(1), 0, {}, false), Create(Asking(2), 0, {}, false), Create(Asking(3), 0, {}, false),
    WorkerDone(1, true), WorkerRelease(1, 0, {2}), Create(Asking(4), 0, {}, true)]

  lemma {:induction false} NoneOverdue(handles: map<TaskId, Handle>, q: seq<TaskId>, now: int, timeout: int)
    requires Known(handles, q) && forall id :: id in q ==> !Overdue(handles[id], now, timeout)
    ensures Select(handles, q, now, timeout, true) == [] && Select(handles, q, now, timeout, false) == q
  {
    hide Overdue;
    if q != [] {
      var init, last := q[..|q| - 1], q[|q| - 1];
      KnownPart(handles, q);
      assert last in q && q == init + [last];
      assert !Overdue(handles[last], now, timeout);
      NoneOverdue(handles, init, now, timeout);
    }
  }

  lemma NothingExpires(s: State, lim: Limits, now: int)
    requires QueueKnown(s) && forall id :: id in s.queue ==> !Overdue(s.handles[id], now, lim.timeout)
    ensures Expire(s, lim, now) == s
  {
    NoneOverdue(s.handles, s.queue, now, lim.timeout);
    assert Cancel(s.handles, []) == s.handles;
  }

  // -------------------------------------------------------- the states of the run

  ghost function Started(): State { LaunchNew(INITIAL, Asking(1)) }

  ghost function Filled(): State { Enqueue(Enqueue(Started(), Asking(2)), Asking(3)) }

  ghost function Ended(): State { TargetDone(Filled(), 1, true) }

  ghost function Freed(): State { GiveSlotBack(Ended(), 1) }

  ghost function Idle(): State
    requires 2 in Freed().handles
  {
    FailHead(Freed())
  }

  lemma ThreeCreated()
    ensures QueueKnown(INITIAL) && Apply(INITIAL, ONE_SLOT, RACE[0]) == Started()
    ensures QueueKnown(Started()) && QueueKnown(Enqueue(Started(), Asking(2)))
    ensures Apply(Started(), ONE_SLOT, RACE[1]) == Enqueue(Started(), Asking(2))
    ensures Apply(Enqueue(Started(), Asking(2)), ONE_SLOT, RACE[2]) == Filled()
  {
    NothingExpires(INITIAL, ONE_SLOT, 0);
    NothingExpires(Started(), ONE_SLOT, 0);
    NothingExpires(Enqueue(Started(), Asking(2)), ONE_SLOT, 0);
  }

  lemma FreedIs()
    ensures var s := Filled();
      s.handles.Keys == {1, 2, 3} && s.queue == [2, 3] && s.handles[1].worker == Working
    ensures Ended().handles.Keys == {1, 2, 3} && Ended().queue == [2, 3] && Ended().handles[1].worker == Returned
    ensures var s := Freed();
      s.handles.Keys == {1, 2, 3} && s.queue == [2, 3] && s.active == {} && !s.shutdown &&
      s.handles[2].queuedAt == Some(0) && s.handles[3].queuedAt == Some(0)
  {
  }

  lemma SlotStaysIdle()
    ensures QueueKnown(Filled()) && Apply(Filled(), ONE_SLOT, RACE[3]) == Ended()
    ensures QueueKnown(Ended()) && 2 in Freed().handles && Apply(Ended(), ONE_SLOT, RACE[4]) == Idle()
  {
    FreedIs();
    assert Apply(Filled(), ONE_SLOT, RACE[3]) == Ended();
    hide Filled, Ended, Apply, TargetDone;
    var s := Freed();
    assert QueueKnown(s);
    NothingExpires(s, ONE_SLOT, 0);
    assert Dispatch(s, ONE_SLOT, 0, {2}) == (FailHead(s), false);
    ReleaseOfFirst();
  }

  lemma ReleaseOfFirst()
    requires QueueKnown(Ended()) && 1 in Ended().handles && Ended().handles[1].worker == Returned
    requires QueueKnown(Freed())
    ensures Apply(Ended(), ONE_SLOT, RACE[4]) == Dispatch(Freed(), ONE_SLOT, 0, {2}).0
  {
    hide Ended, Dispatch, GiveSlotBack;
  }

  lemma IdleIs()
    ensures 2 in Freed().handles
    ensures var s := Idle();
      s.handles.Keys == {1, 2, 3} && (forall id :: id in s.handles ==> s.handles[id].agent == id) &&
      s.active == {} && s.queue == [3] && !s.shutdown && s.created == [1, 2, 3] && s.launched == [1]
  {
    assert Filled().handles.Keys == {1, 2, 3};
    assert Freed().handles.Keys == {1, 2, 3};
  }

  lemma FourthStarts()
    ensures 2 in Freed().handles && QueueKnown(Idle())
    ensures var s := Apply(Idle(), ONE_SLOT, RACE[5]);
      s.created == [1, 2, 3, 4] && s.launched == [1, 4] && s.queue == [3]
  {
    IdleIs();
    hide Idle, Freed;
    assert FreshRequest(Idle(), Asking(4));
  }

  lemma RunOne(s: State, k: nat)
    requires Inv(s, ONE_SLOT) && k < |RACE|
    ensures Inv(Apply(s, ONE_SLOT, RACE[k]), ONE_SLOT)
    ensures Run(s, ONE_SLOT, RACE[k..]) == Run(Apply(s, ONE_SLOT, RACE[k]), ONE_SLOT, RACE[k + 1..])
  {
    StepKeepsInv(s, ONE_SLOT, RACE[k]);
    hide Inv, Apply;
    assert RACE[k..][0] == RACE[k] && RACE[k..][1..] == RACE[k + 1..];
  }

  /** Task 4 was created after task 3 and has started, while task 3 still waits. */
  lemma RacedStartOvertakes()
    ensures var s := Reached(ONE_SLOT, RACE);
      s.created == [1, 2, 3, 4] && s.launched == [1, 4] && s.queue == [3]
    ensures !WaitOrder(Reached(ONE_SLOT, RACE))
  {
    InitialInv(ONE_SLOT);
    ThreeCreated();
    SlotStaysIdle();
    FourthStarts();
    hide Inv, Apply, Started, Filled, Ended, Freed, Idle, QueueKnown, WaitOrder;
    RunOne(INITIAL, 0);
    RunOne(Started(), 1);
    RunOne(Enqueue(Started(), Asking(2)), 2);
    RunOne(Filled(), 3);
    RunOne(Ended(), 4);
    RunOne(Idle(), 5);
    assert RACE[0..] == RACE && RACE[6..] == [];
    OutOfOrder(Reached(ONE_SLOT, RACE));
  }

  lemma OutOfOrder(s: State)
    requires s.created == [1, 2, 3, 4] && s.launched == [1, 4] && s.queue == [3]
    ensures !WaitOrder(s)
  {
    IndexOfUnique(s.created, 2);
    IndexOfUnique(s.created, 3);
    assert s.launched + s.queue == [1, 4, 3];
    if WaitOrder(s) { SubsequenceOrder(s.launched + s.queue, s.created, 1, 2); }
  }
}
