/** What each step other than a creation or a dispatch does to the service, field by field. */
module AdmissionSteps {
  import opened Sequences
  import opened Lifecycle
  import opened Admission
  import opened AdmissionTheorems

  predicate Ended(st: TaskState) {
    st in {COMPLETED, FAILED, CANCELLED}
  }

  /** Waiting line, shutdown event and histories are the same. */
  ghost predicate SameLists(s: State, t: State) {
    t.shutdown == s.shutdown && t.queue == s.queue && t.created == s.created && t.launched == s.launched &&
    t.dropped == s.dropped
  }

  /** The handle of `id` is now `h`, and every other handle is as it was. */
  ghost predicate Became(s: State, t: State, id: TaskId, h: Handle) {
    id in s.handles && t.handles.Keys == s.handles.Keys && t.handles[id] == h &&
    forall other :: other in s.handles && other != id ==> t.handles[other] == s.handles[other]
  }

  /** A running worker moves its task along any edge of the transition table but back to the start, and that is all. */
  lemma ProgressMeaning(s: State, lim: Limits, id: TaskId, to: TaskState)
    requires QueueKnown(s)
    ensures var t := Apply(s, lim, WorkerProgress(id, to));
      var moves := id in s.handles && s.handles[id].worker.Working? && Allowed(s.handles[id].state, to) &&
                   to !in {CREATED, QUEUED};
      (moves ==> Became(s, t, id, s.handles[id].(state := to)) && SameLists(s, t) && t.active == s.active) &&
      (!moves ==> t == s)
  {
  }

  /** When its target ends, a task that has not ended has failed if the target raised, and an ended task is cleaned
      before its worker takes the lock again; the slot is kept. */
  lemma DoneMeaning(s: State, lim: Limits, id: TaskId, raised: bool)
    requires QueueKnown(s) && id in s.handles && s.handles[id].worker.Working?
    ensures var t := Apply(s, lim, WorkerDone(id, raised));
      var h := s.handles[id];
      var end := if raised && !Ended(h.state) then FAILED else h.state;
      Became(s, t, id, Handle(end, h.schedule, h.agent, h.queuedAt, Returned, h.cleaned || Ended(end))) &&
      SameLists(s, t) && t.active == s.active
  {
  }

  /** The last lock section of a worker: an ended task gives its slot back, an unfinished one keeps it, and then there
      is a dispatch. */
  lemma ReleaseMeaning(s: State, lim: Limits, id: TaskId, now: int, fails: set<TaskId>) returns (mid: State)
    requires QueueKnown(s) && id in s.handles && s.handles[id].worker.Returned?
    ensures Became(s, mid, id, s.handles[id].(worker := Released)) && SameLists(s, mid)
    ensures mid.active == if Ended(s.handles[id].state) then s.active - {id} else s.active
    ensures QueueKnown(mid) && Apply(s, lim, WorkerRelease(id, now, fails)) == Dispatch(mid, lim, now, fails).0
  {
    hide Dispatch;
    mid := GiveSlotBack(s, id);
  }

  lemma ExitMeaning(s: State, lim: Limits, id: TaskId)
    requires QueueKnown(s) && id in s.handles && s.handles[id].worker.Released?
    ensures var t := Apply(s, lim, WorkerExit(id));
      Became(s, t, id, s.handles[id].(worker := Exited)) && SameLists(s, t) && t.active == s.active
  {
  }

  /** A waiting task that the user cancels leaves the line at its place, and no other task moves. */
  lemma CancelMeaning(s: State, lim: Limits, id: TaskId) returns (i: nat)
    requires Inv(s, lim) && QueueKnown(s) && id in s.handles && s.handles[id].state.QUEUED?
    ensures var t := Apply(s, lim, UserCancelQueued(id));
      i < |s.queue| && s.queue[i] == id && t.queue == s.queue[..i] + s.queue[i + 1..] &&
      Became(s, t, id, s.handles[id].(state := CANCELLED)) && t.active == s.active && t.shutdown == s.shutdown &&
      t.created == s.created && t.launched == s.launched && t.dropped == s.dropped + [id]
  {
    hide Remove, NoDup;
    assert id in s.queue;
    i := RemovedPlace(s.queue, id);
  }

  lemma {:induction false} RemovedPlace(q: seq<TaskId>, id: TaskId) returns (i: nat)
    requires id in q
    ensures i < |q| && q[i] == id && Remove(q, id) == q[..i] + q[i + 1..]
  {
    i := 0;
    if q[0] != id {
      var j := RemovedPlace(q[1..], id);
      i := j + 1;
      assert q[1..][..j] == q[1..i] && q[1..][j + 1..] == q[i + 1..];
    }
  }

  /** Exactly a task that has ended and whose thread is gone is deleted, and only it. */
  lemma DeleteMeaning(s: State, lim: Limits, id: TaskId)
    requires QueueKnown(s)
    ensures var t := Apply(s, lim, UserDelete(id));
      var goes := id in s.handles && Ended(s.handles[id].state) && s.handles[id].worker in {NoThread, Exited};
      (goes ==> SameLists(s, t) && t.active == s.active - {id} && t.handles.Keys == s.handles.Keys - {id} &&
                forall other :: other in t.handles ==> t.handles[other] == s.handles[other]) &&
      (!goes ==> t == s)
  {
  }

  lemma StopMeaning(s: State, lim: Limits, id: TaskId)
    requires QueueKnown(s)
    ensures var t := Apply(s, lim, UserStop(id));
      var stops := id in s.handles && s.handles[id].state.RUNNING?;
      (stops ==> Became(s, t, id, s.handles[id].(state := PAUSING)) && SameLists(s, t) && t.active == s.active) &&
      (!stops ==> t == s)
  {
  }

  /** A paused task whose thread is gone gets a new one, in the slot it kept; if the thread cannot start it is gone. */
  lemma ResumeMeaning(s: State, lim: Limits, id: TaskId, canStart: bool)
    requires QueueKnown(s)
    ensures var t := Apply(s, lim, UserResume(id, canStart));
      var resumes := id in s.handles && s.handles[id].state.PAUSED? && s.handles[id].worker in {NoThread, Exited};
      (resumes ==> Became(s, t, id, s.handles[id].(worker := if canStart then Working else Exited)) &&
                   SameLists(s, t) && t.active == s.active) &&
      (!resumes ==> t == s)
  {
  }

  /** Setting the shutdown event changes nothing else. */
  lemma BeginMeaning(s: State, lim: Limits)
    requires QueueKnown(s)
    ensures var t := Apply(s, lim, ShutdownBegin);
      t.shutdown && t.handles == s.handles && t.active == s.active && t.queue == s.queue && t.created == s.created &&
      t.launched == s.launched && t.dropped == s.dropped
  {
  }

  /** The first section of the shutdown cancels exactly the waiting tasks. */
  lemma DrainMeaning(s: State, lim: Limits)
    requires QueueKnown(s) && s.shutdown
    ensures var t := Apply(s, lim, ShutdownDrain);
      t.queue == [] && t.dropped == s.dropped + s.queue && t.active == s.active && t.shutdown &&
      t.created == s.created && t.launched == s.launched && t.handles.Keys == s.handles.Keys &&
      (forall id :: id in s.queue ==> t.handles[id] == s.handles[id].(state := CANCELLED)) &&
      (forall id :: id in s.handles && id !in s.queue ==> t.handles[id] == s.handles[id])
  {
  }

  /** The last section cancels and cleans exactly the unfinished tasks that have a coordinator and no thread, and
      takes their slots; nobody else's handle or slot is touched. */
  lemma SweepMeaning(s: State, lim: Limits, built: set<TaskId>)
    requires QueueKnown(s) && s.shutdown && s.queue == []
    ensures var t := Apply(s, lim, ShutdownSweep(built));
      SameLists(s, t) && t.handles.Keys == s.handles.Keys &&
      forall id ::
        (id in s.handles && SweptOut(s.handles[id], id, built) ==>
          t.handles[id] == s.handles[id].(state := CANCELLED, cleaned := true) && id !in t.active) &&
        (id in s.handles && !SweptOut(s.handles[id], id, built) ==>
          t.handles[id] == s.handles[id] && (id in t.active <==> id in s.active)) &&
        (id !in s.handles ==> (id in t.active <==> id in s.active))
  {
  }

  ghost predicate SweptOut(h: Handle, id: TaskId, built: set<TaskId>) {
    id in built && !Ended(h.state) && h.worker in {NoThread, Exited}
  }

  /** A step that does not fit what it meets does nothing: a worker in another phase, a task that does not wait, a
      section of the shutdown before the event is set. */
  lemma RefusedSteps(s: State, lim: Limits, id: TaskId, raised: bool, now: int, fails: set<TaskId>, built: set<TaskId>)
    requires QueueKnown(s)
    ensures !(id in s.handles && s.handles[id].worker.Working?) ==> Apply(s, lim, WorkerDone(id, raised)) == s
    ensures !(id in s.handles && s.handles[id].worker.Returned?) ==> Apply(s, lim, WorkerRelease(id, now, fails)) == s
    ensures !(id in s.handles && s.handles[id].worker.Released?) ==> Apply(s, lim, WorkerExit(id)) == s
    ensures !(id in s.handles && s.handles[id].state.QUEUED?) ==> Apply(s, lim, UserCancelQueued(id)) == s
    ensures !s.shutdown ==> Apply(s, lim, ShutdownDrain) == s && Apply(s, lim, ShutdownSweep(built)) == s
  {
    hide Dispatch;
  }
}
