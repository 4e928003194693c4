/** The lock sections of `TaskService` as methods on its fields, each proved to take
    exactly the step that module Admission specifies and to keep the invariant. */
module AdmissionService {
  import opened Sequences
  import opened Lifecycle
  import opened Admission
  import opened AdmissionTheorems

  class TaskService {
    const limits: Limits
    var handles: map<TaskId, Handle>
    var activeIds: set<TaskId>
    var queue: seq<TaskId>
    var shutdownEvent: bool
    ghost var created: seq<TaskId>
    ghost var launched: seq<TaskId>
    ghost var dropped: seq<TaskId>

    ghost function View(): State
      reads this
    {
      State(handles, activeIds, queue, shutdownEvent, created, launched, dropped)
    }

    ghost predicate Valid()
      reads this
    {
      Inv(View(), limits)
    }

    constructor (limits: Limits)
      ensures Valid() && this.limits == limits && View() == INITIAL
    {
      this.limits := limits;
      handles, activeIds, queue, shutdownEvent := map[], {}, [], false;
      created, launched, dropped := [], [], [];
      new;
      InitialInv(limits);
    }

    /** `_launch_locked` for a task that is registered and not waiting any more. */
    method LaunchLocked(id: TaskId, canStart: bool) returns (ok: bool)
      requires id in handles
      modifies this
      ensures ok == canStart
      ensures queue == old(queue) && shutdownEvent == old(shutdownEvent) && created == old(created)
      ensures ok ==> handles == old(handles)[id := Start(old(handles)[id])] &&
                     activeIds == old(activeIds) + {id} && launched == old(launched) + [id] && dropped == old(dropped)
      ensures !ok ==> handles == old(handles)[id := old(handles)[id].(state := FAILED)] &&
                      activeIds == old(activeIds) - {id} && launched == old(launched) && dropped == old(dropped) + [id]
    {
      var h := handles[id];
      if h.state == QUEUED {
        handles := handles[id := h.(state := CREATED)];
      }
      activeIds := activeIds + {id};
      if canStart {
        handles := handles[id := handles[id].(worker := Working)];
        launched := launched + [id];
        ok := true;
      } else {
        activeIds := activeIds - {id};
        handles := handles[id := handles[id].(state := FAILED)];
        dropped := dropped + [id];
        ok := false;
      }
    }

    /** The expiry loop of `_dispatch_locked`. */
    method ExpireLocked(now: int)
      requires NoDup(queue) && QueueKnown(View())
      modifies this
      ensures View() == Expire(old(View()), limits, now)
    {
      hide NoDup, Remove, Known, Select, Cancel;
      var snapshot := queue;
      KnownPrefix(handles, snapshot, 0);
      NothingYet(handles, now, limits.timeout);
      assert snapshot[..0] == [];
      ghost var start := handles;
      ghost var kept: seq<TaskId>, late: seq<TaskId> := [], [];
      var i := 0;
      ghost var rest := snapshot;
      assert kept + rest == snapshot;
      while i < |snapshot|
        invariant 0 <= i <= |snapshot| && Known(start, snapshot[..i])
        invariant shutdownEvent == old(shutdownEvent) && activeIds == old(activeIds)
        invariant created == old(created) && launched == old(launched)
        invariant kept == Select(start, snapshot[..i], now, limits.timeout, false)
        invariant late == Select(start, snapshot[..i], now, limits.timeout, true)
        invariant rest == snapshot[i..] && queue == kept + rest
        invariant handles == Cancel(start, late)
        invariant dropped == old(dropped) + late
      {
        var id := snapshot[i];
        ExpireNext(start, snapshot, i, now, limits.timeout, kept, late);
        var h := handles[id];
        if h.queuedAt.Some? && now - h.queuedAt.value >= limits.timeout {
          CancelNext(start, late, id);
          queue := Remove(queue, id);
          handles := handles[id := h.(state := CANCELLED)];
          dropped := dropped + [id];
          late := late + [id];
        } else {
          kept := kept + [id];
        }
        rest := snapshot[i + 1..];
        i := i + 1;
      }
      assert snapshot[..i] == snapshot;
      assert queue == kept;
    }

    /** The launch loop of `_dispatch_locked`. */
    method AdmitLocked(fails: set<TaskId>) returns (ok: bool)
      requires Valid() && !shutdownEvent
      modifies this
      ensures (View(), ok) == Admit(old(View()), limits, fails) && Valid()
    {
      hide Inv, Known;
      ghost var start := View();
      AdmitKeepsInv(start, limits, fails);
      InvKnown(start, limits);
      while queue != [] && |activeIds| < limits.maxActive
        invariant Valid() && !shutdownEvent && QueueKnown(View())
        invariant Admit(View(), limits, fails) == Admit(start, limits, fails)
        decreases |queue|
      {
        ghost var before := View();
        HeadStep(before, limits, fails);
        InvKnown(if queue[0] in fails then FailHead(before) else LaunchHead(before), limits);
        var id := queue[0];
        queue := queue[1..];
        var h := handles[id];
        if !Terminal(h.state) {
          var started := LaunchLocked(id, id !in fails);
          if !started {
            assert View() == FailHead(before);
            return false;
          }
          assert View() == LaunchHead(before);
        }
      }
      return true;
    }

    method DispatchLocked(now: int, fails: set<TaskId>) returns (ok: bool)
      requires Valid()
      modifies this
      ensures (View(), ok) == Dispatch(old(View()), limits, now, fails) && Valid()
    {
      if shutdownEvent {
        return true;
      }
      ExpireKeepsInv(View(), limits, now);
      ExpireLocked(now);
      ok := AdmitLocked(fails);
    }

    /** `raced` says that another thread sets the shutdown event right after the first test of it. */
    method CreateTask(req: Request, now: int, fails: set<TaskId>, raced: bool) returns (reply: Reply)
      requires Valid() && FreshRequest(View(), req)
      modifies this
      ensures (View(), reply) == Admission.CreateTask(old(View()), limits, req, now, fails, raced) && Valid()
    {
      hide Inv, Dispatch, Register;
      CreateKeepsInv(View(), limits, req, now, fails, raced);
      if shutdownEvent {
        return BusyShutdown;
      }
      if raced {
        BeginKeepsInv(View(), limits);
        shutdownEvent := true;
      }
      InvKnown(View(), limits);
      DispatchAtShutdown(View(), limits, now, fails);
      DispatchFrame(View(), limits, now, fails);
      var ok := DispatchLocked(now, fails);
      if !ok {
        return StartFailed;
      }
      reply := RegisterLocked(req, fails);
    }

    /** The rest of `create_task`. */
    method RegisterLocked(req: Request, fails: set<TaskId>) returns (reply: Reply)
      requires Valid() && FreshRequest(View(), req)
      modifies this
      ensures (View(), reply) == Register(old(View()), limits, req, fails)
    {
      hide Inv, ScheduleBusy, AgentBusy;
      if ScheduleBusy(handles, req.schedule) {
        return BusySchedule;
      }
      ghost var s1 := View();
      var full := |activeIds| >= limits.maxActive;
      if full && |queue| >= limits.maxQueued {
        return BusyFull;
      }
      if AgentBusy(handles, req.agent) {
        return AgentConflict;
      }
      if !req.wellFormed {
        return Malformed;
      }
      handles := handles[req.id := NewHandle(req)];
      created := created + [req.id];
      if full {
        handles := handles[req.id := handles[req.id].(state := QUEUED, queuedAt := Some(req.queuedAt))];
        queue := queue + [req.id];
        reply := Waiting;
        assert View() == Enqueue(s1, req);
      } else {
        LineOrActive(s1, limits);
        var started := LaunchLocked(req.id, req.id !in fails);
        reply := if started then Launched else StartFailed;
        NewHandleStarts(s1, req, View(), started);
      }
    }

    /** One tick of the admission thread. */
    method QueueWatchTick(now: int, fails: set<TaskId>)
      requires Valid()
      modifies this
      ensures View() == Dispatch(old(View()), limits, now, fails).0 && Valid()
    {
      var ok := DispatchLocked(now, fails);
    }

    /** The worker's target returns or raises, and cleanup runs outside the lock. */
    method TargetDone(id: TaskId, raised: bool)
      requires Valid() && id in handles && handles[id].worker == Working
      modifies this
      ensures View() == Admission.TargetDone(old(View()), id, raised) && Valid()
    {
      hide Inv;
      StepKeepsInv(View(), limits, WorkerDone(id, raised));
      if raised && !Terminal(handles[id].state) {
        handles := handles[id := handles[id].(state := FAILED)];
      }
      handles := handles[id := handles[id].(worker := Returned)];
      if Terminal(handles[id].state) && !handles[id].cleaned {
        handles := handles[id := handles[id].(cleaned := true)];
      }
    }

    /** The worker's final lock section. */
    method Release(id: TaskId, now: int, fails: set<TaskId>)
      requires Valid() && id in handles && handles[id].worker == Returned
      modifies this
      ensures View() == Admission.Release(old(View()), limits, id, now, fails) && Valid()
    {
      hide Inv, Dispatch;
      ReleaseSlot(View(), limits, id);
      if Terminal(handles[id].state) {
        activeIds := activeIds - {id};
      }
      handles := handles[id := handles[id].(worker := Released)];
      var ok := DispatchLocked(now, fails);
    }

    method CancelQueued(id: TaskId) returns (ok: bool)
      requires Valid()
      modifies this
      ensures ok == (id in old(handles) && old(handles)[id].state == QUEUED)
      ensures View() == Admission.CancelQueued(old(View()), id) && Valid()
    {
      hide Inv;
      StepKeepsInv(View(), limits, UserCancelQueued(id));
      if id !in handles || handles[id].state != QUEUED {
        return false;
      }
      queue := Remove(queue, id);
      handles := handles[id := handles[id].(state := CANCELLED)];
      dropped := dropped + [id];
      return true;
    }

    /** `_delete_task`; a task without a handle is historical and holds no slot. */
    method DeleteTask(id: TaskId) returns (ok: bool)
      requires Valid()
      modifies this
      ensures ok == (id !in old(handles) || (Terminal(old(handles)[id].state) && !Alive(old(handles)[id].worker)))
      ensures View() == Delete(old(View()), id) && Valid()
      ensures ok ==> id !in handles && id !in activeIds && id !in queue
    {
      hide Inv;
      StepKeepsInv(View(), limits, UserDelete(id));
      GoneEverywhere(View(), limits, id);
      if id !in handles {
        return true;
      }
      if !Terminal(handles[id].state) || Alive(handles[id].worker) {
        return false;
      }
      activeIds := activeIds - {id};
      handles := handles - {id};
      return true;
    }

    method Resume(id: TaskId, canStart: bool) returns (ok: bool)
      requires Valid()
      modifies this
      ensures View() == Admission.Resume(old(View()), id, canStart) && Valid()
      ensures ok ==> activeIds == old(activeIds) && id in activeIds
    {
      hide Inv;
      StepKeepsInv(View(), limits, UserResume(id, canStart));
      PausedHoldsSlot(View(), limits, id);
      if id !in handles || handles[id].state != PAUSED || Alive(handles[id].worker) {
        return false;
      }
      handles := handles[id := handles[id].(worker := if canStart then Working else Exited)];
      return canStart;
    }

    /** First lock section of `shutdown`. */
    method Drain()
      requires Valid() && shutdownEvent
      modifies this
      ensures View() == Admission.Drain(old(View())) && Valid()
    {
      hide Bounded, Line, Places, Exclusive, History;
      StepKeepsInv(View(), limits, ShutdownDrain);
      InvKnown(View(), limits);
      ghost var start := View();
      var waiting := queue;
      var i := 0;
      assert forall id :: id in handles ==> id !in waiting[..0];
      while i < |waiting|
        invariant 0 <= i <= |waiting| && QueueKnown(start)
        invariant waiting == start.queue && handles.Keys == start.handles.Keys
        invariant handles == Cancel(start.handles, waiting[..i])
        invariant View() == start.(handles := handles)
      {
        KnownPrefix(start.handles, waiting, i);
        assert waiting[..i + 1] == waiting[..i] + [waiting[i]];
        DrainNext(start.handles, waiting, i);
        handles := handles[waiting[i] := handles[waiting[i]].(state := CANCELLED)];
        i := i + 1;
      }
      assert waiting[..i] == waiting;
      dropped := dropped + queue;
      queue := [];
    }

    /** Last lock section of `shutdown`, after the queue was drained; `order` lists the handles,
        `built` says which have a coordinator. */
    method Sweep(order: seq<TaskId>, built: set<TaskId>)
      requires Valid() && shutdownEvent && queue == []
      requires forall id :: id in order <==> id in handles
      modifies this
      ensures View() == Admission.Sweep(old(View()), built) && Valid()
    {
      hide Inv, Swept, Admission.Sweep;
      StepKeepsInv(View(), limits, ShutdownSweep(built));
      ghost var start := View();
      SweptNone(start, built);
      var i := 0;
      while i < |order|
        invariant 0 <= i <= |order| && View() == Swept(start, order[..i], built)
        invariant handles.Keys == start.handles.Keys
      {
        var id := order[i];
        assert id in order;
        assert order[..i + 1] == order[..i] + [id];
        SweptNext(start, order[..i], id, built);
        if !Alive(handles[id].worker) && !Terminal(handles[id].state) && id in built {
          handles := handles[id := handles[id].(state := CANCELLED, cleaned := true)];
          activeIds := activeIds - {id};
        }
        i := i + 1;
      }
      assert order[..i] == order;
      SweptAll(start, order, built);
    }
  }

  /** The state when the sweep has passed the handles in `done`. */
  ghost function Swept(s: State, done: seq<TaskId>, built: set<TaskId>): State {
    s.(handles := map id | id in s.handles ::
         if id in done && id in built && Sweepable(s.handles[id]) then
           s.handles[id].(state := CANCELLED, cleaned := true)
         else s.handles[id],
       active := set id | id in s.active && !(id in done && id in built && id in s.handles && Sweepable(s.handles[id])))
  }

  lemma SweptNone(s: State, built: set<TaskId>)
    ensures Swept(s, [], built) == s
  {
  }

  lemma SweptNext(s: State, done: seq<TaskId>, id: TaskId, built: set<TaskId>)
    requires id in s.handles
    ensures var t := Swept(s, done, built); id in t.handles && t.handles.Keys == s.handles.Keys
    ensures var t := Swept(s, done, built); var h := t.handles[id];
      Swept(s, done + [id], built) ==
        (if id in built && Sweepable(h)
         then t.(handles := t.handles[id := h.(state := CANCELLED, cleaned := true)], active := t.active - {id}) else t)
  {
    var t, n := Swept(s, done, built), Swept(s, done + [id], built);
    var h := t.handles[id];
    assert forall x :: x in done + [id] <==> x in done || x == id;
    if id in built && Sweepable(h) {
      assert n.handles == t.handles[id := h.(state := CANCELLED, cleaned := true)];
      assert n.active == t.active - {id};
    } else {
      assert n.handles == t.handles;
      assert n.active == t.active;
    }
  }

  lemma SweptAll(s: State, order: seq<TaskId>, built: set<TaskId>)
    requires s.shutdown && s.queue == [] && forall id :: id in order <==> id in s.handles
    ensures Swept(s, order, built) == Admission.Sweep(s, built)
  {
    var t, n := Swept(s, order, built), Admission.Sweep(s, built);
    assert t.handles.Keys == n.handles.Keys;
    assert forall id :: id in s.handles ==> t.handles[id] == n.handles[id];
    assert forall id :: id in t.active <==> id in n.active;
  }

  lemma DispatchAtShutdown(s: State, lim: Limits, now: int, fails: set<TaskId>)
    requires QueueKnown(s)
    ensures s.shutdown ==> Dispatch(s, lim, now, fails) == (s, true)
  {
  }

  lemma LineOrActive(s: State, lim: Limits)
    requires Inv(s, lim)
    ensures forall id :: id in s.active ==> id in s.handles
  {
  }

  /** Registering a task and then launching it is one step of the specification. */
  lemma NewHandleStarts(s: State, req: Request, t: State, started: bool)
    requires req.id !in s.active
    requires var h := NewHandle(req); var id := req.id;
      t == State(s.handles[id := h][id := if started then Start(h) else h.(state := FAILED)],
                 if started then s.active + {id} else s.active - {id}, s.queue, s.shutdown, s.created + [id],
                 if started then s.launched + [id] else s.launched, if started then s.dropped else s.dropped + [id])
    ensures t == if started then LaunchNew(s, req) else FailNew(s, req)
  {
    assert s.active - {req.id} == s.active;
  }

  lemma GoneEverywhere(s: State, lim: Limits, id: TaskId)
    requires Inv(s, lim)
    ensures id in s.active || id in s.queue ==> id in s.handles
    ensures id in s.handles && Terminal(s.handles[id].state) ==> id !in s.queue
  {
  }

  lemma PausedHoldsSlot(s: State, lim: Limits, id: TaskId)
    requires Inv(s, lim)
    ensures id in s.handles && s.handles[id].state == PAUSED ==> id in s.active
  {
  }

  lemma InvKnown(s: State, lim: Limits)
    requires Inv(s, lim)
    ensures QueueKnown(s)
  {
  }

  lemma DrainNext(handles: map<TaskId, Handle>, q: seq<TaskId>, i: nat)
    requires i < |q| && q[i] in handles
    ensures Cancel(handles, q[..i + 1]) ==
            Cancel(handles, q[..i])[q[i] := Cancel(handles, q[..i])[q[i]].(state := CANCELLED)]
  {
    assert q[..i + 1] == q[..i] + [q[i]];
  }

  lemma {:induction false} HeadStep(s: State, lim: Limits, fails: set<TaskId>)
    requires Inv(s, lim) && !s.shutdown && s.queue != [] && |s.active| < lim.maxActive
    ensures s.queue[0] in s.handles && s.handles[s.queue[0]].state == QUEUED && s.queue[0] !in s.active
    ensures s.queue[0] in fails ==> Admit(s, lim, fails) == (FailHead(s), false) && Inv(FailHead(s), lim)
    ensures s.queue[0] !in fails ==>
      Inv(LaunchHead(s), lim) && Admit(s, lim, fails) == Admit(LaunchHead(s), lim, fails)
  {
    var x := s.queue[0];
    assert x in s.queue;
    HeadKnown(s);
    HeadHistory(s);
    FailHeadPlaces(s, lim);
    LaunchHeadPlaces(s, lim);
  }

  lemma {:induction false} NothingYet(handles: map<TaskId, Handle>, now: int, timeout: int)
    ensures Known(handles, []) && Cancel(handles, []) == handles
    ensures Select(handles, [], now, timeout, true) == [] == Select(handles, [], now, timeout, false)
  {
  }

  lemma KnownPrefix(handles: map<TaskId, Handle>, q: seq<TaskId>, i: nat)
    requires Known(handles, q) && i <= |q|
    ensures Known(handles, q[..i])
    ensures i < |q| ==> q[i] in handles
  {
    assert forall id :: id in q[..i] ==> id in q;
    if i < |q| { var x := q[i]; assert x in q; }
  }

  lemma {:induction false} SelectNext(handles: map<TaskId, Handle>, q: seq<TaskId>, i: nat, now: int, timeout: int,
                                      late: bool)
    requires i < |q| && q[i] in handles && Known(handles, q[..i]) && Known(handles, q[..i + 1])
    ensures Select(handles, q[..i + 1], now, timeout, late) ==
            if Overdue(handles[q[i]], now, timeout) == late then Select(handles, q[..i], now, timeout, late) + [q[i]]
            else Select(handles, q[..i], now, timeout, late)
  {
    assert q[..i + 1][..i] == q[..i] && q[..i + 1][i] == q[i];
  }

  lemma CancelNext(handles: map<TaskId, Handle>, late: seq<TaskId>, x: TaskId)
    requires x in handles
    ensures Cancel(handles, late + [x]) == Cancel(handles, late)[x := handles[x].(state := CANCELLED)]
  {
  }

  lemma {:induction false} NotSelected(handles: map<TaskId, Handle>, q: seq<TaskId>, i: nat, now: int, timeout: int,
                                       late: bool)
    requires NoDup(q) && i < |q| && Known(handles, q[..i])
    ensures q[i] !in Select(handles, q[..i], now, timeout, late)
  {
    SelectMembers(handles, q[..i], now, timeout, late);
    assert q[i] !in q[..i];
  }

  /** One turn of the expiry loop. */
  lemma {:induction false} ExpireNext(handles: map<TaskId, Handle>, q: seq<TaskId>, i: nat, now: int, timeout: int,
                                      kept: seq<TaskId>, late: seq<TaskId>)
    requires NoDup(q) && Known(handles, q) && i < |q| && Known(handles, q[..i])
    requires kept == Select(handles, q[..i], now, timeout, false) && late == Select(handles, q[..i], now, timeout, true)
    ensures Known(handles, q[..i + 1]) && q[i] in handles
    ensures Cancel(handles, late).Keys == handles.Keys && Cancel(handles, late)[q[i]] == handles[q[i]]
    ensures Overdue(handles[q[i]], now, timeout) ==>
      Select(handles, q[..i + 1], now, timeout, false) == kept &&
      Select(handles, q[..i + 1], now, timeout, true) == late + [q[i]] &&
      Remove(kept + q[i..], q[i]) == kept + q[i + 1..]
    ensures !Overdue(handles[q[i]], now, timeout) ==>
      Select(handles, q[..i + 1], now, timeout, false) == kept + [q[i]] &&
      Select(handles, q[..i + 1], now, timeout, true) == late &&
      kept + q[i..] == kept + [q[i]] + q[i + 1..]
  {
    hide Select, Cancel, Remove, NoDup, Overdue;
    KnownPrefix(handles, q, i);
    KnownPrefix(handles, q, i + 1);
    hide Known;
    SelectNext(handles, q, i, now, timeout, true);
    SelectNext(handles, q, i, now, timeout, false);
    NotSelected(handles, q, i, now, timeout, true);
    NotSelected(handles, q, i, now, timeout, false);
    CancelOthers(handles, late, q[i]);
    assert q[i..] == [q[i]] + q[i + 1..];
    RemoveMiddle(kept, q[i], q[i + 1..]);
  }

  lemma CancelOthers(handles: map<TaskId, Handle>, late: seq<TaskId>, x: TaskId)
    requires x in handles && x !in late
    ensures Cancel(handles, late).Keys == handles.Keys && Cancel(handles, late)[x] == handles[x]
  {
  }

  lemma {:induction false} RemoveMiddle(a: seq<TaskId>, id: TaskId, b: seq<TaskId>)
    requires id !in a
    ensures Remove(a + ([id] + b), id) == a + b
  {
    if a != [] {
      assert (a + ([id] + b))[1..] == a[1..] + ([id] + b);
      RemoveMiddle(a[1..], id, b);
      assert [a[0]] + (a[1..] + b) == a + b;
    } else {
      assert a + ([id] + b) == [id] + b && a + b == b;
    }
  }
}
