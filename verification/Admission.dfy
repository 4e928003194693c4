/**
 Admission, execution slots and the waiting line of scopex/api/service.py.

 Every section that runs under the service lock is one atomic step.  Threads are
 reduced to the phases the lock sections can observe.  Clock readings, failures
 of `Thread.start` and what a worker does to its own task are parameters, so the
 theorems hold for every interleaving and every choice of them.
 */
module Admission {
  import opened Sequences
  import opened Lifecycle

  /** Task, schedule and agent names; the source uses generated strings, of which only
      equality matters. */
  type TaskId = int
  type Name = int

  /** Phases of a task's thread; `Returned` is the stretch between the end of the
      worker's target and its final lock section, where cleanup has already run. */
  datatype Worker = NoThread | Working | Returned | Released | Exited

  predicate Alive(w: Worker) {
    w == Working || w == Returned || w == Released
  }

  datatype Handle = Handle(
    state: TaskState, schedule: Option<Name>, agent: Name,
    queuedAt: Option<int>, worker: Worker, cleaned: bool)

  datatype Limits = Limits(maxActive: nat, maxQueued: nat, timeout: int)

  /** The service fields guarded by the lock, followed by three histories:
      tasks in creation order, in launch order, and those that never started. */
  datatype State = State(
    handles: map<TaskId, Handle>, active: set<TaskId>, queue: seq<TaskId>, shutdown: bool,
    created: seq<TaskId>, launched: seq<TaskId>, dropped: seq<TaskId>)

  const INITIAL := State(map[], {}, [], false, [], [], [])

  /** `freshAgent` is the generated agent name used when the caller gives none. */
  datatype Request = Request(
    id: TaskId, schedule: Option<Name>, agent: Option<Name>, freshAgent: Name,
    wellFormed: bool, queuedAt: int)

  datatype Reply =
    | Launched | Waiting
    | BusyShutdown | BusySchedule | BusyFull | AgentConflict | Malformed | StartFailed

  // ---------------------------------------------------------------- dispatch

  ghost predicate Known(handles: map<TaskId, Handle>, q: seq<TaskId>) {
    forall id :: id in q ==> id in handles
  }

  lemma KnownPart(handles: map<TaskId, Handle>, q: seq<TaskId>)
    requires Known(handles, q) && q != []
    ensures q[|q| - 1] in handles && Known(handles, q[..|q| - 1])
  {
    var x := q[|q| - 1];
    assert x in q;
  }

  ghost predicate QueueKnown(s: State) {
    Known(s.handles, s.queue)
  }

  predicate Overdue(h: Handle, now: int, timeout: int) {
    h.queuedAt.Some? && now - h.queuedAt.value >= timeout
  }

  /** The members of `q` that are overdue (`late`) or still in time (`!late`), in order. */
  ghost function Select(handles: map<TaskId, Handle>, q: seq<TaskId>, now: int, timeout: int, late: bool): seq<TaskId>
    requires Known(handles, q)
  {
    if q == [] then []
    else
      KnownPart(handles, q);
      var rest := Select(handles, q[..|q| - 1], now, timeout, late);
      if Overdue(handles[q[|q| - 1]], now, timeout) == late then rest + [q[|q| - 1]] else rest
  }

  ghost function Cancel(handles: map<TaskId, Handle>, ids: seq<TaskId>): map<TaskId, Handle> {
    map id | id in handles :: if id in ids then handles[id].(state := CANCELLED) else handles[id]
  }

  /** First half of `_dispatch_locked`: waiting tasks past their deadline are cancelled. */
  ghost function Expire(s: State, lim: Limits, now: int): State
    requires QueueKnown(s)
  {
    var late := Select(s.handles, s.queue, now, lim.timeout, true);
    s.(handles := Cancel(s.handles, late),
       queue := Select(s.handles, s.queue, now, lim.timeout, false),
       dropped := s.dropped + late)
  }

  function Start(h: Handle): Handle {
    h.(state := if h.state == QUEUED then CREATED else h.state, worker := Working)
  }

  /** The head of the queue takes a slot and its worker starts. */
  ghost function LaunchHead(s: State): State
    requires s.queue != [] && s.queue[0] in s.handles
  {
    var id := s.queue[0];
    s.(handles := s.handles[id := Start(s.handles[id])], active := s.active + {id},
       queue := s.queue[1..], launched := s.launched + [id])
  }

  /** The head of the queue cannot be started: it fails and holds no slot. */
  ghost function FailHead(s: State): State
    requires s.queue != [] && s.queue[0] in s.handles
  {
    var id := s.queue[0];
    s.(handles := s.handles[id := s.handles[id].(state := FAILED)], queue := s.queue[1..],
       dropped := s.dropped + [id])
  }

  /** Second half of `_dispatch_locked`: free slots are filled from the head of the queue.
      A worker that cannot be started aborts the dispatch. */
  ghost function Admit(s: State, lim: Limits, fails: set<TaskId>): (State, bool)
    requires QueueKnown(s)
    decreases |s.queue|
  {
    if s.queue == [] || |s.active| >= lim.maxActive then (s, true)
    else
      HeadKnown(s);
      if s.queue[0] in fails then (FailHead(s), false)
      else Admit(LaunchHead(s), lim, fails)
  }

  lemma HeadKnown(s: State)
    requires QueueKnown(s) && s.queue != []
    ensures s.queue[0] in s.handles && QueueKnown(LaunchHead(s)) && QueueKnown(FailHead(s))
  {
    var x := s.queue[0];
    assert x in s.queue;
    assert forall id :: id in s.queue[1..] ==> id in s.queue;
  }

  ghost function Dispatch(s: State, lim: Limits, now: int, fails: set<TaskId>): (State, bool)
    requires QueueKnown(s)
  {
    if s.shutdown then (s, true) else
      SelectMembers(s.handles, s.queue, now, lim.timeout, false);
      Admit(Expire(s, lim, now), lim, fails)
  }

  lemma {:induction false} SelectMembers(handles: map<TaskId, Handle>, q: seq<TaskId>, now: int, timeout: int,
                                         late: bool)
    requires Known(handles, q)
    ensures forall id :: id in Select(handles, q, now, timeout, late) <==>
                         id in q && Overdue(handles[id], now, timeout) == late
    ensures Subsequence(Select(handles, q, now, timeout, late), q)
  {
    if q != [] {
      var t := q[..|q| - 1];
      SelectMembers(handles, t, now, timeout, late);
      SubsequencePush(Select(handles, t, now, timeout, late), t, q[|q| - 1]);
      assert q == t + [q[|q| - 1]];
    }
  }

  // ------------------------------------------------------- the lock sections

  predicate ScheduleBusy(handles: map<TaskId, Handle>, schedule: Option<Name>) {
    schedule.Some? &&
    exists id :: id in handles && !Terminal(handles[id].state) && handles[id].schedule == schedule
  }

  predicate AgentBusy(handles: map<TaskId, Handle>, agent: Option<Name>) {
    agent.Some? &&
    exists id :: id in handles && Live(handles[id]) && handles[id].agent == agent.value
  }

  predicate Live(h: Handle) {
    !Terminal(h.state) || Alive(h.worker)
  }

  /** Generated identifiers never collide with one that is in use. */
  ghost predicate FreshRequest(s: State, req: Request) {
    req.id !in s.created && req.id !in s.handles &&
    forall id :: id in s.handles ==> s.handles[id].agent != req.freshAgent
  }

  /** The handle `create_task` registers before it decides between waiting and starting. */
  function NewHandle(req: Request): Handle {
    Handle(CREATED, req.schedule, if req.agent.Some? then req.agent.value else req.freshAgent, None, NoThread, false)
  }

  ghost function Enqueue(s: State, req: Request): State {
    s.(handles := s.handles[req.id := NewHandle(req).(state := QUEUED, queuedAt := Some(req.queuedAt))],
       queue := s.queue + [req.id], created := s.created + [req.id])
  }

  ghost function LaunchNew(s: State, req: Request): State {
    s.(handles := s.handles[req.id := Start(NewHandle(req))], active := s.active + {req.id},
       created := s.created + [req.id], launched := s.launched + [req.id])
  }

  ghost function FailNew(s: State, req: Request): State {
    s.(handles := s.handles[req.id := NewHandle(req).(state := FAILED)],
       created := s.created + [req.id], dropped := s.dropped + [req.id])
  }

  /** The part of `create_task` after its dispatch: the refusals in order, then wait or start. */
  ghost function Register(s: State, lim: Limits, req: Request, fails: set<TaskId>): (State, Reply) {
    if ScheduleBusy(s.handles, req.schedule) then (s, BusySchedule)
    else if |s.active| >= lim.maxActive && |s.queue| >= lim.maxQueued then (s, BusyFull)
    else if AgentBusy(s.handles, req.agent) then (s, AgentConflict)
    else if !req.wellFormed then (s, Malformed)
    else if |s.active| >= lim.maxActive then (Enqueue(s, req), Waiting)
    else if req.id in fails then (FailNew(s, req), StartFailed)
    else (LaunchNew(s, req), Launched)
  }

  /** `raced` says that the shutdown event, which is set without the lock, is set between the two
      times this section reads it: then the dispatch does nothing, and the section still goes on. */
  ghost function CreateTask(s: State, lim: Limits, req: Request, now: int, fails: set<TaskId>,
                            raced: bool): (State, Reply)
    requires QueueKnown(s)
  {
    if s.shutdown then (s, BusyShutdown)
    else
      var (s1, ok) := if raced then (BeginShutdown(s), true) else Dispatch(s, lim, now, fails);
      if ok then Register(s1, lim, req, fails) else (s1, StartFailed)
  }

  /** The task's own worker moves the task along the transition table. */
  ghost function Progress(s: State, id: TaskId, to: TaskState): State {
    if id in s.handles && s.handles[id].worker == Working && Allowed(s.handles[id].state, to) &&
       to != QUEUED && to != CREATED
    then s.(handles := s.handles[id := s.handles[id].(state := to)]) else s
  }

  /** The worker's target returns or raises; a terminal task is cleaned up outside the lock. */
  ghost function TargetDone(s: State, id: TaskId, raised: bool): State {
    if id in s.handles && s.handles[id].worker == Working then
      var h := s.handles[id];
      var to := if raised && !Terminal(h.state) then FAILED else h.state;
      s.(handles := s.handles[id := h.(state := to, worker := Returned, cleaned := h.cleaned || Terminal(to))])
    else s
  }

  /** A finished task gives its slot back; an unfinished (paused) one keeps it. */
  ghost function GiveSlotBack(s: State, id: TaskId): State
    requires id in s.handles
  {
    s.(handles := s.handles[id := s.handles[id].(worker := Released)],
       active := if Terminal(s.handles[id].state) then s.active - {id} else s.active)
  }

  /** The worker's final lock section: give the slot back, then let the next task in. */
  ghost function Release(s: State, lim: Limits, id: TaskId, now: int, fails: set<TaskId>): State
    requires QueueKnown(s)
  {
    if id in s.handles && s.handles[id].worker == Returned then
      Dispatch(GiveSlotBack(s, id), lim, now, fails).0
    else s
  }

  ghost function ThreadExit(s: State, id: TaskId): State {
    if id in s.handles && s.handles[id].worker == Released
    then s.(handles := s.handles[id := s.handles[id].(worker := Exited)]) else s
  }

  function Remove(q: seq<TaskId>, id: TaskId): seq<TaskId> {
    if q == [] then [] else if q[0] == id then q[1..] else [q[0]] + Remove(q[1..], id)
  }

  ghost function CancelQueued(s: State, id: TaskId): State {
    if id in s.handles && s.handles[id].state == QUEUED then
      s.(handles := s.handles[id := s.handles[id].(state := CANCELLED)], queue := Remove(s.queue, id),
         dropped := s.dropped + [id])
    else s
  }

  ghost function Delete(s: State, id: TaskId): State {
    if id in s.handles && Terminal(s.handles[id].state) && !Alive(s.handles[id].worker) then
      s.(handles := s.handles - {id}, active := s.active - {id})
    else s
  }

  ghost function Stop(s: State, id: TaskId): State {
    if id in s.handles && s.handles[id].state == RUNNING
    then s.(handles := s.handles[id := s.handles[id].(state := PAUSING)]) else s
  }

  ghost function Resume(s: State, id: TaskId, canStart: bool): State {
    if id in s.handles && s.handles[id].state == PAUSED && !Alive(s.handles[id].worker)
    then s.(handles := s.handles[id := s.handles[id].(worker := if canStart then Working else Exited)]) else s
  }

  ghost function BeginShutdown(s: State): State {
    s.(shutdown := true)
  }

  /** First lock section of `shutdown`: everything still waiting is cancelled. */
  ghost function Drain(s: State): State {
    if s.shutdown then
      s.(handles := Cancel(s.handles, s.queue), queue := [], dropped := s.dropped + s.queue)
    else s
  }

  predicate Sweepable(h: Handle) {
    !Terminal(h.state) && !Alive(h.worker)
  }

  /** Last lock section of `shutdown`: unfinished tasks without a live worker are cancelled,
      cleaned and give their slot back, if their coordinator was ever built. */
  ghost function Sweep(s: State, built: set<TaskId>): State {
    if s.shutdown && s.queue == [] then
      s.(handles := map id | id in s.handles ::
             if id in built && Sweepable(s.handles[id]) then s.handles[id].(state := CANCELLED, cleaned := true)
             else s.handles[id],
         active := set id | id in s.active && !(id in built && id in s.handles && Sweepable(s.handles[id])))
    else s
  }

  datatype Step =
    | Create(req: Request, now: int, fails: set<TaskId>, raced: bool)
    | Tick(now: int, fails: set<TaskId>)
    | WorkerProgress(id: TaskId, to: TaskState)
    | WorkerDone(id: TaskId, raised: bool)
    | WorkerRelease(id: TaskId, now: int, fails: set<TaskId>)
    | WorkerExit(id: TaskId)
    | UserCancelQueued(id: TaskId)
    | UserDelete(id: TaskId)
    | UserStop(id: TaskId)
    | UserResume(id: TaskId, canStart: bool)
    | ShutdownBegin
    | ShutdownDrain
    | ShutdownSweep(built: set<TaskId>)

  ghost function Apply(s: State, lim: Limits, step: Step): State
    requires QueueKnown(s)
  {
    match step
    case Create(req, now, fails, raced) =>
      if FreshRequest(s, req) then CreateTask(s, lim, req, now, fails, raced).0 else s
    case Tick(now, fails) => Dispatch(s, lim, now, fails).0
    case WorkerProgress(id, to) => Progress(s, id, to)
    case WorkerDone(id, raised) => TargetDone(s, id, raised)
    case WorkerRelease(id, now, fails) => Release(s, lim, id, now, fails)
    case WorkerExit(id) => ThreadExit(s, id)
    case UserCancelQueued(id) => CancelQueued(s, id)
    case UserDelete(id) => Delete(s, id)
    case UserStop(id) => Stop(s, id)
    case UserResume(id, canStart) => Resume(s, id, canStart)
    case ShutdownBegin => BeginShutdown(s)
    case ShutdownDrain => Drain(s)
    case ShutdownSweep(built) => Sweep(s, built)
  }
}
