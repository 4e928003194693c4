/** The lifecycle controller, scopex/runtime/controller.py: guarded moves of one task, an event log, session turns. */
module Controller {
  import opened Sequences
  import opened Lifecycle

  datatype Event =
    | TASK_CREATED | TASK_STARTED | USER_STEER(turn: nat) | USER_STOP | SAFE_STOP | USER_RESUME(turn: nat)
    | INVESTIGATION_COMPLETED | FINALIZATION_STARTED | FINALIZATION_COMPLETED
    | TASK_COMPLETED | TASK_FAILED | TASK_CANCELLED

  datatype TurnKind = USER | STEER | STOP | RESUME
  datatype Turn = Turn(index: nat, kind: TurnKind)

  datatype Status = Status(state: TaskState, log: seq<Event>, turns: seq<Turn>)

  datatype Call =
    | Created | Start | Steer | RequestStop | SafeStop | SafeStopIfPausing | Resume
    | BeginFinalization | FinalizationCompleted | Complete | Fail | Cancel

  /** Whether the call returns; otherwise it raises and changes nothing. */
  predicate Accepts(s: TaskState, c: Call) {
    match c
    case Created => true
    case Start => s == RUNNING || Allowed(s, RUNNING)
    case Steer => s == RUNNING || s == PAUSED
    case RequestStop => s == RUNNING
    case SafeStop => s == PAUSING
    case SafeStopIfPausing => true
    case Resume => s == PAUSED
    case BeginFinalization => s == RUNNING
    case FinalizationCompleted => s == FINALIZING
    case Complete => s == RUNNING || s == FINALIZING
    case Fail => true
    case Cancel => true
  }

  function Emit(s: Status, e: Event): Status {
    s.(log := s.log + [e])
  }

  function Append(s: Status, kind: TurnKind): Status {
    s.(turns := s.turns + [Turn(|s.turns| + 1, kind)])
  }

  function After(s: Status, c: Call): Status {
    if !Accepts(s.state, c) then s
    else
      match c
      case Created => Emit(s, TASK_CREATED)
      case Start => Emit(s.(state := RUNNING), TASK_STARTED)
      case Steer => Emit(Append(s, STEER), USER_STEER(|s.turns| + 1))
      case RequestStop => Emit(Append(s, STOP).(state := PAUSING), USER_STOP)
      case SafeStop => Emit(s.(state := PAUSED), SAFE_STOP)
      case SafeStopIfPausing => if s.state == PAUSING then Emit(s.(state := PAUSED), SAFE_STOP) else s
      case Resume => Emit(Append(s, RESUME).(state := RUNNING), USER_RESUME(|s.turns| + 1))
      case BeginFinalization => Emit(Emit(s, INVESTIGATION_COMPLETED).(state := FINALIZING), FINALIZATION_STARTED)
      case FinalizationCompleted => Emit(s, FINALIZATION_COMPLETED)
      case Complete => Emit(s.(state := COMPLETED), TASK_COMPLETED)
      case Fail => if Terminal(s.state) then s else Emit(s.(state := FAILED), TASK_FAILED)
      case Cancel => if Terminal(s.state) then s else Emit(s.(state := CANCELLED), TASK_CANCELLED)
  }

  function AfterAll(s: Status, calls: seq<Call>): Status {
    if calls == [] then s else After(AfterAll(s, calls[..|calls| - 1]), calls[|calls| - 1])
  }

  // ----------------------------------------------------------------- replay

  /** What an event tells a reader of the log about the state. */
  function Told(s: TaskState, e: Event): TaskState {
    match e
    case TASK_STARTED => RUNNING
    case USER_STOP => PAUSING
    case SAFE_STOP => PAUSED
    case USER_RESUME(_) => RUNNING
    case FINALIZATION_STARTED => FINALIZING
    case TASK_COMPLETED => COMPLETED
    case TASK_FAILED => FAILED
    case TASK_CANCELLED => CANCELLED
    case _ => s
  }

  function Replay(s: TaskState, log: seq<Event>): TaskState {
    if log == [] then s else Told(Replay(s, log[..|log| - 1]), log[|log| - 1])
  }

  /** The session turns a reader of the log expects after the given ones. */
  function TurnsTold(turns: seq<Turn>, log: seq<Event>): seq<Turn> {
    if log == [] then turns
    else
      var before := TurnsTold(turns, log[..|log| - 1]);
      match log[|log| - 1]
      case USER_STEER(_) => before + [Turn(|before| + 1, STEER)]
      case USER_STOP => before + [Turn(|before| + 1, STOP)]
      case USER_RESUME(_) => before + [Turn(|before| + 1, RESUME)]
      case _ => before
  }

  lemma {:induction false} ReplayPush(s: TaskState, log: seq<Event>, e: Event)
    ensures Replay(s, log + [e]) == Told(Replay(s, log), e)
  {
    assert (log + [e])[..|log|] == log;
  }

  lemma {:induction false} TurnsPush(turns: seq<Turn>, log: seq<Event>, e: Event)
    ensures var before := TurnsTold(turns, log);
      TurnsTold(turns, log + [e]) ==
        (if e.USER_STEER? then before + [Turn(|before| + 1, STEER)]
         else if e.USER_STOP? then before + [Turn(|before| + 1, STOP)]
         else if e.USER_RESUME? then before + [Turn(|before| + 1, RESUME)] else before)
  {
    var more := log + [e];
    assert more[..|more| - 1] == log && more[|more| - 1] == e;
  }

  /** From the state and the turns at the start, the log alone gives the current state and the session's turns. */
  lemma {:induction false} LogReplaysToState(s: Status, calls: seq<Call>)
    requires s.log == []
    ensures var t := AfterAll(s, calls); t.state == Replay(s.state, t.log) && t.turns == TurnsTold(s.turns, t.log)
  {
    if calls != [] {
      var before, c := AfterAll(s, calls[..|calls| - 1]), calls[|calls| - 1];
      LogReplaysToState(s, calls[..|calls| - 1]);
      StepReplays(s, before, c);
    }
  }

  lemma StepReplays(s: Status, t: Status, c: Call)
    requires t.state == Replay(s.state, t.log) && t.turns == TurnsTold(s.turns, t.log)
    ensures var n := After(t, c); n.state == Replay(s.state, n.log) && n.turns == TurnsTold(s.turns, n.log)
  {
    hide Replay, TurnsTold, Allowed;
    var n := After(t, c);
    if n.log != t.log {
      if c == BeginFinalization {
        ReplayPush(s.state, t.log, INVESTIGATION_COMPLETED);
        ReplayPush(s.state, t.log + [INVESTIGATION_COMPLETED], FINALIZATION_STARTED);
        TurnsPush(s.turns, t.log, INVESTIGATION_COMPLETED);
        TurnsPush(s.turns, t.log + [INVESTIGATION_COMPLETED], FINALIZATION_STARTED);
      } else {
        ReplayPush(s.state, t.log, n.log[|t.log|]);
        TurnsPush(s.turns, t.log, n.log[|t.log|]);
      }
    }
  }

  // ----------------------------------------------------------------- the end

  predicate IsEnd(e: Event) {
    e.TASK_COMPLETED? || e.TASK_FAILED? || e.TASK_CANCELLED?
  }

  function Ends(log: seq<Event>): nat {
    if log == [] then 0 else Ends(log[..|log| - 1]) + (if IsEnd(log[|log| - 1]) then 1 else 0)
  }

  lemma {:induction false} EndsPush(log: seq<Event>, e: Event)
    ensures Ends(log + [e]) == Ends(log) + (if IsEnd(e) then 1 else 0)
  {
    assert (log + [e])[..|log|] == log;
  }

  lemma StepEnds(s: Status, c: Call)
    requires Ends(s.log) == (if Terminal(s.state) then 1 else 0)
    ensures Ends(After(s, c).log) == (if Terminal(After(s, c).state) then 1 else 0)
  {
    hide Ends;
    var n := After(s, c);
    if n.log != s.log {
      if c == BeginFinalization {
        EndsPush(s.log, INVESTIGATION_COMPLETED);
        EndsPush(s.log + [INVESTIGATION_COMPLETED], FINALIZATION_STARTED);
      } else {
        EndsPush(s.log, n.log[|s.log|]);
      }
    }
  }

  /** Over any run there is at most one terminal event, and it is there exactly when the task has ended. */
  lemma {:induction false} OneTerminalEvent(s: Status, calls: seq<Call>)
    requires s.log == [] && !Terminal(s.state)
    ensures Ends(AfterAll(s, calls).log) == (if Terminal(AfterAll(s, calls).state) then 1 else 0)
  {
    if calls != [] {
      OneTerminalEvent(s, calls[..|calls| - 1]);
      StepEnds(AfterAll(s, calls[..|calls| - 1]), calls[|calls| - 1]);
    }
  }

  /** After the end nothing moves any more: state and turns stay, and only TASK_CREATED can still be logged. */
  lemma {:induction false} NothingAfterTheEnd(s: Status, calls: seq<Call>)
    requires Terminal(s.state)
    ensures var t := AfterAll(s, calls);
      t.state == s.state && t.turns == s.turns && s.log <= t.log &&
      forall k :: |s.log| <= k < |t.log| ==> t.log[k] == TASK_CREATED
  {
    if calls != [] {
      NothingAfterTheEnd(s, calls[..|calls| - 1]);
      var before := AfterAll(s, calls[..|calls| - 1]);
      var last := calls[|calls| - 1];
      assert After(before, last) == before || After(before, last) == Emit(before, TASK_CREATED);
    }
  }

  // ----------------------------------------------------------------- stop, safe stop, resume

  datatype Control = StopControl | SafeControl | ResumeControl

  function Controls(log: seq<Event>): seq<Control> {
    if log == [] then []
    else
      var before := Controls(log[..|log| - 1]);
      match log[|log| - 1]
      case USER_STOP => before + [StopControl]
      case SAFE_STOP => before + [SafeControl]
      case USER_RESUME(_) => before + [ResumeControl]
      case _ => before
  }

  function Due(i: nat): Control {
    if i % 3 == 0 then StopControl else if i % 3 == 1 then SafeControl else ResumeControl
  }

  /** Stop, safe stop, resume, stop, ... */
  predicate Rotates(cs: seq<Control>) {
    forall i :: 0 <= i < |cs| ==> cs[i] == Due(i)
  }

  lemma {:induction false} ControlsPush(log: seq<Event>, e: Event)
    ensures var before := Controls(log);
      Controls(log + [e]) ==
        (if e.USER_STOP? then before + [StopControl] else if e.SAFE_STOP? then before + [SafeControl]
         else if e.USER_RESUME? then before + [ResumeControl] else before)
  {
    assert (log + [e])[..|log|] == log;
  }

  /** What one call adds to the control events. */
  function Added(s: TaskState, c: Call): seq<Control> {
    if c == RequestStop && s == RUNNING then [StopControl]
    else if (c == SafeStop || c == SafeStopIfPausing) && s == PAUSING then [SafeControl]
    else if c == Resume && s == PAUSED then [ResumeControl]
    else []
  }

  lemma ControlsStep(s: Status, c: Call)
    ensures Controls(After(s, c).log) == Controls(s.log) + Added(s.state, c)
  {
    hide Controls, Allowed;
    assert Controls(s.log) + [] == Controls(s.log);
    var n := After(s, c);
    if n.log != s.log {
      if c == BeginFinalization {
        ControlsPush(s.log, INVESTIGATION_COMPLETED);
        ControlsPush(s.log + [INVESTIGATION_COMPLETED], FINALIZATION_STARTED);
      } else {
        ControlsPush(s.log, n.log[|s.log|]);
      }
    }
  }

  /** A stop that is accepted although the latest control event is a safe stop: the paused task was
      started again instead of resumed. */
  predicate StopsRestarted(s: Status, c: Call) {
    c == RequestStop && s.state == RUNNING &&
    Controls(s.log) != [] && Controls(s.log)[|Controls(s.log)| - 1] == SafeControl
  }

  /** How many control events there are in each state, up to whole rounds of three. */
  predicate InPhase(state: TaskState, n: nat) {
    (state == PAUSING ==> n % 3 == 1) && (state == PAUSED ==> n % 3 == 2) &&
    (state == RUNNING ==> n % 3 != 1) && (state == CREATED || state == QUEUED ==> n == 0)
  }

  /** While no restarted task is stopped, the events rotate and their number fits the state. */
  ghost predicate Rotating(s: Status) {
    Rotates(Controls(s.log)) && InPhase(s.state, |Controls(s.log)|)
  }

  lemma StepRotates(s: Status, c: Call)
    requires Rotating(s)
    ensures !StopsRestarted(s, c) ==> Rotating(After(s, c))
    ensures StopsRestarted(s, c) ==> !Rotates(Controls(After(s, c).log))
  {
    ControlsStep(s, c);
    var cs := Controls(s.log);
    RestartedIff(s, c);
    PhaseStep(s, c, |cs|);
    hide Controls, After, InPhase, StopsRestarted;
    if StopsRestarted(s, c) {
      assert (cs + [StopControl])[|cs|] == StopControl;
    } else {
      RotatesOn(cs, Added(s.state, c));
      hide Rotates;
    }
  }

  lemma RestartedIff(s: Status, c: Call)
    requires Rotating(s)
    ensures StopsRestarted(s, c) <==> c == RequestStop && s.state == RUNNING && |Controls(s.log)| % 3 == 2
  {
    hide Controls;
    var n := |Controls(s.log)|;
    assert n > 0 ==> Controls(s.log)[n - 1] == Due(n - 1);
  }

  /** The event of a call, if any, is the one that is due, except for a stop out of turn. */
  lemma PhaseStep(s: Status, c: Call, n: nat)
    requires InPhase(s.state, n)
    ensures !(c == RequestStop && s.state == RUNNING && n % 3 == 2) ==>
      (Added(s.state, c) == [] || Added(s.state, c) == [Due(n)]) &&
      InPhase(After(s, c).state, n + |Added(s.state, c)|)
    ensures c == RequestStop && s.state == RUNNING && n % 3 == 2 ==>
      Added(s.state, c) == [StopControl] && Due(n) != StopControl
  {
  }

  /** The events still rotate if the next one, at most one, is the one that is due. */
  lemma RotatesOn(cs: seq<Control>, added: seq<Control>)
    requires Rotates(cs) && (added == [] || added == [Due(|cs|)])
    ensures Rotates(cs + added)
  {
  }

  lemma BrokenStaysBroken(s: Status, c: Call)
    requires !Rotates(Controls(s.log))
    ensures !Rotates(Controls(After(s, c).log))
  {
    ControlsStep(s, c);
    hide Controls, Added, After;
    var cs := Controls(s.log);
    var i :| 0 <= i < |cs| && cs[i] != Due(i);
    assert (cs + Added(s.state, c))[i] == cs[i];
  }

  /** No call of the run stops a restarted task. */
  predicate NeverStopsRestarted(s: Status, calls: seq<Call>) {
    calls != [] ==>
      NeverStopsRestarted(s, calls[..|calls| - 1]) &&
      !StopsRestarted(AfterAll(s, calls[..|calls| - 1]), calls[|calls| - 1])
  }

  /** No call of the run starts a paused task. */
  predicate NeverStartsPaused(s: Status, calls: seq<Call>) {
    calls != [] ==>
      NeverStartsPaused(s, calls[..|calls| - 1]) &&
      (calls[|calls| - 1] == Start ==> AfterAll(s, calls[..|calls| - 1]).state != PAUSED)
  }

  /** The control events of a run rotate strictly exactly when no task that was started while paused is
      stopped again before it is resumed. */
  lemma {:induction false} ControlsRotateIff(s: Status, calls: seq<Call>)
    requires s.log == [] && (s.state == CREATED || s.state == RUNNING)
    ensures Rotates(Controls(AfterAll(s, calls).log)) <==> NeverStopsRestarted(s, calls)
    ensures NeverStopsRestarted(s, calls) ==> Rotating(AfterAll(s, calls))
  {
    if calls != [] {
      var init, c := calls[..|calls| - 1], calls[|calls| - 1];
      var before := AfterAll(s, init);
      ControlsRotateIff(s, init);
      hide Rotating, StopsRestarted, Controls, Rotates, After;
      if NeverStopsRestarted(s, init) {
        StepRotates(before, c);
        RotatingRotates(After(before, c));
      } else {
        BrokenStaysBroken(before, c);
      }
    }
  }

  lemma RotatingRotates(s: Status)
    ensures Rotating(s) ==> Rotates(Controls(s.log))
  {
  }

  /** In particular they rotate when a paused task is only ever resumed, never started. */
  lemma {:induction false} ControlsRotate(s: Status, calls: seq<Call>)
    requires s.log == [] && (s.state == CREATED || s.state == RUNNING) && NeverStartsPaused(s, calls)
    ensures Resumed(AfterAll(s, calls)) && Rotates(Controls(AfterAll(s, calls).log))
  {
    if calls != [] {
      var init, c := calls[..|calls| - 1], calls[|calls| - 1];
      ControlsRotate(s, init);
      hide Resumed, Rotates, Controls, After;
      ResumedStep(AfterAll(s, init), c);
    }
  }

  /** A running task has been resumed after each of its safe stops. */
  ghost predicate Resumed(s: Status) {
    Rotating(s) && (s.state == RUNNING ==> |Controls(s.log)| % 3 == 0)
  }

  lemma ResumedStep(s: Status, c: Call)
    requires Resumed(s) && (c == Start ==> s.state != PAUSED)
    ensures Resumed(After(s, c)) && Rotates(Controls(After(s, c).log))
  {
    hide Controls, Rotates, StopsRestarted, Due;
    ResumedIsDue(s);
    StepRotates(s, c);
    ControlsStep(s, c);
    RotatingRotates(After(s, c));
  }

  /** When everything was resumed in turn, the latest control event of a running task is no safe stop. */
  lemma ResumedIsDue(s: Status)
    requires Rotating(s) && (s.state == RUNNING ==> |Controls(s.log)| % 3 == 0)
    ensures forall c :: !StopsRestarted(s, c)
  {
    hide Controls;
    var n := |Controls(s.log)|;
    assert n > 0 ==> Controls(s.log)[n - 1] == Due(n - 1);
  }

  /** Starting a paused task and stopping it again is accepted, and then the events do not rotate. */
  lemma StartWhilePausedBreaksRotation()
    ensures var t := AfterAll(Status(CREATED, [], []), [Start, RequestStop, SafeStop, Start, RequestStop]);
      t.state == PAUSING && t.log == [TASK_STARTED, USER_STOP, SAFE_STOP, TASK_STARTED, USER_STOP] &&
      !Rotates(Controls(t.log))
  {
    hide Rotates, Controls, AfterAll;
    AfterAllFive(Status(CREATED, [], []), Start, RequestStop, SafeStop, Start, RequestStop);
    ControlsOfFive();
    TwoStopsDoNotRotate();
  }

  lemma ControlsOfFive()
    ensures Controls([TASK_STARTED, USER_STOP, SAFE_STOP, TASK_STARTED, USER_STOP]) ==
            [StopControl, SafeControl, StopControl]
  {
    var none: seq<Event> := [];
    assert Controls(none) == [];
    hide Controls;
    var one := none + [TASK_STARTED];
    var two := one + [USER_STOP];
    var three := two + [SAFE_STOP];
    var four := three + [TASK_STARTED];
    ControlsPush(none, TASK_STARTED);
    ControlsPush(one, USER_STOP);
    ControlsPush(two, SAFE_STOP);
    ControlsPush(three, TASK_STARTED);
    ControlsPush(four, USER_STOP);
    assert four + [USER_STOP] == [TASK_STARTED, USER_STOP, SAFE_STOP, TASK_STARTED, USER_STOP];
  }

  lemma TwoStopsDoNotRotate()
    ensures !Rotates([StopControl, SafeControl, StopControl])
  {
    assert [StopControl, SafeControl, StopControl][2] != Due(2);
  }

  lemma {:induction false} AfterAllPush(s: Status, calls: seq<Call>, c: Call)
    ensures AfterAll(s, calls + [c]) == After(AfterAll(s, calls), c)
  {
    hide After;
    assert (calls + [c])[..|calls|] == calls;
  }

  lemma {:induction false} AfterAllFive(s: Status, a: Call, b: Call, c: Call, d: Call, e: Call)
    ensures AfterAll(s, [a, b, c, d, e]) == After(After(After(After(After(s, a), b), c), d), e)
  {
    var none: seq<Call> := [];
    assert AfterAll(s, none) == s;
    hide After, AfterAll;
    var one := none + [a];
    var two := one + [b];
    var three := two + [c];
    var four := three + [d];
    AfterAllPush(s, none, a);
    AfterAllPush(s, one, b);
    AfterAllPush(s, two, c);
    AfterAllPush(s, three, d);
    AfterAllPush(s, four, e);
    assert four + [e] == [a, b, c, d, e];
  }

  /** The run without the proxy callbacks that arrive when no stop is pending. */
  function WithoutLate(s: Status, calls: seq<Call>): seq<Call> {
    if calls == [] then []
    else
      var init, c := calls[..|calls| - 1], calls[|calls| - 1];
      if c == SafeStopIfPausing && AfterAll(s, init).state != PAUSING then WithoutLate(s, init)
      else WithoutLate(s, init) + [c]
  }

  function Callbacks(calls: seq<Call>): nat {
    if calls == [] then 0
    else Callbacks(calls[..|calls| - 1]) + (if calls[|calls| - 1] == SafeStopIfPausing then 1 else 0)
  }

  function SafeStops(log: seq<Event>): nat {
    if log == [] then 0 else SafeStops(log[..|log| - 1]) + (if log[|log| - 1].SAFE_STOP? then 1 else 0)
  }

  lemma {:induction false} SafeStopsPush(log: seq<Event>, e: Event)
    ensures SafeStops(log + [e]) == SafeStops(log) + (if e.SAFE_STOP? then 1 else 0)
  {
    assert (log + [e])[..|log|] == log;
  }

  lemma SafeStopsStep(s: Status, c: Call)
    ensures SafeStops(After(s, c).log) ==
            SafeStops(s.log) + (if (c == SafeStop || c == SafeStopIfPausing) && s.state == PAUSING then 1 else 0)
  {
    hide SafeStops, Allowed;
    var n := After(s, c);
    if n.log != s.log {
      if c == BeginFinalization {
        SafeStopsPush(s.log, INVESTIGATION_COMPLETED);
        SafeStopsPush(s.log + [INVESTIGATION_COMPLETED], FINALIZATION_STARTED);
      } else {
        SafeStopsPush(s.log, n.log[|s.log|]);
      }
    }
  }

  /** Late and repeated proxy callbacks are harmless: a run ends exactly as it does without them, and every
      callback that is not late has logged its own safe stop. */
  lemma {:induction false} LateCallbacksChangeNothing(s: Status, calls: seq<Call>)
    requires s.log == []
    ensures AfterAll(s, WithoutLate(s, calls)) == AfterAll(s, calls)
    ensures Callbacks(WithoutLate(s, calls)) <= SafeStops(AfterAll(s, calls).log)
  {
    if calls != [] {
      var init, c := calls[..|calls| - 1], calls[|calls| - 1];
      LateCallbacksChangeNothing(s, init);
      SafeStopsStep(AfterAll(s, init), c);
      hide After, SafeStops;
      if c == SafeStopIfPausing && AfterAll(s, init).state != PAUSING {
        LateIsSilent(AfterAll(s, init));
      } else {
        assert (WithoutLate(s, init) + [c])[..|WithoutLate(s, init)|] == WithoutLate(s, init);
      }
    }
  }

  lemma LateIsSilent(s: Status)
    requires s.state != PAUSING
    ensures After(s, SafeStopIfPausing) == s
  {
  }

  // ----------------------------------------------------------------- the class

  /** What the log says is so: it replays to the state and to the turns, and names the end once. */
  ghost predicate LogTellsAll(first: TaskState, firstTurns: seq<Turn>, s: Status) {
    s.state == Replay(first, s.log) && s.turns == TurnsTold(firstTurns, s.log) &&
    (!Terminal(first) ==> Ends(s.log) == (if Terminal(s.state) then 1 else 0))
  }

  lemma CallKeepsLog(first: TaskState, firstTurns: seq<Turn>, s: Status, c: Call)
    requires LogTellsAll(first, firstTurns, s)
    ensures LogTellsAll(first, firstTurns, After(s, c))
  {
    StepReplays(Status(first, [], firstTurns), s, c);
    if !Terminal(first) { StepEnds(s, c); }
  }

  class TaskController {
    var state: TaskState
    var log: seq<Event>
    var turns: seq<Turn>
    ghost const first: TaskState
    ghost const firstTurns: seq<Turn>

    ghost function View(): Status
      reads this
    {
      Status(state, log, turns)
    }

    /** At every release of the controller's lock the event log alone gives the state and the turns. */
    ghost predicate Valid()
      reads this
    {
      LogTellsAll(first, firstTurns, View())
    }

    constructor (state: TaskState, turns: seq<Turn>)
      ensures Valid() && View() == Status(state, [], turns) && first == state && firstTurns == turns
    {
      this.state, this.turns, log := state, turns, [];
      first, firstTurns := state, turns;
    }

    /** `Task.transition`: staying is silent, a move outside the table raises. */
    method Transition(target: TaskState) returns (ok: bool)
      modifies this`state
      ensures ok == (target == old(state) || Allowed(old(state), target))
      ensures state == (if ok then target else old(state))
    {
      if target == state {
        return true;
      }
      if !Allowed(state, target) {
        return false;
      }
      state := target;
      return true;
    }

    method EmitCreated()
      requires Valid()
      modifies this
      ensures View() == After(old(View()), Created)
      ensures state == old(state) && log == old(log) + [TASK_CREATED] && turns == old(turns)
      ensures Valid()
    {
      hide LogTellsAll;
      CallKeepsLog(first, firstTurns, View(), Created);
      log := log + [TASK_CREATED];
    }

    method StartTask() returns (ok: bool)
      requires Valid()
      modifies this
      ensures View() == After(old(View()), Start) && ok == Accepts(old(state), Start)
      ensures ok <==> old(state) in {CREATED, RUNNING, PAUSED}
      ensures ok ==> state == RUNNING && log == old(log) + [TASK_STARTED] && turns == old(turns)
      ensures !ok ==> View() == old(View())
      ensures Valid()
    {
      hide LogTellsAll;
      CallKeepsLog(first, firstTurns, View(), Start);
      ok := Transition(RUNNING);
      if !ok {
        return;
      }
      log := log + [TASK_STARTED];
    }

    method SteerTask() returns (ok: bool)
      requires Valid()
      modifies this
      ensures View() == After(old(View()), Steer) && ok == Accepts(old(state), Steer)
      ensures ok <==> old(state) in {RUNNING, PAUSED}
      ensures ok ==>
        state == old(state) && log == old(log) + [USER_STEER(|turns|)] &&
        turns == old(turns) + [Turn(|turns|, STEER)]
      ensures !ok ==> View() == old(View())
      ensures Valid()
    {
      hide LogTellsAll;
      CallKeepsLog(first, firstTurns, View(), Steer);
      if state != RUNNING && state != PAUSED {
        return false;
      }
      var turn := AppendTurn(STEER);
      log := log + [USER_STEER(turn)];
      return true;
    }

    method AppendTurn(kind: TurnKind) returns (index: nat)
      modifies this`turns
      ensures turns == old(turns) + [Turn(|old(turns)| + 1, kind)] && index == |old(turns)| + 1
    {
      index := |turns| + 1;
      turns := turns + [Turn(index, kind)];
    }

    method RequestStopTask() returns (ok: bool)
      requires Valid()
      modifies this
      ensures View() == After(old(View()), RequestStop) && ok == Accepts(old(state), RequestStop)
      ensures ok <==> old(state) == RUNNING
      ensures ok ==> state == PAUSING && log == old(log) + [USER_STOP] && turns == old(turns) + [Turn(|turns|, STOP)]
      ensures !ok ==> View() == old(View())
      ensures Valid()
    {
      hide LogTellsAll;
      CallKeepsLog(first, firstTurns, View(), RequestStop);
      if state != RUNNING {
        return false;
      }
      var turn := AppendTurn(STOP);
      ok := Transition(PAUSING);
      log := log + [USER_STOP];
    }

    method SafeStopTask() returns (ok: bool)
      requires Valid()
      modifies this
      ensures View() == After(old(View()), SafeStop) && ok == Accepts(old(state), SafeStop)
      ensures ok <==> old(state) == PAUSING
      ensures ok ==> state == PAUSED && log == old(log) + [SAFE_STOP] && turns == old(turns)
      ensures !ok ==> View() == old(View())
      ensures Valid()
    {
      hide LogTellsAll;
      CallKeepsLog(first, firstTurns, View(), SafeStop);
      if state != PAUSING {
        return false;
      }
      SafeStopLocked();
      return true;
    }

    /** True when this callback was the one that paused the task. */
    method SafeStopIfPausingTask() returns (paused: bool)
      requires Valid()
      modifies this
      ensures View() == After(old(View()), SafeStopIfPausing) && paused == (old(state) == PAUSING)
      ensures paused ==> state == PAUSED && log == old(log) + [SAFE_STOP] && turns == old(turns)
      ensures !paused ==> View() == old(View())
      ensures Valid()
    {
      hide LogTellsAll;
      CallKeepsLog(first, firstTurns, View(), SafeStopIfPausing);
      if state != PAUSING {
        return false;
      }
      SafeStopLocked();
      return true;
    }

    method SafeStopLocked()
      requires state == PAUSING
      modifies this
      ensures View() == Emit(old(View()).(state := PAUSED), SAFE_STOP)
    {
      var ok := Transition(PAUSED);
      log := log + [SAFE_STOP];
    }

    method ResumeTask() returns (ok: bool)
      requires Valid()
      modifies this
      ensures View() == After(old(View()), Resume) && ok == Accepts(old(state), Resume)
      ensures ok <==> old(state) == PAUSED
      ensures ok ==>
        state == RUNNING && log == old(log) + [USER_RESUME(|turns|)] &&
        turns == old(turns) + [Turn(|turns|, RESUME)]
      ensures !ok ==> View() == old(View())
      ensures Valid()
    {
      hide LogTellsAll;
      CallKeepsLog(first, firstTurns, View(), Resume);
      if state != PAUSED {
        return false;
      }
      var turn := AppendTurn(RESUME);
      ok := Transition(RUNNING);
      log := log + [USER_RESUME(turn)];
    }

    method BeginFinalizationOfTask() returns (ok: bool)
      requires Valid()
      modifies this
      ensures View() == After(old(View()), BeginFinalization) && ok == Accepts(old(state), BeginFinalization)
      ensures ok <==> old(state) == RUNNING
      ensures ok ==>
        state == FINALIZING && turns == old(turns) &&
        log == old(log) + [INVESTIGATION_COMPLETED, FINALIZATION_STARTED]
      ensures !ok ==> View() == old(View())
      ensures Valid()
    {
      hide LogTellsAll;
      CallKeepsLog(first, firstTurns, View(), BeginFinalization);
      if state != RUNNING {
        return false;
      }
      log := log + [INVESTIGATION_COMPLETED];
      ok := Transition(FINALIZING);
      log := log + [FINALIZATION_STARTED];
    }

    method FinalizationCompletedOfTask() returns (ok: bool)
      requires Valid()
      modifies this
      ensures View() == After(old(View()), FinalizationCompleted) && ok == Accepts(old(state), FinalizationCompleted)
      ensures ok <==> old(state) == FINALIZING
      ensures ok ==> state == old(state) && log == old(log) + [FINALIZATION_COMPLETED] && turns == old(turns)
      ensures !ok ==> View() == old(View())
      ensures Valid()
    {
      hide LogTellsAll;
      CallKeepsLog(first, firstTurns, View(), FinalizationCompleted);
      if state != FINALIZING {
        return false;
      }
      log := log + [FINALIZATION_COMPLETED];
      return true;
    }

    method CompleteTask() returns (ok: bool)
      requires Valid()
      modifies this
      ensures View() == After(old(View()), Complete) && ok == Accepts(old(state), Complete)
      ensures ok <==> old(state) in {RUNNING, FINALIZING}
      ensures ok ==> state == COMPLETED && log == old(log) + [TASK_COMPLETED] && turns == old(turns)
      ensures !ok ==> View() == old(View())
      ensures Valid()
    {
      hide LogTellsAll;
      CallKeepsLog(first, firstTurns, View(), Complete);
      if state != RUNNING && state != FINALIZING {
        return false;
      }
      ok := Transition(COMPLETED);
      log := log + [TASK_COMPLETED];
    }

    method FailTask()
      requires Valid()
      modifies this
      ensures View() == After(old(View()), Fail)
      ensures old(state) in {COMPLETED, FAILED, CANCELLED} ==> View() == old(View())
      ensures old(state) !in {COMPLETED, FAILED, CANCELLED} ==>
        state == FAILED && log == old(log) + [TASK_FAILED] && turns == old(turns)
      ensures Valid()
    {
      hide LogTellsAll;
      CallKeepsLog(first, firstTurns, View(), Fail);
      if Terminal(state) {
        return;
      }
      var ok := Transition(FAILED);
      log := log + [TASK_FAILED];
    }

    method CancelTask()
      requires Valid()
      modifies this
      ensures View() == After(old(View()), Cancel)
      ensures old(state) in {COMPLETED, FAILED, CANCELLED} ==> View() == old(View())
      ensures old(state) !in {COMPLETED, FAILED, CANCELLED} ==>
        state == CANCELLED && log == old(log) + [TASK_CANCELLED] && turns == old(turns)
      ensures Valid()
    {
      hide LogTellsAll;
      CallKeepsLog(first, firstTurns, View(), Cancel);
      if Terminal(state) {
        return;
      }
      var ok := Transition(CANCELLED);
      log := log + [TASK_CANCELLED];
    }
  }
}
