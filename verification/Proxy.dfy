/**
 One turn of the model proxy, scopex/agent/model_proxy.py with the request hook of
 scopex/agent/proxy_control.py: any number of request handlers run at the same time, and each
 critical section, shared read or shared write of a handler is one step.  A handler is known by
 the position of its record, which is the first thing it shares.
 */
module Proxy {
  import opened Sequences

  type Fact = int

  datatype Limit = ModelRequests | TurnTimeout

  datatype Outcome = SafeStop | Policy | ProxyError | LocalTerminal | Complete

  /** How far the handler of a record has come. */
  datatype Phase =
    | Reserved                  // record appended
    | Gated                     // validated, and the stop gate was open
    | Scanning(sawNone: bool)   // read `no_data`, looking through the transcript
    | Scanned                   // about to test `no_data` again
    | Passed                    // the hook returned
    | InTime                    // the deadline was tested once more
    | Registered                // connection registered
    | Streaming                 // forwarded
    | Ended                     // refused, failed or complete
    | Persisted                 // record saved
    | Gone                      // connection discarded

  /** The audit record of one accepted request.  `phase`, `passed` (the hook let it through) and `registered`
      (its connection was registered) belong to the handler; `saved` is the limit reason stored with the record. */
  datatype Record = Record(index: nat, phase: Phase, passed: bool, registered: bool, forwarded: bool,
                           outcome: Option<Outcome>, saved: Option<Option<Limit>>)

  datatype State = State(
    max: nat, records: seq<Record>, connections: set<nat>, stopping: bool,
    reason: Option<Limit>, requested: bool, reached: Option<nat>, noData: Option<Fact>)

  function Init(max: nat): State {
    State(max, [], {}, false, None, false, None, None)
  }

  datatype Step =
    | Reserve(late: bool)
    | Gate(k: nat, valid: bool)
    | ScanStart(k: nat)
    | ScanEnd(k: nat, found: Option<Fact>)
    | Decide(k: nat)
    | Recheck(k: nat, late: bool)
    | Register(k: nat)
    | Forward(k: nat)
    | StreamEnd(k: nat, late: bool, ending: Outcome)
    | Fail(k: nat)
    | Persist(k: nat)
    | Discard(k: nat)
    | Cancel
    | RequestStop

  predicate Shared(step: Step) {
    step.Reserve? || step.Cancel? || step.RequestStop?
  }

  function Late(reason: Option<Limit>, limit: Limit): Option<Limit> {
    if reason.None? then Some(limit) else reason
  }

  /** Whether handler `k` stands where the step starts. */
  predicate Enabled(s: State, step: Step) {
    Shared(step) ||
    (step.k < |s.records| &&
     var r := s.records[step.k];
     match step
     case Gate(_, _) => r.phase.Reserved?
     case ScanStart(_) => r.phase.Gated?
     case ScanEnd(_, _) => r.phase.Scanning?
     case Decide(_) => r.phase.Scanned?
     case Recheck(_, _) => r.phase.Passed?
     case Register(_) => r.phase.InTime?
     case Forward(_) => r.phase.Registered?
     case StreamEnd(_, late, ending) =>
       r.phase.Streaming? && (ending.Complete? || ending.Policy? || ending.ProxyError?) && (late ==> ending.ProxyError?)
     case Fail(_) => !r.phase.Ended? && !r.phase.Persisted? && !r.phase.Gone?
     case Persist(_) => r.phase.Ended?
     case Discard(_) => r.phase.Persisted?
     case _ => true)
  }

  /** The record of the handler that takes the step, afterwards. */
  function NewRecord(s: State, step: Step): Record
    requires !Shared(step) && Enabled(s, step)
  {
    var r := s.records[step.k];
    match step
    case Gate(_, valid) =>
      if !valid then End(r, Policy) else if s.reached.Some? || s.requested then End(r, SafeStop) else r.(phase := Gated)
    case ScanStart(_) => r.(phase := Scanning(s.noData.None?))
    case ScanEnd(_, _) => r.(phase := Scanned)
    case Decide(_) => if s.noData.Some? then End(r, LocalTerminal) else r.(phase := Passed, passed := true)
    case Recheck(_, late) => if late then End(r, Policy) else r.(phase := InTime)
    case Register(_) => if s.stopping then End(r, SafeStop) else r.(phase := Registered, registered := true)
    case Forward(_) => r.(phase := Streaming, forwarded := true)
    case StreamEnd(_, _, ending) => End(r, ending)
    case Fail(_) => End(r, ProxyError)
    case Persist(_) => r.(phase := Persisted, saved := Some(s.reason))
    case Discard(_) => r.(phase := Gone)
    case _ => r
  }

  function End(r: Record, outcome: Outcome): Record {
    r.(phase := Ended, outcome := Some(outcome))
  }

  function NewReached(s: State, step: Step, r: Record): Option<nat> {
    match step
    case Gate(_, valid) => if valid && s.reached.None? && s.requested then Some(r.index) else s.reached
    case _ => s.reached
  }

  function NewNoData(s: State, step: Step, r: Record): Option<Fact> {
    match step
    case ScanEnd(_, found) => if r.phase == Scanning(true) && found.Some? then found else s.noData
    case _ => s.noData
  }

  function NewReason(s: State, step: Step): Option<Limit> {
    match step
    case Recheck(_, late) => if late then Late(s.reason, TurnTimeout) else s.reason
    case StreamEnd(_, late, _) => if late then Late(s.reason, TurnTimeout) else s.reason
    case _ => s.reason
  }

  function NewConnections(s: State, step: Step): set<nat> {
    match step
    case Register(k) => if s.stopping then s.connections else s.connections + {k}
    case Discard(k) => s.connections - {k}
    case _ => s.connections
  }

  /** The effect of one enabled step. */
  function Apply(s: State, step: Step): State
    requires Enabled(s, step)
  {
    match step
    case Reserve(late) => Reserving(s, late)
    case Cancel => s.(stopping := true)
    case RequestStop => if s.reached.Some? then s else s.(requested := true)
    case _ =>
      var r := s.records[step.k];
      s.(records := s.records[step.k := NewRecord(s, step)], reached := NewReached(s, step, r),
         noData := NewNoData(s, step, r), reason := NewReason(s, step), connections := NewConnections(s, step))
  }

  /** The first critical section: refuse, or append the next record. */
  function Reserving(s: State, late: bool): State {
    if s.stopping then s
    else if late then s.(reason := Late(s.reason, TurnTimeout))
    else if |s.records| >= s.max then s.(reason := Late(s.reason, ModelRequests))
    else s.(records := s.records + [Record(|s.records| + 1, Reserved, false, false, false, None, None)])
  }

  // ----------------------------------------------------------------- streaming

  /** What the other threads do, in order, while handler `k` is between two of its own steps. */
  function Others(s: State, k: nat, steps: seq<Step>): (t: State)
    requires k < |s.records|
    ensures k < |t.records| && t.records[k] == s.records[k]
  {
    if steps == [] then s
    else
      var before, step := Others(s, k, steps[..|steps| - 1]), steps[|steps| - 1];
      if Enabled(before, step) && (Shared(step) || step.k != k) then Apply(before, step) else before
  }

  datatype Read = Broken | EndOfData | Bytes(n: nat)

  /** One round of the streaming loop: what the others do before its stop test, between that and its deadline test,
      and while it waits for the upstream to be read; whether the deadline has passed, and what is read. */
  datatype Round = Round(before: seq<Step>, between: seq<Step>, reading: seq<Step>, late: bool, read: Read)

  /** One round of handler `k`, which has passed on `count` bytes; None while the loop goes on. */
  function OneRound(s: State, k: nat, round: Round, count: nat, limit: nat): (r: (State, Option<Outcome>))
    requires k < |s.records| && s.records[k].phase.Streaming?
    ensures r.1.None? ==> k < |r.0.records| && r.0.records[k] == s.records[k]
    ensures r.1.None? ==> round.read.Bytes? && count + round.read.n <= limit
  {
    var t := Others(s, k, round.before);
    if t.stopping then Ending(t, k, false, ProxyError)
    else
      var u := Others(t, k, round.between);
      if round.late then Ending(u, k, true, ProxyError)
      else
        var v := Others(u, k, round.reading);
        match round.read
        case Broken => Ending(v, k, false, ProxyError)
        case EndOfData => Ending(v, k, false, Complete)
        case Bytes(n) => if count + n > limit then Ending(v, k, false, Policy) else (v, None)
  }

  function Ending(s: State, k: nat, late: bool, outcome: Outcome): (State, Option<Outcome>)
    requires Enabled(s, StreamEnd(k, late, outcome))
  {
    (Apply(s, StreamEnd(k, late, outcome)), Some(outcome))
  }

  /** The streaming loop. */
  function Streamed(s: State, k: nat, rounds: seq<Round>, count: nat, limit: nat): (State, Option<Outcome>)
    requires k < |s.records| && s.records[k].phase.Streaming?
    decreases |rounds|
  {
    if rounds == [] then (s, None)
    else
      var (t, ending) := OneRound(s, k, rounds[0], count, limit);
      if ending.Some? then (t, ending) else Streamed(t, k, rounds[1..], count + rounds[0].read.n, limit)
  }

  // ----------------------------------------------------------------- when a response counts as complete

  /** No stop arrives anywhere in the round. */
  predicate Quiet(r: Round) {
    Cancel !in r.before && !StopAfterTest(r)
  }

  /** A stop arrives when the round has already tested for one. */
  predicate StopAfterTest(r: Round) {
    Cancel in r.between || Cancel in r.reading
  }

  function BytesIn(rounds: seq<Round>): nat {
    if rounds == [] then 0 else (if rounds[0].read.Bytes? then rounds[0].read.n else 0) + BytesIn(rounds[1..])
  }

  /** Round `i` reads the end of the data: no stop came before its stop test, no deadline passed, and what was read
      before is within the limit. */
  ghost predicate EndsIn(s: State, rounds: seq<Round>, count: nat, limit: nat, i: nat) {
    i < |rounds| && rounds[i].read.EndOfData? && !rounds[i].late && !s.stopping && Cancel !in rounds[i].before &&
    (forall j :: 0 <= j < i ==> Quiet(rounds[j]) && !rounds[j].late && rounds[j].read.Bytes?) &&
    (i == 0 || count + BytesIn(rounds[..i]) <= limit)
  }
}
