/** What every interleaving of handlers keeps. */
module ProxyTheorems {
  import opened Sequences
  import opened Proxy

  /** What the flags of a record are in each phase. */
  predicate Agrees(r: Record) {
    match r.phase
    case Reserved => Flags(r, false, false, false)
    case Gated => Flags(r, false, false, false)
    case Scanning(_) => Flags(r, false, false, false)
    case Scanned => Flags(r, false, false, false)
    case Passed => Flags(r, true, false, false)
    case InTime => Flags(r, true, false, false)
    case Registered => Flags(r, true, true, false)
    case Streaming => Flags(r, true, true, true)
    case Ended => r.outcome.Some? && r.saved.None?
    case Persisted => r.outcome.Some? && r.saved.Some?
    case Gone => r.outcome.Some? && r.saved.Some?
  }

  predicate Flags(r: Record, passed: bool, registered: bool, forwarded: bool) {
    r.passed == passed && r.registered == registered && r.forwarded == forwarded && r.outcome.None? && r.saved.None?
  }

  /** Forwarding comes only after the hook and the registration; a stop or a local answer means it never came;
      a stored limit reason is the turn's reason. */
  predicate Sound(r: Record, reason: Option<Limit>) {
    (r.forwarded ==> r.registered) && (r.registered ==> r.passed) &&
    (r.outcome == Some(SafeStop) || r.outcome == Some(LocalTerminal) ==> !r.forwarded) &&
    (r.saved.Some? && r.saved.value.Some? ==> r.saved.value == reason)
  }

  /** One record: its number, its flags, and whether its connection is registered now. */
  predicate RecordOk(s: State, k: nat)
    requires k < |s.records|
  {
    var r := s.records[k];
    r.index == k + 1 && Agrees(r) && Sound(r, s.reason) && (k in s.connections <==> r.registered && !r.phase.Gone?)
  }

  ghost predicate Inv(s: State) {
    |s.records| <= s.max && (forall k :: 0 <= k < |s.records| ==> RecordOk(s, k)) &&
    (forall k :: k in s.connections ==> k < |s.records|) &&
    (s.reason == Some(ModelRequests) ==> |s.records| == s.max)
  }

  // ----------------------------------------------------------------- one step

  lemma OwnRecordOk(s: State, step: Step)
    requires Inv(s) && !Shared(step) && Enabled(s, step)
    ensures RecordOk(Apply(s, step), step.k)
  {
    assert RecordOk(s, step.k);
  }

  lemma OtherRecordOk(s: State, step: Step, j: nat)
    requires Inv(s) && !Shared(step) && Enabled(s, step) && j < |s.records| && j != step.k
    ensures Apply(s, step).records[j] == s.records[j] && RecordOk(Apply(s, step), j)
  {
    hide Agrees, NewRecord;
    assert RecordOk(s, j);
  }

  /** Every step keeps the invariant. */
  lemma StepKeepsInv(s: State, step: Step)
    requires Inv(s) && Enabled(s, step)
    ensures Inv(Apply(s, step))
  {
    var n := Apply(s, step);
    if Shared(step) {
      hide Agrees;
      forall j | 0 <= j < |s.records| ensures RecordOk(n, j) {
        assert RecordOk(s, j);
      }
      if |n.records| > |s.records| { NextRecordOk(s); }
    } else {
      forall j | 0 <= j < |n.records| ensures RecordOk(n, j) {
        if j == step.k { OwnRecordOk(s, step); } else { OtherRecordOk(s, step, j); }
      }
      hide Agrees, NewRecord, RecordOk;
    }
  }

  lemma NextRecordOk(s: State)
    requires Inv(s) && !s.stopping && |s.records| < s.max
    ensures RecordOk(Reserving(s, false), |s.records|)
  {
  }

  // ----------------------------------------------------------------- what each step decides

  /** Handler `k` is over with this outcome; everything else about its record stays. */
  predicate EndsWith(s: State, t: State, k: nat, outcome: Outcome) {
    k < |s.records| == |t.records| && t.records[k] == s.records[k].(phase := Ended, outcome := Some(outcome))
  }

  /** Handler `k` goes on to `phase`. */
  predicate GoesOn(s: State, t: State, k: nat, phase: Phase) {
    k < |s.records| == |t.records| && t.records[k].phase == phase && t.records[k].outcome.None?
  }

  function FirstReason(s: State, limit: Limit): Option<Limit> {
    if s.reason == None then Some(limit) else s.reason
  }

  /** A new request: refused for a stop, a passed deadline or a used-up budget, in this order; the latter two set the
      limit reason if there is none. */
  lemma ReserveMeaning(s: State, late: bool)
    ensures var t := Apply(s, Reserve(late));
      if s.stopping then t == s
      else if late then t == s.(reason := FirstReason(s, TurnTimeout))
      else if |s.records| >= s.max then t == s.(reason := FirstReason(s, ModelRequests))
      else t.records == s.records + [Record(|s.records| + 1, Reserved, false, false, false, None, None)] &&
           t.reason == s.reason && t.connections == s.connections
  {
  }

  /** The gate: an invalid request is refused as such, a valid one once a stop is requested; the first one it stops
      is the boundary. */
  lemma GateMeaning(s: State, k: nat, valid: bool)
    requires Enabled(s, Gate(k, valid)) && Inv(s)
    ensures var t := Apply(s, Gate(k, valid));
      if !valid then EndsWith(s, t, k, Policy) && t.reached == s.reached
      else if s.requested || s.reached.Some? then
        EndsWith(s, t, k, SafeStop) && t.reached == if s.reached.Some? then s.reached else Some(k + 1)
      else GoesOn(s, t, k, Gated) && t.reached == s.reached
  {
    assert RecordOk(s, k);
  }

  /** The rest of the hook: what the scan leaves known, and the local answer. */
  lemma HookMeaning(s: State, k: nat, found: Option<Fact>)
    requires Inv(s) && k < |s.records|
    ensures Enabled(s, ScanStart(k)) ==>
      GoesOn(s, Apply(s, ScanStart(k)), k, Scanning(s.noData == None)) && Apply(s, ScanStart(k)).noData == s.noData
    ensures Enabled(s, ScanEnd(k, found)) ==>
      GoesOn(s, Apply(s, ScanEnd(k, found)), k, Scanned) &&
      Apply(s, ScanEnd(k, found)).noData ==
        (if s.records[k].phase == Scanning(true) && found.Some? then found else s.noData)
    ensures Enabled(s, Decide(k)) ==>
      if s.noData.Some? then EndsWith(s, Apply(s, Decide(k)), k, LocalTerminal)
      else GoesOn(s, Apply(s, Decide(k)), k, Passed)
  {
    hide Inv;
    RecordIsOk(s, k);
  }

  lemma RecordIsOk(s: State, k: nat)
    requires Inv(s) && k < |s.records|
    ensures RecordOk(s, k)
  {
  }

  /** The rest of the handler: the second look at the deadline, and the registration. */
  lemma HandlerMeaning(s: State, k: nat, late: bool)
    requires Inv(s) && k < |s.records|
    ensures Enabled(s, Recheck(k, late)) ==>
      if late then
        EndsWith(s, Apply(s, Recheck(k, late)), k, Policy) &&
        Apply(s, Recheck(k, late)).reason == FirstReason(s, TurnTimeout)
      else GoesOn(s, Apply(s, Recheck(k, late)), k, InTime) && Apply(s, Recheck(k, late)).reason == s.reason
    ensures Enabled(s, Register(k)) ==>
      if s.stopping then EndsWith(s, Apply(s, Register(k)), k, SafeStop)
      else GoesOn(s, Apply(s, Register(k)), k, Registered)
  {
    hide Inv;
    RecordIsOk(s, k);
  }

  /** How a response ends; a deadline met while streaming sets the reason if there is none. */
  lemma EndMeaning(s: State, k: nat, late: bool, outcome: Outcome)
    requires Inv(s) && k < |s.records|
    ensures Enabled(s, StreamEnd(k, late, outcome)) ==>
      EndsWith(s, Apply(s, StreamEnd(k, late, outcome)), k, outcome) &&
      Apply(s, StreamEnd(k, late, outcome)).reason == if late then FirstReason(s, TurnTimeout) else s.reason
    ensures Enabled(s, Fail(k)) ==>
      EndsWith(s, Apply(s, Fail(k)), k, ProxyError) && Apply(s, Fail(k)).reason == s.reason
    ensures Enabled(s, Persist(k)) ==> Apply(s, Persist(k)).records[k].saved == Some(s.reason)
    ensures Apply(s, RequestStop) == s.(requested := s.requested || s.reached.None?)
  {
    hide Inv;
    RecordIsOk(s, k);
  }

  // ----------------------------------------------------------------- whole runs

  /** The states a run passes through, each step enabled where it is taken. */
  ghost predicate Run(states: seq<State>, steps: seq<Step>) {
    |states| == |steps| + 1 &&
    forall k :: 0 <= k < |steps| ==> Enabled(states[k], steps[k]) && states[k + 1] == Apply(states[k], steps[k])
  }

  /** What one step, and so any run, never takes back. */
  ghost predicate Later(s: State, t: State) {
    t.max == s.max && (s.stopping ==> t.stopping) && (s.reason.Some? ==> t.reason == s.reason) &&
    (s.reached.Some? ==> t.reached == s.reached) && (s.noData.Some? ==> t.noData.Some?) &&
    |s.records| <= |t.records| && (s.stopping ==> |t.records| == |s.records|) &&
    (forall k :: 0 <= k < |s.records| ==> RecordLater(s, s.records[k], t.records[k])) &&
    (forall k :: |s.records| <= k < |t.records| ==> RecordNew(s, t.records[k]))
  }

  /** Still before the gate, or refused there. */
  predicate BeforeGate(r: Record) {
    !r.passed && (r.phase.Reserved? || r.outcome.Some?)
  }

  /** Flags are only raised; an ended record keeps its outcome and flags; after a stop none is registered, after
      the no-data answer none passes the hook, after the gate was reached none that was still before it. */
  predicate RecordLater(s: State, a: Record, b: Record) {
    a.index == b.index && (a.passed ==> b.passed) && (a.registered ==> b.registered) &&
    (a.forwarded ==> b.forwarded) && (a.saved.Some? ==> b.saved == a.saved) &&
    (a.outcome.Some? ==> b.outcome == a.outcome && b.passed == a.passed && b.registered == a.registered &&
                         b.forwarded == a.forwarded) &&
    (s.stopping && b.registered ==> a.registered) && (s.noData.Some? && b.passed ==> a.passed) &&
    (s.reached.Some? && a.phase.Reserved? ==> BeforeGate(b))
  }

  predicate RecordNew(s: State, b: Record) {
    (s.noData.Some? ==> !b.passed) && (s.reached.Some? ==> BeforeGate(b))
  }

  lemma StepIsLater(s: State, step: Step)
    requires Inv(s) && Enabled(s, step)
    ensures Later(s, Apply(s, step))
  {
    var n := Apply(s, step);
    forall k | 0 <= k < |s.records| ensures RecordLater(s, s.records[k], n.records[k]) {
      assert RecordOk(s, k);
      if Shared(step) || k != step.k {
        assert n.records[k] == s.records[k];
      } else {
        OwnRecordLater(s, step);
      }
    }
  }

  lemma OwnRecordLater(s: State, step: Step)
    requires Inv(s) && !Shared(step) && Enabled(s, step) && RecordOk(s, step.k)
    ensures RecordLater(s, s.records[step.k], NewRecord(s, step))
  {
    hide Inv;
  }

  lemma LaterIsTransitive(s: State, t: State, u: State)
    requires Later(s, t) && Later(t, u)
    ensures Later(s, u)
  {
    forall k | 0 <= k < |s.records| ensures RecordLater(s, s.records[k], u.records[k]) {
      assert RecordLater(s, s.records[k], t.records[k]) && RecordLater(t, t.records[k], u.records[k]);
    }
    forall k | |s.records| <= k < |u.records| ensures RecordNew(s, u.records[k]) {
      if k < |t.records| {
        assert RecordNew(s, t.records[k]) && RecordLater(t, t.records[k], u.records[k]);
      }
    }
  }

  lemma {:induction false} RunIsLater(states: seq<State>, steps: seq<Step>)
    requires Run(states, steps) && Inv(states[0])
    ensures Inv(states[|steps|]) && Later(states[0], states[|steps|])
    decreases |steps|
  {
    hide Inv, Later, Enabled, Apply;
    if steps == [] {
      LaterIsReflexive(states[0]);
    } else {
      var n := |steps| - 1;
      assert Run(states[..n + 1], steps[..n]);
      RunIsLater(states[..n + 1], steps[..n]);
      assert states[..n + 1][n] == states[n] && states[..n + 1][0] == states[0];
      StepKeepsInv(states[n], steps[n]);
      StepIsLater(states[n], steps[n]);
      LaterIsTransitive(states[0], states[n], states[n + 1]);
    }
  }

  lemma LaterIsReflexive(s: State)
    requires Inv(s)
    ensures Later(s, s)
  {
    forall k | 0 <= k < |s.records| ensures RecordLater(s, s.records[k], s.records[k]) {
      assert RecordOk(s, k);
    }
  }

  /** Every reachable state: at most `max` records, numbered 1..n, a forwarded request passed the hook and was
      registered, and one stopped or answered locally was not forwarded. */
  lemma EveryRunKeepsTheBudget(max: nat, states: seq<State>, steps: seq<Step>, k: nat)
    requires Run(states, steps) && states[0] == Init(max)
    ensures Inv(states[|steps|]) && |states[|steps|].records| <= max
    ensures k < |states[|steps|].records| ==>
      states[|steps|].records[k].index == k + 1 && Sound(states[|steps|].records[k], states[|steps|].reason)
  {
    RunIsLater(states, steps);
    if k < |states[|steps|].records| { assert RecordOk(states[|steps|], k); }
  }

  /** Once the proxy is stopping nothing more is accepted, and a request whose connection was not registered
      before is never forwarded. */
  lemma StoppingForwardsNothingNew(states: seq<State>, steps: seq<Step>, k: nat)
    requires Run(states, steps) && Inv(states[0]) && states[0].stopping
    requires k < |states[|steps|].records|
    ensures |states[|steps|].records| == |states[0].records|
    ensures !states[0].records[k].registered ==> !states[|steps|].records[k].forwarded
  {
    RunIsLater(states, steps);
    assert RecordOk(states[|steps|], k) && RecordLater(states[0], states[0].records[k], states[|steps|].records[k]);
  }

  /** A request the hook has refused, or that ended for any other reason, is never forwarded afterwards. */
  lemma EndedIsNeverForwarded(states: seq<State>, steps: seq<Step>, k: nat)
    requires Run(states, steps) && Inv(states[0])
    requires k < |states[0].records| && states[0].records[k].outcome.Some?
    ensures k < |states[|steps|].records|
    ensures states[|steps|].records[k].outcome == states[0].records[k].outcome
    ensures states[|steps|].records[k].forwarded == states[0].records[k].forwarded
    ensures !states[0].records[k].passed ==> !states[|steps|].records[k].forwarded
  {
    RunIsLater(states, steps);
    assert RecordOk(states[|steps|], k) && RecordLater(states[0], states[0].records[k], states[|steps|].records[k]);
  }

  /** The no-data answer is sticky: what is forwarded from then on had passed the hook before. */
  lemma NoDataLetsNothingThrough(states: seq<State>, steps: seq<Step>, k: nat)
    requires Run(states, steps) && Inv(states[0]) && states[0].noData.Some?
    requires k < |states[|steps|].records| && states[|steps|].records[k].forwarded
    ensures states[|steps|].noData.Some?
    ensures k < |states[0].records| && states[0].records[k].passed
  {
    RunIsLater(states, steps);
    assert RecordOk(states[|steps|], k);
    assert k >= |states[0].records| ==> RecordNew(states[0], states[|steps|].records[k]);
    assert k < |states[0].records| ==> RecordLater(states[0], states[0].records[k], states[|steps|].records[k]);
  }

  /** A finding is kept, whatever else happens, and the request in which it was found is never forwarded. */
  lemma FindingStopsItsRequest(states: seq<State>, steps: seq<Step>, i: nat, k: nat, f: Fact)
    requires Run(states, steps) && Inv(states[0]) && i < |steps| && steps[i] == ScanEnd(k, Some(f))
    requires k < |states[i].records| && states[i].records[k].phase == Scanning(true)
    ensures forall j :: i < j < |states| ==> states[j].noData.Some?
    ensures forall j :: i < j < |states| ==> k < |states[j].records| && !states[j].records[k].forwarded
  {
    RunPart(states, steps, 0, i);
    StepKeepsInv(states[i], steps[i]);
    var t := states[i + 1];
    assert RecordOk(t, k) && t.noData == Some(f) && t.records[k].phase == Scanned;
    forall j | i < j < |states|
      ensures states[j].noData.Some? && k < |states[j].records| && !states[j].records[k].forwarded
    {
      RunPart(states, steps, i + 1, j);
      var part := states[i + 1..j + 1];
      assert part[0] == t && part[j - i - 1] == states[j];
      RunIsLater(part, steps[i + 1..j]);
      if states[j].records[k].forwarded { NoDataLetsNothingThrough(part, steps[i + 1..j], k); }
    }
  }

  lemma RunPart(states: seq<State>, steps: seq<Step>, a: nat, b: nat)
    requires Run(states, steps) && a <= b < |states| && Inv(states[0])
    ensures Run(states[a..b + 1], steps[a..b]) && Inv(states[a]) && Inv(states[b])
  {
    assert Run(states[..a + 1], steps[..a]);
    RunIsLater(states[..a + 1], steps[..a]);
    assert Run(states[..b + 1], steps[..b]);
    RunIsLater(states[..b + 1], steps[..b]);
  }

  /** Once a stop is requested, or has been reached, every valid request that comes to the gate is stopped there and
      none that came to the gate since is ever forwarded. */
  lemma RequestedStopIsHonoured(states: seq<State>, steps: seq<Step>, i: nat, j: nat, k: nat)
    requires Run(states, steps) && Inv(states[0]) && i <= j < |steps| && steps[j] == Gate(k, true)
    requires states[i].requested || states[i].reached.Some?
    ensures states[j + 1].records[k].outcome == Some(SafeStop) && states[j + 1].reached.Some?
    ensures k < |states[|steps|].records| && !states[|steps|].records[k].forwarded
  {
    RunPart(states, steps, i, j);
    RequestStays(states[i..j + 1], steps[i..j]);
    assert states[i..j + 1][0] == states[i] && states[i..j + 1][j - i] == states[j];
    GateMeaning(states[j], k, true);
    assert RecordOk(states[j], k);
    RunPart(states, steps, j + 1, |steps|);
    var rest := states[j + 1..|steps| + 1];
    assert rest[0] == states[j + 1] && rest[|steps| - j - 1] == states[|steps|];
    EndedIsNeverForwarded(rest, steps[j + 1..|steps|], k);
  }

  lemma {:induction false} RequestStays(states: seq<State>, steps: seq<Step>)
    requires Run(states, steps) && (states[0].requested || states[0].reached.Some?)
    ensures states[|steps|].requested || states[|steps|].reached.Some?
    decreases |steps|
  {
    if steps != [] {
      var n := |steps| - 1;
      assert states[..n + 1][0] == states[0] && states[..n + 1][n] == states[n];
      assert Run(states[..n + 1], steps[..n]);
      RequestStays(states[..n + 1], steps[..n]);
      hide NewRecord, NewNoData, NewReason, NewConnections;
    }
  }

  /** So is the safe stop: the boundary stays, and what is forwarded from then on was past the gate before. */
  lemma SafeStopLetsNothingThrough(states: seq<State>, steps: seq<Step>, k: nat)
    requires Run(states, steps) && Inv(states[0]) && states[0].reached.Some?
    requires k < |states[|steps|].records| && states[|steps|].records[k].forwarded
    ensures states[|steps|].reached == states[0].reached
    ensures k < |states[0].records| && !states[0].records[k].phase.Reserved?
  {
    RunIsLater(states, steps);
    assert RecordOk(states[|steps|], k);
    assert k >= |states[0].records| ==> RecordNew(states[0], states[|steps|].records[k]);
    assert k < |states[0].records| ==> RecordLater(states[0], states[0].records[k], states[|steps|].records[k]);
  }

  /** The limit reason is written once, and what a record stored of it is that reason. */
  lemma ReasonIsWrittenOnce(states: seq<State>, steps: seq<Step>, k: nat)
    requires Run(states, steps) && Inv(states[0]) && k < |states[0].records|
    ensures states[0].reason.Some? ==> states[|steps|].reason == states[0].reason
    ensures states[0].records[k].saved.Some? && states[0].records[k].saved.value.Some? ==>
      states[|steps|].reason == states[0].records[k].saved.value
    ensures states[|steps|].reason == Some(ModelRequests) ==> |states[|steps|].records| == states[|steps|].max
  {
    RunIsLater(states, steps);
    assert RecordOk(states[0], k);
  }

  // ----------------------------------------------------------------- streaming under interference

  lemma {:induction false} OthersKeepInv(s: State, k: nat, steps: seq<Step>)
    requires Inv(s) && k < |s.records|
    ensures Inv(Others(s, k, steps)) && Later(s, Others(s, k, steps))
  {
    hide Inv, Later, Apply, Enabled;
    if steps == [] {
      LaterIsReflexive(s);
    } else {
      var before, step := Others(s, k, steps[..|steps| - 1]), steps[|steps| - 1];
      OthersKeepInv(s, k, steps[..|steps| - 1]);
      if Enabled(before, step) && (Shared(step) || step.k != k) {
        StepKeepsInv(before, step);
        StepIsLater(before, step);
        LaterIsTransitive(s, before, Apply(before, step));
      }
    }
  }

  /** Whatever the others do meanwhile, the invariant is kept and nothing is taken back. */
  lemma {:induction false} StreamKeepsInv(s: State, k: nat, rounds: seq<Round>, count: nat, limit: nat)
    requires Inv(s) && k < |s.records| && s.records[k].phase.Streaming?
    ensures var t := Streamed(s, k, rounds, count, limit).0; Inv(t) && Later(s, t)
    decreases |rounds|
  {
    hide Inv, Later, OneRound;
    if rounds == [] {
      LaterIsReflexive(s);
    } else {
      var (t, ending) := OneRound(s, k, rounds[0], count, limit);
      RoundKeepsInv(s, k, rounds[0], count, limit);
      if ending.None? {
        StreamKeepsInv(t, k, rounds[1..], count + rounds[0].read.n, limit);
        LaterIsTransitive(s, t, Streamed(t, k, rounds[1..], count + rounds[0].read.n, limit).0);
      }
    }
  }

  lemma {:induction false} RoundKeepsInv(s: State, k: nat, round: Round, count: nat, limit: nat)
    requires Inv(s) && k < |s.records| && s.records[k].phase.Streaming?
    ensures var t := OneRound(s, k, round, count, limit).0; Inv(t) && Later(s, t)
  {
    hide Inv, Later, Apply;
    var t := Others(s, k, round.before);
    var u := Others(t, k, round.between);
    var v := Others(u, k, round.reading);
    OthersKeepInv(s, k, round.before);
    OthersKeepInv(t, k, round.between);
    OthersKeepInv(u, k, round.reading);
    LaterIsTransitive(s, t, u);
    LaterIsTransitive(s, u, v);
    hide Others;
    if t.stopping {
      EndKeepsInv(s, t, StreamEnd(k, false, ProxyError));
    } else if round.late {
      EndKeepsInv(s, u, StreamEnd(k, true, ProxyError));
    } else if round.read.Broken? {
      EndKeepsInv(s, v, StreamEnd(k, false, ProxyError));
    } else if round.read.EndOfData? {
      EndKeepsInv(s, v, StreamEnd(k, false, Complete));
    } else if count + round.read.n > limit {
      EndKeepsInv(s, v, StreamEnd(k, false, Policy));
    }
  }

  lemma EndKeepsInv(s: State, t: State, end: Step)
    requires Inv(t) && Later(s, t) && Enabled(t, end)
    ensures Inv(Apply(t, end)) && Later(s, Apply(t, end))
  {
    hide Inv, Later, Apply, Enabled;
    StepKeepsInv(t, end);
    StepIsLater(t, end);
    LaterIsTransitive(s, t, Apply(t, end));
  }

  lemma StepStopIff(s: State, step: Step)
    requires Enabled(s, step)
    ensures Apply(s, step).stopping <==> s.stopping || step == Cancel
  {
    hide NewRecord, NewReached, NewNoData, NewReason, NewConnections;
  }

  /** The others stop the proxy exactly by a `cancel`. */
  lemma {:induction false} OthersStopIff(s: State, k: nat, steps: seq<Step>)
    requires k < |s.records|
    ensures Others(s, k, steps).stopping <==> s.stopping || Cancel in steps
  {
    if steps != [] {
      var init, last := steps[..|steps| - 1], steps[|steps| - 1];
      OthersStopIff(s, k, init);
      assert steps == init + [last];
      var before := Others(s, k, init);
      assert Enabled(before, Cancel);
      hide Apply, Enabled;
      if Enabled(before, last) && (Shared(last) || last.k != k) { StepStopIff(before, last); }
    }
  }

  /** Where a stream ends that goes on after its first round. */
  lemma {:induction false} EndsLater(s: State, v: State, rounds: seq<Round>, count: nat, limit: nat, i: nat)
    requires rounds != [] && rounds[0].read.Bytes? && !rounds[0].late && count + rounds[0].read.n <= limit
    requires !s.stopping && Cancel !in rounds[0].before && (v.stopping <==> StopAfterTest(rounds[0]))
    ensures EndsIn(s, rounds, count, limit, i + 1) <==>
            EndsIn(v, rounds[1..], count + rounds[0].read.n, limit, i)
  {
    hide StopAfterTest;
    var rest := rounds[1..];
    if i < |rest| {
      assert rounds[..i + 1][0] == rounds[0] && rounds[..i + 1][1..] == rest[..i];
      assert BytesIn(rounds[..i + 1]) == rounds[0].read.n + BytesIn(rest[..i]);
      assert i == 0 ==> BytesIn(rest[..i]) == 0;
      hide BytesIn;
      var r := rounds[0];
      assert Quiet(r) <==> !v.stopping;
      if EndsIn(s, rounds, count, limit, i + 1) {
        forall j | 0 <= j < i ensures Quiet(rest[j]) && !rest[j].late && rest[j].read.Bytes? {
          assert rest[j] == rounds[j + 1];
        }
      }
      if EndsIn(v, rest, count + r.read.n, limit, i) {
        forall j | 0 <= j < i + 1 ensures Quiet(rounds[j]) && !rounds[j].late && rounds[j].read.Bytes? {
          assert j > 0 ==> rounds[j] == rest[j - 1];
        }
      }
    }
  }
  /** Where a stream ends that does not go on after its first round. */
  lemma EndsAtOnce(s: State, stopped: bool, rounds: seq<Round>, count: nat, limit: nat)
    requires rounds != [] && (stopped <==> s.stopping || Cancel in rounds[0].before)
    requires stopped || rounds[0].late || !rounds[0].read.Bytes? || count + rounds[0].read.n > limit
    ensures forall i: nat :: EndsIn(s, rounds, count, limit, i) ==> i == 0
    ensures EndsIn(s, rounds, count, limit, 0) <==> !stopped && !rounds[0].late && rounds[0].read.EndOfData?
  {
    forall i: nat | 0 < i <= |rounds| && rounds[0].read.Bytes?
      ensures BytesIn(rounds[..i]) >= rounds[0].read.n
    {
      assert rounds[..i][0] == rounds[0];
    }
  }

  /** A response is complete exactly when some round reads the end of the data and no stop came before the stop
      test of that round; the proxy is then stopping exactly when a stop came after that test. */
  ghost predicate CompletionMeans(s: State, t: State, ending: Option<Outcome>, rounds: seq<Round>, count: nat,
                                  limit: nat)
  {
    (ending == Some(Complete) <==> exists i: nat :: EndsIn(s, rounds, count, limit, i)) &&
    (ending == Some(Complete) && t.stopping <==>
       exists i: nat :: EndsIn(s, rounds, count, limit, i) && StopAfterTest(rounds[i]))
  }

  /** One round: when it completes the response, when it goes on, and when the proxy is stopping then. */
  lemma {:induction false} RoundMeaning(s: State, k: nat, round: Round, count: nat, limit: nat)
    requires k < |s.records| && s.records[k].phase.Streaming?
    ensures var (t, ending) := OneRound(s, k, round, count, limit); var stopped := s.stopping || Cancel in round.before;
      (ending == Some(Complete) <==> !stopped && !round.late && round.read.EndOfData?) &&
      (ending.None? <==> !stopped && !round.late && round.read.Bytes? && count + round.read.n <= limit) &&
      (ending.None? || ending == Some(Complete) ==> (t.stopping <==> StopAfterTest(round)))
  {
    var t := Others(s, k, round.before);
    var u := Others(t, k, round.between);
    OthersStopIff(s, k, round.before);
    OthersStopIff(t, k, round.between);
    OthersStopIff(u, k, round.reading);
    hide Others;
  }

  lemma {:induction false} WhereItEnds(s: State, k: nat, rounds: seq<Round>, count: nat, limit: nat)
    requires k < |s.records| && s.records[k].phase.Streaming?
    ensures Streamed(s, k, rounds, count, limit).1 == Some(Complete) <==>
            exists i: nat :: EndsIn(s, rounds, count, limit, i)
    ensures forall i: nat :: EndsIn(s, rounds, count, limit, i) ==>
      (Streamed(s, k, rounds, count, limit).0.stopping <==> StopAfterTest(rounds[i]))
    decreases |rounds|
  {
    hide OneRound, StopAfterTest;
    if rounds != [] {
      var round := rounds[0];
      RoundMeaning(s, k, round, count, limit);
      var (t, ending) := OneRound(s, k, round, count, limit);
      if ending.None? {
        var rest, more := rounds[1..], count + round.read.n;
        WhereItEnds(t, k, rest, more, limit);
        assert Streamed(s, k, rounds, count, limit) == Streamed(t, k, rest, more, limit);
        hide Streamed;
        forall i: nat ensures EndsIn(s, rounds, count, limit, i + 1) <==> EndsIn(t, rest, more, limit, i) {
          EndsLater(s, t, rounds, count, limit, i);
        }
        forall i: nat | EndsIn(s, rounds, count, limit, i)
          ensures i > 0 && EndsIn(t, rest, more, limit, i - 1) && rounds[i] == rest[i - 1]
        {
          assert EndsIn(s, rounds, count, limit, (i - 1) + 1);
        }
        hide EndsIn;
      } else {
        EndsAtOnce(s, s.stopping || Cancel in round.before, rounds, count, limit);
        hide EndsIn;
      }
    }
  }

  lemma CompleteIff(s: State, k: nat, rounds: seq<Round>, count: nat, limit: nat)
    requires k < |s.records| && s.records[k].phase.Streaming?
    ensures var (t, ending) := Streamed(s, k, rounds, count, limit);
      CompletionMeans(s, t, ending, rounds, count, limit)
  {
    hide Streamed, EndsIn, StopAfterTest;
    WhereItEnds(s, k, rounds, count, limit);
  }

  /** A stop ends the stream at its next round. */
  lemma {:induction false} StopEndsTheStream(s: State, k: nat, rounds: seq<Round>, count: nat, limit: nat)
    requires k < |s.records| && s.records[k].phase.Streaming? && s.stopping && rounds != []
    ensures Streamed(s, k, rounds, count, limit).1 == Some(ProxyError)
  {
    OthersStopIff(s, k, rounds[0].before);
    hide Others, Apply;
  }

  // ----------------------------------------------------------------- a run

  /** A round whose handler is stopped while it waits for the upstream, the closed connection reading as the end of
      the data, ends complete wherever the stream stands. */
  lemma StopWhileReadingCompletes(s: State, k: nat, count: nat, limit: nat)
    requires k < |s.records| && s.records[k].phase.Streaming? && !s.stopping
    ensures var (t, ending) := Streamed(s, k, [Round([], [], [Cancel], false, EndOfData)], count, limit);
      ending == Some(Complete) && t.stopping
  {
    var rounds := [Round([], [], [Cancel], false, EndOfData)];
    assert EndsIn(s, rounds, count, limit, 0) && StopAfterTest(rounds[0]);
    CompleteIff(s, k, rounds, count, limit);
    hide Streamed, EndsIn;
  }

  const ONE_REQUEST: seq<Step> := [
    Reserve(false), Gate(0, true), ScanStart(0), ScanEnd(0, None), Decide(0), Recheck(0, false), Register(0),
    Forward(0)]

  /** The states in which the one request of a turn is accepted, passes the hook and is forwarded. */
  function Forwarding(i: nat): State {
    if i == 0 then Init(1)
    else if i == 1 then OneRecord(Reserved, false, false)
    else if i == 2 then OneRecord(Gated, false, false)
    else if i == 3 then OneRecord(Scanning(true), false, false)
    else if i == 4 then OneRecord(Scanned, false, false)
    else if i == 5 then OneRecord(Passed, true, false)
    else if i == 6 then OneRecord(InTime, true, false)
    else if i == 7 then OneRecord(Registered, true, true)
    else OneRecord(Streaming, true, true)
  }

  function OneRecord(phase: Phase, passed: bool, registered: bool): State {
    State(1, [Record(1, phase, passed, registered, phase.Streaming?, None, None)], if registered then {0} else {},
          false, None, false, None, None)
  }

  lemma ForwardingStep(i: nat)
    requires i < |ONE_REQUEST|
    ensures Enabled(Forwarding(i), ONE_REQUEST[i])
    ensures Apply(Forwarding(i), ONE_REQUEST[i]) == Forwarding(i + 1)
  {
  }

  /** A run after which a response is recorded as complete although its turn was stopped before its end was read. */
  lemma StoppedResponseIsComplete() returns (states: seq<State>)
    ensures Run(states, ONE_REQUEST) && states[0] == Init(1)
    ensures var s := states[|ONE_REQUEST|];
      s.records != [] && s.records[0].phase.Streaming? &&
      var (t, ending) := Streamed(s, 0, [Round([], [], [Cancel], false, EndOfData)], 0, 1);
      ending == Some(Complete) && t.stopping
  {
    states := seq(|ONE_REQUEST| + 1, i requires 0 <= i => Forwarding(i));
    forall i | 0 <= i < |ONE_REQUEST|
      ensures Enabled(states[i], ONE_REQUEST[i]) && states[i + 1] == Apply(states[i], ONE_REQUEST[i])
    {
      ForwardingStep(i);
    }
    StopWhileReadingCompletes(Forwarding(8), 0, 0, 1);
    hide Streamed, Apply, Enabled;
  }
}
