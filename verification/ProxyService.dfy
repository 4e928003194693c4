/** `ModelProxy` and `RuntimeRequestHook`: the shared fields and the sections that touch them. */
module ProxyService {
  import opened Sequences
  import opened Proxy
  import opened ProxyTheorems

  datatype Refusal = Stopping | Deadline | Budget

  class ModelProxy {
    const maxRequests: nat
    var records: seq<Record>
    var connections: set<nat>
    var stopping: bool
    var runtimeLimitReason: Option<Limit>
    var stopRequested: bool
    var stopReached: Option<nat>
    var noData: Option<Fact>

    ghost function View(): State
      reads this
    {
      State(maxRequests, records, connections, stopping, runtimeLimitReason, stopRequested, stopReached, noData)
    }

    constructor (maxRequests: nat)
      requires maxRequests > 0
      ensures View() == Init(maxRequests) && Inv(View())
    {
      this.maxRequests := maxRequests;
      records, connections, stopping, runtimeLimitReason := [], {}, false, None;
      stopRequested, stopReached, noData := false, None, None;
    }

    /** The first lock section of `do_POST`; the index is one more than the records before it. */
    method ReserveRecord(late: bool) returns (index: Option<nat>, refusal: Option<Refusal>)
      requires Inv(View())
      modifies this
      ensures View() == Apply(old(View()), Reserve(late)) && Inv(View())
      ensures index.Some? <==> refusal.None?
      ensures index.Some? ==>
        index.value == |old(records)| + 1 == |records| && records[..|old(records)|] == old(records)
      ensures refusal.Some? ==> records == old(records)
    {
      StepKeepsInv(View(), Reserve(late));
      if stopping {
        return None, Some(Stopping);
      }
      if late {
        if runtimeLimitReason.None? {
          runtimeLimitReason := Some(TurnTimeout);
        }
        return None, Some(Deadline);
      }
      if |records| >= maxRequests {
        if runtimeLimitReason.None? {
          runtimeLimitReason := Some(ModelRequests);
        }
        return None, Some(Budget);
      }
      var next := |records| + 1;
      records := records + [Record(next, Reserved, false, false, false, None, None)];
      return Some(next), None;
    }

    /** The hook up to `before_model_request`; true when the request may go on. */
    method HookGate(k: nat, valid: bool) returns (open: bool)
      requires Inv(View()) && Enabled(View(), Proxy.Gate(k, valid))
      modifies this
      ensures View() == Apply(old(View()), Proxy.Gate(k, valid)) && Inv(View())
      ensures open <==> valid && !old(stopRequested) && old(stopReached).None?
    {
      StepKeepsInv(View(), Proxy.Gate(k, valid));
      if !valid {
        records := records[k := End(records[k], Policy)];
        return false;
      }
      if stopReached.None? {
        if !stopRequested {
          records := records[k := records[k].(phase := Gated)];
          return true;
        }
        stopReached := Some(records[k].index);
      }
      records := records[k := End(records[k], SafeStop)];
      return false;
    }

    /** The end of the transcript scan: the finding is kept if nothing was known when the scan began. */
    method HookScanEnd(k: nat, found: Option<Fact>)
      requires Inv(View()) && Enabled(View(), ScanEnd(k, found))
      modifies this
      ensures View() == Apply(old(View()), ScanEnd(k, found)) && Inv(View())
      ensures noData == (if old(records)[k].phase == Scanning(true) && found.Some? then found else old(noData))
    {
      StepKeepsInv(View(), ScanEnd(k, found));
      if records[k].phase.sawNone && found.Some? {
        noData := found;
      }
      records := records[k := records[k].(phase := Scanned)];
    }

    /** The hook's last test; true when it returns without raising. */
    method HookDecide(k: nat) returns (pass: bool)
      requires Inv(View()) && Enabled(View(), Decide(k))
      modifies this
      ensures View() == Apply(old(View()), Decide(k)) && Inv(View())
      ensures pass <==> old(noData).None?
    {
      StepKeepsInv(View(), Decide(k));
      if noData.Some? {
        records := records[k := End(records[k], LocalTerminal)];
        return false;
      }
      records := records[k := records[k].(phase := Passed, passed := true)];
      return true;
    }

    /** The deadline test between the hook and the registration. */
    method RecheckDeadline(k: nat, late: bool) returns (ok: bool)
      requires Inv(View()) && Enabled(View(), Recheck(k, late))
      modifies this
      ensures View() == Apply(old(View()), Recheck(k, late)) && Inv(View())
      ensures ok <==> !late
    {
      StepKeepsInv(View(), Recheck(k, late));
      if late {
        if runtimeLimitReason.None? {
          runtimeLimitReason := Some(TurnTimeout);
        }
        records := records[k := End(records[k], Policy)];
        return false;
      }
      records := records[k := records[k].(phase := InTime)];
      return true;
    }

    /** The second lock section: a stopping proxy registers no connection. */
    method RegisterConnection(k: nat) returns (ok: bool)
      requires Inv(View()) && Enabled(View(), Register(k))
      modifies this
      ensures View() == Apply(old(View()), Register(k)) && Inv(View())
      ensures ok <==> !old(stopping)
      ensures ok <==> k in connections
    {
      StepKeepsInv(View(), Register(k));
      assert RecordOk(View(), k);
      if stopping {
        records := records[k := End(records[k], SafeStop)];
        return false;
      }
      connections := connections + {k};
      records := records[k := records[k].(phase := Registered, registered := true)];
      return true;
    }

    /** Between the registration and the request: the audit says forwarded before the first byte is sent. */
    method MarkForwarded(k: nat)
      requires Inv(View()) && Enabled(View(), Forward(k))
      modifies this
      ensures View() == Apply(old(View()), Forward(k)) && Inv(View())
      ensures records[k].forwarded && records[k].passed && k in connections
    {
      StepKeepsInv(View(), Forward(k));
      assert RecordOk(View(), k);
      records := records[k := records[k].(phase := Streaming, forwarded := true)];
    }

    /** What other threads do between two tests of the streaming loop. */
    method Interfere(k: nat, steps: seq<Step>)
      requires Inv(View()) && k < |records|
      modifies this
      ensures View() == Others(old(View()), k, steps) && Inv(View())
    {
      OthersKeepInv(View(), k, steps);
      OthersKeepMax(View(), k, steps);
      var t := Others(State(maxRequests, records, connections, stopping, runtimeLimitReason, stopRequested, stopReached,
                            noData), k, steps);
      records, connections, stopping, runtimeLimitReason := t.records, t.connections, t.stopping, t.reason;
      stopRequested, stopReached, noData := t.requested, t.reached, t.noData;
    }

    /** The streaming loop, with other threads at work around its tests and while it waits for the upstream.  It is
        complete exactly when a round reads the end of the data that no stop preceded at its test. */
    method StreamResponse(k: nat, rounds: seq<Round>, limit: nat) returns (ending: Option<Outcome>)
      requires Inv(View()) && k < |records| && records[k].phase.Streaming?
      modifies this
      ensures (View(), ending) == Streamed(old(View()), k, rounds, 0, limit) && Inv(View())
      ensures old(stopping) && rounds != [] ==> ending == Some(ProxyError)
      ensures CompletionMeans(old(View()), View(), ending, rounds, 0, limit)
    {
      ghost var start := View();
      StreamKeepsInv(start, k, rounds, 0, limit);
      CompleteIff(start, k, rounds, 0, limit);
      if stopping && rounds != [] { StopEndsTheStream(start, k, rounds, 0, limit); }
      hide Inv, OneRound, Later, CompletionMeans;
      var count: nat, i := 0, 0;
      assert rounds[0..] == rounds;
      hide Streamed;
      while i < |rounds|
        invariant 0 <= i <= |rounds| && Inv(View()) && k < |records| && records[k].phase.Streaming?
        invariant Streamed(View(), k, rounds[i..], count, limit) == Streamed(start, k, rounds, 0, limit)
      {
        StreamedNext(View(), k, rounds, i, count, limit);
        ending := StreamRound(k, rounds[i], count, limit);
        if ending.Some? {
          return;
        }
        count := count + rounds[i].read.n;
        i := i + 1;
      }
      assert rounds[i..] == [];
      NoRoundsLeft(View(), k, count, limit);
      return None;
    }

    /** The body of the loop: both tests, the read and the audit limit. */
    method StreamRound(k: nat, round: Round, count: nat, limit: nat) returns (ending: Option<Outcome>)
      requires Inv(View()) && k < |records| && records[k].phase.Streaming?
      modifies this
      ensures (View(), ending) == OneRound(old(View()), k, round, count, limit) && Inv(View())
    {
      hide Inv, Apply, Others;
      Interfere(k, round.before);
      if stopping {
        EndStream(k, false, ProxyError);
        return Some(ProxyError);
      }
      Interfere(k, round.between);
      if round.late {
        EndStream(k, true, ProxyError);
        return Some(ProxyError);
      }
      Interfere(k, round.reading);
      match round.read {
        case Broken =>
          EndStream(k, false, ProxyError);
          return Some(ProxyError);
        case EndOfData =>
          EndStream(k, false, Complete);
          return Some(Complete);
        case Bytes(n) =>
          if count + n > limit {
            EndStream(k, false, Policy);
            return Some(Policy);
          }
      }
      return None;
    }

    /** The response is complete, or the loop raised. */
    method EndStream(k: nat, late: bool, outcome: Outcome)
      requires Inv(View()) && Enabled(View(), StreamEnd(k, late, outcome))
      modifies this
      ensures View() == Apply(old(View()), StreamEnd(k, late, outcome)) && Inv(View())
    {
      StepKeepsInv(View(), StreamEnd(k, late, outcome));
      if late && runtimeLimitReason.None? {
        runtimeLimitReason := Some(TurnTimeout);
      }
      records := records[k := End(records[k], outcome)];
    }

    /** The end of the handler: the connection is discarded, registered or not. */
    method DiscardConnection(k: nat)
      requires Inv(View()) && Enabled(View(), Discard(k))
      modifies this
      ensures View() == Apply(old(View()), Discard(k)) && Inv(View()) && k !in connections
    {
      StepKeepsInv(View(), Discard(k));
      connections := connections - {k};
      records := records[k := records[k].(phase := Gone)];
    }

    /** `persist_record`, called on each way out of the handler: only the first call saves. */
    method PersistRecord(k: nat)
      requires Inv(View()) && k < |records| && records[k].outcome.Some?
      modifies this
      ensures Inv(View())
      ensures old(records)[k].saved.Some? ==> View() == old(View())
      ensures old(records)[k].saved.None? ==>
        Enabled(old(View()), Persist(k)) && View() == Apply(old(View()), Persist(k))
    {
      assert RecordOk(View(), k);
      if records[k].saved.Some? {
        return;
      }
      StepKeepsInv(View(), Persist(k));
      records := records[k := records[k].(phase := Persisted, saved := Some(runtimeLimitReason))];
    }

    /** `request` of the stop gate: without effect once the boundary is reached. */
    method RequestSafeStop()
      requires Inv(View())
      modifies this
      ensures View() == Apply(old(View()), RequestStop) && Inv(View())
      ensures stopRequested == (old(stopRequested) || stopReached.None?) && stopReached == old(stopReached)
    {
      StepKeepsInv(View(), RequestStop);
      if stopReached.Some? {
        return;
      }
      stopRequested := true;
    }

    /** `cancel`, up to the list of connections it then shuts down. */
    method CancelTurn() returns (open: set<nat>)
      requires Inv(View())
      modifies this
      ensures View() == Apply(old(View()), Cancel) && Inv(View())
      ensures forall k :: 0 <= k < |records| ==> (k in open <==> records[k].registered && !records[k].phase.Gone?)
      ensures forall k :: k in open ==> k < |records|
    {
      StepKeepsInv(View(), Cancel);
      stopping := true;
      open := connections;
      forall k | 0 <= k < |records| ensures k in open <==> records[k].registered && !records[k].phase.Gone? {
        assert RecordOk(View(), k);
      }
    }
  }

  lemma {:induction false} StreamedNext(s: State, k: nat, rounds: seq<Round>, i: nat, count: nat, limit: nat)
    requires k < |s.records| && s.records[k].phase.Streaming? && i < |rounds|
    ensures var (t, ending) := OneRound(s, k, rounds[i], count, limit);
      Streamed(s, k, rounds[i..], count, limit) ==
        if ending.Some? then (t, ending) else Streamed(t, k, rounds[i + 1..], count + rounds[i].read.n, limit)
  {
    hide OneRound;
    assert rounds[i..][0] == rounds[i] && rounds[i..][1..] == rounds[i + 1..];
  }

  lemma {:induction false} NoRoundsLeft(s: State, k: nat, count: nat, limit: nat)
    requires k < |s.records| && s.records[k].phase.Streaming?
    ensures Streamed(s, k, [], count, limit) == (s, None)
  {
  }

  lemma {:induction false} OthersKeepMax(s: State, k: nat, steps: seq<Step>)
    requires k < |s.records|
    ensures Others(s, k, steps).max == s.max
  {
    hide NewRecord, Enabled;
    if steps != [] { OthersKeepMax(s, k, steps[..|steps| - 1]); }
  }
}
