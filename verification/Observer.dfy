/** `AgentProgressObserver` of scopex/events/observer.py: what the product shows of a growing transcript. */
module Observer {
  import opened Sequences
  import opened Transcript
  import opened TranscriptTheorems

  datatype Event =
    | ModelRequest(index: int)
    | Progress(id: Id, call: Call)
    | CallEvent(id: Id, call: Call)
    | ResultEvent(id: Id, caller: Option<Call>, content: Text)

  datatype State = State(seenCalls: set<Id>, seenResults: set<Id>, events: seq<Event>)

  datatype Request = Request(index: int, messages: seq<Message>)

  // ----------------------------------------------------------------- one request

  predicate IsCard(c: Call) {
    c.name == Some(ProgressCard)
  }

  function CallShown(e: Entry<Call>): Event {
    if IsCard(e.value) then Progress(e.key, e.value) else CallEvent(e.key, e.value)
  }

  /** The events for the calls of one request that were not seen before. */
  function CallEvents(calls: seq<Entry<Call>>, seen: set<Id>): seq<Event> {
    if calls == [] then []
    else
      var e := calls[|calls| - 1];
      CallEvents(calls[..|calls| - 1], seen) + (if e.key in seen then [] else [CallShown(e)])
  }

  function Lookup<V>(d: seq<Entry<V>>, k: Id): (v: Option<V>)
    ensures v.Some? <==> Has(d, k)
    ensures v.Some? ==> exists i :: 0 <= i < |d| && d[i] == Entry(k, v.value)
  {
    if d == [] then None
    else if d[0].key == k then Some(d[0].value)
    else
      assert d == [d[0]] + d[1..];
      HasCons(d[0], d[1..]);
      Lookup(d[1..], k)
  }

  predicate SilentResult(k: Id, calls: seq<Entry<Call>>) {
    Lookup(calls, k).Some? && IsCard(Lookup(calls, k).value)
  }

  function ResultEvents(results: seq<Entry<Text>>, calls: seq<Entry<Call>>, seen: set<Id>): seq<Event> {
    if results == [] then []
    else
      var e := results[|results| - 1];
      ResultEvents(results[..|results| - 1], calls, seen) +
      (if e.key in seen || SilentResult(e.key, calls) then [] else [ResultEvent(e.key, Lookup(calls, e.key), e.value)])
  }

  function Keys<V>(d: seq<Entry<V>>): set<Id> {
    set i | 0 <= i < |d| :: d[i].key
  }

  /** `observe_request` */
  function Observe(s: State, r: Request): State {
    var t := Parse(r.messages);
    State(s.seenCalls + Keys(t.calls), s.seenResults + Keys(t.results),
          s.events + [ModelRequest(r.index)] + CallEvents(t.calls, s.seenCalls) +
          ResultEvents(t.results, t.calls, s.seenResults))
  }

  function ObserveAll(s: State, rs: seq<Request>): State {
    if rs == [] then s else Observe(ObserveAll(s, rs[..|rs| - 1]), rs[|rs| - 1])
  }

  // ----------------------------------------------------------------- exactly once

  predicate ShowsCall(e: Event, id: Id) {
    (e.Progress? || e.CallEvent?) && e.id == id
  }

  predicate ShowsResult(e: Event, id: Id) {
    e.ResultEvent? && e.id == id
  }

  function CallCount(events: seq<Event>, id: Id): nat {
    if events == [] then 0
    else CallCount(events[..|events| - 1], id) + (if ShowsCall(events[|events| - 1], id) then 1 else 0)
  }

  function ResultCount(events: seq<Event>, id: Id): nat {
    if events == [] then 0
    else ResultCount(events[..|events| - 1], id) + (if ShowsResult(events[|events| - 1], id) then 1 else 0)
  }

  lemma {:induction false} CountConcat(a: seq<Event>, b: seq<Event>, id: Id)
    ensures CallCount(a + b, id) == CallCount(a, id) + CallCount(b, id)
    ensures ResultCount(a + b, id) == ResultCount(a, id) + ResultCount(b, id)
  {
    if b == [] {
      assert a + b == a;
    } else {
      CountConcat(a, b[..|b| - 1], id);
      assert (a + b)[..|a + b| - 1] == a + b[..|b| - 1];
    }
  }

  lemma {:induction false} CallEventCount(calls: seq<Entry<Call>>, seen: set<Id>, id: Id)
    requires Distinct(calls)
    ensures CallCount(CallEvents(calls, seen), id) == (if Has(calls, id) && id !in seen then 1 else 0)
    ensures ResultCount(CallEvents(calls, seen), id) == 0
  {
    if calls == [] {
      assert !Has(calls, id);
    } else {
      var init, e := calls[..|calls| - 1], calls[|calls| - 1];
      assert calls == init + [e];
      LastKeyNew(init, e);
      HasSplit(init, e, id);
      CallEventCount(init, seen, id);
      var shown := if e.key in seen then [] else [CallShown(e)];
      assert CallEvents(calls, seen) == CallEvents(init, seen) + shown;
      hide Distinct, Has, CallEvents, CallCount, ResultCount;
      CountConcat(CallEvents(init, seen), shown, id);
      CountOne(shown, id);
    }
  }

  lemma LastKeyNew<V>(init: seq<Entry<V>>, e: Entry<V>)
    requires Distinct(init + [e])
    ensures Distinct(init) && !Has(init, e.key)
  {
    var d := init + [e];
    assert forall i :: 0 <= i < |init| ==> d[i] == init[i];
    assert d[|init|] == e;
  }

  lemma {:induction false} CountOne(es: seq<Event>, id: Id)
    requires |es| <= 1
    ensures CallCount(es, id) == (if |es| == 1 && ShowsCall(es[0], id) then 1 else 0)
    ensures ResultCount(es, id) == (if |es| == 1 && ShowsResult(es[0], id) then 1 else 0)
  {
    if |es| == 1 { assert es[..0] == []; }
  }

  lemma {:induction false} ResultEventCount(results: seq<Entry<Text>>, calls: seq<Entry<Call>>, seen: set<Id>, id: Id)
    requires Distinct(results)
    ensures ResultCount(ResultEvents(results, calls, seen), id) ==
            (if Has(results, id) && id !in seen && !SilentResult(id, calls) then 1 else 0)
    ensures CallCount(ResultEvents(results, calls, seen), id) == 0
  {
    hide SilentResult, Lookup;
    if results == [] {
      assert !Has(results, id);
    } else {
      var init, e := results[..|results| - 1], results[|results| - 1];
      assert results == init + [e];
      LastKeyNew(init, e);
      HasSplit(init, e, id);
      ResultEventCount(init, calls, seen, id);
      var shown := if e.key in seen || SilentResult(e.key, calls) then []
                   else [ResultEvent(e.key, Lookup(calls, e.key), e.value)];
      assert ResultEvents(results, calls, seen) == ResultEvents(init, calls, seen) + shown;
      hide Distinct, Has, ResultEvents, CallCount, ResultCount;
      CountConcat(ResultEvents(init, calls, seen), shown, id);
      CountOne(shown, id);
    }
  }

  predicate CallsIn(r: Request, id: Id) {
    Has(Parse(r.messages).calls, id)
  }

  predicate ResultIn(r: Request, id: Id) {
    Has(Parse(r.messages).results, id)
  }

  /** The request holds a call of this id to the progress card. */
  ghost predicate CardIn(r: Request, id: Id) {
    exists i :: 0 <= i < |Parse(r.messages).calls| && CardAt(Parse(r.messages).calls[i], id)
  }

  ghost predicate CardAt(e: Entry<Call>, id: Id) {
    e.key == id && e.value.name == Some(ProgressCard)
  }

  lemma {:induction false} SilentIff(calls: seq<Entry<Call>>, id: Id)
    requires Distinct(calls)
    ensures SilentResult(id, calls) <==> exists i :: 0 <= i < |calls| && CardAt(calls[i], id)
  {
    hide Distinct;
    if exists i :: 0 <= i < |calls| && calls[i].key == id {
      var v := Lookup(calls, id).value;
      var j :| 0 <= j < |calls| && calls[j] == Entry(id, v);
      forall i | 0 <= i < |calls| && calls[i].key == id ensures i == j { OnePlace(calls, i, j); }
      assert CardAt(calls[j], id) <==> v.name == Some(ProgressCard);
    } else {
      assert !Has(calls, id);
    }
  }

  lemma OnePlace<V>(d: seq<Entry<V>>, i: nat, j: nat)
    requires Distinct(d) && i < |d| && j < |d| && d[i].key == d[j].key
    ensures i == j
  {
    assert !(i < j) && !(j < i);
  }

  lemma KeysAreHas<V>(d: seq<Entry<V>>, id: Id)
    ensures id in Keys(d) <==> Has(d, id)
  {
  }

  lemma {:induction false} ObserveCounts(s: State, r: Request, id: Id)
    ensures var n := Observe(s, r);
      CallCount(n.events, id) == CallCount(s.events, id) + (if CallsIn(r, id) && id !in s.seenCalls then 1 else 0) &&
      ResultCount(n.events, id) == ResultCount(s.events, id) +
        (if ResultIn(r, id) && id !in s.seenResults && !CardIn(r, id) then 1 else 0) &&
      (id in n.seenCalls <==> id in s.seenCalls || CallsIn(r, id)) &&
      (id in n.seenResults <==> id in s.seenResults || ResultIn(r, id))
  {
    var t := Parse(r.messages);
    PutAllDistinct(CallWrites(r.messages));
    PutAllDistinct(ResultWrites(r.messages));
    assert Distinct(t.calls) && Distinct(t.results);
    SilentIff(t.calls, id);
    assert SilentResult(id, t.calls) <==> CardIn(r, id);
    hide CardIn, Parse, Distinct, Lookup, CallEvents, ResultEvents, SilentResult;
    CallEventCount(t.calls, s.seenCalls, id);
    ResultEventCount(t.results, t.calls, s.seenResults, id);
    var head := [ModelRequest(r.index)];
    CountOne(head, id);
    CountConcat(s.events, head, id);
    CountConcat(s.events + head, CallEvents(t.calls, s.seenCalls), id);
    CountConcat(s.events + head + CallEvents(t.calls, s.seenCalls),
                ResultEvents(t.results, t.calls, s.seenResults), id);
    KeysAreHas(t.calls, id);
    KeysAreHas(t.results, id);
  }

  /** Over any run every call not seen before is shown exactly once, and no other. */
  lemma {:induction false} EveryCallShownOnce(s: State, rs: seq<Request>, id: Id)
    ensures var n := ObserveAll(s, rs);
      CallCount(n.events, id) == CallCount(s.events, id) +
        (if id !in s.seenCalls && exists i :: 0 <= i < |rs| && CallsIn(rs[i], id) then 1 else 0) &&
      (id in n.seenCalls <==> id in s.seenCalls || exists i :: 0 <= i < |rs| && CallsIn(rs[i], id))
  {
    hide Observe, CallsIn, ResultIn;
    if rs != [] {
      var init, r := rs[..|rs| - 1], rs[|rs| - 1];
      EveryCallShownOnce(s, init, id);
      ObserveCounts(ObserveAll(s, init), r, id);
      assert (exists i :: 0 <= i < |rs| && CallsIn(rs[i], id)) <==>
             (exists i :: 0 <= i < |init| && CallsIn(init[i], id)) || CallsIn(r, id) by {
        assert rs[|rs| - 1] == r;
        forall i | 0 <= i < |init| ensures init[i] == rs[i] { }
      }
    }
  }

  /** The request in which a result first appears. */
  predicate FirstResult(rs: seq<Request>, i: int, id: Id) {
    0 <= i < |rs| && ResultIn(rs[i], id) && forall j :: 0 <= j < i ==> !ResultIn(rs[j], id)
  }

  /** The request in which a result first appears does not hold a progress-card call of that id. */
  ghost predicate Shows(rs: seq<Request>, id: Id) {
    exists i :: FirstResult(rs, i, id) && !CardIn(rs[i], id)
  }

  ghost predicate ResultSomewhere(rs: seq<Request>, id: Id) {
    exists i :: 0 <= i < |rs| && ResultIn(rs[i], id)
  }

  /** Over any run a result is shown at most once: exactly when it was not seen before and the request in
      which it first appears does not also hold a progress-card call of that id. */
  lemma {:induction false} ResultShownAtMostOnce(s: State, rs: seq<Request>, id: Id)
    ensures var n := ObserveAll(s, rs);
      ResultCount(n.events, id) ==
        ResultCount(s.events, id) + (if id !in s.seenResults && Shows(rs, id) then 1 else 0) &&
      (id in n.seenResults <==> id in s.seenResults || ResultSomewhere(rs, id))
  {
    hide Observe, CallsIn, ResultIn, CardIn, Parse, Shows, ResultSomewhere;
    if rs == [] {
      NothingShown(id);
    } else {
      var init, r := rs[..|rs| - 1], rs[|rs| - 1];
      ResultShownAtMostOnce(s, init, id);
      ObserveCounts(ObserveAll(s, init), r, id);
      ShowsPush(init, r, id);
      assert rs == init + [r];
    }
  }

  lemma NothingShown(id: Id)
    ensures !Shows([], id) && !ResultSomewhere([], id)
  {
  }

  /** One more request shows a result only if none before held it. */
  lemma ShowsPush(init: seq<Request>, r: Request, id: Id)
    ensures Shows(init + [r], id) <==>
      Shows(init, id) ||
      (ResultIn(r, id) && !ResultSomewhere(init, id) && !CardIn(r, id))
    ensures ResultSomewhere(init + [r], id) <==> ResultSomewhere(init, id) || ResultIn(r, id)
    ensures Shows(init, id) ==> ResultSomewhere(init, id)
  {
    hide ResultIn, CardIn, Parse;
    FirstResultOfPrefix(init + [r], id);
    assert (init + [r])[..|init|] == init && (init + [r])[|init|] == r;
  }

  lemma FirstResultOfPrefix(rs: seq<Request>, id: Id)
    requires rs != []
    ensures var init, r := rs[..|rs| - 1], rs[|rs| - 1];
      (forall i :: FirstResult(init, i, id) ==> FirstResult(rs, i, id) && rs[i] == init[i]) &&
      (forall i :: FirstResult(rs, i, id) && i < |init| ==> FirstResult(init, i, id)) &&
      (FirstResult(rs, |init|, id) <==>
        ResultIn(r, id) && !(exists i :: 0 <= i < |init| && ResultIn(init[i], id))) &&
      ((exists i :: 0 <= i < |rs| && ResultIn(rs[i], id)) <==>
        (exists i :: 0 <= i < |init| && ResultIn(init[i], id)) || ResultIn(r, id))
  {
    hide ResultIn;
    var init := rs[..|rs| - 1];
    assert forall i :: 0 <= i < |init| ==> init[i] == rs[i];
  }

  // ----------------------------------------------------------------- what an event says

  /** An event shows what the request holds: a call as progress exactly if it is one to the progress card, a result with
      its text and the call it answers, and never the result of a progress card. */
  ghost predicate RightEvent(e: Event, r: Request) {
    var t := Parse(r.messages);
    match e
    case ModelRequest(index) => index == r.index
    case Progress(id, c) => Entry(id, c) in t.calls && c.name == Some(ProgressCard)
    case CallEvent(id, c) => Entry(id, c) in t.calls && c.name != Some(ProgressCard)
    case ResultEvent(id, caller, text) => Entry(id, text) in t.results && RightCaller(caller, id, t.calls)
  }

  ghost predicate RightCaller(caller: Option<Call>, id: Id, calls: seq<Entry<Call>>) {
    match caller
    case None => forall e :: e in calls ==> e.key != id
    case Some(c) => Entry(id, c) in calls && c.name != Some(ProgressCard)
  }

  lemma {:induction false} CallEventsAreRight(calls: seq<Entry<Call>>, seen: set<Id>, r: Request)
    requires forall e :: e in calls ==> e in Parse(r.messages).calls
    ensures forall e :: e in CallEvents(calls, seen) ==> RightEvent(e, r)
  {
    hide Parse;
    if calls != [] {
      var e := calls[|calls| - 1];
      CallEventsAreRight(calls[..|calls| - 1], seen, r);
      assert e == Entry(e.key, e.value);
    }
  }

  lemma {:induction false} ResultEventsAreRight(results: seq<Entry<Text>>, seen: set<Id>, r: Request)
    requires forall e :: e in results ==> e in Parse(r.messages).results
    ensures forall e :: e in ResultEvents(results, Parse(r.messages).calls, seen) ==> RightEvent(e, r)
  {
    hide Parse, Lookup, RightCaller;
    if results != [] {
      var e := results[|results| - 1];
      ResultEventsAreRight(results[..|results| - 1], seen, r);
      assert e == Entry(e.key, e.value);
      if !SilentResult(e.key, Parse(r.messages).calls) { CallerIsRight(e.key, Parse(r.messages).calls); }
    }
  }

  lemma CallerIsRight(id: Id, calls: seq<Entry<Call>>)
    requires !SilentResult(id, calls)
    ensures RightCaller(Lookup(calls, id), id, calls)
  {
  }

  /** Over any run every event added shows what one of the requests holds. */
  lemma {:induction false} EventsAreRight(s: State, rs: seq<Request>)
    ensures forall e :: e in ObserveAll(s, rs).events ==>
      e in s.events || exists i :: 0 <= i < |rs| && RightEvent(e, rs[i])
  {
    hide RightEvent, Parse, CallEvents, ResultEvents;
    if rs != [] {
      var init, r := rs[..|rs| - 1], rs[|rs| - 1];
      var before, t := ObserveAll(s, init), Parse(r.messages);
      EventsAreRight(s, init);
      CallEventsAreRight(t.calls, before.seenCalls, r);
      ResultEventsAreRight(t.results, before.seenResults, r);
      RequestEventIsRight(r);
      forall e | e in ObserveAll(s, rs).events && e !in s.events
        ensures exists i :: 0 <= i < |rs| && RightEvent(e, rs[i])
      {
        if e in before.events {
          var i :| 0 <= i < |init| && RightEvent(e, init[i]);
          assert rs[i] == init[i];
        } else {
          assert RightEvent(e, rs[|init|]);
        }
      }
    }
  }

  lemma RequestEventIsRight(r: Request)
    ensures RightEvent(ModelRequest(r.index), r)
  {
  }

  /** What was seen before is never shown again. */
  lemma {:induction false} SeenIsNotShownAgain(s: State, rs: seq<Request>, id: Id)
    ensures id in s.seenCalls ==> CallCount(ObserveAll(s, rs).events, id) == CallCount(s.events, id)
    ensures id in s.seenResults ==> ResultCount(ObserveAll(s, rs).events, id) == ResultCount(s.events, id)
  {
    EveryCallShownOnce(s, rs, id);
    ResultShownAtMostOnce(s, rs, id);
  }

  // ----------------------------------------------------------------- the loops

  class AgentProgressObserver {
    var seenCalls: set<Id>
    var seenResults: set<Id>
    var events: seq<Event>

    ghost function View(): State
      reads this
    {
      State(seenCalls, seenResults, events)
    }

    constructor ()
      ensures View() == State({}, {}, [])
    {
      seenCalls, seenResults, events := {}, {}, [];
    }

    /** `seed`: whatever is observed afterwards, nothing is shown for a seeded id. */
    method Seed(callIds: set<Id>, resultIds: set<Id>)
      modifies this
      ensures View() == State(old(seenCalls) + callIds, old(seenResults) + resultIds, old(events))
      ensures forall rs: seq<Request>, id :: id in callIds ==>
        CallCount(ObserveAll(View(), rs).events, id) == CallCount(old(events), id)
      ensures forall rs: seq<Request>, id :: id in resultIds ==>
        ResultCount(ObserveAll(View(), rs).events, id) == ResultCount(old(events), id)
    {
      seenCalls, seenResults := seenCalls + callIds, seenResults + resultIds;
      hide ObserveAll, CallCount, ResultCount;
      forall rs: seq<Request>, id | id in callIds
        ensures CallCount(ObserveAll(View(), rs).events, id) == CallCount(old(events), id)
      {
        SeenIsNotShownAgain(View(), rs, id);
      }
      forall rs: seq<Request>, id | id in resultIds
        ensures ResultCount(ObserveAll(View(), rs).events, id) == ResultCount(old(events), id)
      {
        SeenIsNotShownAgain(View(), rs, id);
      }
    }

    method ObserveRequest(r: Request)
      modifies this
      ensures View() == Observe(old(View()), r)
    {
      hide Distinct;
      events := events + [ModelRequest(r.index)];
      var t := ParseMessages(r.messages);
      PutAllDistinct(CallWrites(r.messages));
      PutAllDistinct(ResultWrites(r.messages));
      ShowCalls(t.calls);
      ShowResults(t.results, t.calls);
    }

    method ShowCalls(calls: seq<Entry<Call>>)
      requires Distinct(calls)
      modifies this`seenCalls, this`events
      ensures seenCalls == old(seenCalls) + Keys(calls)
      ensures events == old(events) + CallEvents(calls, old(seenCalls))
    {
      var i := 0;
      while i < |calls|
        invariant 0 <= i <= |calls| && seenCalls == old(seenCalls) + Keys(calls[..i])
        invariant events == old(events) + CallEvents(calls[..i], old(seenCalls))
      {
        var e := calls[i];
        PrefixStep(calls, i);
        if e.key !in seenCalls {
          seenCalls := seenCalls + {e.key};
          if IsCard(e.value) {
            events := events + [Progress(e.key, e.value)];
          } else {
            events := events + [CallEvent(e.key, e.value)];
          }
        }
        i := i + 1;
      }
      assert calls[..i] == calls;
    }

    method ShowResults(results: seq<Entry<Text>>, calls: seq<Entry<Call>>)
      requires Distinct(results)
      modifies this`seenResults, this`events
      ensures seenResults == old(seenResults) + Keys(results)
      ensures events == old(events) + ResultEvents(results, calls, old(seenResults))
    {
      var i := 0;
      while i < |results|
        invariant 0 <= i <= |results| && seenResults == old(seenResults) + Keys(results[..i])
        invariant events == old(events) + ResultEvents(results[..i], calls, old(seenResults))
      {
        var e := results[i];
        PrefixStep(results, i);
        if e.key !in seenResults {
          seenResults := seenResults + {e.key};
          var caller := Lookup(calls, e.key);
          if caller.None? || !IsCard(caller.value) {
            events := events + [ResultEvent(e.key, caller, e.value)];
          }
        }
        i := i + 1;
      }
      assert results[..i] == results;
    }
  }

  /** In a dictionary the next key is new, so the growing seen set skips nothing it should show. */
  lemma PrefixStep<V>(d: seq<Entry<V>>, i: nat)
    requires Distinct(d) && i < |d|
    ensures d[..i + 1][..i] == d[..i] && d[..i + 1][i] == d[i]
    ensures Keys(d[..i + 1]) == Keys(d[..i]) + {d[i].key} && d[i].key !in Keys(d[..i])
  {
    assert d[..i + 1] == d[..i] + [d[i]];
    assert forall j :: 0 <= j < i ==> d[..i][j] == d[..i + 1][j];
  }

  /** `parse_messages`: two dictionaries filled message by message, row by row. */
  method ParseMessages(messages: seq<Message>) returns (t: Trace)
    ensures t == Parse(messages)
  {
    hide Put, RowCalls;
    var calls: seq<Entry<Call>>, results: seq<Entry<Text>> := [], [];
    var i := 0;
    while i < |messages|
      invariant 0 <= i <= |messages|
      invariant calls == PutAll([], CallWrites(messages[..i])) && results == PutAll([], ResultWrites(messages[..i]))
    {
      var m := messages[i];
      assert messages[..i + 1][..i] == messages[..i] && messages[..i + 1][i] == m;
      PutAllConcat([], CallWrites(messages[..i]), MessageCalls(m));
      PutAllConcat([], ResultWrites(messages[..i]), MessageResults(m));
      if m.Assistant? {
        if m.calls.Rows? {
          calls := WriteRows(calls, m.calls.rows);
        }
      } else if m.ToolMessage? && m.id.Some? {
        PutAllCons(results, Entry(m.id.value, m.content), []);
        assert [Entry(m.id.value, m.content)] + [] == MessageResults(m);
        results := Put(results, m.id.value, m.content);
      }
      i := i + 1;
    }
    assert messages[..i] == messages;
    t := Trace(calls, results);
  }

  /** The rows of one assistant message, malformed ones skipped. */
  method WriteRows(before: seq<Entry<Call>>, rows: seq<RawCall>) returns (calls: seq<Entry<Call>>)
    ensures calls == PutAll(before, RowCalls(rows))
  {
    hide Put;
    calls := before;
    var j := 0;
    while j < |rows|
      invariant 0 <= j <= |rows| && calls == PutAll(before, RowCalls(rows[..j]))
    {
      assert rows[..j + 1][..j] == rows[..j] && rows[..j + 1][j] == rows[j];
      ghost var written := RowCalls(rows[..j]);
      assert written + [] == written;
      if rows[j].RawCall? {
        assert (written + [Entry(rows[j].id, rows[j].call)])[..|written|] == written;
        calls := Put(calls, rows[j].id, rows[j].call);
      }
      j := j + 1;
    }
    assert rows[..j] == rows;
  }

  /** `load_audit_trace`, and what it amounts to. */
  method LoadAuditTrace(payloads: seq<Payload>) returns (t: Trace)
    ensures t == Aggregate(payloads) == Parse(AllMessages(payloads))
  {
    hide Parse, Put;
    var calls: seq<Entry<Call>>, results: seq<Entry<Text>> := [], [];
    var i := 0;
    while i < |payloads|
      invariant 0 <= i <= |payloads| && Trace(calls, results) == Aggregate(payloads[..i])
    {
      assert payloads[..i + 1][..i] == payloads[..i] && payloads[..i + 1][i] == payloads[i];
      if payloads[i].Unreadable? {
        EmptyParse();
      } else {
        var own := ParseMessages(MessagesOf(payloads[i]));
        calls := WriteAll(calls, own.calls);
        results := WriteAll(results, own.results);
      }
      i := i + 1;
    }
    assert payloads[..i] == payloads;
    AggregationIsParsing(payloads);
    t := Trace(calls, results);
  }

  lemma EmptyParse()
    ensures Parse([]) == Trace([], [])
    ensures forall d: seq<Entry<Call>> :: PutAll(d, []) == d
    ensures forall d: seq<Entry<Text>> :: PutAll(d, []) == d
  {
  }

  method WriteAll<V>(d: seq<Entry<V>>, es: seq<Entry<V>>) returns (r: seq<Entry<V>>)
    ensures r == PutAll(d, es)
  {
    r := d;
    var i := 0;
    while i < |es|
      invariant 0 <= i <= |es| && r == PutAll(d, es[..i])
    {
      assert es[..i + 1][..i] == es[..i];
      r := Put(r, es[i].key, es[i].value);
      i := i + 1;
    }
    assert es[..i] == es;
  }
}
