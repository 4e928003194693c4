/** `process_trace` of scopex/evidence/projector.py: which calls of a growing trace are projected, and when. */
module TraceProjection {
  import opened Sequences
  import opened Evidence
  import opened EvidenceTheorems
  import opened Projector
  import opened ProjectorService
  import T = Transcript

  /** What the projector makes of a completed call: the output lines of a command, or the rows of a read, of images or
      of a structured result, after which the projection may fail. */
  datatype Job = Lines(lines: seq<string>, rest: int) | Direct(rows: seq<Row>, fails: bool)

  /** `source` is the "exec:<id>" under which the lines of a command are filed. */
  datatype Setup = Setup(job: (T.Entry<T.Call>, T.Text) -> Job, source: T.Id -> string, control: string -> bool,
                         lim: Limits)

  /** The rows that reach the catalog, and whether the projection ends without an exception. */
  datatype Attempt = Attempt(rows: seq<Row>, ok: bool)

  /** How many rows come before the first one that the catalog refuses. */
  function FirstRefused(rows: seq<Row>): (k: nat)
    ensures k <= |rows| && forall i :: 0 <= i < k ==> Acceptable(rows[i])
    ensures k < |rows| ==> !Acceptable(rows[k])
  {
    if rows == [] then 0
    else
      var k := FirstRefused(rows[..|rows| - 1]);
      if k < |rows| - 1 || !Acceptable(rows[|rows| - 1]) then k else k + 1
  }

  function Pieces(su: Setup, lines: seq<string>): seq<Piece> {
    Projected(Content(lines, su.control), su.lim).pieces
  }

  function Attempted(su: Setup, e: T.Entry<T.Call>, text: T.Text): Attempt {
    match su.job(e, text)
    case Lines(lines, rest) =>
      var all := Pieces(su, lines);
      Attempt(Rows(e.key, su.source(e.key), rest, all[..FirstBlank(all)]), FirstBlank(all) == |all|)
    case Direct(rows, fails) => Attempt(rows[..FirstRefused(rows)], FirstRefused(rows) == |rows| && !fails)
  }

  /** The result dictionary; a later entry replaces an earlier one. */
  function ResultOf(results: seq<T.Entry<T.Text>>, id: T.Id): Option<T.Text> {
    if results == [] then None
    else if results[|results| - 1].key == id then Some(results[|results| - 1].value)
    else ResultOf(results[..|results| - 1], id)
  }

  /** `done` is `_processed_call_ids`; the histories are the calls ever tried, and the projections in the order in
      which they ended. */
  datatype State = State(items: seq<Item>, done: set<T.Id>, tried: set<T.Id>, ended: seq<T.Id>)

  const START := State([], {}, {}, [])

  predicate Skipped(s: State, e: T.Entry<T.Call>, results: seq<T.Entry<T.Text>>) {
    e.key in s.done || ResultOf(results, e.key).None?
  }

  /** One round of the loop; false when the projection of this call raises. */
  function Visit(su: Setup, s: State, e: T.Entry<T.Call>, results: seq<T.Entry<T.Text>>, clock: T.Id -> nat -> int):
      (State, bool)
  {
    if Skipped(s, e, results) then (s, true)
    else
      var a := Attempted(su, e, ResultOf(results, e.key).value);
      var items := AfterAll(s.items, a.rows, clock(e.key));
      if a.ok then (State(items, s.done + {e.key}, s.tried + {e.key}, s.ended + [e.key]), true)
      else (s.(items := items, tried := s.tried + {e.key}), false)
  }

  /** The loop over the calls of one trace, up to the first that raises. */
  function Process(su: Setup, s: State, calls: seq<T.Entry<T.Call>>, results: seq<T.Entry<T.Text>>,
                   clock: T.Id -> nat -> int): (State, bool)
  {
    if calls == [] then (s, true)
    else
      var (t, ok) := Process(su, s, calls[..|calls| - 1], results, clock);
      if ok then Visit(su, t, calls[|calls| - 1], results, clock) else (t, false)
  }

  /** One call of `process_trace`. */
  datatype Turn = Turn(trace: T.Trace, clock: T.Id -> nat -> int)

  function ProcessTurn(su: Setup, s: State, turn: Turn): (State, bool) {
    Process(su, s, turn.trace.calls, turn.trace.results, turn.clock)
  }

  /** Any sequence of calls, whether they raise or not. */
  function ProcessAll(su: Setup, s: State, turns: seq<Turn>): State {
    if turns == [] then s else ProcessTurn(su, ProcessAll(su, s, turns[..|turns| - 1]), turns[|turns| - 1]).0
  }

  // ----------------------------------------------------------------- each call once

  /** What is processed is what has ended, each once, and all of it was tried. */
  ghost predicate Inv(s: State) {
    NoDup(s.ended) && (forall id :: id in s.done <==> id in s.ended) && s.done <= s.tried
  }

  lemma VisitKeepsInv(su: Setup, s: State, e: T.Entry<T.Call>, results: seq<T.Entry<T.Text>>,
                      clock: T.Id -> nat -> int)
    requires Inv(s)
    ensures var t := Visit(su, s, e, results, clock).0; Inv(t) && s.done <= t.done && s.tried <= t.tried
  {
    hide Attempted, AfterAll, ResultOf;
  }

  lemma {:induction false} ProcessKeepsInv(su: Setup, s: State, calls: seq<T.Entry<T.Call>>,
                                           results: seq<T.Entry<T.Text>>, clock: T.Id -> nat -> int)
    requires Inv(s)
    ensures var t := Process(su, s, calls, results, clock).0; Inv(t) && s.done <= t.done && s.tried <= t.tried
  {
    hide Inv, Visit;
    if calls != [] {
      var init := calls[..|calls| - 1];
      ProcessKeepsInv(su, s, init, results, clock);
      VisitKeepsInv(su, Process(su, s, init, results, clock).0, calls[|calls| - 1], results, clock);
    }
  }

  lemma {:induction false} RunKeepsInv(su: Setup, s: State, turns: seq<Turn>)
    requires Inv(s)
    ensures var t := ProcessAll(su, s, turns); Inv(t) && s.done <= t.done && s.tried <= t.tried
  {
    hide Inv, Process;
    if turns != [] {
      var init, last := turns[..|turns| - 1], turns[|turns| - 1];
      RunKeepsInv(su, s, init);
      ProcessKeepsInv(su, ProcessAll(su, s, init), last.trace.calls, last.trace.results, last.clock);
    }
  }

  /** The call is in the trace together with its result. */
  ghost predicate Completed(id: T.Id, calls: seq<T.Entry<T.Call>>, results: seq<T.Entry<T.Text>>) {
    T.Has(calls, id) && T.Has(results, id)
  }

  /** The last entry for this id holds this text. */
  ghost predicate ResultIs(results: seq<T.Entry<T.Text>>, id: T.Id, text: T.Text) {
    exists i :: LastEntryAt(results, i, id) && results[i].value == text
  }

  ghost predicate LastEntryAt(results: seq<T.Entry<T.Text>>, i: int, id: T.Id) {
    0 <= i < |results| && results[i].key == id && forall k :: i < k < |results| ==> results[k].key != id
  }

  lemma {:induction false} ResultMeaning(results: seq<T.Entry<T.Text>>, id: T.Id)
    ensures ResultOf(results, id).None? <==> !T.Has(results, id)
    ensures forall i :: LastEntryAt(results, i, id) ==> ResultOf(results, id) == Some(results[i].value)
    ensures ResultOf(results, id).Some? ==> exists i :: LastEntryAt(results, i, id)
  {
    if results != [] {
      var init, e := results[..|results| - 1], results[|results| - 1];
      ResultMeaning(init, id);
      if e.key == id {
        assert LastEntryAt(results, |init|, id);
      } else {
        assert forall i :: LastEntryAt(init, i, id) <==> LastEntryAt(results, i, id);
      }
    }
  }

  lemma ResultIsIff(results: seq<T.Entry<T.Text>>, id: T.Id, text: T.Text)
    ensures ResultOf(results, id) == Some(text) <==> ResultIs(results, id, text)
  {
    ResultMeaning(results, id);
    hide LastEntryAt, T.Has, ResultOf;
  }

  lemma HasPush(init: seq<T.Entry<T.Call>>, e: T.Entry<T.Call>, id: T.Id)
    ensures T.Has(init + [e], id) <==> T.Has(init, id) || e.key == id
  {
    var all := init + [e];
    assert all[|init|] == e;
    assert forall i :: 0 <= i < |init| ==> all[i] == init[i];
  }

  /** What one trace adds: the completed calls, or some of them if it raises. */
  lemma {:induction false} ProcessedIff(su: Setup, s: State, calls: seq<T.Entry<T.Call>>,
                                        results: seq<T.Entry<T.Text>>, clock: T.Id -> nat -> int, id: T.Id)
    ensures var (t, ok) := Process(su, s, calls, results, clock);
      (id in t.done ==> id in s.done || Completed(id, calls, results)) &&
      (ok && Completed(id, calls, results) ==> id in t.done) && (id in s.done ==> id in t.done)
  {
    ResultMeaning(results, id);
    hide Attempted, ResultOf, T.Has, AfterAll;
    if calls == [] {
      NoneHas(id);
    } else {
      var init, e := calls[..|calls| - 1], calls[|calls| - 1];
      ProcessedIff(su, s, init, results, clock, id);
      HasPush(init, e, id);
      assert calls == init + [e];
    }
  }

  lemma NoneHas(id: T.Id)
    ensures !T.Has<T.Call>([], id)
  {
  }

  ghost predicate NoneRaises(su: Setup, s: State, turns: seq<Turn>) {
    turns == [] ||
    (NoneRaises(su, s, turns[..|turns| - 1]) &&
     ProcessTurn(su, ProcessAll(su, s, turns[..|turns| - 1]), turns[|turns| - 1]).1)
  }

  ghost predicate CompletedInSome(id: T.Id, turns: seq<Turn>) {
    exists i :: 0 <= i < |turns| && Completed(id, turns[i].trace.calls, turns[i].trace.results)
  }

  lemma CompletedPush(id: T.Id, init: seq<Turn>, last: Turn)
    ensures CompletedInSome(id, init + [last]) <==>
            CompletedInSome(id, init) || Completed(id, last.trace.calls, last.trace.results)
  {
    hide Completed;
    var all := init + [last];
    assert all[|init|] == last;
    assert forall i :: 0 <= i < |init| ==> all[i] == init[i];
  }

  /** Over any sequence of traces each call is projected to its end at most once; if no trace raises, exactly those
      are that some trace shows together with their result. */
  lemma {:induction false} EachCallProjectedOnce(su: Setup, turns: seq<Turn>, id: T.Id)
    ensures var t := ProcessAll(su, START, turns);
      NoDup(t.ended) && (id in t.done <==> id in t.ended) && (id in t.ended ==> CompletedInSome(id, turns)) &&
      (NoneRaises(su, START, turns) && CompletedInSome(id, turns) ==> id in t.ended)
  {
    RunKeepsInv(su, START, turns);
    ProcessedInSomeIff(su, START, turns, id);
    hide ProcessAll, CompletedInSome, NoneRaises, NoDup;
  }

  lemma {:induction false} ProcessedInSomeIff(su: Setup, s: State, turns: seq<Turn>, id: T.Id)
    ensures var t := ProcessAll(su, s, turns);
      (id in t.done ==> id in s.done || CompletedInSome(id, turns)) && (id in s.done ==> id in t.done) &&
      (NoneRaises(su, s, turns) && CompletedInSome(id, turns) ==> id in t.done)
  {
    hide Completed, Process, CompletedInSome;
    if turns == [] {
      NoTurnCompletes(id);
    } else {
      var init, last := turns[..|turns| - 1], turns[|turns| - 1];
      ProcessedInSomeIff(su, s, init, id);
      CompletedPush(id, init, last);
      assert turns == init + [last];
      ProcessedIff(su, ProcessAll(su, s, init), last.trace.calls, last.trace.results, last.clock, id);
    }
  }

  lemma NoTurnCompletes(id: T.Id)
    ensures !CompletedInSome(id, [])
  {
  }

  // ----------------------------------------------------------------- a call that raises

  /** The projection raises: a cut leaves only blanks, a row has a blank source or text, or it fails after its rows. */
  ghost predicate Fails(su: Setup, e: T.Entry<T.Call>, text: T.Text) {
    match su.job(e, text)
    case Lines(lines, _) => SomeBlankAfterCut(Content(lines, su.control), su.lim)
    case Direct(rows, fails) => fails || exists i :: 0 <= i < |rows| && !Acceptable(rows[i])
  }

  /** What an attempt files: of the rows of a read, of images or of a result, those before the first that is refused. */
  lemma AttemptMeaning(su: Setup, e: T.Entry<T.Call>, text: T.Text)
    ensures Attempted(su, e, text).ok <==> !Fails(su, e, text)
    ensures var job, a := su.job(e, text), Attempted(su, e, text);
      job.Direct? ==>
        a.rows <= job.rows && (forall i :: 0 <= i < |a.rows| ==> Acceptable(a.rows[i])) &&
        (|a.rows| < |job.rows| ==> !Acceptable(job.rows[|a.rows|]))
  {
    hide Acceptable, SomeBlankAfterCut, Content, Pieces, Rows, FirstBlank;
    match su.job(e, text)
    case Lines(lines, _) => BlankPieceRaises(su, lines);
    case Direct(rows, _) =>
  }

  /** The call in position `i` is completed, not processed, and its projection raises. */
  ghost predicate RaisesAt(su: Setup, s: State, calls: seq<T.Entry<T.Call>>, results: seq<T.Entry<T.Text>>, i: nat) {
    i < |calls| && calls[i].key !in s.done &&
    exists text :: ResultIs(results, calls[i].key, text) && Fails(su, calls[i], text)
  }

  ghost predicate StopsAt(su: Setup, s: State, calls: seq<T.Entry<T.Call>>, results: seq<T.Entry<T.Text>>, i: nat) {
    i < |calls| && !Skipped(s, calls[i], results) &&
    !Attempted(su, calls[i], ResultOf(results, calls[i].key).value).ok
  }

  lemma StopsAtIff(su: Setup, s: State, calls: seq<T.Entry<T.Call>>, results: seq<T.Entry<T.Text>>, i: nat)
    ensures StopsAt(su, s, calls, results, i) <==> RaisesAt(su, s, calls, results, i)
  {
    hide Attempted, ResultOf, ResultIs, Fails;
    if i < |calls| {
      var e := calls[i];
      forall text ensures ResultOf(results, e.key) == Some(text) <==> ResultIs(results, e.key, text) {
        ResultIsIff(results, e.key, text);
      }
      forall text ensures Attempted(su, e, text).ok <==> !Fails(su, e, text) { AttemptMeaning(su, e, text); }
    }
  }

  ghost predicate DistinctKeys(calls: seq<T.Entry<T.Call>>) {
    forall i, j :: 0 <= i < j < |calls| ==> calls[i].key != calls[j].key
  }

  /** What a trace has processed before position `n`, if it gets there. */
  lemma {:induction false} DoneUpTo(su: Setup, s: State, calls: seq<T.Entry<T.Call>>, results: seq<T.Entry<T.Text>>,
                                    clock: T.Id -> nat -> int, x: T.Entry<T.Call>)
    requires forall i :: 0 <= i < |calls| ==> calls[i].key != x.key
    ensures x.key in Process(su, s, calls, results, clock).0.done <==> x.key in s.done
  {
    hide Attempted, ResultOf, AfterAll;
    if calls != [] {
      DoneUpTo(su, s, calls[..|calls| - 1], results, clock, x);
    }
  }

  lemma {:induction false} StopsIff(su: Setup, s: State, calls: seq<T.Entry<T.Call>>, results: seq<T.Entry<T.Text>>,
                                     clock: T.Id -> nat -> int)
    requires DistinctKeys(calls)
    ensures !Process(su, s, calls, results, clock).1 <==> exists i: nat :: StopsAt(su, s, calls, results, i)
  {
    hide Attempted, ResultOf, AfterAll;
    if calls != [] {
      var n := |calls| - 1;
      var init, e := calls[..n], calls[n];
      StopsIff(su, s, init, results, clock);
      DoneUpTo(su, s, init, results, clock, e);
      forall i: nat ensures StopsAt(su, s, init, results, i) <==> i < n && StopsAt(su, s, calls, results, i) { }
      if exists i: nat :: StopsAt(su, s, init, results, i) {
        var i: nat :| StopsAt(su, s, init, results, i);
        assert StopsAt(su, s, calls, results, i);
      } else {
        assert (exists i: nat :: StopsAt(su, s, calls, results, i)) <==> StopsAt(su, s, calls, results, n);
      }
    }
  }

  /** A trace, whose calls have distinct ids, raises exactly when some call in it is completed, not processed before,
      and raises by itself; everything after the first such call is left unprocessed. */
  lemma RaisesIff(su: Setup, s: State, calls: seq<T.Entry<T.Call>>, results: seq<T.Entry<T.Text>>,
                  clock: T.Id -> nat -> int)
    requires DistinctKeys(calls)
    ensures !Process(su, s, calls, results, clock).1 <==> exists i: nat :: RaisesAt(su, s, calls, results, i)
  {
    StopsIff(su, s, calls, results, clock);
    hide StopsAt, RaisesAt, Process;
    forall i: nat ensures StopsAt(su, s, calls, results, i) <==> RaisesAt(su, s, calls, results, i) {
      StopsAtIff(su, s, calls, results, i);
    }
  }

  /** The calls from position `i` on are not processed by a trace that raises there or before. */
  lemma {:induction false} RaisingStops(su: Setup, s: State, calls: seq<T.Entry<T.Call>>,
                                        results: seq<T.Entry<T.Text>>, clock: T.Id -> nat -> int, i: nat, id: T.Id)
    requires DistinctKeys(calls) && StopsAt(su, s, calls, results, i)
    requires forall j :: 0 <= j < i ==> calls[j].key != id
    ensures var (t, ok) := Process(su, s, calls, results, clock); !ok && (id in t.done ==> id in s.done)
    decreases |calls|
  {
    hide Attempted, ResultOf, AfterAll;
    var n := |calls| - 1;
    var init, e := calls[..n], calls[n];
    if i < n {
      RaisingStops(su, s, init, results, clock, i, id);
    } else {
      DoneUpTo(su, s, init, results, clock, e);
      DoneUpTo(su, s, init, results, clock, T.Entry(id, e.value));
    }
  }

  /** The calls of the trace go on from `calls` and the result of the last of these is still `text`. */
  ghost predicate GoesOn(turn: Turn, calls: seq<T.Entry<T.Call>>, text: T.Text)
    requires calls != []
  {
    calls <= turn.trace.calls && DistinctKeys(turn.trace.calls) &&
    ResultIs(turn.trace.results, calls[|calls| - 1].key, text)
  }

  /** A call whose projection raises is never processed and blocks all behind it: however the trace grows and however
      often it is processed, each attempt raises and no later call is ever projected to its end. */
  lemma {:induction false} StuckAtTheSameCall(su: Setup, s: State, turns: seq<Turn>, calls: seq<T.Entry<T.Call>>,
                                              text: T.Text, id: T.Id)
    requires calls != [] && forall k :: 0 <= k < |turns| ==> GoesOn(turns[k], calls, text)
    requires var e := calls[|calls| - 1]; e.key !in s.done && Fails(su, e, text)
    requires forall j :: 0 <= j < |calls| - 1 ==> calls[j].key != id
    ensures var t := ProcessAll(su, s, turns); id in t.done ==> id in s.done
    ensures calls[|calls| - 1].key !in ProcessAll(su, s, turns).done
    ensures forall k :: 0 <= k < |turns| ==> !ProcessTurn(su, ProcessAll(su, s, turns[..k]), turns[k]).1
  {
    hide Attempted, ResultOf, ResultIs, Process, Fails;
    AttemptMeaning(su, calls[|calls| - 1], text);
    if turns != [] {
      var n := |turns| - 1;
      var init, last := turns[..n], turns[n];
      StuckAtTheSameCall(su, s, init, calls, text, id);
      var t := ProcessAll(su, s, init);
      BlockedTurn(su, t, last, calls, text, id);
      BlockedTurn(su, t, last, calls, text, calls[|calls| - 1].key);
      forall k | 0 <= k < |turns| ensures !ProcessTurn(su, ProcessAll(su, s, turns[..k]), turns[k]).1 {
        if k < n { assert init[..k] == turns[..k] && init[k] == turns[k]; }
      }
    }
  }

  lemma BlockedTurn(su: Setup, s: State, turn: Turn, calls: seq<T.Entry<T.Call>>, text: T.Text, id: T.Id)
    requires calls != [] && GoesOn(turn, calls, text)
    requires var e := calls[|calls| - 1]; e.key !in s.done && !Attempted(su, e, text).ok
    requires (forall j :: 0 <= j < |calls| - 1 ==> calls[j].key != id)
    ensures var (t, ok) := ProcessTurn(su, s, turn); !ok && (id in t.done ==> id in s.done)
  {
    hide Attempted, ResultOf, ResultIs, Process;
    var n := |calls| - 1;
    assert forall j :: 0 <= j <= n ==> turn.trace.calls[j] == calls[j];
    ResultIsIff(turn.trace.results, calls[n].key, text);
    assert StopsAt(su, s, turn.trace.calls, turn.trace.results, n);
    RaisingStops(su, s, turn.trace.calls, turn.trace.results, turn.clock, n, id);
  }

  // ----------------------------------------------------------------- processing a trace again

  ghost predicate HasKey(items: seq<Item>, k: Key) {
    exists it :: it in items && KeyOf(it.row) == k
  }

  /** Every row that the catalog accepts is in it. */
  ghost predicate AllIn(items: seq<Item>, rows: seq<Row>) {
    forall i :: 0 <= i < |rows| && Acceptable(rows[i]) ==> HasKey(items, KeyOf(rows[i]))
  }

  lemma AfterHasKey(items: seq<Item>, r: Row, now: int, k: Key)
    ensures HasKey(items, k) ==> HasKey(After(items, r, now), k)
    ensures HasKey(After(items, r, now), KeyOf(r))
  {
    hide KeyOf;
    var more := After(items, r, now);
    assert forall it :: it in items ==> it in more;
    if Find(items, KeyOf(r)).None? { assert more[|items|] in more; }
  }

  lemma {:induction false} AddedAreIn(items: seq<Item>, rows: seq<Row>, times: nat -> int)
    ensures AllIn(AfterAll(items, rows, times), rows)
  {
    hide KeyOf, Acceptable, HasKey, After;
    if rows != [] {
      var n := |rows| - 1;
      AddedAreIn(items, rows[..n], times);
      var before := AfterAll(items, rows[..n], times);
      forall i | 0 <= i < |rows| && Acceptable(rows[i])
        ensures HasKey(AfterAll(items, rows, times), KeyOf(rows[i]))
      {
        AfterHasKey(before, rows[n], times(n), KeyOf(rows[i]));
        if i < n { assert rows[..n][i] == rows[i]; }
      }
    }
  }

  lemma {:induction false} AddingThemAgain(items: seq<Item>, rows: seq<Row>, times: nat -> int)
    requires AllIn(items, rows)
    ensures AfterAll(items, rows, times) == items
  {
    hide KeyOf, Acceptable;
    if rows != [] {
      var n := |rows| - 1;
      assert forall i :: 0 <= i < n ==> rows[..n][i] == rows[i];
      AddingThemAgain(items, rows[..n], times);
      if Acceptable(rows[n]) { assert HasKey(items, KeyOf(rows[n])); }
    }
  }

  lemma {:induction false} NothingProcessed(su: Setup, s: State, results: seq<T.Entry<T.Text>>,
                                            clock: T.Id -> nat -> int)
    ensures Process(su, s, [], results, clock) == (s, true)
  {
  }

  lemma {:induction false} ProcessNext(su: Setup, s: State, calls: seq<T.Entry<T.Call>>,
                                       results: seq<T.Entry<T.Text>>, clock: T.Id -> nat -> int, k: nat)
    requires k < |calls| && Process(su, s, calls[..k], results, clock).1
    ensures Process(su, s, calls[..k + 1], results, clock) ==
            Visit(su, Process(su, s, calls[..k], results, clock).0, calls[k], results, clock)
  {
    hide Visit;
    assert calls[..k + 1][..k] == calls[..k];
  }

  /** Once a trace has raised, the calls after that do not matter. */
  lemma {:induction false} RaisedStays(su: Setup, s: State, calls: seq<T.Entry<T.Call>>,
                                       results: seq<T.Entry<T.Text>>, clock: T.Id -> nat -> int, k: nat)
    requires k <= |calls| && Inv(s)
    ensures var (t, ok) := Process(su, s, calls[..k], results, clock);
      (!ok ==> Process(su, s, calls, results, clock) == (t, false)) &&
      t.done <= Process(su, s, calls, results, clock).0.done
    decreases |calls| - k
  {
    hide Visit, Inv;
    if k < |calls| {
      RaisedStays(su, s, calls, results, clock, k + 1);
      assert calls[..k + 1][..k] == calls[..k];
      ProcessKeepsInv(su, s, calls[..k], results, clock);
      VisitKeepsInv(su, Process(su, s, calls[..k], results, clock).0, calls[k], results, clock);
    } else {
      assert calls[..k] == calls;
    }
  }

  /** A call that the loop has come to is then processed, without a result, or filed as far as it goes. */
  lemma VisitedAgain(su: Setup, u: State, t: State, e: T.Entry<T.Call>, results: seq<T.Entry<T.Text>>,
                     clock: T.Id -> nat -> int, again: T.Id -> nat -> int)
    requires var (v, ok) := Visit(su, u, e, results, clock); v.done <= t.done && (!ok ==> t == v)
    ensures Visit(su, t, e, results, again) == (t, Visit(su, u, e, results, clock).1)
  {
    hide Attempted, ResultOf, AfterAll;
    if !Visit(su, u, e, results, clock).1 {
      var a := Attempted(su, e, ResultOf(results, e.key).value);
      AddedAreIn(u.items, a.rows, clock(e.key));
      AddingThemAgain(t.items, a.rows, again(e.key));
    }
  }

  /** Processing a trace a second time, whether it raised or not, does the same and changes nothing: a retry adds no
      item and ends no projection. */
  lemma {:induction false} ProcessedAgain(su: Setup, s: State, calls: seq<T.Entry<T.Call>>,
                                          results: seq<T.Entry<T.Text>>, clock: T.Id -> nat -> int,
                                          again: T.Id -> nat -> int)
    requires Inv(s)
    ensures var (t, ok) := Process(su, s, calls, results, clock); Process(su, t, calls, results, again) == (t, ok)
  {
    ProcessedAgainUpTo(su, s, calls, results, clock, again, |calls|);
    assert calls[..|calls|] == calls;
  }

  lemma {:induction false} ProcessedAgainUpTo(su: Setup, s: State, calls: seq<T.Entry<T.Call>>,
                                              results: seq<T.Entry<T.Text>>, clock: T.Id -> nat -> int,
                                              again: T.Id -> nat -> int, k: nat)
    requires Inv(s) && k <= |calls|
    ensures var t := Process(su, s, calls, results, clock).0;
      Process(su, t, calls[..k], results, again) == (t, Process(su, s, calls[..k], results, clock).1)
    decreases k
  {
    hide Visit, Inv;
    if k > 0 {
      var t := Process(su, s, calls, results, clock).0;
      ProcessedAgainUpTo(su, s, calls, results, clock, again, k - 1);
      assert calls[..k][..k - 1] == calls[..k - 1];
      RaisedStays(su, s, calls, results, clock, k);
      var (u, ok) := Process(su, s, calls[..k - 1], results, clock);
      if ok { VisitedAgain(su, u, t, calls[k - 1], results, clock, again); }
    }
  }

  // ----------------------------------------------------------------- the pieces of a command

  /** No two commands share a source, and nothing else is filed under one. */
  ghost predicate Apart(su: Setup) {
    (forall id :: !Blank(su.source(id))) && (forall a, b :: a != b ==> su.source(a) != su.source(b)) &&
    (forall e, text, id :: su.job(e, text).Direct? ==> NotFrom(su.job(e, text).rows, su.source(id)))
  }

  ghost predicate NotFrom(rows: seq<Row>, source: string) {
    forall i :: 0 <= i < |rows| ==> rows[i].source != source
  }

  ghost predicate SourcesTried(su: Setup, s: State) {
    forall id :: id !in s.tried ==> SourceUnused(s.items, su.source(id))
  }

  lemma {:induction false} StaysUnused(items: seq<Item>, rows: seq<Row>, times: nat -> int, source: string)
    requires SourceUnused(items, source) && NotFrom(rows, source)
    ensures SourceUnused(AfterAll(items, rows, times), source)
  {
    hide Acceptable, KeyOf, Find;
    if rows != [] {
      var n := |rows| - 1;
      assert forall i :: 0 <= i < n ==> rows[..n][i] == rows[i];
      StaysUnused(items, rows[..n], times, source);
    }
  }

  lemma AttemptNotFrom(su: Setup, e: T.Entry<T.Call>, text: T.Text, id: T.Id)
    requires Apart(su) && id != e.key
    ensures NotFrom(Attempted(su, e, text).rows, su.source(id))
  {
    hide Projected, Content, FirstBlank, FirstRefused, Blank;
    match su.job(e, text)
    case Lines(lines, rest) =>
      var all := Pieces(su, lines);
      RowsLength(e.key, su.source(e.key), rest, all[..FirstBlank(all)]);
    case Direct(rows, fails) =>
      assert NotFrom(su.job(e, text).rows, su.source(id));
  }

  lemma VisitKeepsSources(su: Setup, s: State, e: T.Entry<T.Call>, results: seq<T.Entry<T.Text>>,
                          clock: T.Id -> nat -> int)
    requires Apart(su) && SourcesTried(su, s)
    ensures SourcesTried(su, Visit(su, s, e, results, clock).0)
  {
    hide Apart, Attempted, AfterAll, ResultOf, NotFrom, SourceUnused;
    if !Skipped(s, e, results) {
      var a, t := Attempted(su, e, ResultOf(results, e.key).value), Visit(su, s, e, results, clock).0;
      forall id | id !in t.tried ensures SourceUnused(t.items, su.source(id)) {
        AttemptNotFrom(su, e, ResultOf(results, e.key).value, id);
        StaysUnused(s.items, a.rows, clock(e.key), su.source(id));
      }
    }
  }

  lemma {:induction false} RunKeepsSources(su: Setup, s: State, turns: seq<Turn>)
    requires Apart(su) && SourcesTried(su, s)
    ensures SourcesTried(su, ProcessAll(su, s, turns))
  {
    hide Apart, SourcesTried, Process;
    if turns != [] {
      var init, last := turns[..|turns| - 1], turns[|turns| - 1];
      RunKeepsSources(su, s, init);
      ProcessKeepsSources(su, ProcessAll(su, s, init), last.trace.calls, last.trace.results, last.clock);
    }
  }

  lemma {:induction false} ProcessKeepsSources(su: Setup, s: State, calls: seq<T.Entry<T.Call>>,
                                               results: seq<T.Entry<T.Text>>, clock: T.Id -> nat -> int)
    requires Apart(su) && SourcesTried(su, s)
    ensures SourcesTried(su, Process(su, s, calls, results, clock).0)
  {
    hide Apart, SourcesTried, Visit;
    if calls != [] {
      var init := calls[..|calls| - 1];
      ProcessKeepsSources(su, s, init, results, clock);
      VisitKeepsSources(su, Process(su, s, init, results, clock).0, calls[|calls| - 1], results, clock);
    }
  }

  lemma {:induction false} PiecesAcceptable(su: Setup, lines: seq<string>)
    ensures var all := Pieces(su, lines); Acceptables(all[..FirstBlank(all)])
  {
    var content := Content(lines, su.control);
    ContentMeaning(lines, su.control);
    ProjectionMeaning(content, su.lim);
    hide Content, Projected, Blank, Flagged, Bounded;
  }

  lemma {:induction false} BlankPieceRaises(su: Setup, lines: seq<string>)
    ensures var all := Pieces(su, lines);
      (FirstBlank(all) == |all| <==> !SomeBlankAfterCut(Content(lines, su.control), su.lim)) &&
      (FirstBlank(all) == |all| ==> all[..FirstBlank(all)] == all)
  {
    var content, all := Content(lines, su.control), Pieces(su, lines);
    hide Blank, SomeBlankAfterCut, Content, Projected, FirstBlank;
    BlankPieceIff(content, su.lim);
    assert FirstBlank(all) == |all| <==> !exists i :: 0 <= i < |all| && Blank(all[i].text);
    assert all[..|all|] == all;
  }

  /** What one command files of its output. */
  function Filed(su: Setup, lines: seq<string>): seq<Piece> {
    Pieces(su, lines)[..FirstBlank(Pieces(su, lines))]
  }

  lemma VisitFilesPieces(su: Setup, s: State, e: T.Entry<T.Call>, results: seq<T.Entry<T.Text>>,
                         clock: T.Id -> nat -> int)
    requires !Skipped(s, e, results) && su.job(e, ResultOf(results, e.key).value).Lines?
    requires SourceUnused(s.items, su.source(e.key)) && !Blank(su.source(e.key))
    ensures var (t, ok) := Visit(su, s, e, results, clock);
      var job := su.job(e, ResultOf(results, e.key).value);
      FiledAfter(s.items, t.items, e.key, su.source(e.key), job.rest, Filed(su, job.lines)) &&
      (ok <==> FirstBlank(Pieces(su, job.lines)) == |Pieces(su, job.lines)|)
  {
    var job := su.job(e, ResultOf(results, e.key).value);
    PiecesAcceptable(su, job.lines);
    hide ResultOf, Blank, Content, Projected, AfterAll, FiledAfter, Acceptables, SourceUnused, Rows;
    EveryPieceGetsItsOwnRef(s.items, e.key, su.source(e.key), job.rest, Filed(su, job.lines), clock(e.key));
  }

  /** The first time a command is come to, after any sequence of traces: each of its pieces becomes an item of its
      own with the next reference, all of them if no line is reached whose cut leaves only blanks, else those before. */
  lemma {:induction false} FirstTimeFilesEveryPiece(su: Setup, turns: seq<Turn>, e: T.Entry<T.Call>,
                                                    results: seq<T.Entry<T.Text>>, clock: T.Id -> nat -> int)
    requires Apart(su) && e.key !in ProcessAll(su, START, turns).tried
    requires ResultOf(results, e.key).Some? && su.job(e, ResultOf(results, e.key).value).Lines?
    ensures var s := ProcessAll(su, START, turns);
      var (t, ok) := Visit(su, s, e, results, clock);
      var job := su.job(e, ResultOf(results, e.key).value);
      FiledAfter(s.items, t.items, e.key, su.source(e.key), job.rest, Filed(su, job.lines)) &&
      (ok <==> Filed(su, job.lines) == Pieces(su, job.lines)) &&
      (ok <==> !SomeBlankAfterCut(Content(job.lines, su.control), su.lim))
  {
    var s := ProcessAll(su, START, turns);
    assert SourcesTried(su, START);
    RunKeepsSources(su, START, turns);
    RunKeepsInv(su, START, turns);
    var job := su.job(e, ResultOf(results, e.key).value);
    BlankPieceRaises(su, job.lines);
    hide ProcessAll, ResultOf, Blank, SomeBlankAfterCut, Content, Projected, FiledAfter, SourceUnused;
    assert SourceUnused(s.items, su.source(e.key)) && !Blank(su.source(e.key));
    VisitFilesPieces(su, s, e, results, clock);
    hide Visit, Apart;
  }
}
