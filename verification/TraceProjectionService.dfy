/** `OpenClawEvidenceProjector.process_trace` as it runs. */
module TraceProjectionService {
  import opened Sequences
  import opened Evidence
  import opened EvidenceService
  import opened Projector
  import opened ProjectorService
  import opened TraceProjection
  import T = Transcript

  class TraceProjector {
    const su: Setup
    const catalog: EvidenceCatalog
    const projecting: Projecting
    var processed: set<T.Id>
    ghost var tried: set<T.Id>
    ghost var ended: seq<T.Id>

    ghost predicate Valid()
      reads this, catalog
    {
      catalog.Valid() && Positive(su.lim) && projecting.lim == su.lim && projecting.catalog == catalog &&
      (forall id :: !Blank(su.source(id))) && Inv(View())
    }

    ghost function View(): State
      reads this, catalog
    {
      State(catalog.items, processed, tried, ended)
    }

    constructor (su: Setup, catalog: EvidenceCatalog)
      requires Positive(su.lim) && catalog.Valid() && catalog.items == [] && forall id :: !Blank(su.source(id))
      ensures this.su == su && this.catalog == catalog && Valid() && View() == START
    {
      this.su, this.catalog := su, catalog;
      processed, tried, ended := {}, {}, [];
      projecting := new Projecting(su.lim, catalog);
    }

    /** The loop over the calls.  `ok` is false when the projection of a call raised: what it had filed stays, and it is
        not marked as processed. */
    method ProcessTrace(trace: T.Trace, clock: T.Id -> nat -> int) returns (ok: bool)
      requires Valid()
      modifies this, catalog
      ensures Valid()
      ensures (View(), ok) == ProcessTurn(su, old(View()), Turn(trace, clock))
      ensures processed >= old(processed)
    {
      ghost var start := View();
      ProcessKeepsInv(su, start, trace.calls, trace.results, clock);
      var i := 0;
      hide Process, Visit, EvidenceCatalog.Valid, Blank, Inv;
      NothingProcessed(su, start, trace.results, clock);
      while i < |trace.calls|
        invariant 0 <= i <= |trace.calls| && Valid()
        invariant Process(su, start, trace.calls[..i], trace.results, clock) == (View(), true)
      {
        var e := trace.calls[i];
        ProcessNext(su, start, trace.calls, trace.results, clock, i);
        VisitKeepsInv(su, View(), e, trace.results, clock);
        var went := VisitCall(e, trace.results, clock);
        if !went {
          RaisedStays(su, start, trace.calls, trace.results, clock, i + 1);
          return false;
        }
        i := i + 1;
      }
      assert trace.calls[..i] == trace.calls;
      return true;
    }

    /** The body of the loop. */
    method VisitCall(e: T.Entry<T.Call>, results: seq<T.Entry<T.Text>>, clock: T.Id -> nat -> int) returns (ok: bool)
      requires Valid()
      modifies this, catalog
      ensures Valid()
      ensures (View(), ok) == Visit(su, old(View()), e, results, clock)
    {
      hide EvidenceCatalog.Valid, Blank, Projected, Content, AfterAll, Rows;
      VisitKeepsInv(su, View(), e, results, clock);
      hide Inv;
      var result := ResultOf(results, e.key);
      if e.key in processed || result.None? {
        return true;
      }
      tried := tried + {e.key};
      match su.job(e, result.value) {
        case Lines(lines, rest) =>
          ghost var filed;
          ok, filed := projecting.ProjectLines(e.key, su.source(e.key), rest, lines, su.control, clock(e.key));
        case Direct(rows, fails) =>
          ok := AddRows(rows, clock(e.key));
          ok := ok && !fails;
      }
      if ok {
        processed := processed + {e.key};
        ended := ended + [e.key];
      }
    }

    /** The rows of any other tool, up to the first that the catalog refuses. */
    method AddRows(rows: seq<Row>, now: nat -> int) returns (ok: bool)
      requires catalog.Valid()
      modifies catalog
      ensures catalog.Valid()
      ensures catalog.items == AfterAll(old(catalog.items), rows[..FirstRefused(rows)], now)
      ensures ok <==> FirstRefused(rows) == |rows|
    {
      hide EvidenceCatalog.Valid, Acceptable, After;
      var i := 0;
      while i < |rows|
        invariant 0 <= i <= FirstRefused(rows) && catalog.Valid()
        invariant catalog.items == AfterAll(old(catalog.items), rows[..i], now)
      {
        assert rows[..i + 1][..i] == rows[..i];
        var item := catalog.Add(rows[i], now(i));
        if item.None? {
          return false;
        }
        i := i + 1;
      }
      assert rows[..i] == rows;
      return true;
    }
  }
}
