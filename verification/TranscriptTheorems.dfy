/** What the dictionary folds mean, and that aggregation is parsing of the concatenation. */
module TranscriptTheorems {
  import opened Sequences
  import opened Transcript

  ghost predicate Distinct<V>(d: seq<Entry<V>>) {
    forall i, j :: 0 <= i < j < |d| ==> d[i].key != d[j].key
  }

  lemma {:induction false} PutKeepsDistinct<V>(d: seq<Entry<V>>, k: Id, v: V)
    requires Distinct(d)
    ensures Distinct(Put(d, k, v))
  {
    if d != [] && d[0].key != k {
      PutKeepsDistinct(d[1..], k, v);
      var rest := Put(d[1..], k, v);
      assert !Has(d[1..], d[0].key);
      assert !Has(rest, d[0].key);
      assert forall j :: 0 <= j < |rest| ==> rest[j].key != d[0].key;
    }
  }

  lemma {:induction false} PutTwice<V>(d: seq<Entry<V>>, k: Id, v: V, w: V)
    ensures Put(Put(d, k, v), k, w) == Put(d, k, w)
  {
    if d != [] && d[0].key != k {
      PutTwice(d[1..], k, v, w);
      assert Put(d, k, v)[1..] == Put(d[1..], k, v);
    }
  }

  lemma HasTail<V>(d: seq<Entry<V>>, k: Id)
    requires d != [] && Has(d, k) && d[0].key != k
    ensures Has(d[1..], k)
  {
    var i :| 0 <= i < |d| && d[i].key == k;
    assert d[1..][i - 1].key == k;
  }

  /** Rewriting a key that is already there commutes with a write to another key. */
  lemma {:induction false} PutsCommute<V>(d: seq<Entry<V>>, k: Id, v: V, b: Id, u: V)
    requires Has(d, k) && b != k
    ensures Put(Put(d, b, u), k, v) == Put(Put(d, k, v), b, u)
  {
    if d[0].key == k {
      assert Put(d, k, v)[1..] == d[1..];
      assert Put(d, b, u)[1..] == Put(d[1..], b, u);
    } else {
      HasTail(d, k);
      if d[0].key == b {
        assert Put(d, b, u)[1..] == d[1..];
        assert Put(d, k, v)[1..] == Put(d[1..], k, v);
      } else {
        PutsCommute(d[1..], k, v, b, u);
        assert Put(d, b, u)[1..] == Put(d[1..], b, u);
        assert Put(d, k, v)[1..] == Put(d[1..], k, v);
      }
    }
  }

  lemma {:induction false} PutAllHas<V>(d: seq<Entry<V>>, es: seq<Entry<V>>, k: Id)
    ensures Has(PutAll(d, es), k) <==> Has(d, k) || Has(es, k)
  {
    if es != [] {
      var init, e := es[..|es| - 1], es[|es| - 1];
      PutAllHas(d, init, k);
      HasSplit(init, e, k);
      assert es == init + [e];
    }
  }

  lemma HasSplit<V>(d: seq<Entry<V>>, e: Entry<V>, k: Id)
    ensures Has(d + [e], k) <==> Has(d, k) || e.key == k
  {
    var r := d + [e];
    if Has(d, k) { var i :| 0 <= i < |d| && d[i].key == k; assert r[i].key == k; }
    if e.key == k { assert r[|d|].key == k; }
    if Has(r, k) && e.key != k { var i :| 0 <= i < |r| && r[i].key == k; assert d[i].key == k; }
  }

  /** A later rewrite of `k` can be moved before writes that do not touch `k`. */
  lemma {:induction false} PutPastAll<V>(d: seq<Entry<V>>, es: seq<Entry<V>>, k: Id, v: V)
    requires Has(d, k) && !Has(es, k)
    ensures Put(PutAll(d, es), k, v) == PutAll(Put(d, k, v), es)
  {
    if es != [] {
      var init, e := es[..|es| - 1], es[|es| - 1];
      assert es == init + [e];
      HasSplit(init, e, k);
      PutPastAll(d, init, k, v);
      PutAllHas(d, init, k);
      PutsCommute(PutAll(d, init), k, v, e.key, e.value);
    }
  }

  lemma {:induction false} PutAllConcat<V>(d: seq<Entry<V>>, a: seq<Entry<V>>, b: seq<Entry<V>>)
    ensures PutAll(d, a + b) == PutAll(PutAll(d, a), b)
  {
    if b == [] {
      assert a + b == a;
    } else {
      PutAllConcat(d, a, b[..|b| - 1]);
      assert (a + b)[..|a + b| - 1] == a + b[..|b| - 1];
    }
  }

  lemma {:induction false} PutAllCons<V>(d: seq<Entry<V>>, e: Entry<V>, rest: seq<Entry<V>>)
    ensures PutAll(d, [e] + rest) == PutAll(Put(d, e.key, e.value), rest)
  {
    PutAllConcat(d, [e], rest);
    assert [e][..0] == [];
    assert PutAll(d, [e]) == Put(PutAll(d, []), e.key, e.value);
  }

  /** Writing an updated dictionary's entries is writing the old ones and then the update. */
  lemma {:induction false} PutAllOfPut<V>(d: seq<Entry<V>>, e: seq<Entry<V>>, k: Id, v: V)
    requires Distinct(e)
    ensures PutAll(d, Put(e, k, v)) == Put(PutAll(d, e), k, v)
    decreases |e|
  {
    hide PutAll;
    if e == [] {
      assert Put(e, k, v) == [Entry(k, v)] + [];
      PutAllCons(d, Entry(k, v), []);
      PutAllNone(d);
      PutAllNone(Put(d, k, v));
    } else {
      var rest := e[1..];
      assert e == [e[0]] + rest;
      PutAllCons(d, e[0], rest);
      if e[0].key == k {
        assert Put(e, k, v) == [Entry(k, v)] + rest;
        PutAllCons(d, Entry(k, v), rest);
        PutPastAll(Put(d, k, e[0].value), rest, k, v);
        PutTwice(d, k, e[0].value, v);
      } else {
        assert Put(e, k, v) == [e[0]] + Put(rest, k, v);
        PutAllCons(d, e[0], Put(rest, k, v));
        PutAllOfPut(Put(d, e[0].key, e[0].value), rest, k, v);
      }
    }
  }

  lemma {:induction false} PutAllNone<V>(d: seq<Entry<V>>)
    ensures PutAll(d, []) == d
  {
  }

  lemma {:induction false} PutAllDistinct<V>(es: seq<Entry<V>>)
    ensures Distinct(PutAll([], es))
  {
    if es != [] {
      PutAllDistinct(es[..|es| - 1]);
      PutKeepsDistinct(PutAll([], es[..|es| - 1]), es[|es| - 1].key, es[|es| - 1].value);
    }
  }

  /** Folding first and writing the result gives what writing the updates directly gives. */
  lemma {:induction false} FoldThenWrite<V>(d: seq<Entry<V>>, es: seq<Entry<V>>)
    ensures PutAll(d, PutAll([], es)) == PutAll(d, es)
  {
    if es != [] {
      var init, e := es[..|es| - 1], es[|es| - 1];
      FoldThenWrite(d, init);
      PutAllDistinct(init);
      PutAllOfPut(d, PutAll([], init), e.key, e.value);
    }
  }

  lemma {:induction false} CallWritesConcat(a: seq<Message>, b: seq<Message>)
    ensures CallWrites(a + b) == CallWrites(a) + CallWrites(b)
  {
    hide MessageCalls;
    if b == [] {
      assert a + b == a;
    } else {
      var init, m := b[..|b| - 1], b[|b| - 1];
      CallWritesConcat(a, init);
      assert (a + b)[..|a + b| - 1] == a + init && (a + b)[|a + b| - 1] == m;
      assert CallWrites(a + b) == CallWrites(a + init) + MessageCalls(m);
    }
  }

  lemma {:induction false} ResultWritesConcat(a: seq<Message>, b: seq<Message>)
    ensures ResultWrites(a + b) == ResultWrites(a) + ResultWrites(b)
  {
    hide MessageResults;
    if b == [] {
      assert a + b == a;
    } else {
      var init, m := b[..|b| - 1], b[|b| - 1];
      ResultWritesConcat(a, init);
      assert (a + b)[..|a + b| - 1] == a + init && (a + b)[|a + b| - 1] == m;
      assert ResultWrites(a + b) == ResultWrites(a + init) + MessageResults(m);
    }
  }

  /** Aggregating the requests of a turn is parsing all their messages as one transcript. */
  lemma {:induction false} AggregationIsParsing(ps: seq<Payload>)
    ensures Aggregate(ps) == Parse(AllMessages(ps))
  {
    if ps == [] {
      assert CallWrites([]) == [] && ResultWrites([]) == [];
    } else {
      var init, ms := ps[..|ps| - 1], MessagesOf(ps[|ps| - 1]);
      AggregationIsParsing(init);
      hide CallWrites, ResultWrites, PutAll;
      CallWritesConcat(AllMessages(init), ms);
      ResultWritesConcat(AllMessages(init), ms);
      FoldThenWrite(Parse(AllMessages(init)).calls, CallWrites(ms));
      FoldThenWrite(Parse(AllMessages(init)).results, ResultWrites(ms));
      PutAllConcat([], CallWrites(AllMessages(init)), CallWrites(ms));
      PutAllConcat([], ResultWrites(AllMessages(init)), ResultWrites(ms));
    }
  }

  // ----------------------------------------------------------------- what a parsed dictionary holds

  /** The first position at which a key is written. */
  function FirstAt<V>(es: seq<Entry<V>>, k: Id): (i: nat)
    requires Has(es, k)
    ensures i < |es| && es[i].key == k && forall j :: 0 <= j < i ==> es[j].key != k
  {
    if es[0].key == k then 0
    else
      HasTail(es, k);
      assert forall j :: 1 <= j < |es| ==> es[j] == es[1..][j - 1];
      1 + FirstAt(es[1..], k)
  }

  /** The value written last under a key. */
  function LastValue<V>(es: seq<Entry<V>>, k: Id): V
    requires Has(es, k)
  {
    var e := es[|es| - 1];
    if e.key == k then e.value
    else
      assert es == es[..|es| - 1] + [e];
      HasSplit(es[..|es| - 1], e, k);
      LastValue(es[..|es| - 1], k)
  }

  lemma {:induction false} PutNew<V>(d: seq<Entry<V>>, k: Id, v: V)
    requires !Has(d, k)
    ensures Put(d, k, v) == d + [Entry(k, v)]
  {
    if d != [] {
      assert d == [d[0]] + d[1..];
      HasCons(d[0], d[1..]);
      PutNew(d[1..], k, v);
    }
  }

  lemma {:induction false} PutExisting<V>(d: seq<Entry<V>>, k: Id, v: V)
    requires Has(d, k) && Distinct(d)
    ensures |Put(d, k, v)| == |d|
    ensures forall i :: 0 <= i < |d| ==> Put(d, k, v)[i] == (if d[i].key == k then Entry(k, v) else d[i])
  {
    if d[0].key == k {
      assert forall j :: 1 <= j < |d| ==> d[j].key != k;
    } else {
      HasTail(d, k);
      PutExisting(d[1..], k, v);
      assert forall i :: 1 <= i < |d| ==> d[i] == d[1..][i - 1] && Put(d, k, v)[i] == Put(d[1..], k, v)[i - 1];
    }
  }

  ghost predicate LastWins<V>(d: seq<Entry<V>>, es: seq<Entry<V>>) {
    forall i :: 0 <= i < |d| ==> Has(es, d[i].key) && d[i].value == LastValue(es, d[i].key)
  }

  lemma {:induction false} ParsedValues<V>(es: seq<Entry<V>>)
    ensures LastWins(PutAll([], es), es)
  {
    if es != [] {
      var init, e := es[..|es| - 1], es[|es| - 1];
      var c := PutAll([], init);
      ParsedValues(init);
      assert LastWins(c, init);
      PutAllDistinct(init);
      assert es == init + [e];
      var d := PutAll([], es);
      assert d == Put(c, e.key, e.value);
      hide PutAll, Distinct;
      if Has(c, e.key) { PutExisting(c, e.key, e.value); } else { PutNew(c, e.key, e.value); }
      hide Put;
      forall i | 0 <= i < |d| ensures Has(es, d[i].key) && d[i].value == LastValue(es, d[i].key) {
        HasSplit(init, e, d[i].key);
        if i < |c| && c[i].key != e.key {
          assert d[i] == c[i] && Has(init, c[i].key);
          assert es[..|es| - 1] == init;
        } else {
          assert d[i] == Entry(e.key, e.value);
        }
      }
    }
  }

  ghost predicate FirstSeenOrder<V>(d: seq<Entry<V>>, es: seq<Entry<V>>) {
    (forall i :: 0 <= i < |d| ==> Has(es, d[i].key)) &&
    (forall i, j :: 0 <= i < j < |d| ==> FirstAt(es, d[i].key) < FirstAt(es, d[j].key))
  }

  lemma OrderOfSameKeys<V>(c: seq<Entry<V>>, d: seq<Entry<V>>, init: seq<Entry<V>>, e: Entry<V>)
    requires FirstSeenOrder(c, init) && |d| == |c| && forall i :: 0 <= i < |c| ==> d[i].key == c[i].key
    ensures FirstSeenOrder(d, init + [e])
  {
    hide FirstAt;
    forall i | 0 <= i < |d|
      ensures Has(init, d[i].key) && Has(init + [e], d[i].key) &&
              FirstAt(init + [e], d[i].key) == FirstAt(init, c[i].key)
    {
      assert Has(init, c[i].key);
      FirstAtPrefix(init, e, c[i].key);
    }
  }

  lemma OrderOfNewKey<V>(c: seq<Entry<V>>, init: seq<Entry<V>>, e: Entry<V>)
    requires FirstSeenOrder(c, init) && !Has(init, e.key)
    ensures FirstSeenOrder(c + [e], init + [e])
  {
    hide FirstAt;
    OrderOfSameKeys(c, c, init, e);
    FirstAtNew(init, e);
    forall i | 0 <= i < |c| ensures FirstAt(init + [e], c[i].key) < |init| {
      assert Has(init, c[i].key);
      FirstAtPrefix(init, e, c[i].key);
    }
  }

  lemma {:induction false} ParsedOrder<V>(es: seq<Entry<V>>)
    ensures FirstSeenOrder(PutAll([], es), es)
  {
    if es != [] {
      var init, e := es[..|es| - 1], es[|es| - 1];
      var c := PutAll([], init);
      PutAllHas([], init, e.key);
      ParsedOrder(init);
      assert FirstSeenOrder(c, init);
      PutAllDistinct(init);
      assert es == init + [e];
      var d := PutAll([], es);
      assert d == Put(c, e.key, e.value);
      hide PutAll, Distinct, FirstSeenOrder, FirstAt;
      if Has(c, e.key) {
        PutExisting(c, e.key, e.value);
        OrderOfSameKeys(c, d, init, e);
      } else {
        PutNew(c, e.key, e.value);
        OrderOfNewKey(c, init, e);
      }
    }
  }

  /** A parsed dictionary holds each written key once, in order of first occurrence, with the last value written. */
  lemma {:induction false} ParsedMeaning<V>(es: seq<Entry<V>>)
    ensures var d := PutAll([], es);
      Distinct(d) && (forall k :: Has(d, k) <==> Has(es, k)) &&
      LastWins(d, es) && FirstSeenOrder(d, es)
  {
    PutAllDistinct(es);
    forall k ensures Has(PutAll([], es), k) <==> Has(es, k) { PutAllHas([], es, k); }
    ParsedValues(es);
    ParsedOrder(es);
  }

  lemma {:induction false} FirstAtPrefix<V>(init: seq<Entry<V>>, e: Entry<V>, k: Id)
    requires Has(init, k)
    ensures Has(init + [e], k) && FirstAt(init + [e], k) == FirstAt(init, k)
  {
    HasSplit(init, e, k);
    var i, j := FirstAt(init + [e], k), FirstAt(init, k);
    assert (init + [e])[j] == init[j];
    assert i < |init| ==> (init + [e])[i] == init[i];
  }

  lemma {:induction false} FirstAtNew<V>(init: seq<Entry<V>>, e: Entry<V>)
    requires !Has(init, e.key)
    ensures Has(init + [e], e.key) && FirstAt(init + [e], e.key) == |init|
  {
    HasSplit(init, e, e.key);
    var i := FirstAt(init + [e], e.key);
    assert forall j :: 0 <= j < |init| ==> (init + [e])[j].key != e.key;
  }

  // ----------------------------------------------------------------- what a transcript says

  /** Row `j` of message `i` is a well-formed call with this id. */
  ghost predicate CallAt(ms: seq<Message>, i: int, j: int, id: Id) {
    0 <= i < |ms| && ms[i].Assistant? && ms[i].calls.Rows? &&
    0 <= j < |ms[i].calls.rows| && ms[i].calls.rows[j].RawCall? && ms[i].calls.rows[j].id == id
  }

  /** No later message, and no later row of the same message, calls with this id. */
  ghost predicate LastCallAt(ms: seq<Message>, i: int, j: int, id: Id) {
    CallAt(ms, i, j, id) && forall k, l :: CallAt(ms, k, l, id) ==> k < i || (k == i && l <= j)
  }

  ghost predicate RowAt(rows: seq<RawCall>, j: int, id: Id) {
    0 <= j < |rows| && rows[j].RawCall? && rows[j].id == id
  }

  ghost predicate LastRowAt(rows: seq<RawCall>, j: int, id: Id) {
    RowAt(rows, j, id) && forall l :: RowAt(rows, l, id) ==> l <= j
  }

  lemma {:induction false} RowsKnow(rows: seq<RawCall>, id: Id)
    ensures Has(RowCalls(rows), id) <==> exists j :: RowAt(rows, j, id)
  {
    hide Has, LastValue;
    if rows == [] {
      NothingHas<Call>(id);
    } else {
      var init, row := rows[..|rows| - 1], rows[|rows| - 1];
      RowsKnow(init, id);
      assert forall j :: 0 <= j < |init| ==> (RowAt(init, j, id) <==> RowAt(rows, j, id));
      assert RowAt(rows, |init|, id) <==> row.RawCall? && row.id == id;
      if row.RawCall? {
        HasPush(RowCalls(init), Entry(row.id, row.call), id);
      } else {
        assert RowCalls(rows) == RowCalls(init);
      }
    }
  }

  /** Of the rows of one message the last well-formed one with an id decides. */
  lemma {:induction false} RowsLast(rows: seq<RawCall>, j: int, id: Id)
    requires LastRowAt(rows, j, id)
    ensures Has(RowCalls(rows), id) && LastValue(RowCalls(rows), id) == rows[j].call
  {
    hide Has, LastValue;
    var init, row := rows[..|rows| - 1], rows[|rows| - 1];
    if j < |init| {
      assert !RowAt(rows, |init|, id);
      assert forall l :: RowAt(init, l, id) ==> RowAt(rows, l, id);
      RowsLast(init, j, id);
    }
    if row.RawCall? {
      HasPush(RowCalls(init), Entry(row.id, row.call), id);
    } else {
      assert RowCalls(rows) == RowCalls(init);
    }
  }

  lemma HasPush<V>(d: seq<Entry<V>>, e: Entry<V>, k: Id)
    ensures Has(d + [e], k) <==> Has(d, k) || e.key == k
    ensures Has(d + [e], k) ==> LastValue(d + [e], k) == if e.key == k then e.value else LastValue(d, k)
  {
    HasSplit(d, e, k);
    assert (d + [e])[..|d|] == d;
  }

  lemma {:induction false} HasConcat<V>(a: seq<Entry<V>>, b: seq<Entry<V>>, k: Id)
    ensures Has(a + b, k) <==> Has(a, k) || Has(b, k)
    ensures Has(a + b, k) ==> LastValue(a + b, k) == if Has(b, k) then LastValue(b, k) else LastValue(a, k)
  {
    if b == [] {
      assert a + b == a;
    } else {
      var init, e := b[..|b| - 1], b[|b| - 1];
      HasConcat(a, init, k);
      HasSplit(init, e, k);
      HasSplit(a + init, e, k);
      assert b == init + [e] && a + b == (a + init) + [e];
      assert (a + b)[..|a + b| - 1] == a + init;
    }
  }

  lemma LastMessageCalls(init: seq<Message>, m: Message, id: Id)
    ensures Has(MessageCalls(m), id) <==> exists j :: CallAt(init + [m], |init|, j, id)
  {
    hide Has, RowCalls, RowAt;
    NothingHas<Call>(id);
    if m.Assistant? && m.calls.Rows? {
      RowsKnow(m.calls.rows, id);
      assert forall j :: CallAt(init + [m], |init|, j, id) <==> RowAt(m.calls.rows, j, id) by {
        LastCallRow(init, m, id);
      }
      if j :| RowAt(m.calls.rows, j, id) { assert CallAt(init + [m], |init|, j, id); }
    }
  }

  lemma LastCallRow(init: seq<Message>, m: Message, id: Id)
    requires m.Assistant? && m.calls.Rows?
    ensures forall j :: CallAt(init + [m], |init|, j, id) <==> RowAt(m.calls.rows, j, id)
  {
  }

  lemma CallIsIn(init: seq<Message>, m: Message, id: Id)
    ensures forall i, j :: i < |init| ==> (CallAt(init + [m], i, j, id) <==> CallAt(init, i, j, id))
    ensures forall i, j :: CallAt(init, i, j, id) ==> 0 <= i < |init|
    ensures forall i, j :: CallAt(init + [m], i, j, id) ==> 0 <= i <= |init|
  {
    assert forall i :: 0 <= i < |init| ==> (init + [m])[i] == init[i];
  }

  lemma {:induction false} CallsKnow(ms: seq<Message>, id: Id)
    ensures Has(CallWrites(ms), id) <==> exists i, j :: CallAt(ms, i, j, id)
  {
    hide Has, LastValue, CallAt, RowCalls, RowAt;
    NothingHas<Call>(id);
    if ms == [] {
      NothingAt(id);
    } else {
      var init, m := ms[..|ms| - 1], ms[|ms| - 1];
      CallsKnow(init, id);
      HasConcat(CallWrites(init), MessageCalls(m), id);
      CallIsIn(init, m, id);
      LastMessageCalls(init, m, id);
      assert ms == init + [m];
    }
  }

  /** Of the calls of a transcript the last well-formed one with an id decides. */
  lemma {:induction false} CallsLast(ms: seq<Message>, i: int, j: int, id: Id)
    requires LastCallAt(ms, i, j, id)
    ensures Has(CallWrites(ms), id) && LastValue(CallWrites(ms), id) == ms[i].calls.rows[j].call
  {
    hide Has, LastValue, RowCalls, RowAt;
    var init, m := ms[..|ms| - 1], ms[|ms| - 1];
    assert ms == init + [m];
    HasConcat(CallWrites(init), MessageCalls(m), id);
    if i < |init| {
      LastMessageCalls(init, m, id);
      CallIsIn(init, m, id);
      assert CallAt(init, i, j, id);
      hide CallAt;
      assert LastCallAt(init, i, j, id);
      CallsLast(init, i, j, id);
    } else {
      LastCallRow(init, m, id);
      hide CallAt;
      assert RowAt(m.calls.rows, j, id);
      assert forall l :: RowAt(m.calls.rows, l, id) ==> CallAt(ms, |init|, l, id);
      RowsLast(m.calls.rows, j, id);
    }
  }

  lemma NothingHas<V>(id: Id)
    ensures !Has<V>([], id)
  {
  }

  /** Message `i` is a result for this id. */
  ghost predicate ResultAt(ms: seq<Message>, i: int, id: Id) {
    0 <= i < |ms| && ms[i].ToolMessage? && ms[i].id == Some(id)
  }

  ghost predicate LastResultAt(ms: seq<Message>, i: int, id: Id) {
    ResultAt(ms, i, id) && forall k :: ResultAt(ms, k, id) ==> k <= i
  }

  lemma {:induction false} ResultsKnow(ms: seq<Message>, id: Id)
    ensures Has(ResultWrites(ms), id) <==> exists i :: ResultAt(ms, i, id)
  {
    hide Has, LastValue;
    if ms == [] {
      NothingHas<Text>(id);
    } else {
      var init, m := ms[..|ms| - 1], ms[|ms| - 1];
      ResultsKnow(init, id);
      assert forall i :: 0 <= i < |init| ==> (ResultAt(init, i, id) <==> ResultAt(ms, i, id));
      assert ResultAt(ms, |init|, id) <==> m.ToolMessage? && m.id == Some(id);
      if m.ToolMessage? && m.id.Some? {
        HasPush(ResultWrites(init), Entry(m.id.value, m.content), id);
      } else {
        assert ResultWrites(ms) == ResultWrites(init);
      }
    }
  }

  lemma {:induction false} ResultsLast(ms: seq<Message>, i: int, id: Id)
    requires LastResultAt(ms, i, id)
    ensures Has(ResultWrites(ms), id) && LastValue(ResultWrites(ms), id) == ms[i].content
  {
    hide Has, LastValue;
    var init, m := ms[..|ms| - 1], ms[|ms| - 1];
    if i < |init| {
      assert !ResultAt(ms, |init|, id);
      assert forall k :: ResultAt(init, k, id) ==> ResultAt(ms, k, id);
      ResultsLast(init, i, id);
    }
    if m.ToolMessage? && m.id.Some? {
      HasPush(ResultWrites(init), Entry(m.id.value, m.content), id);
    } else {
      assert ResultWrites(ms) == ResultWrites(init);
    }
  }

  ghost predicate HasValue<V>(d: seq<Entry<V>>, k: Id, v: V) {
    exists i :: 0 <= i < |d| && d[i] == Entry(k, v)
  }

  lemma ValueHeld<V>(d: seq<Entry<V>>, es: seq<Entry<V>>, id: Id)
    requires LastWins(d, es) && Has(d, id) && Has(es, id)
    ensures HasValue(d, id, LastValue(es, id))
  {
    hide LastValue;
    var i :| 0 <= i < |d| && d[i].key == id;
    assert d[i] == Entry(id, LastValue(es, id));
  }

  /** What the parse of a transcript holds: under each id the last well-formed call with it and the last result for
      it, and nothing under an id that has none. */
  lemma ParseMeaning(ms: seq<Message>, id: Id)
    ensures Has(Parse(ms).calls, id) <==> exists i, j :: CallAt(ms, i, j, id)
    ensures Has(Parse(ms).results, id) <==> exists i :: ResultAt(ms, i, id)
    ensures forall i, j :: LastCallAt(ms, i, j, id) ==> HasValue(Parse(ms).calls, id, ms[i].calls.rows[j].call)
    ensures forall i :: LastResultAt(ms, i, id) ==> HasValue(Parse(ms).results, id, ms[i].content)
  {
    hide PutAll, LastValue, CallWrites, ResultWrites, FirstSeenOrder, Distinct, LastWins, Has, HasValue;
    CallsKnow(ms, id);
    ResultsKnow(ms, id);
    ParsedMeaning(CallWrites(ms));
    ParsedMeaning(ResultWrites(ms));
    forall i, j | LastCallAt(ms, i, j, id) ensures HasValue(Parse(ms).calls, id, ms[i].calls.rows[j].call) {
      CallsLast(ms, i, j, id);
      ValueHeld(Parse(ms).calls, CallWrites(ms), id);
    }
    forall i | LastResultAt(ms, i, id) ensures HasValue(Parse(ms).results, id, ms[i].content) {
      ResultsLast(ms, i, id);
      ValueHeld(Parse(ms).results, ResultWrites(ms), id);
    }
  }

  /** The aggregate of the requests of a turn knows the ids of their well-formed calls, unreadable requests aside. */
  lemma {:induction false} AggregateKnows(ps: seq<Payload>, id: Id)
    ensures Has(Aggregate(ps).calls, id) <==>
      exists k, i, j :: 0 <= k < |ps| && ps[k].Messages? && CallAt(ps[k].messages, i, j, id)
    ensures Has(Aggregate(ps).results, id) <==>
      exists k, i :: 0 <= k < |ps| && ps[k].Messages? && ResultAt(ps[k].messages, i, id)
  {
    hide PutAll, CallWrites, ResultWrites, CallAt, ResultAt, Has;
    if ps == [] {
      NothingHas<Call>(id);
      NothingHas<Text>(id);
    } else {
      var init, p := ps[..|ps| - 1], ps[|ps| - 1];
      AggregateKnows(init, id);
      PutAllHas(Aggregate(init).calls, Parse(MessagesOf(p)).calls, id);
      PutAllHas(Aggregate(init).results, Parse(MessagesOf(p)).results, id);
      ParseMeaning(MessagesOf(p), id);
      assert forall k :: 0 <= k < |init| ==> init[k] == ps[k];
      NothingAt(id);
    }
  }

  lemma NothingAt(id: Id)
    ensures forall i, j :: !CallAt([], i, j, id)
    ensures forall i :: !ResultAt([], i, id)
  {
  }
}
