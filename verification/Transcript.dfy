/**
 Transcripts: the ordered, last-wins dictionaries of scopex/agent/trace.py and the
 aggregation of one turn's recorded requests.
 */
module Transcript {
  import opened Sequences

  type Id = int
  type Text = int
  type Arguments = int

  datatype Tool = ProgressCard | Named(tool: int)
  datatype Call = Call(name: Option<Tool>, arguments: Arguments)

  /** One entry of a Python dictionary, which keeps its keys in insertion order. */
  datatype Entry<V> = Entry(key: Id, value: V)

  datatype RawCall = Malformed | RawCall(id: Id, call: Call)
  datatype RawCalls = NotAList | Rows(rows: seq<RawCall>)
  datatype Message = NotADict | Assistant(calls: RawCalls) | ToolMessage(id: Option<Id>, content: Text) | OtherRole

  datatype Trace = Trace(calls: seq<Entry<Call>>, results: seq<Entry<Text>>)

  /** A recorded request file: unreadable, without a message list, or with one. */
  datatype Payload = Unreadable | NoMessages | Messages(messages: seq<Message>)

  // ----------------------------------------------------------------- ordered dictionaries

  predicate Has<V>(d: seq<Entry<V>>, k: Id) {
    exists i :: 0 <= i < |d| && d[i].key == k
  }

  /** `d[k] = v`: an existing key keeps its place, a new one goes to the end. */
  function Put<V>(d: seq<Entry<V>>, k: Id, v: V): (r: seq<Entry<V>>)
    ensures |d| <= |r| <= |d| + 1
    ensures forall x :: Has(r, x) <==> x == k || Has(d, x)
  {
    if d == [] then
      var r := [Entry(k, v)];
      assert r[0].key == k;
      r
    else if d[0].key == k then
      var r := [Entry(k, v)] + d[1..];
      assert r[0].key == k;
      assert forall i :: 1 <= i < |d| ==> r[i] == d[i];
      assert forall x :: x != k ==> (Has(r, x) <==> Has(d, x)) by {
        forall x | x != k ensures Has(r, x) <==> Has(d, x) {
          if Has(r, x) { var i :| 0 <= i < |r| && r[i].key == x; assert d[i].key == x; }
          if Has(d, x) { var i :| 0 <= i < |d| && d[i].key == x; assert r[i].key == x; }
        }
      }
      r
    else
      HasCons(d[0], d[1..]);
      HasCons(d[0], Put(d[1..], k, v));
      assert d == [d[0]] + d[1..];
      [d[0]] + Put(d[1..], k, v)
  }

  lemma HasCons<V>(e: Entry<V>, d: seq<Entry<V>>)
    ensures forall x :: Has([e] + d, x) <==> x == e.key || Has(d, x)
  {
    var r := [e] + d;
    forall x ensures Has(r, x) <==> x == e.key || Has(d, x) {
      assert r[0] == e;
      if Has(d, x) { var i :| 0 <= i < |d| && d[i].key == x; assert r[i + 1].key == x; }
      if Has(r, x) && x != e.key { var i :| 0 <= i < |r| && r[i].key == x; assert d[i - 1].key == x; }
    }
  }

  function PutAll<V>(d: seq<Entry<V>>, es: seq<Entry<V>>): seq<Entry<V>> {
    if es == [] then d else Put(PutAll(d, es[..|es| - 1]), es[|es| - 1].key, es[|es| - 1].value)
  }

  // ----------------------------------------------------------------- parsing

  /** The dictionary writes of one assistant message, malformed rows skipped. */
  function RowCalls(rows: seq<RawCall>): seq<Entry<Call>> {
    if rows == [] then []
    else
      var row := rows[|rows| - 1];
      RowCalls(rows[..|rows| - 1]) + (if row.RawCall? then [Entry(row.id, row.call)] else [])
  }

  function MessageCalls(m: Message): seq<Entry<Call>> {
    if m.Assistant? && m.calls.Rows? then RowCalls(m.calls.rows) else []
  }

  function MessageResults(m: Message): seq<Entry<Text>> {
    if m.ToolMessage? && m.id.Some? then [Entry(m.id.value, m.content)] else []
  }

  function CallWrites(ms: seq<Message>): seq<Entry<Call>> {
    if ms == [] then [] else CallWrites(ms[..|ms| - 1]) + MessageCalls(ms[|ms| - 1])
  }

  function ResultWrites(ms: seq<Message>): seq<Entry<Text>> {
    if ms == [] then [] else ResultWrites(ms[..|ms| - 1]) + MessageResults(ms[|ms| - 1])
  }

  /** `parse_messages` */
  function Parse(ms: seq<Message>): Trace {
    Trace(PutAll([], CallWrites(ms)), PutAll([], ResultWrites(ms)))
  }

  function MessagesOf(p: Payload): seq<Message> {
    if p.Messages? then p.messages else []
  }

  function AllMessages(ps: seq<Payload>): seq<Message> {
    if ps == [] then [] else AllMessages(ps[..|ps| - 1]) + MessagesOf(ps[|ps| - 1])
  }

  /** `load_audit_trace`: each request is parsed on its own and its entries are written over what is there. */
  function Aggregate(ps: seq<Payload>): Trace {
    if ps == [] then Trace([], [])
    else
      var t, own := Aggregate(ps[..|ps| - 1]), Parse(MessagesOf(ps[|ps| - 1]));
      Trace(PutAll(t.calls, own.calls), PutAll(t.results, own.results))
  }
}
