/**
 The evidence catalog of scopex/evidence/catalog.py: exact identity for what was
 observed.  The reference "E<n>" is the number n.
 */
module Evidence {
  import opened Sequences

  type CallId = int
  type Digest = int

  /** `image` says that the evidence type is "image", `sha` is a non-empty digest, `lineTruncated` and
      `projectionTruncated` are the stored truncation flags; the rest is opaque. */
  datatype Metadata = Metadata(image: bool, sha: Option<Digest>, line: Option<int>,
                               lineTruncated: bool, projectionTruncated: bool, rest: int)

  datatype Row = Row(source: string, raw: string, call: Option<CallId>, meta: Metadata)

  datatype Item = Item(ref: nat, row: Row, observedAt: int)

  /** The tuples used as dictionary keys; their lengths differ, so the kinds never collide. */
  datatype Key =
    | ImageKey(source: string, sha: Digest)
    | LineKey(source: string, raw: string, line: int)
    | PlainKey(source: string, raw: string)

  /** The characters that `str.strip` removes. */
  predicate IsSpace(c: char) {
    '\t' <= c <= '\r' || '\U{1C}' <= c <= ' ' || c == '\U{85}' || c == '\U{A0}' || c == '\U{1680}' ||
    '\U{2000}' <= c <= '\U{200A}' || c == '\U{2028}' || c == '\U{2029}' || c == '\U{202F}' || c == '\U{205F}' ||
    c == '\U{3000}'
  }

  predicate Blank(s: string) {
    forall i :: 0 <= i < |s| ==> IsSpace(s[i])
  }

  function KeyOf(r: Row): Key {
    if r.meta.image && r.meta.sha.Some? then ImageKey(r.source, r.meta.sha.value)
    else if r.meta.line.Some? && r.meta.line.value > 0 then LineKey(r.source, r.raw, r.meta.line.value)
    else PlainKey(r.source, r.raw)
  }

  predicate Acceptable(r: Row) {
    !Blank(r.source) && !Blank(r.raw)
  }

  /** Linear search, the definition the dictionary index stands for. */
  function Find(items: seq<Item>, k: Key): (found: Option<Item>)
    ensures found.Some? ==> found.value in items && KeyOf(found.value.row) == k
    ensures found.None? ==> forall it :: it in items ==> KeyOf(it.row) != k
  {
    if items == [] then None
    else if KeyOf(items[0].row) == k then Some(items[0])
    else
      assert forall it :: it in items ==> it == items[0] || it in items[1..];
      Find(items[1..], k)
  }

  /** `add` of an acceptable row: the catalog afterwards, and the item it answers. */
  function After(items: seq<Item>, r: Row, now: int): seq<Item> {
    if Find(items, KeyOf(r)).Some? then items else items + [Item(|items| + 1, r, now)]
  }

  function Answer(items: seq<Item>, r: Row, now: int): Item {
    if Find(items, KeyOf(r)).Some? then Find(items, KeyOf(r)).value else Item(|items| + 1, r, now)
  }

  /** A run of `add` calls; `times` are the clock readings, refused rows change nothing. */
  function AfterAll(items: seq<Item>, rows: seq<Row>, times: nat -> int): seq<Item> {
    if rows == [] then items
    else
      var before, r := AfterAll(items, rows[..|rows| - 1], times), rows[|rows| - 1];
      if Acceptable(r) then After(before, r, times(|rows| - 1)) else before
  }

  /** What is stored about an item, and replayed from. */
  datatype Saved = Saved(ref: nat, row: Row)

  function Snapshot(items: seq<Item>): (s: seq<Saved>)
    ensures |s| == |items| && forall i :: 0 <= i < |items| ==> s[i] == Saved(items[i].ref, items[i].row)
  {
    if items == [] then [] else Snapshot(items[..|items| - 1]) + [Saved(items[|items| - 1].ref, items[|items| - 1].row)]
  }

  /** Loading stops when a row is refused or its reference changes. */
  function Replay(saved: seq<Saved>, times: nat -> int): Option<seq<Item>> {
    if saved == [] then Some([])
    else
      var before, s := Replay(saved[..|saved| - 1], times), saved[|saved| - 1];
      if before.None? || !Acceptable(s.row) || Answer(before.value, s.row, times(|saved| - 1)).ref != s.ref then None
      else Some(After(before.value, s.row, times(|saved| - 1)))
  }
}
