/**
 The deterministic evidence selection of scripts/poc03_finalize.py.  A source line is what the
 program looks at: whether it was observed in a tool result, and which of the markers it holds.
 */
module CriticalEvidence {
  import opened Sequences

  datatype Line = Line(observed: bool, focus: bool, error: bool, warn: bool, failed: bool, negative: bool,
                       recovery: bool, stem: bool)

  datatype Reason = DirectTrigger | FocusFailure | PostFocusRecovery | ByScore

  /** A catalog row: the reference "E<ref>" and the index of its source line. */
  datatype Row = Row(ref: nat, line: nat, reasons: set<Reason>)

  datatype Critical = NoFocus | Critical(focus: nat, trigger: Option<nat>, recovery: Option<nat>)

  function At(lines: seq<Line>, i: nat): Line {
    if i < |lines| then lines[i] else Line(false, false, false, false, false, false, false, false)
  }

  function Filter(idx: seq<nat>, p: nat -> bool): (r: seq<nat>)
    ensures forall i :: i in r <==> i in idx && p(i)
  {
    if idx == [] then []
    else Filter(idx[..|idx| - 1], p) + (if p(idx[|idx| - 1]) then [idx[|idx| - 1]] else [])
  }

  function Upto(n: nat): (r: seq<nat>)
    ensures |r| == n && forall i :: 0 <= i < n ==> r[i] == i
  {
    if n == 0 then [] else Upto(n - 1) + [n - 1]
  }

  function Observed(lines: seq<Line>): seq<nat> {
    Filter(Upto(|lines|), (i: nat) => At(lines, i).observed)
  }

  function Anchors(lines: seq<Line>): seq<nat> {
    Filter(Observed(lines), (i: nat) => At(lines, i).focus)
  }

  // ----------------------------------------------------------------- scores

  function Distance(a: nat, b: nat): nat { if a <= b then b - a else a - b }

  function Nearest(i: nat, anchors: seq<nat>): nat
    requires anchors != []
  {
    var d := Distance(i, anchors[|anchors| - 1]);
    if |anchors| == 1 then d
    else
      var e := Nearest(i, anchors[..|anchors| - 1]);
      if d < e then d else e
  }

  function Score(lines: seq<Line>, i: nat): nat {
    var l, anchors := At(lines, i), Anchors(lines);
    (if l.focus then 200 else 0) + (if l.error then 80 else 0) + (if l.warn then 60 else 0) +
    (if l.failed then 70 else 0) + (if l.recovery then 65 else 0) +
    (if anchors != [] && 4 * Nearest(i, anchors) < 48 then 48 - 4 * Nearest(i, anchors) else 0)
  }

  /** Higher score first, then the earlier line. */
  predicate Better(lines: seq<Line>, i: nat, j: nat) {
    Score(lines, i) > Score(lines, j) || (Score(lines, i) == Score(lines, j) && i < j)
  }

  function Best(lines: seq<Line>, idx: seq<nat>): Option<nat> {
    if idx == [] then None
    else
      var last, before := idx[|idx| - 1], Best(lines, idx[..|idx| - 1]);
      if before.Some? && !Better(lines, last, before.value) then before else Some(last)
  }

  function Highest(idx: seq<nat>): (r: Option<nat>)
    ensures r.None? <==> idx == []
    ensures r.Some? ==> r.value in idx && forall i :: i in idx ==> i <= r.value
  {
    if idx == [] then None
    else
      var last, before := idx[|idx| - 1], Highest(idx[..|idx| - 1]);
      assert idx == idx[..|idx| - 1] + [last];
      if before.Some? && before.value > last then before else Some(last)
  }

  function Lowest(idx: seq<nat>): (r: Option<nat>)
    ensures r.None? <==> idx == []
    ensures r.Some? ==> r.value in idx && forall i :: i in idx ==> i >= r.value
  {
    if idx == [] then None
    else
      var last, before := idx[|idx| - 1], Lowest(idx[..|idx| - 1]);
      assert idx == idx[..|idx| - 1] + [last];
      if before.Some? && before.value < last then before else Some(last)
  }

  /** `_critical_indices` */
  function CriticalOf(lines: seq<Line>): Critical {
    var focus := Best(lines, Anchors(lines));
    if focus.None? then NoFocus
    else
      var f, observed := focus.value, Observed(lines);
      var negative := Filter(observed, (i: nat) => i < f && At(lines, i).negative);
      var recovered := Filter(observed, (i: nat) => i > f && At(lines, i).recovery);
      var same := Filter(recovered, (i: nat) => At(lines, i).stem);
      Critical(f, Highest(negative), Lowest(if same != [] then same else recovered))
  }

  function ReasonsOf(c: Critical, i: nat): set<Reason> {
    if c.NoFocus? then {}
    else
      (if c.focus == i then {FocusFailure} else {}) + (if c.trigger == Some(i) then {DirectTrigger} else {}) +
      (if c.recovery == Some(i) then {PostFocusRecovery} else {})
  }

  function CriticalSet(c: Critical): set<nat> {
    if c.NoFocus? then {}
    else
      {c.focus} + (if c.trigger.Some? then {c.trigger.value} else {}) +
      (if c.recovery.Some? then {c.recovery.value} else {})
  }

  // ----------------------------------------------------------------- selection

  function InsertRanked(lines: seq<Line>, i: nat, ranked: seq<nat>): seq<nat> {
    if ranked == [] || Better(lines, i, ranked[0]) then [i] + ranked
    else [ranked[0]] + InsertRanked(lines, i, ranked[1..])
  }

  /** The observed lines sorted by descending score and then by position. */
  function Ranked(lines: seq<Line>, idx: seq<nat>): seq<nat> {
    if idx == [] then [] else InsertRanked(lines, idx[|idx| - 1], Ranked(lines, idx[..|idx| - 1]))
  }

  /** The critical lines, then the ranked ones until the catalog is full. */
  function Selected(start: set<nat>, ranked: seq<nat>, max: nat): set<nat> {
    if ranked == [] then start
    else
      var before := Selected(start, ranked[..|ranked| - 1], max);
      if |before| >= max then before else before + {ranked[|ranked| - 1]}
  }

  function Rows(c: Critical, chosen: seq<nat>): (rows: seq<Row>)
    ensures |rows| == |chosen|
  {
    if chosen == [] then []
    else
      var i := chosen[|chosen| - 1];
      Rows(c, chosen[..|chosen| - 1]) +
      [Row(|chosen|, i, if ReasonsOf(c, i) != {} then ReasonsOf(c, i) else {ByScore})]
  }

  /** `build_catalog`; None stands for the ValueError. */
  function Build(lines: seq<Line>, max: int): Option<seq<Row>> {
    if max < 4 || max > 40 || Observed(lines) == [] then None
    else
      var c := CriticalOf(lines);
      var selected := Selected(CriticalSet(c), Ranked(lines, Observed(lines)), max);
      Some(Rows(c, Filter(Observed(lines), (i: nat) => i in selected)))
  }

  // ----------------------------------------------------------------- expansion

  datatype Role = Upstream | Trigger | Failure | Recovery

  /** An evidence item of the model's answer: any reference at all, or none. */
  datatype Pick = Pick(role: Role, ref: Option<int>)

  /** An evidence entry of the result; it carries the row's source line, `ref` says which row it is. */
  datatype Bound = Bound(role: Role, ref: int, line: nat)

  function RowAt(catalog: seq<Row>, ref: int): Option<Row> {
    if catalog == [] then None
    else if catalog[|catalog| - 1].ref == ref then Some(catalog[|catalog| - 1])
    else RowAt(catalog[..|catalog| - 1], ref)
  }

  /** `_required_refs`: the last row tagged with the reason. */
  function RequiredRef(catalog: seq<Row>, reason: Reason): Option<int> {
    if catalog == [] then None
    else if reason in catalog[|catalog| - 1].reasons then Some(catalog[|catalog| - 1].ref)
    else RequiredRef(catalog[..|catalog| - 1], reason)
  }

  predicate Used(evidence: seq<Bound>, ref: int) {
    exists i :: 0 <= i < |evidence| && evidence[i].ref == ref
  }

  function WithCritical(evidence: seq<Bound>, catalog: seq<Row>, reason: Reason, role: Role): seq<Bound> {
    var ref := RequiredRef(catalog, reason);
    if ref.Some? && RowAt(catalog, ref.value).Some? && !Used(evidence, ref.value)
    then evidence + [Bound(role, ref.value, RowAt(catalog, ref.value).value.line)]
    else evidence
  }

  function CriticalEvidenceOf(catalog: seq<Row>): seq<Bound> {
    WithCritical(WithCritical(WithCritical([], catalog, DirectTrigger, Trigger), catalog, FocusFailure, Failure),
                 catalog, PostFocusRecovery, Recovery)
  }

  /** At most one more item: the first of the model's picks that names an unused row. */
  function WithPick(evidence: seq<Bound>, catalog: seq<Row>, picks: seq<Pick>): seq<Bound> {
    if picks == [] then evidence
    else
      var p := picks[0];
      if p.ref.Some? && RowAt(catalog, p.ref.value).Some? && !Used(evidence, p.ref.value) && |evidence| < 4
      then evidence + [Bound(p.role, p.ref.value, RowAt(catalog, p.ref.value).value.line)]
      else WithPick(evidence, catalog, picks[1..])
  }

  /** The evidence list of `expand_compact`. */
  function Expand(catalog: seq<Row>, picks: seq<Pick>): seq<Bound> {
    WithPick(CriticalEvidenceOf(catalog), catalog, picks)
  }
}
