/** `build_catalog` and `expand_compact` as they run. */
module CriticalEvidenceService {
  import opened Sequences
  import opened CriticalEvidence
  import opened CriticalEvidenceTheorems

  /** The loop that fills the selection up to the limit. */
  method FillSelection(start: set<nat>, ranked: seq<nat>, max: nat) returns (selected: set<nat>)
    ensures selected == Selected(start, ranked, max)
  {
    selected := start;
    var i := 0;
    while i < |ranked|
      invariant 0 <= i <= |ranked| && selected == Selected(start, ranked[..i], max)
    {
      assert ranked[..i + 1][..i] == ranked[..i];
      if |selected| >= max {
        FullStaysFull(start, ranked, max, i);
        return;
      }
      if ranked[i] !in selected {
        selected := selected + {ranked[i]};
      } else {
        assert selected + {ranked[i]} == selected;
      }
      i := i + 1;
    }
    assert ranked[..i] == ranked;
  }

  lemma {:induction false} FullStaysFull(start: set<nat>, ranked: seq<nat>, max: nat, i: nat)
    requires i <= |ranked| && |Selected(start, ranked[..i], max)| >= max
    ensures Selected(start, ranked, max) == Selected(start, ranked[..i], max)
    decreases |ranked| - i
  {
    if i < |ranked| {
      assert ranked[..i + 1][..i] == ranked[..i];
      FullStaysFull(start, ranked, max, i + 1);
    } else {
      assert ranked[..i] == ranked;
    }
  }

  /** `build_catalog`: the rows are numbered while the chosen lines are listed in order. */
  method BuildCatalog(lines: seq<Line>, max: int) returns (rows: Option<seq<Row>>)
    ensures rows == Build(lines, max)
    ensures rows.Some? ==> forall i: nat :: i in CriticalSet(CriticalOf(lines)) ==> InCatalog(rows.value, i)
  {
    hide Filter, Observed, Ranked, Better, CriticalOf, CriticalSet;
    if max < 4 || max > 40 {
      return None;
    }
    var observed := Observed(lines);
    if observed == [] {
      return None;
    }
    var c := CriticalOf(lines);
    var selected := FillSelection(CriticalSet(c), Ranked(lines, observed), max);
    var chosen := Filter(observed, (i: nat) => i in selected);
    var table: seq<Row> := [];
    var n := 0;
    while n < |chosen|
      invariant 0 <= n <= |chosen| && table == Rows(c, chosen[..n])
    {
      assert chosen[..n + 1][..n] == chosen[..n];
      var reasons := ReasonsOf(c, chosen[n]);
      table := table + [Row(n + 1, chosen[n], if reasons != {} then reasons else {ByScore})];
      n := n + 1;
    }
    assert chosen[..n] == chosen;
    rows := Some(table);
    CatalogMeaning(lines, max);
  }

  /** The evidence part of `expand_compact`: three critical slots, then the first usable pick. */
  method ExpandCompact(catalog: seq<Row>, picks: seq<Pick>) returns (evidence: seq<Bound>)
    ensures evidence == Expand(catalog, picks)
    ensures |evidence| <= 4 && RefsDistinct(evidence)
  {
    hide RowAt, RequiredRef, RefsDistinct;
    ExpansionKeepsCritical(catalog, picks, FocusFailure);
    evidence := [];
    var used: set<int> := {};
    var slots := [(DirectTrigger, Trigger), (FocusFailure, Failure), (PostFocusRecovery, Recovery)];
    var i := 0;
    while i < 3
      invariant 0 <= i <= 3 && forall r :: r in used <==> Used(evidence, r)
      invariant i == 0 ==> evidence == []
      invariant i == 1 ==> evidence == WithCritical([], catalog, DirectTrigger, Trigger)
      invariant i == 2 ==>
        evidence == WithCritical(WithCritical([], catalog, DirectTrigger, Trigger), catalog, FocusFailure, Failure)
      invariant i == 3 ==> evidence == CriticalEvidenceOf(catalog)
    {
      var (reason, role) := slots[i];
      var ref := RequiredRef(catalog, reason);
      if ref.Some? && ref.value !in used {
        var row := RowAt(catalog, ref.value);
        if row.Some? {
          UsedPush(evidence, Bound(role, ref.value, row.value.line));
          evidence := evidence + [Bound(role, ref.value, row.value.line)];
          used := used + {ref.value};
        }
      }
      i := i + 1;
    }
    ghost var critical := evidence;
    var j := 0;
    while j < |picks|
      invariant 0 <= j <= |picks| && evidence == critical && forall r :: r in used <==> Used(evidence, r)
      invariant WithPick(critical, catalog, picks[j..]) == WithPick(critical, catalog, picks)
    {
      var p := picks[j];
      assert picks[j..][0] == p && picks[j..][1..] == picks[j + 1..];
      if p.ref.Some? && p.ref.value !in used && |evidence| < 4 {
        var row := RowAt(catalog, p.ref.value);
        if row.Some? {
          evidence := evidence + [Bound(p.role, p.ref.value, row.value.line)];
          return;
        }
      }
      j := j + 1;
    }
    assert picks[j..] == [];
  }

  lemma UsedPush(evidence: seq<Bound>, b: Bound)
    ensures forall r :: Used(evidence + [b], r) <==> Used(evidence, r) || r == b.ref
  {
    var more := evidence + [b];
    forall r ensures Used(more, r) <==> Used(evidence, r) || r == b.ref {
      assert more[|evidence|] == b;
      if Used(evidence, r) {
        var i :| 0 <= i < |evidence| && evidence[i].ref == r;
        assert more[i].ref == r;
      }
    }
  }
}
