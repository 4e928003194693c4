/** What the selection guarantees for every source, and the expansion for every model answer. */
module CriticalEvidenceTheorems {
  import opened Sequences
  import opened CriticalEvidence

  predicate Ascending(s: seq<nat>) {
    forall i, j :: 0 <= i < j < |s| ==> s[i] < s[j]
  }

  lemma {:induction false} FilterAscending(idx: seq<nat>, p: nat -> bool)
    requires Ascending(idx)
    ensures Ascending(Filter(idx, p))
  {
    if idx != [] {
      var init, last := idx[..|idx| - 1], idx[|idx| - 1];
      FilterAscending(init, p);
      var kept := Filter(init, p);
      forall i | 0 <= i < |kept| ensures kept[i] < last {
        assert kept[i] in kept;
        var k :| 0 <= k < |init| && init[k] == kept[i];
        assert idx[k] == kept[i];
      }
    }
  }

  lemma ObservedMeaning(lines: seq<Line>)
    ensures Ascending(Observed(lines))
    ensures forall i: nat :: i in Observed(lines) <==> i < |lines| && lines[i].observed
  {
    FilterAscending(Upto(|lines|), (i: nat) => At(lines, i).observed);
    assert forall i: nat :: i in Upto(|lines|) <==> i < |lines| by {
      forall i: nat | i < |lines| ensures i in Upto(|lines|) { assert Upto(|lines|)[i] == i; }
    }
  }

  // ----------------------------------------------------------------- critical lines

  /** The best line has the greatest score, and is the first of those that have it. */
  lemma {:induction false} BestMeaning(lines: seq<Line>, idx: seq<nat>)
    ensures Best(lines, idx).None? <==> idx == []
    ensures Best(lines, idx).Some? ==>
      var b := Best(lines, idx).value;
      b in idx && forall i :: i in idx ==>
        Score(lines, i) <= Score(lines, b) && (Score(lines, i) == Score(lines, b) ==> b <= i)
  {
    hide Score;
    if idx != [] {
      var init, last := idx[..|idx| - 1], idx[|idx| - 1];
      BestMeaning(lines, init);
      assert idx == init + [last];
    }
  }

  ghost predicate IsObserved(lines: seq<Line>, i: nat) {
    i < |lines| && lines[i].observed
  }

  /** The observed line `a` names the focus. */
  ghost predicate IsAnchor(lines: seq<Line>, a: nat) {
    IsObserved(lines, a) && lines[a].focus
  }

  function Away(i: int, a: int): nat {
    if i < a then a - i else i - a
  }

  /** What the markers of a line are worth by themselves. */
  function Weight(l: Line): nat {
    var focus, error, warn := if l.focus then 200 else 0, if l.error then 80 else 0, if l.warn then 60 else 0;
    var failed, recovery := if l.failed then 70 else 0, if l.recovery then 65 else 0;
    focus + error + warn + failed + recovery
  }

  lemma {:induction false} NearestMeaning(i: nat, anchors: seq<nat>) returns (a: nat)
    requires anchors != []
    ensures a in anchors && Nearest(i, anchors) == Away(i, a) && forall b :: b in anchors ==> Away(i, a) <= Away(i, b)
  {
    var init, last := anchors[..|anchors| - 1], anchors[|anchors| - 1];
    assert anchors == init + [last];
    assert Distance(i, last) == Away(i, last);
    hide Away, Distance;
    if init == [] {
      a := last;
      assert anchors == [last];
    } else {
      a := NearestMeaning(i, init);
      if Away(i, last) < Away(i, a) { a := last; }
    }
  }

  /** The score of a line: what its markers are worth, and what is left of 48 after 4 for each line between it and
      the nearest observed line that names the focus. */
  ghost predicate ScoreOk(lines: seq<Line>, i: nat, score: nat)
    requires i < |lines|
  {
    ((forall a: nat :: !IsAnchor(lines, a)) ==> score == Weight(lines[i])) &&
    ((exists a: nat :: IsAnchor(lines, a)) ==>
       exists a: nat :: NearestAnchor(lines, i, a) && score == Weight(lines[i]) + Closeness(Away(i, a)))
  }

  function Closeness(d: nat): nat {
    if d >= 12 then 0 else 48 - 4 * d
  }

  ghost predicate NearestAnchor(lines: seq<Line>, i: nat, a: nat) {
    IsAnchor(lines, a) && forall b: nat :: IsAnchor(lines, b) ==> Away(i, a) <= Away(i, b)
  }

  lemma ScoreIsSum(lines: seq<Line>, i: nat)
    requires i < |lines|
    ensures var near := if Anchors(lines) == [] then 12 else Nearest(i, Anchors(lines));
      Score(lines, i) == Weight(lines[i]) + Closeness(near)
  {
    hide Anchors, Nearest;
  }

  lemma ScoreMeaning(lines: seq<Line>, i: nat)
    requires i < |lines|
    ensures ScoreOk(lines, i, Score(lines, i))
  {
    ObservedMeaning(lines);
    ScoreIsSum(lines, i);
    var anchors := Anchors(lines);
    assert forall a: nat :: a in anchors <==> IsAnchor(lines, a);
    hide Anchors, Observed, Score, Weight;
    if anchors != [] {
      var a := NearestMeaning(i, anchors);
      hide Nearest, Away, IsAnchor;
      assert anchors[0] in anchors;
      assert NearestAnchor(lines, i, a);
    } else {
      forall a: nat ensures !IsAnchor(lines, a) { assert a !in anchors; }
    }
  }

  /** The focus is the observed line naming it with the greatest score, the first of these; the trigger is the
      nearest observed negative line before; the recovery is the first observed one after, of the same operation if
      there is any. */
  lemma CriticalMeaning(lines: seq<Line>)
    ensures var c := CriticalOf(lines);
      (c.NoFocus? <==> forall i: nat :: IsObserved(lines, i) ==> !lines[i].focus) &&
      (c.Critical? ==>
        IsObserved(lines, c.focus) && lines[c.focus].focus &&
        (forall i: nat :: IsObserved(lines, i) && lines[i].focus ==>
           Score(lines, i) <= Score(lines, c.focus) && (Score(lines, i) == Score(lines, c.focus) ==> c.focus <= i)) &&
        TriggerOk(lines, c) && RecoveryOk(lines, c))
  {
    ObservedMeaning(lines);
    BestMeaning(lines, Anchors(lines));
    hide Better, Best, Observed, Score;
    assert forall i: nat :: i in Observed(lines) <==> IsObserved(lines, i);
    assert forall i: nat :: i in Anchors(lines) <==> IsObserved(lines, i) && lines[i].focus;
    if CriticalOf(lines).NoFocus? {
      forall i: nat | IsObserved(lines, i) ensures !lines[i].focus { assert i !in Anchors(lines); }
    } else {
      TriggerMeaning(lines);
      RecoveryMeaning(lines);
    }
  }

  ghost predicate TriggerOk(lines: seq<Line>, c: Critical)
    requires c.Critical?
  {
    if c.trigger.None? then forall i: nat :: IsObserved(lines, i) && i < c.focus ==> !lines[i].negative
    else
      IsObserved(lines, c.trigger.value) && c.trigger.value < c.focus && lines[c.trigger.value].negative &&
      forall i: nat :: IsObserved(lines, i) && c.trigger.value < i < c.focus ==> !lines[i].negative
  }

  ghost predicate Recovers(lines: seq<Line>, f: nat, i: nat) {
    IsObserved(lines, i) && i > f && lines[i].recovery
  }

  ghost predicate RecoveryOk(lines: seq<Line>, c: Critical)
    requires c.Critical?
  {
    if c.recovery.None? then forall i: nat :: !Recovers(lines, c.focus, i)
    else
      var r := c.recovery.value;
      Recovers(lines, c.focus, r) &&
      (if lines[r].stem then forall i: nat :: Recovers(lines, c.focus, i) && lines[i].stem ==> r <= i
       else forall i: nat :: Recovers(lines, c.focus, i) ==> r <= i && !lines[i].stem)
  }

  lemma TriggerMeaning(lines: seq<Line>)
    requires CriticalOf(lines).Critical?
    requires forall i: nat :: i in Observed(lines) <==> IsObserved(lines, i)
    ensures TriggerOk(lines, CriticalOf(lines))
  {
    hide Best, Observed, Lowest;
    var c := CriticalOf(lines);
    var negative := Filter(Observed(lines), (i: nat) => i < c.focus && At(lines, i).negative);
    assert c.trigger == Highest(negative);
    hide Highest, Filter;
    assert forall i: nat :: i in negative <==> IsObserved(lines, i) && i < c.focus && lines[i].negative;
    hide CriticalOf;
    if c.trigger.None? {
      forall i: nat | IsObserved(lines, i) && i < c.focus ensures !lines[i].negative { assert i !in negative; }
    } else {
      assert c.trigger.value in negative;
    }
  }

  lemma RecoveryMeaning(lines: seq<Line>)
    requires CriticalOf(lines).Critical?
    requires forall i: nat :: i in Observed(lines) <==> IsObserved(lines, i)
    ensures RecoveryOk(lines, CriticalOf(lines))
  {
    hide Best, Observed, Highest;
    var c := CriticalOf(lines);
    var recovered := Filter(Observed(lines), (i: nat) => i > c.focus && At(lines, i).recovery);
    var same := Filter(recovered, (i: nat) => At(lines, i).stem);
    assert c.recovery == Lowest(if same != [] then same else recovered);
    hide Lowest, Filter;
    assert forall i: nat :: i in recovered <==> Recovers(lines, c.focus, i);
    assert forall i: nat :: i in same <==> Recovers(lines, c.focus, i) && lines[i].stem;
    hide CriticalOf;
    if c.recovery.None? {
      forall i: nat ensures !Recovers(lines, c.focus, i) { assert i !in recovered; }
    } else if same == [] {
      forall i: nat | Recovers(lines, c.focus, i) ensures c.recovery.value <= i && !lines[i].stem { assert i !in same; }
      assert c.recovery.value in recovered && c.recovery.value !in same;
    } else {
      assert c.recovery.value in same;
    }
  }

  // ----------------------------------------------------------------- ranking

  ghost predicate RankedOk(lines: seq<Line>, ranked: seq<nat>) {
    forall i, j :: 0 <= i < j < |ranked| ==> Better(lines, ranked[i], ranked[j])
  }

  /** Scores never increase along the ranking, and equal scores stand in source order. */
  ghost predicate ByScoreThenPlace(lines: seq<Line>, ranked: seq<nat>) {
    forall i, j :: 0 <= i < j < |ranked| ==> NoLower(lines, ranked[i], ranked[j])
  }

  /** The score of `x` is not below that of `y`, and when they are equal `x` comes first in the source. */
  predicate NoLower(lines: seq<Line>, x: nat, y: nat) {
    Score(lines, x) >= Score(lines, y) && (Score(lines, x) == Score(lines, y) ==> x < y)
  }

  lemma {:induction false} InsertKeepsRank(lines: seq<Line>, i: nat, ranked: seq<nat>)
    requires RankedOk(lines, ranked) && i !in ranked
    ensures RankedOk(lines, InsertRanked(lines, i, ranked))
    ensures forall x :: x in InsertRanked(lines, i, ranked) <==> x == i || x in ranked
  {
    hide Score;
    if ranked != [] && !Better(lines, i, ranked[0]) {
      assert ranked == [ranked[0]] + ranked[1..];
      assert i != ranked[0];
      var tail := InsertRanked(lines, i, ranked[1..]);
      InsertKeepsRank(lines, i, ranked[1..]);
      assert forall x :: x in tail ==> Better(lines, ranked[0], x);
      assert forall k :: 0 <= k < |tail| ==> tail[k] in tail;
    } else if ranked != [] {
      assert forall k :: 0 <= k < |ranked| ==> Better(lines, i, ranked[k]);
    }
  }

  lemma {:induction false} RankedInOrder(lines: seq<Line>, idx: seq<nat>)
    requires Ascending(idx)
    ensures RankedOk(lines, Ranked(lines, idx))
    ensures forall x :: x in Ranked(lines, idx) <==> x in idx
  {
    hide Better;
    if idx != [] {
      var init, last := idx[..|idx| - 1], idx[|idx| - 1];
      RankedInOrder(lines, init);
      assert idx == init + [last];
      assert last !in init;
      InsertKeepsRank(lines, last, Ranked(lines, init));
    }
  }

  lemma BetterMeaning(lines: seq<Line>, x: nat, y: nat)
    ensures Better(lines, x, y) <==> NoLower(lines, x, y)
  {
    hide Score;
  }

  /** The ranking holds every line once, by descending score and then in source order. */
  lemma RankedMeaning(lines: seq<Line>, idx: seq<nat>)
    requires Ascending(idx)
    ensures ByScoreThenPlace(lines, Ranked(lines, idx))
    ensures forall x :: x in Ranked(lines, idx) <==> x in idx
    ensures forall i, j :: 0 <= i < j < |Ranked(lines, idx)| ==> Ranked(lines, idx)[i] != Ranked(lines, idx)[j]
  {
    RankedInOrder(lines, idx);
    var ranked := Ranked(lines, idx);
    RankedDistinct(lines, ranked);
    hide Better, Ranked, NoLower;
    forall i, j | 0 <= i < j < |ranked| ensures NoLower(lines, ranked[i], ranked[j]) {
      BetterMeaning(lines, ranked[i], ranked[j]);
    }
  }

  // ----------------------------------------------------------------- the full catalog

  /** The selection so far: it starts from the critical lines, never exceeds the limit, takes every ranked line
      while there is room, and a line it took beyond the critical ones was ranked before any it passed over. */
  ghost predicate Selecting(start: set<nat>, ranked: seq<nat>, max: nat, k: nat, s: set<nat>)
    requires k <= |ranked|
  {
    start <= s && |s| <= max &&
    (forall x :: x in s ==> x in start || x in ranked[..k]) &&
    (|s| < max ==> forall i :: 0 <= i < k ==> ranked[i] in s) &&
    (forall i, j :: 0 <= i < k && 0 <= j < k && ranked[i] in s && ranked[i] !in start && ranked[j] !in s ==> i < j)
  }

  lemma {:induction false} SelectedMeaning(start: set<nat>, ranked: seq<nat>, max: nat)
    requires |start| <= max && forall i, j :: 0 <= i < j < |ranked| ==> ranked[i] != ranked[j]
    ensures Selecting(start, ranked, max, |ranked|, Selected(start, ranked, max))
  {
    if ranked != [] {
      var init, last := ranked[..|ranked| - 1], ranked[|ranked| - 1];
      SelectedMeaning(start, init, max);
      assert ranked == init + [last];
      var before, s := Selected(start, init, max), Selected(start, ranked, max);
      assert init[..|init|] == init && ranked[..|ranked|] == ranked;
      assert forall i :: 0 <= i < |init| ==> ranked[i] == init[i];
      if |before| < max {
        assert forall i :: 0 <= i < |ranked| ==> ranked[i] in s;
      } else {
        assert last in s ==> last in start;
      }
    }
  }

  lemma CriticalSetSmall(c: Critical)
    ensures |CriticalSet(c)| <= 3
  {
  }

  lemma CriticalIsObserved(lines: seq<Line>, i: nat)
    requires i in CriticalSet(CriticalOf(lines))
    ensures IsObserved(lines, i)
  {
    CriticalMeaning(lines);
    hide CriticalOf, Better;
  }

  lemma {:induction false} AscendingSet(s: seq<nat>, m: set<nat>)
    requires Ascending(s) && forall x :: x in m <==> x in s
    ensures |m| == |s|
  {
    if s == [] {
      assert forall x :: x !in m;
      assert m == {};
    } else {
      var init, last := s[..|s| - 1], s[|s| - 1];
      assert s == init + [last];
      assert last !in init && Ascending(init);
      hide Ascending;
      var less := m - {last};
      forall x ensures x in less <==> x in init { }
      AscendingSet(init, less);
      assert m == less + {last} && last !in less;
    }
  }

  lemma RankedDistinct(lines: seq<Line>, ranked: seq<nat>)
    requires RankedOk(lines, ranked)
    ensures forall i, j :: 0 <= i < j < |ranked| ==> ranked[i] != ranked[j]
  {
    hide Score;
    forall i, j | 0 <= i < j < |ranked| ensures ranked[i] != ranked[j] {
      assert Better(lines, ranked[i], ranked[j]);
    }
  }

  /** The critical lines are kept, and the set is as large as the limit allows. */
  lemma SelectionSize(start: set<nat>, observed: seq<nat>, ranked: seq<nat>, max: nat, s: set<nat>)
    requires Ascending(observed) && forall x :: x in ranked <==> x in observed
    requires forall x :: x in start ==> x in observed
    requires Selecting(start, ranked, max, |ranked|, s)
    ensures start <= s && (forall x :: x in s ==> x in observed)
    ensures |s| == (if |observed| < max then |observed| else max)
  {
    assert ranked[..|ranked|] == ranked;
    var all := set i | i in observed;
    AscendingSet(observed, all);
    SubsetSize(s, all);
    if |s| < max {
      forall i | i in observed ensures i in s { assert i in ranked; }
      assert s == all;
    }
  }

  lemma SelectionRank(lines: seq<Line>, start: set<nat>, ranked: seq<nat>, max: nat, s: set<nat>, x: nat, y: nat)
    requires RankedOk(lines, ranked) && Selecting(start, ranked, max, |ranked|, s)
    requires x in s && x !in start && y in ranked && y !in s
    ensures Better(lines, x, y)
  {
    hide Better;
    assert ranked[..|ranked|] == ranked;
    var i :| 0 <= i < |ranked| && ranked[i] == x;
    var j :| 0 <= j < |ranked| && ranked[j] == y;
    assert i < j;
  }

  ghost function SelectedLines(lines: seq<Line>, max: nat): set<nat> {
    Selected(CriticalSet(CriticalOf(lines)), Ranked(lines, Observed(lines)), max)
  }

  /** What the selected set is, for any source and limit. */
  lemma SelectionMeaning(lines: seq<Line>, max: nat)
    requires max >= 4
    ensures var start, s := CriticalSet(CriticalOf(lines)), SelectedLines(lines, max);
      start <= s && (forall i :: i in s ==> i in Observed(lines)) &&
      |s| == (if |Observed(lines)| < max then |Observed(lines)| else max) &&
      forall x: nat, y: nat :: x in s && x !in start && y in Observed(lines) && y !in s ==> Better(lines, x, y)
  {
    var start, observed := CriticalSet(CriticalOf(lines)), Observed(lines);
    var ranked, s := Ranked(lines, observed), SelectedLines(lines, max);
    CriticalSetSmall(CriticalOf(lines));
    ObservedMeaning(lines);
    forall i | i in start ensures i in observed { CriticalIsObserved(lines, i); }
    RankedInOrder(lines, observed);
    RankedDistinct(lines, ranked);
    SelectedMeaning(start, ranked, max);
    hide Better, CriticalOf, Selected, Ranked, Observed, CriticalSet, Selecting, RankedOk;
    SelectionSize(start, observed, ranked, max, s);
    forall x: nat, y: nat | x in s && x !in start && y in observed && y !in s ensures Better(lines, x, y) {
      SelectionRank(lines, start, ranked, max, s, x, y);
    }
  }

  lemma {:induction false} RowsMeaning(c: Critical, chosen: seq<nat>)
    ensures forall k :: 0 <= k < |chosen| ==>
      Rows(c, chosen)[k] ==
        Row(k + 1, chosen[k], if ReasonsOf(c, chosen[k]) != {} then ReasonsOf(c, chosen[k]) else {ByScore})
  {
    hide ReasonsOf;
    if chosen != [] { RowsMeaning(c, chosen[..|chosen| - 1]); }
  }

  ghost predicate InCatalog(rows: seq<Row>, i: nat) {
    exists k :: 0 <= k < |rows| && rows[k].line == i
  }

  /** Each row is its line under its number, tagged with the line's critical reasons or else as chosen by score. */
  ghost predicate RowsOk(rows: seq<Row>, c: Critical, chosen: seq<nat>) {
    |rows| == |chosen| &&
    (forall k :: 0 <= k < |rows| ==> rows[k].ref == k + 1 && rows[k].line == chosen[k]) &&
    (forall k :: 0 <= k < |rows| ==>
      rows[k].reasons == (if chosen[k] in CriticalSet(c) then ReasonsOf(c, chosen[k]) else {ByScore}))
  }

  lemma BuildIsRows(lines: seq<Line>, max: int)
    requires Build(lines, max).Some?
    ensures max >= 4
    ensures var chosen := Filter(Observed(lines), (i: nat) => i in SelectedLines(lines, max));
      RowsOk(Build(lines, max).value, CriticalOf(lines), chosen)
  {
    var c := CriticalOf(lines);
    var s := SelectedLines(lines, max);
    var chosen := Filter(Observed(lines), (i: nat) => i in s);
    assert Build(lines, max) == Some(Rows(c, chosen));
    RowsMeaning(c, chosen);
    hide Build, Filter, Selected, Ranked, Observed, CriticalOf, ReasonsOf, CriticalSet;
    forall k | 0 <= k < |chosen| ensures chosen[k] in CriticalSet(c) <==> ReasonsOf(c, chosen[k]) != {} {
      CriticalHasReason(c, chosen[k]);
    }
  }

  /** `build_catalog` raises exactly for a limit outside 4..40 and when no source line was observed. */
  lemma BuildRefusedIff(lines: seq<Line>, max: int)
    ensures Build(lines, max).None? <==> max < 4 || max > 40 || forall i: nat :: !IsObserved(lines, i)
  {
    ObservedMeaning(lines);
    hide CriticalOf, Selected, Ranked, Filter;
    if Observed(lines) != [] {
      assert IsObserved(lines, Observed(lines)[0]) by { assert Observed(lines)[0] in Observed(lines); }
    }
    hide Observed;
    if i: nat :| IsObserved(lines, i) { assert i in Observed(lines); }
  }

  /** The catalog: min(max, observed) rows, numbered and in source order, all observed; every critical line is
      there under its reasons; and no passed-over line beats a row that is there for its score alone. */
  lemma CatalogMeaning(lines: seq<Line>, max: int)
    requires Build(lines, max).Some?
    ensures var rows := Build(lines, max).value;
      |rows| == (if |Observed(lines)| < max then |Observed(lines)| else max) &&
      (forall k :: 0 <= k < |rows| ==> rows[k].ref == k + 1 && IsObserved(lines, rows[k].line)) &&
      (forall j, k :: 0 <= j < k < |rows| ==> rows[j].line < rows[k].line)
    ensures var rows, c := Build(lines, max).value, CriticalOf(lines);
      (forall i: nat :: i in CriticalSet(c) ==> InCatalog(rows, i)) &&
      (forall k :: 0 <= k < |rows| ==>
        rows[k].reasons == (if rows[k].line in CriticalSet(c) then ReasonsOf(c, rows[k].line) else {ByScore}))
    ensures var rows, c := Build(lines, max).value, CriticalOf(lines);
      forall k, y: nat ::
        0 <= k < |rows| && rows[k].reasons == {ByScore} && IsObserved(lines, y) && !InCatalog(rows, y) ==>
        NoLower(lines, rows[k].line, y)
  {
    CatalogRows(lines, max);
    CatalogRank(lines, max);
    ObservedMeaning(lines);
    hide Build, CriticalOf, Observed, NoLower, CriticalSet, ReasonsOf, InCatalog;
  }

  /** Rows are numbered from 1. */
  ghost predicate Numbered(rows: seq<Row>) {
    forall k :: 0 <= k < |rows| ==> rows[k].ref == k + 1
  }

  ghost predicate LinesAscend(rows: seq<Row>) {
    forall j, k :: 0 <= j < k < |rows| ==> rows[j].line < rows[k].line
  }

  /** Critical lines are there, and each row's reasons are those of its line. */
  ghost predicate TaggedBy(rows: seq<Row>, c: Critical) {
    (forall i: nat :: i in CriticalSet(c) ==> InCatalog(rows, i)) && ReasonsRight(rows, c)
  }

  ghost predicate ReasonsRight(rows: seq<Row>, c: Critical) {
    forall k :: 0 <= k < |rows| ==>
      rows[k].reasons == (if rows[k].line in CriticalSet(c) then ReasonsOf(c, rows[k].line) else {ByScore})
  }

  lemma CatalogRows(lines: seq<Line>, max: int)
    requires Build(lines, max).Some?
    ensures var rows := Build(lines, max).value;
      |rows| == (if |Observed(lines)| < max then |Observed(lines)| else max) && Numbered(rows) && LinesAscend(rows) &&
      TaggedBy(rows, CriticalOf(lines)) &&
      forall k :: 0 <= k < |rows| ==> rows[k].line in SelectedLines(lines, max) && rows[k].line in Observed(lines)
    ensures forall i: nat :: InCatalog(Build(lines, max).value, i) <==> i in SelectedLines(lines, max)
  {
    BuildIsRows(lines, max);
    var c, rows, s := CriticalOf(lines), Build(lines, max).value, SelectedLines(lines, max);
    var chosen := Filter(Observed(lines), (i: nat) => i in s);
    SelectionMeaning(lines, max);
    ChosenLines(lines, s, chosen);
    hide Build, Filter, SelectedLines, Observed, CriticalOf, CriticalSet, Better, InCatalog, RowsOk, ReasonsRight,
         Numbered, LinesAscend, Ascending;
    RowsInOrder(rows, c, chosen);
    forall i: nat ensures InCatalog(rows, i) <==> i in s { InCatalogIff(rows, c, chosen, i); }
    forall k | 0 <= k < |rows| ensures rows[k].line in s { assert chosen[k] in chosen; }
  }

  lemma ChosenLines(lines: seq<Line>, s: set<nat>, chosen: seq<nat>)
    requires chosen == Filter(Observed(lines), (i: nat) => i in s) && forall i :: i in s ==> i in Observed(lines)
    ensures Ascending(chosen) && |chosen| == |s| && forall i: nat :: i in chosen <==> i in s
  {
    ObservedMeaning(lines);
    FilterAscending(Observed(lines), (i: nat) => i in s);
    hide Observed, Filter;
    assert forall i: nat :: i in chosen <==> i in s;
    AscendingSet(chosen, s);
  }

  /** No passed-over line has a higher score than a row that is there for its score alone. */
  lemma CatalogRank(lines: seq<Line>, max: int)
    requires Build(lines, max).Some?
    ensures forall k, y: nat ::
      0 <= k < |Build(lines, max).value| && Build(lines, max).value[k].reasons == {ByScore} &&
      y in Observed(lines) && !InCatalog(Build(lines, max).value, y) ==>
      NoLower(lines, Build(lines, max).value[k].line, y)
  {
    CatalogRows(lines, max);
    assert max >= 4 by { BuildIsRows(lines, max); }
    SelectionMeaning(lines, max);
    var c, rows := CriticalOf(lines), Build(lines, max).value;
    hide Build, SelectedLines, Observed, CriticalOf, CriticalSet, ReasonsOf, Better, InCatalog, NoLower;
    forall k, y: nat | 0 <= k < |rows| && rows[k].reasons == {ByScore} && y in Observed(lines) && !InCatalog(rows, y)
      ensures NoLower(lines, rows[k].line, y)
    {
      NotByScore(c, rows[k].line);
      BetterMeaning(lines, rows[k].line, y);
    }
  }

  lemma RowsInOrder(rows: seq<Row>, c: Critical, chosen: seq<nat>)
    requires RowsOk(rows, c, chosen) && Ascending(chosen)
    ensures |rows| == |chosen| && Numbered(rows) && LinesAscend(rows) && ReasonsRight(rows, c)
    ensures forall k :: 0 <= k < |rows| ==> rows[k].line == chosen[k]
  {
    hide CriticalSet, ReasonsOf;
  }

  lemma InCatalogIff(rows: seq<Row>, c: Critical, chosen: seq<nat>, i: nat)
    requires RowsOk(rows, c, chosen)
    ensures InCatalog(rows, i) <==> i in chosen
  {
    hide CriticalSet, ReasonsOf;
    if i in chosen {
      var k :| 0 <= k < |chosen| && chosen[k] == i;
      assert rows[k].line == i;
    }
  }

  lemma NotByScore(c: Critical, i: nat)
    ensures ByScore !in ReasonsOf(c, i)
  {
  }

  lemma CriticalHasReason(c: Critical, i: nat)
    ensures i in CriticalSet(c) <==> ReasonsOf(c, i) != {}
  {
    if c.Critical? {
      if c.focus == i { assert FocusFailure in ReasonsOf(c, i); }
      if c.trigger == Some(i) { assert DirectTrigger in ReasonsOf(c, i); }
      if c.recovery == Some(i) { assert PostFocusRecovery in ReasonsOf(c, i); }
    }
  }

  // ----------------------------------------------------------------- expansion

  ghost predicate RefsDistinct(evidence: seq<Bound>) {
    forall i, j :: 0 <= i < j < |evidence| ==> evidence[i].ref != evidence[j].ref
  }

  lemma {:induction false} RequiredMeaning(catalog: seq<Row>, reason: Reason)
    ensures RequiredRef(catalog, reason).Some? <==> exists k :: 0 <= k < |catalog| && reason in catalog[k].reasons
    ensures RequiredRef(catalog, reason).Some? ==> RowAt(catalog, RequiredRef(catalog, reason).value).Some?
  {
    if catalog != [] {
      var init, last := catalog[..|catalog| - 1], catalog[|catalog| - 1];
      RequiredMeaning(init, reason);
      if reason in last.reasons {
        assert reason in catalog[|catalog| - 1].reasons;
      } else {
        assert forall k :: 0 <= k < |init| ==> catalog[k] == init[k];
      }
    }
  }

  lemma {:induction false} RowAtMeaning(catalog: seq<Row>, ref: int)
    ensures RowAt(catalog, ref).Some? ==> RowAt(catalog, ref).value in catalog && RowAt(catalog, ref).value.ref == ref
  {
    if catalog != [] && catalog[|catalog| - 1].ref != ref { RowAtMeaning(catalog[..|catalog| - 1], ref); }
  }

  lemma {:induction false} CriticalStep(evidence: seq<Bound>, catalog: seq<Row>, reason: Reason, role: Role)
    requires RefsDistinct(evidence)
    ensures var e := WithCritical(evidence, catalog, reason, role);
      RefsDistinct(e) && |evidence| <= |e| <= |evidence| + 1 && evidence <= e &&
      (RequiredRef(catalog, reason).Some? ==> Used(e, RequiredRef(catalog, reason).value))
  {
    RequiredMeaning(catalog, reason);
    hide RequiredRef, RowAt;
    var e := WithCritical(evidence, catalog, reason, role);
    if e != evidence { assert e[|evidence|].ref == RequiredRef(catalog, reason).value; }
  }

  lemma UsedGrows(a: seq<Bound>, b: seq<Bound>, ref: int)
    requires a <= b && Used(a, ref)
    ensures Used(b, ref)
  {
    var i :| 0 <= i < |a| && a[i].ref == ref;
    assert b[i].ref == ref;
  }

  lemma {:induction false} PickStep(evidence: seq<Bound>, catalog: seq<Row>, picks: seq<Pick>)
    requires RefsDistinct(evidence) && |evidence| <= 3
    ensures var e := WithPick(evidence, catalog, picks);
      RefsDistinct(e) && evidence <= e && |e| <= |evidence| + 1
    decreases |picks|
  {
    hide RowAt;
    if picks != [] {
      PickStep(evidence, catalog, picks[1..]);
    }
  }

  /** Whatever the model answered, the expansion keeps every critical row of the catalog, repeats none and
      returns at most four entries, the first of them critical. */
  lemma {:induction false} ExpansionKeepsCritical(catalog: seq<Row>, picks: seq<Pick>, reason: Reason)
    requires reason != ByScore
    ensures var e := Expand(catalog, picks);
      RefsDistinct(e) && |e| <= 4 && CriticalEvidenceOf(catalog) <= e &&
      (RequiredRef(catalog, reason).Some? ==> Used(e, RequiredRef(catalog, reason).value))
  {
    var a := WithCritical([], catalog, DirectTrigger, Trigger);
    var b := WithCritical(a, catalog, FocusFailure, Failure);
    var c := WithCritical(b, catalog, PostFocusRecovery, Recovery);
    CriticalStep([], catalog, DirectTrigger, Trigger);
    CriticalStep(a, catalog, FocusFailure, Failure);
    CriticalStep(b, catalog, PostFocusRecovery, Recovery);
    PickStep(c, catalog, picks);
    hide WithCritical, WithPick, RequiredRef, RefsDistinct, Used;
    var e := Expand(catalog, picks);
    if RequiredRef(catalog, reason).Some? {
      var ref := RequiredRef(catalog, reason).value;
      match reason
      case DirectTrigger => UsedGrows(a, e, ref);
      case FocusFailure => UsedGrows(b, e, ref);
      case PostFocusRecovery => UsedGrows(c, e, ref);
    }
  }

  /** Every entry shows the line of the row it names. */
  ghost predicate Faithful(evidence: seq<Bound>, catalog: seq<Row>) {
    forall i :: 0 <= i < |evidence| ==>
      RowAt(catalog, evidence[i].ref).Some? && evidence[i].line == RowAt(catalog, evidence[i].ref).value.line
  }

  lemma {:induction false} PickFaithful(evidence: seq<Bound>, catalog: seq<Row>, picks: seq<Pick>)
    requires Faithful(evidence, catalog)
    ensures Faithful(WithPick(evidence, catalog, picks), catalog)
    decreases |picks|
  {
    hide RowAt;
    if picks != [] { PickFaithful(evidence, catalog, picks[1..]); }
  }

  lemma ExpandFaithful(catalog: seq<Row>, picks: seq<Pick>)
    ensures Faithful(Expand(catalog, picks), catalog)
  {
    hide RowAt, RequiredRef;
    PickFaithful(CriticalEvidenceOf(catalog), catalog, picks);
  }

  lemma {:induction false} RequiredRow(catalog: seq<Row>, reason: Reason) returns (k: nat)
    requires RequiredRef(catalog, reason).Some?
    ensures k < |catalog| && reason in catalog[k].reasons && RequiredRef(catalog, reason) == Some(catalog[k].ref as int)
  {
    if reason in catalog[|catalog| - 1].reasons {
      k := |catalog| - 1;
    } else {
      k := RequiredRow(catalog[..|catalog| - 1], reason);
    }
  }

  /** Two lines of one source never share a critical reason. */
  lemma ReasonIsUnique(c: Critical, i: nat, j: nat, reason: Reason)
    requires reason in ReasonsOf(c, i) && reason in ReasonsOf(c, j)
    ensures i == j
  {
  }

  /** From source to answer: each critical line of the source is in the final evidence, whatever the model answered. */
  lemma CriticalReachesTheAnswer(lines: seq<Line>, max: int, picks: seq<Pick>, i: nat)
    requires Build(lines, max).Some? && i in CriticalSet(CriticalOf(lines))
    ensures var e := Expand(Build(lines, max).value, picks);
      exists k :: 0 <= k < |e| && e[k].line == i
  {
    hide Build, CriticalOf, CriticalSet, Expand, RequiredRef, Better, Observed, Used, Faithful, RefsDistinct;
    var reason, m := CriticalRowFound(lines, max, i);
    var rows := Build(lines, max).value;
    ExpansionKeepsCritical(rows, picks, reason);
    ExpandFaithful(rows, picks);
    EntryShowsLine(rows, Expand(rows, picks), m);
  }

  lemma CriticalRowFound(lines: seq<Line>, max: int, i: nat) returns (reason: Reason, m: nat)
    requires Build(lines, max).Some? && i in CriticalSet(CriticalOf(lines))
    ensures var rows := Build(lines, max).value;
      reason != ByScore && m < |rows| && rows[m].line == i && RequiredRef(rows, reason) == Some(rows[m].ref as int) &&
      forall k :: 0 <= k < |rows| ==> rows[k].ref == k + 1
  {
    CatalogMeaning(lines, max);
    hide Build, CriticalOf, CriticalSet, ReasonsOf, RequiredRef, Better, Observed, InCatalog;
    reason, m := RowFoundIn(Build(lines, max).value, CriticalOf(lines), i);
  }

  lemma RowFoundIn(rows: seq<Row>, c: Critical, i: nat) returns (reason: Reason, m: nat)
    requires i in CriticalSet(c) && InCatalog(rows, i)
    requires forall k :: 0 <= k < |rows| ==>
      rows[k].reasons == (if rows[k].line in CriticalSet(c) then ReasonsOf(c, rows[k].line) else {ByScore})
    ensures reason != ByScore && m < |rows| && rows[m].line == i
    ensures RequiredRef(rows, reason) == Some(rows[m].ref as int)
  {
    CriticalHasReason(c, i);
    NotByScore(c, i);
    reason :| reason in ReasonsOf(c, i);
    hide CriticalSet, ReasonsOf, RequiredRef;
    var k :| 0 <= k < |rows| && rows[k].line == i;
    assert reason in rows[k].reasons;
    RequiredMeaning(rows, reason);
    m := RequiredRow(rows, reason);
    assert rows[m].line in CriticalSet(c);
    ReasonIsUnique(c, i, rows[m].line, reason);
  }

  lemma EntryShowsLine(rows: seq<Row>, evidence: seq<Bound>, m: nat)
    requires m < |rows| && forall k :: 0 <= k < |rows| ==> rows[k].ref == k + 1
    requires Faithful(evidence, rows) && Used(evidence, rows[m].ref)
    ensures exists k :: 0 <= k < |evidence| && evidence[k].line == rows[m].line
  {
    hide RowAt;
    RowAtMeaning(rows, rows[m].ref);
    var n :| 0 <= n < |evidence| && evidence[n].ref == rows[m].ref;
    assert evidence[n].line == rows[m].line;
  }

  // ----------------------------------------------------------------- the whole answer

  ghost predicate CatalogOk(rows: seq<Row>, c: Critical) {
    Numbered(rows) && LinesAscend(rows) && TaggedBy(rows, c)
  }

  lemma {:induction false} RowAtNumbered(rows: seq<Row>, ref: int)
    requires Numbered(rows)
    ensures RowAt(rows, ref) == if 1 <= ref <= |rows| then Some(rows[ref - 1]) else None
  {
    if rows != [] && ref != |rows| { RowAtNumbered(rows[..|rows| - 1], ref); }
  }

  /** The line that stands for the reason. */
  function LineFor(c: Critical, reason: Reason): Option<nat> {
    if c.NoFocus? then None
    else
      match reason
      case DirectTrigger => c.trigger
      case FocusFailure => Some(c.focus)
      case PostFocusRecovery => c.recovery
      case ByScore => None
  }

  lemma ReasonMeansLine(c: Critical, reason: Reason, i: nat)
    requires reason != ByScore
    ensures reason in ReasonsOf(c, i) <==> LineFor(c, reason) == Some(i)
    ensures LineFor(c, reason) == Some(i) ==> i in CriticalSet(c)
  {
  }

  /** The required row of a reason is the row of the line that stands for it. */
  lemma {:induction false} SlotOf(rows: seq<Row>, c: Critical, reason: Reason)
    requires CatalogOk(rows, c) && reason != ByScore
    ensures RequiredRef(rows, reason).Some? <==> LineFor(c, reason).Some?
    ensures RequiredRef(rows, reason).Some? ==>
      var ref := RequiredRef(rows, reason).value;
      1 <= ref <= |rows| && LineFor(c, reason) == Some(rows[ref - 1].line)
  {
    hide CriticalSet, ReasonsOf, LineFor, RequiredRef;
    RequiredMeaning(rows, reason);
    if RequiredRef(rows, reason).Some? {
      var k := RequiredRow(rows, reason);
      ReasonMeansLine(c, reason, rows[k].line);
    }
    if LineFor(c, reason).Some? {
      var i := LineFor(c, reason).value;
      ReasonMeansLine(c, reason, i);
      var k :| 0 <= k < |rows| && rows[k].line == i;
      assert reason in rows[k].reasons;
    }
  }

  datatype Slot = Slot(role: Role, line: nat)

  /** The entries the answer must start with: trigger, failure, recovery, those that there are. */
  function Slots(c: Critical): seq<Slot> {
    if c.NoFocus? then []
    else
      (if c.trigger.Some? then [Slot(Trigger, c.trigger.value)] else []) + [Slot(Failure, c.focus)] +
      (if c.recovery.Some? then [Slot(Recovery, c.recovery.value)] else [])
  }

  /** The entries show these roles and lines, each under the reference of its row. */
  ghost predicate Fills(evidence: seq<Bound>, slots: seq<Slot>, rows: seq<Row>) {
    |evidence| == |slots| &&
    forall k :: 0 <= k < |evidence| ==>
      evidence[k].role == slots[k].role && evidence[k].line == slots[k].line &&
      1 <= evidence[k].ref <= |rows| && rows[evidence[k].ref - 1].line == slots[k].line
  }

  lemma SlotFilled(evidence: seq<Bound>, slots: seq<Slot>, rows: seq<Row>, c: Critical, reason: Reason, role: Role)
    requires CatalogOk(rows, c) && reason != ByScore && Fills(evidence, slots, rows)
    requires forall k :: 0 <= k < |slots| ==> LineFor(c, reason) != Some(slots[k].line)
    ensures Fills(WithCritical(evidence, rows, reason, role),
                  if LineFor(c, reason).Some? then slots + [Slot(role, LineFor(c, reason).value)] else slots, rows)
  {
    hide CatalogOk, Numbered, LineFor, RequiredRef, RowAt, Fills, Used;
    SlotOf(rows, c, reason);
    CatalogNumbered(rows, c);
    if RequiredRef(rows, reason).Some? {
      var ref := RequiredRef(rows, reason).value;
      RowAtNumbered(rows, ref);
      NotUsedYet(evidence, slots, rows, ref);
      FillsPush(evidence, slots, rows, Bound(role, ref, rows[ref - 1].line), Slot(role, rows[ref - 1].line));
    }
  }

  lemma CatalogNumbered(rows: seq<Row>, c: Critical)
    requires CatalogOk(rows, c)
    ensures Numbered(rows)
  {
  }

  lemma NotUsedYet(evidence: seq<Bound>, slots: seq<Slot>, rows: seq<Row>, ref: int)
    requires Fills(evidence, slots, rows) && 1 <= ref <= |rows|
    requires forall k :: 0 <= k < |slots| ==> slots[k].line != rows[ref - 1].line
    ensures !Used(evidence, ref)
  {
  }

  lemma FillsPush(evidence: seq<Bound>, slots: seq<Slot>, rows: seq<Row>, b: Bound, slot: Slot)
    requires Fills(evidence, slots, rows) && b.role == slot.role && b.line == slot.line
    requires 1 <= b.ref <= |rows| && rows[b.ref - 1].line == slot.line
    ensures Fills(evidence + [b], slots + [slot], rows)
  {
  }

  lemma OneRowPerLine(rows: seq<Row>, j: nat, k: nat)
    requires LinesAscend(rows) && j < |rows| && k < |rows| && rows[j].line == rows[k].line
    ensures j == k
  {
    assert !(j < k) && !(k < j);
  }

  /** The three slots, filled one after the other. */
  lemma SlotsFilled(rows: seq<Row>, c: Critical)
    requires CatalogOk(rows, c)
    requires c.Critical? ==>
      (c.trigger.Some? ==> c.trigger.value < c.focus) && (c.recovery.Some? ==> c.focus < c.recovery.value)
    ensures Fills(CriticalEvidenceOf(rows), Slots(c), rows)
  {
    hide CatalogOk, WithCritical, Fills;
    var first := if LineFor(c, DirectTrigger).Some? then [Slot(Trigger, LineFor(c, DirectTrigger).value)] else [];
    var second := if LineFor(c, FocusFailure).Some? then first + [Slot(Failure, c.focus)] else first;
    assert Fills([], [], rows) by { NothingFilled(rows); }
    assert LineFor(c, DirectTrigger).Some? ==> [] + [Slot(Trigger, LineFor(c, DirectTrigger).value)] == first;
    SlotFilled([], [], rows, c, DirectTrigger, Trigger);
    SlotFilled(WithCritical([], rows, DirectTrigger, Trigger), first, rows, c, FocusFailure, Failure);
    SlotFilled(WithCritical(WithCritical([], rows, DirectTrigger, Trigger), rows, FocusFailure, Failure), second,
               rows, c, PostFocusRecovery, Recovery);
    if c.Critical? && c.recovery.Some? {
      assert second + [Slot(Recovery, c.recovery.value)] == Slots(c);
    } else {
      assert second == Slots(c);
    }
  }

  lemma NothingFilled(rows: seq<Row>)
    ensures Fills([], [], rows)
  {
  }

  /** A pick that names a row of a line which is not critical. */
  ghost predicate Usable(p: Pick, rows: seq<Row>, c: Critical) {
    p.ref.Some? && 1 <= p.ref.value <= |rows| && rows[p.ref.value - 1].line !in CriticalSet(c)
  }

  ghost predicate FirstUsable(picks: seq<Pick>, rows: seq<Row>, c: Critical, m: nat) {
    m < |picks| && Usable(picks[m], rows, c) && forall j :: 0 <= j < m ==> !Usable(picks[j], rows, c)
  }

  lemma UsedIff(evidence: seq<Bound>, rows: seq<Row>, c: Critical, ref: int)
    requires CatalogOk(rows, c) && Fills(evidence, Slots(c), rows) && 1 <= ref <= |rows|
    ensures Used(evidence, ref) <==> rows[ref - 1].line in CriticalSet(c)
  {
    hide Numbered, TaggedBy, CriticalSet, Slots;
    SlotLines(c);
    var line := rows[ref - 1].line;
    if line in CriticalSet(c) {
      var k :| 0 <= k < |Slots(c)| && Slots(c)[k].line == line;
      OneRowPerLine(rows, evidence[k].ref - 1, ref - 1);
      assert evidence[k].ref == ref;
    }
  }

  lemma SlotLines(c: Critical)
    ensures forall i: nat :: i in CriticalSet(c) <==> exists k :: 0 <= k < |Slots(c)| && Slots(c)[k].line == i
    ensures |Slots(c)| <= 3
  {
    if c.Critical? {
      var s := Slots(c);
      var n := if c.trigger.Some? then 1 else 0;
      assert s[n] == Slot(Failure, c.focus);
      assert c.trigger.Some? ==> s[0] == Slot(Trigger, c.trigger.value);
      assert c.recovery.Some? ==> s[n + 1] == Slot(Recovery, c.recovery.value);
    }
  }

  ghost predicate PickAdded(evidence: seq<Bound>, rows: seq<Row>, c: Critical, picks: seq<Pick>, e: seq<Bound>) {
    ((forall m: nat :: !FirstUsable(picks, rows, c, m)) ==> e == evidence) &&
    forall m: nat :: FirstUsable(picks, rows, c, m) ==>
      e == evidence + [Bound(picks[m].role, picks[m].ref.value, rows[picks[m].ref.value - 1].line)]
  }

  /** One pick is added, the first that is usable, if there is one. */
  lemma {:induction false} PickMeaning(evidence: seq<Bound>, rows: seq<Row>, c: Critical, picks: seq<Pick>)
    requires CatalogOk(rows, c) && Fills(evidence, Slots(c), rows)
    ensures PickAdded(evidence, rows, c, picks, WithPick(evidence, rows, picks))
    decreases |picks|
  {
    hide CatalogOk, Fills, Slots, Usable, RowAt, Used, FirstUsable;
    if picks == [] {
      assert forall m: nat :: !FirstUsable(picks, rows, c, m) by { NoPicks(rows, c); }
      assert PickAdded(evidence, rows, c, picks, evidence);
    } else {
      var p, rest := picks[0], picks[1..];
      PickMeaning(evidence, rows, c, rest);
      UsableIff(evidence, rows, c, p);
      if Usable(p, rows, c) {
        TakeFirst(evidence, rows, c, picks);
      } else {
        assert WithPick(evidence, rows, picks) == WithPick(evidence, rows, rest);
        SkipFirst(evidence, rows, c, picks, WithPick(evidence, rows, rest));
      }
    }
  }

  lemma TakeFirst(evidence: seq<Bound>, rows: seq<Row>, c: Critical, picks: seq<Pick>)
    requires picks != [] && Usable(picks[0], rows, c)
    requires var p := picks[0];
      RowAt(rows, p.ref.value) == Some(rows[p.ref.value - 1]) && !Used(evidence, p.ref.value) && |evidence| < 4
    ensures PickAdded(evidence, rows, c, picks, WithPick(evidence, rows, picks))
  {
    hide FirstUsable, RowAt, Used, CriticalSet;
    FirstIsUsable(picks, rows, c);
    assert FirstUsable(picks, rows, c, 0);
  }

  lemma SkipFirst(evidence: seq<Bound>, rows: seq<Row>, c: Critical, picks: seq<Pick>, e: seq<Bound>)
    requires picks != [] && !Usable(picks[0], rows, c) && PickAdded(evidence, rows, c, picks[1..], e)
    ensures PickAdded(evidence, rows, c, picks, e)
  {
    hide Usable;
    var rest := picks[1..];
    forall m: nat ensures FirstUsable(picks, rows, c, m + 1) <==> FirstUsable(rest, rows, c, m) {
      UsableLater(picks, rows, c, m);
    }
    forall m: nat | FirstUsable(picks, rows, c, m)
      ensures m > 0 && FirstUsable(rest, rows, c, m - 1) && picks[m] == rest[m - 1]
    {
      assert m > 0;
      assert FirstUsable(picks, rows, c, (m - 1) + 1);
    }
  }

  lemma NoPicks(rows: seq<Row>, c: Critical)
    ensures forall m: nat :: !FirstUsable([], rows, c, m)
  {
  }

  lemma FirstIsUsable(picks: seq<Pick>, rows: seq<Row>, c: Critical)
    requires picks != [] && Usable(picks[0], rows, c)
    ensures forall m: nat :: FirstUsable(picks, rows, c, m) <==> m == 0
  {
    hide Usable;
  }

  lemma UsableLater(picks: seq<Pick>, rows: seq<Row>, c: Critical, m: nat)
    requires picks != [] && !Usable(picks[0], rows, c)
    ensures FirstUsable(picks, rows, c, m + 1) <==> FirstUsable(picks[1..], rows, c, m)
  {
    hide Usable;
    var rest := picks[1..];
    assert forall j :: 0 <= j < |rest| ==> rest[j] == picks[j + 1];
    if FirstUsable(rest, rows, c, m) {
      forall j | 0 <= j < m + 1 ensures !Usable(picks[j], rows, c) { if j > 0 { assert rest[j - 1] == picks[j]; } }
    }
  }

  lemma UsableIff(evidence: seq<Bound>, rows: seq<Row>, c: Critical, p: Pick)
    requires CatalogOk(rows, c) && Fills(evidence, Slots(c), rows)
    ensures Usable(p, rows, c) <==>
      p.ref.Some? && RowAt(rows, p.ref.value).Some? && !Used(evidence, p.ref.value) && |evidence| < 4
    ensures Usable(p, rows, c) ==> RowAt(rows, p.ref.value) == Some(rows[p.ref.value - 1])
  {
    hide CatalogOk, Numbered, Fills, Slots, CriticalSet, Used, RowAt;
    FewFilled(evidence, rows, c);
    CatalogNumbered(rows, c);
    if p.ref.Some? {
      RowAtNumbered(rows, p.ref.value);
      if 1 <= p.ref.value <= |rows| { UsedIff(evidence, rows, c, p.ref.value); }
    }
  }

  lemma FewFilled(evidence: seq<Bound>, rows: seq<Row>, c: Critical)
    requires Fills(evidence, Slots(c), rows)
    ensures |evidence| == |Slots(c)| <= 3
  {
    SlotLines(c);
  }

  lemma CriticalInOrder(lines: seq<Line>)
    ensures var c := CriticalOf(lines);
      c.Critical? ==>
        (c.trigger.Some? ==> c.trigger.value < c.focus) && (c.recovery.Some? ==> c.focus < c.recovery.value)
  {
    CriticalMeaning(lines);
    hide CriticalOf, Score;
  }

  lemma BuiltOk(lines: seq<Line>, max: int)
    requires Build(lines, max).Some?
    ensures CatalogOk(Build(lines, max).value, CriticalOf(lines))
    ensures var c := CriticalOf(lines);
      c.Critical? ==>
        (c.trigger.Some? ==> c.trigger.value < c.focus) && (c.recovery.Some? ==> c.focus < c.recovery.value)
  {
    hide Build, CriticalOf, Numbered, LinesAscend, TaggedBy, Observed, SelectedLines, InCatalog;
    CatalogRows(lines, max);
    CriticalInOrder(lines);
  }

  /** From source to answer: whatever the model said, the evidence is the trigger, the focus and the recovery that
      there are, in this order and under these roles, followed by the first of its picks that names another row. */
  lemma AnswerMeaning(lines: seq<Line>, max: int, picks: seq<Pick>)
    requires Build(lines, max).Some?
    ensures var c, rows, e := CriticalOf(lines), Build(lines, max).value, Expand(Build(lines, max).value, picks);
      var n := |Slots(c)|;
      n <= |e| && Fills(e[..n], Slots(c), rows) && PickAdded(e[..n], rows, c, picks, e)
  {
    hide Build, CriticalOf, CatalogOk, CriticalEvidenceOf, WithPick, FirstUsable, Slots, PickAdded, Fills;
    var c, rows := CriticalOf(lines), Build(lines, max).value;
    BuiltOk(lines, max);
    SlotsFilled(rows, c);
    var first := CriticalEvidenceOf(rows);
    FewFilled(first, rows, c);
    PickMeaning(first, rows, c, picks);
    PickGrows(first, rows, picks);
    assert Expand(rows, picks)[..|Slots(c)|] == first;
  }

  lemma {:induction false} PickGrows(evidence: seq<Bound>, rows: seq<Row>, picks: seq<Pick>)
    ensures evidence <= WithPick(evidence, rows, picks)
    decreases |picks|
  {
    if picks != [] { PickGrows(evidence, rows, picks[1..]); }
  }
}
