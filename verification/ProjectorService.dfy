/** `_project_exec` as it runs: the bounded loop that files each piece in the evidence catalog. */
module ProjectorService {
  import opened Sequences
  import opened Evidence
  import opened EvidenceTheorems
  import opened EvidenceService
  import opened Projector

  /** The catalog row of one piece: the source names the call, and `rest` stands for the metadata of
      the whole result (host, command, digest). */
  function RowOf(call: CallId, source: string, rest: int, p: Piece): Row {
    Row(source, p.text, Some(call), Metadata(false, None, Some(p.line), p.cut, p.flagged, rest))
  }

  /** The rows filed until the first piece whose cut text is blank, which the catalog refuses. */
  function Rows(call: CallId, source: string, rest: int, pieces: seq<Piece>): seq<Row> {
    if pieces == [] then []
    else
      Rows(call, source, rest, pieces[..|pieces| - 1]) + [RowOf(call, source, rest, pieces[|pieces| - 1])]
  }

  /** How many pieces come before the first blank one. */
  function FirstBlank(pieces: seq<Piece>): (k: nat)
    ensures k <= |pieces| && forall i :: 0 <= i < k ==> !Blank(pieces[i].text)
    ensures k < |pieces| ==> Blank(pieces[k].text)
  {
    if pieces == [] then 0
    else
      var k := FirstBlank(pieces[..|pieces| - 1]);
      if k < |pieces| - 1 || Blank(pieces[|pieces| - 1].text) then k else k + 1
  }

  class Projecting {
    const lim: Limits
    const catalog: EvidenceCatalog

    constructor (lim: Limits, catalog: EvidenceCatalog)
      requires Positive(lim)
      ensures this.lim == lim && this.catalog == catalog
    {
      this.lim, this.catalog := lim, catalog;
    }

    /** The line loop.  `ok` is false when the catalog refused a blank text, which ends the projection
        with an error; the pieces before it stay filed. */
    method ProjectLines(call: CallId, source: string, rest: int, lines: seq<string>, control: string -> bool,
                        now: nat -> int)
      returns (ok: bool, ghost filed: seq<Piece>)
      requires Positive(lim) && catalog.Valid() && !Blank(source)
      modifies catalog
      ensures catalog.Valid()
      ensures var all := Projected(Content(lines, control), lim).pieces;
        filed == all[..FirstBlank(all)] && (ok <==> forall i :: 0 <= i < |all| ==> !Blank(all[i].text))
      ensures ok <==> !SomeBlankAfterCut(Content(lines, control), lim)
      ensures catalog.items == AfterAll(old(catalog.items), Rows(call, source, rest, filed), now)
    {
      BlankPieceIff(Content(lines, control), lim);
      hide Blank, Content, KeyOf, EvidenceCatalog.Valid, Projected, AfterAll, Rows, FirstBlank, After,
           SomeBlankAfterCut;
      var chars: nat, seen: nat, truncated, i := 0, 0, false, 0;
      ghost var content := Content(lines, control);
      filed := [];
      NothingFiled(lines, control, lim, catalog.items, call, source, rest, now);
      while i < |lines|
        invariant 0 <= i <= |lines| && seen == |filed| && catalog.Valid()
        invariant Projected(Content(lines[..i], control), lim) == Progress(filed, chars, truncated, false)
        invariant FirstBlank(filed) == |filed|
        invariant catalog.items == AfterAll(old(catalog.items), Rows(call, source, rest, filed), now)
      {
        var raw := lines[i];
        ghost var before := Content(lines[..i], control);
        ContentPush(lines, control, i);
        assert before + [] == before;
        if Blank(raw) || control(raw) {
          i := i + 1;
          continue;
        }
        ProjectedPush(before, Numbered(i + 1, raw), lim);
        if seen >= lim.maxLines || chars >= lim.maxChars {
          truncated := true;
          StoppedAt(lines, control, lim, i + 1);
          break;
        }
        seen := seen + 1;
        var remaining := lim.maxChars - chars;
        var limit := Min(lim.maxLineChars, remaining);
        // The guard above leaves room for a character, so `if per_line_limit <= 0` is never taken.
        assert limit > 0;
        var cut := |raw| > limit;
        var text := if cut then raw[..limit] else raw;
        StepWithRoom(Progress(filed, chars, truncated, false), Numbered(i + 1, raw), lim);
        chars := chars + |text|;
        if cut {
          truncated := true;
        }
        var piece := Piece(i + 1, text, cut, truncated);
        FirstBlankPush(filed, piece);
        AfterAllPush(old(catalog.items), now, call, source, rest, filed, piece);
        var item := catalog.Add(RowOf(call, source, rest, piece), now(seen - 1));
        if item.None? {
          BlankEndsIt(lines, control, lim, i + 1, filed, piece);
          return false, filed;
        }
        filed := filed + [piece];
        i := i + 1;
      }
      assert lines[..|lines|] == lines;
      ok := true;
    }
  }

  lemma {:induction false} NothingFiled(lines: seq<string>, control: string -> bool, lim: Limits, items: seq<Item>,
                                        call: CallId, source: string, rest: int, now: nat -> int)
    ensures AfterAll(items, Rows(call, source, rest, []), now) == items && FirstBlank([]) == 0
    ensures Projected(Content(lines[..0], control), lim) == Progress([], 0, false, false)
  {
  }

  lemma ContentPush(lines: seq<string>, control: string -> bool, i: nat)
    requires i < |lines|
    ensures Content(lines[..i + 1], control) ==
      Content(lines[..i], control) + (if Blank(lines[i]) || control(lines[i]) then [] else [Numbered(i + 1, lines[i])])
  {
    hide Blank;
    assert lines[..i + 1][..i] == lines[..i];
  }

  lemma {:induction false} ProjectedPush(content: seq<Numbered>, n: Numbered, lim: Limits)
    ensures Projected(content + [n], lim) == Step(Projected(content, lim), n, lim)
  {
    assert (content + [n])[..|content|] == content;
  }

  lemma {:induction false} ContentGrows(lines: seq<string>, control: string -> bool, i: nat)
    requires i <= |lines|
    ensures Content(lines[..i], control) <= Content(lines, control)
    decreases |lines| - i
  {
    hide Blank;
    if i < |lines| {
      ContentPush(lines, control, i);
      ContentGrows(lines, control, i + 1);
    } else {
      assert lines[..i] == lines;
    }
  }

  /** Once the loop has stopped, the lines not looked at would add nothing. */
  lemma {:induction false} StoppedAt(lines: seq<string>, control: string -> bool, lim: Limits, i: nat)
    requires i <= |lines| && Projected(Content(lines[..i], control), lim).stopped
    ensures Projected(Content(lines, control), lim) == Projected(Content(lines[..i], control), lim)
  {
    hide Content;
    ContentGrows(lines, control, i);
    var c := Content(lines, control);
    assert c[..|Content(lines[..i], control)|] == Content(lines[..i], control);
    StoppedStays(c, lim, |Content(lines[..i], control)|);
  }

  lemma {:induction false} AfterAllPush(items: seq<Item>, now: nat -> int, call: CallId, source: string, rest: int,
                                        filed: seq<Piece>, piece: Piece)
    ensures var before, row := AfterAll(items, Rows(call, source, rest, filed), now), RowOf(call, source, rest, piece);
      AfterAll(items, Rows(call, source, rest, filed + [piece]), now) ==
        (if Acceptable(row) then After(before, row, now(|filed|)) else before)
  {
    RowsLength(call, source, rest, filed);
    RowsPush(call, source, rest, filed, piece);
    hide Rows, RowOf;
    AfterOneMore(items, Rows(call, source, rest, filed), RowOf(call, source, rest, piece), now);
  }

  lemma {:induction false} RowsPush(call: CallId, source: string, rest: int, filed: seq<Piece>, piece: Piece)
    ensures Rows(call, source, rest, filed + [piece]) ==
      Rows(call, source, rest, filed) + [RowOf(call, source, rest, piece)]
  {
    assert (filed + [piece])[..|filed|] == filed;
  }

  lemma {:induction false} FirstBlankPush(filed: seq<Piece>, piece: Piece)
    requires FirstBlank(filed) == |filed|
    ensures FirstBlank(filed + [piece]) == (if Blank(piece.text) then |filed| else |filed| + 1)
  {
    hide Blank;
    assert (filed + [piece])[..|filed|] == filed;
  }

  /** What the loop computes for one line while both budgets have room. */
  lemma StepWithRoom(p: Progress, n: Numbered, lim: Limits)
    requires !p.stopped && |p.pieces| < lim.maxLines && p.chars < lim.maxChars
    ensures var limit := Min(lim.maxLineChars, lim.maxChars - p.chars);
      var cut := |n.raw| > limit;
      var text := if cut then n.raw[..limit] else n.raw;
      Step(p, n, lim) == Progress(p.pieces + [Piece(n.line, text, cut, p.truncated || cut)], p.chars + |text|,
                                  p.truncated || cut, false)
  {
    assert n.raw[..|n.raw|] == n.raw;
  }

  lemma {:induction false} RowsLength(call: CallId, source: string, rest: int, pieces: seq<Piece>)
    ensures |Rows(call, source, rest, pieces)| == |pieces|
    ensures forall i :: 0 <= i < |pieces| ==>
      Rows(call, source, rest, pieces)[i] == RowOf(call, source, rest, pieces[i])
  {
    if pieces != [] { RowsLength(call, source, rest, pieces[..|pieces| - 1]); }
  }

  lemma {:induction false} PiecesGrow(content: seq<Numbered>, lim: Limits, k: nat)
    requires k <= |content|
    ensures Projected(content[..k], lim).pieces <= Projected(content, lim).pieces
    decreases |content| - k
  {
    if k < |content| {
      assert content[..k + 1][..k] == content[..k];
      PiecesGrow(content, lim, k + 1);
    } else {
      assert content[..k] == content;
    }
  }

  lemma {:induction false} BlankEndsIt(lines: seq<string>, control: string -> bool, lim: Limits, i: nat,
                                       filed: seq<Piece>, piece: Piece)
    requires i <= |lines| && Projected(Content(lines[..i], control), lim).pieces == filed + [piece]
    requires FirstBlank(filed) == |filed| && Blank(piece.text)
    ensures var all := Projected(Content(lines, control), lim).pieces;
      filed == all[..FirstBlank(all)] && !(forall k :: 0 <= k < |all| ==> !Blank(all[k].text))
  {
    hide Blank, Content;
    ContentGrows(lines, control, i);
    var c := Content(lines, control);
    assert c[..|Content(lines[..i], control)|] == Content(lines[..i], control);
    PiecesGrow(c, lim, |Content(lines[..i], control)|);
    var all := Projected(c, lim).pieces;
    hide Projected;
    assert all[|filed|] == (filed + [piece])[|filed|];
    assert all[..|filed|] == (filed + [piece])[..|filed|];
    FirstBlankIs(all, filed, piece);
  }

  lemma {:induction false} FirstBlankIs(all: seq<Piece>, filed: seq<Piece>, piece: Piece)
    requires |filed| < |all| && all[..|filed|] == filed && all[|filed|] == piece
    requires FirstBlank(filed) == |filed| && Blank(piece.text)
    ensures FirstBlank(all) == |filed|
  {
    hide Blank, FirstBlank;
  }

  /** The items `from` on are the pieces, in order, numbered on from where the catalog was. */
  ghost predicate FiledAfter(items: seq<Item>, more: seq<Item>, call: CallId, source: string, rest: int,
                             filed: seq<Piece>)
  {
    |more| == |items| + |filed| && items <= more &&
    forall k :: |items| <= k < |more| ==>
      more[k].ref == k + 1 && RowShows(more[k].row, call, source, rest, filed[k - |items|])
  }

  /** The row is a line of a command's output: the text, number and flags of the piece, under the source of the call. */
  ghost predicate RowShows(row: Row, call: CallId, source: string, rest: int, p: Piece) {
    row.source == source && row.raw == p.text && row.call == Some(call) &&
    !row.meta.image && row.meta.sha == None && row.meta.line == Some(p.line) &&
    row.meta.lineTruncated == p.cut && row.meta.projectionTruncated == p.flagged && row.meta.rest == rest
  }

  ghost predicate SourceUnused(items: seq<Item>, source: string) {
    forall i :: 0 <= i < |items| ==> items[i].row.source != source
  }

  /** What the catalog accepts, with increasing line numbers. */
  ghost predicate Acceptables(filed: seq<Piece>) {
    (forall i :: 0 <= i < |filed| ==> !Blank(filed[i].text) && filed[i].line > 0) &&
    (forall i, j :: 0 <= i < j < |filed| ==> filed[i].line < filed[j].line)
  }

  lemma AcceptablesInit(init: seq<Piece>, p: Piece)
    requires Acceptables(init + [p])
    ensures Acceptables(init) && !Blank(p.text) && p.line > 0
    ensures forall i :: 0 <= i < |init| ==> 0 < init[i].line < p.line
  {
    hide Blank;
    var filed := init + [p];
    assert filed[|init|] == p;
    assert forall i :: 0 <= i < |init| ==> filed[i] == init[i];
  }

  /** The pieces of a call that is not in the catalog yet are never deduplicated: each becomes an item of
      its own, because their line numbers differ. */
  lemma {:induction false} EveryPieceGetsItsOwnRef(items: seq<Item>, call: CallId, source: string, rest: int,
                                                   filed: seq<Piece>, now: nat -> int)
    requires SourceUnused(items, source) && !Blank(source) && Acceptables(filed)
    ensures FiledAfter(items, AfterAll(items, Rows(call, source, rest, filed), now), call, source, rest, filed)
  {
    hide Blank, KeyOf, Acceptables, SourceUnused;
    if filed == [] {
      assert Rows(call, source, rest, filed) == [];
    } else {
      var init, p := filed[..|filed| - 1], filed[|filed| - 1];
      assert filed == init + [p];
      AcceptablesInit(init, p);
      EveryPieceGetsItsOwnRef(items, call, source, rest, init, now);
      var before := AfterAll(items, Rows(call, source, rest, init), now);
      AfterAllPush(items, now, call, source, rest, init, p);
      hide AfterAll, Rows, FiledAfter;
      NewPieceKey(items, before, call, source, rest, init, p);
      FiledAfterPush(items, before, call, source, rest, init, p, now(|init|));
    }
  }

  lemma {:induction false} NewPieceKey(items: seq<Item>, before: seq<Item>, call: CallId, source: string, rest: int,
                                       init: seq<Piece>, p: Piece)
    requires FiledAfter(items, before, call, source, rest, init)
    requires SourceUnused(items, source)
    requires p.line > 0 && forall i :: 0 <= i < |init| ==> 0 < init[i].line < p.line
    ensures Find(before, KeyOf(RowOf(call, source, rest, p))).None?
  {
    hide Find;
    var row := RowOf(call, source, rest, p);
    forall k | 0 <= k < |before| ensures KeyOf(before[k].row) != KeyOf(row) {
      if k < |items| { assert before[k] == items[k]; }
    }
    assert forall x :: x in before ==> KeyOf(x.row) != KeyOf(row);
  }

  lemma FiledAfterPush(items: seq<Item>, before: seq<Item>, call: CallId, source: string, rest: int, init: seq<Piece>,
                       p: Piece, now: int)
    requires FiledAfter(items, before, call, source, rest, init)
    ensures FiledAfter(items, before + [Item(|before| + 1, RowOf(call, source, rest, p), now)], call, source, rest,
                       init + [p])
  {
    var it := Item(|before| + 1, RowOf(call, source, rest, p), now);
    var more, filed := before + [it], init + [p];
    assert more[|before|] == it && filed[|init|] == p;
    forall k | |items| <= k < |before| ensures more[k] == before[k] && filed[k - |items|] == init[k - |items|] { }
  }

  /** None of the items from `from` on says that the projection was truncated. */
  ghost predicate NoneFlagged(items: seq<Item>, from: nat) {
    forall k :: from <= k < |items| ==> !items[k].row.meta.projectionTruncated
  }

  lemma FlagsAreFiled(items: seq<Item>, more: seq<Item>, call: CallId, source: string, rest: int, filed: seq<Piece>)
    requires FiledAfter(items, more, call, source, rest, filed)
    ensures NoneFlagged(more, |items|) <==> forall i :: 0 <= i < |filed| ==> !filed[i].flagged
  {
    if NoneFlagged(more, |items|) {
      forall i | 0 <= i < |filed| ensures !filed[i].flagged {
        var k := |items| + i;
        assert RowShows(more[k].row, call, source, rest, filed[k - |items|]);
      }
    }
  }

  /** In the catalog, too, output can be left out with no stored flag: of the items filed for a projection none says
      so although it is incomplete exactly when leading lines use up a budget uncut and content follows. */
  lemma {:induction false} FiledFlagsSilentIff(items: seq<Item>, more: seq<Item>, call: CallId, source: string,
                                               rest: int, content: seq<Numbered>, lim: Limits)
    requires FiledAfter(items, more, call, source, rest, Projected(content, lim).pieces)
    requires forall i :: 0 <= i < |content| ==> content[i].raw != []
    ensures (NoneFlagged(more, |items|) && !Complete(Projected(content, lim), content)) <==>
            exists k: nat :: FillsBudget(content, lim, k)
  {
    SilentlyIncompleteIff(content, lim);
    hide Projected, FillsBudget, Complete, FiledAfter, NoneFlagged;
    FlagsAreFiled(items, more, call, source, rest, Projected(content, lim).pieces);
  }
}
