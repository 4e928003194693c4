/** The bounded projection of one command's output, scopex/evidence/projector.py `_project_exec`. */
module Projector {
  import opened Sequences
  import opened Evidence

  datatype Limits = Limits(maxLines: nat, maxLineChars: nat, maxChars: nat)

  /** The constructor refuses limits that are not positive. */
  predicate Positive(lim: Limits) {
    lim.maxLines > 0 && lim.maxLineChars > 0 && lim.maxChars > 0
  }

  /** An output line with its 1-based number. */
  datatype Numbered = Numbered(line: nat, raw: string)

  /** One projected line; `flagged` is the `result_projection_truncated` entry stored with it. */
  datatype Piece = Piece(line: nat, text: string, cut: bool, flagged: bool)

  /** `truncated` is the loop's own flag, which is stored only with later pieces. */
  datatype Progress = Progress(pieces: seq<Piece>, chars: nat, truncated: bool, stopped: bool)

  /** The lines that are projected at all: not blank, and not written by the runtime itself. */
  function Content(lines: seq<string>, control: string -> bool): seq<Numbered> {
    if lines == [] then []
    else
      var raw := lines[|lines| - 1];
      Content(lines[..|lines| - 1], control) + (if Blank(raw) || control(raw) then [] else [Numbered(|lines|, raw)])
  }

  function Step(p: Progress, n: Numbered, lim: Limits): Progress {
    if p.stopped then p
    else if |p.pieces| >= lim.maxLines || p.chars >= lim.maxChars then p.(truncated := true, stopped := true)
    else
      var text := n.raw[..Min(|n.raw|, Min(lim.maxLineChars, lim.maxChars - p.chars))];
      var cut := text != n.raw;
      Progress(p.pieces + [Piece(n.line, text, cut, p.truncated || cut)], p.chars + |text|, p.truncated || cut, false)
  }

  function Projected(content: seq<Numbered>, lim: Limits): Progress {
    if content == [] then Progress([], 0, false, false)
    else Step(Projected(content[..|content| - 1], lim), content[|content| - 1], lim)
  }

  function Total(pieces: seq<Piece>): nat {
    if pieces == [] then 0 else Total(pieces[..|pieces| - 1]) + |pieces[|pieces| - 1].text|
  }

  function RawTotal(content: seq<Numbered>): nat {
    if content == [] then 0 else RawTotal(content[..|content| - 1]) + |content[|content| - 1].raw|
  }

  // ----------------------------------------------------------------- meaning

  /** The lines come in order, each number once, and none is blank or a control line. */
  ghost predicate InOrder(c: seq<Numbered>, lines: seq<string>, control: string -> bool) {
    (forall i :: 0 <= i < |c| ==> 1 <= c[i].line <= |lines| && c[i].raw == lines[c[i].line - 1]) &&
    (forall i :: 0 <= i < |c| ==> !Blank(c[i].raw) && !control(c[i].raw)) &&
    (forall i, j :: 0 <= i < j < |c| ==> c[i].line < c[j].line)
  }

  lemma {:induction false} ContentMeaning(lines: seq<string>, control: string -> bool)
    ensures InOrder(Content(lines, control), lines, control)
  {
    hide Blank;
    if lines != [] {
      ContentMeaning(lines[..|lines| - 1], control);
      assert InOrder(Content(lines[..|lines| - 1], control), lines[..|lines| - 1], control);
    }
  }

  lemma {:induction false} ContentMissesNothing(lines: seq<string>, control: string -> bool, k: nat) returns (i: nat)
    requires k < |lines| && !Blank(lines[k]) && !control(lines[k])
    ensures i < |Content(lines, control)| && Content(lines, control)[i] == Numbered(k + 1, lines[k])
  {
    hide Blank;
    if k == |lines| - 1 {
      i := |Content(lines[..|lines| - 1], control)|;
    } else {
      i := ContentMissesNothing(lines[..|lines| - 1], control, k);
    }
  }

  /** Every piece is the start of its own content line, and says truly whether it is all of it. */
  ghost predicate Faithful(p: Progress, content: seq<Numbered>, lim: Limits) {
    |p.pieces| <= |content| &&
    forall i :: 0 <= i < |p.pieces| ==>
      p.pieces[i].line == content[i].line && p.pieces[i].text <= content[i].raw &&
      |p.pieces[i].text| <= lim.maxLineChars && (p.pieces[i].cut <==> p.pieces[i].text != content[i].raw)
  }

  /** Both budgets, and why the loop stopped. */
  ghost predicate Bounded(p: Progress, content: seq<Numbered>, lim: Limits) {
    p.chars == Total(p.pieces) <= lim.maxChars && |p.pieces| <= lim.maxLines &&
    (if p.stopped then |p.pieces| < |content| && (|p.pieces| == lim.maxLines || p.chars == lim.maxChars)
     else |p.pieces| == |content|)
  }

  /** A stored flag covers the cuts up to its own piece, the loop's flag also the early stop. */
  ghost predicate Flagged(p: Progress) {
    (forall i :: 0 <= i < |p.pieces| ==> (p.pieces[i].flagged <==> CutUpTo(p.pieces, i + 1))) &&
    (p.truncated <==> p.stopped || CutUpTo(p.pieces, |p.pieces|))
  }

  ghost predicate CutUpTo(pieces: seq<Piece>, n: nat)
    requires n <= |pieces|
  {
    exists j :: 0 <= j < n && pieces[j].cut
  }

  lemma StepFaithful(p: Progress, init: seq<Numbered>, n: Numbered, lim: Limits)
    requires Faithful(p, init, lim) && (!p.stopped ==> |p.pieces| == |init|)
    ensures Faithful(Step(p, n, lim), init + [n], lim)
  {
    var q := Step(p, n, lim);
    forall i | 0 <= i < |p.pieces| ensures q.pieces[i] == p.pieces[i] && (init + [n])[i] == init[i] { }
  }

  lemma StepBounded(p: Progress, init: seq<Numbered>, n: Numbered, lim: Limits)
    requires Bounded(p, init, lim)
    ensures Bounded(Step(p, n, lim), init + [n], lim)
  {
    var q := Step(p, n, lim);
    if !q.stopped { assert q.pieces[..|p.pieces|] == p.pieces; }
  }

  lemma StepFlagged(p: Progress, n: Numbered, lim: Limits)
    requires Flagged(p)
    ensures Flagged(Step(p, n, lim))
  {
    hide CutUpTo;
    var q := Step(p, n, lim);
    if !q.stopped { FlagsPush(p, q.pieces[|p.pieces|], q); }
  }

  lemma {:induction false} ProjectionMeaning(content: seq<Numbered>, lim: Limits)
    ensures Faithful(Projected(content, lim), content, lim)
    ensures Bounded(Projected(content, lim), content, lim)
    ensures Flagged(Projected(content, lim))
  {
    if content != [] {
      var init, n := content[..|content| - 1], content[|content| - 1];
      ProjectionMeaning(init, lim);
      assert content == init + [n];
      var p := Projected(init, lim);
      assert !p.stopped ==> |p.pieces| == |init|;
      hide Faithful, Bounded, Flagged, Step;
      StepFaithful(p, init, n, lim);
      StepBounded(p, init, n, lim);
      StepFlagged(p, n, lim);
    }
  }

  lemma CutUpToPush(pieces: seq<Piece>, piece: Piece, n: nat)
    requires n <= |pieces|
    ensures CutUpTo(pieces + [piece], n) <==> CutUpTo(pieces, n)
    ensures CutUpTo(pieces + [piece], |pieces| + 1) <==> CutUpTo(pieces, |pieces|) || piece.cut
  {
    var more := pieces + [piece];
    assert more[|pieces|] == piece;
    assert forall j :: 0 <= j < |pieces| ==> more[j] == pieces[j];
  }

  lemma FlagsPush(p: Progress, piece: Piece, q: Progress)
    requires Flagged(p) && !p.stopped && !q.stopped && q.pieces == p.pieces + [piece]
    requires q.truncated == piece.flagged == (p.truncated || piece.cut)
    ensures Flagged(q)
  {
    hide CutUpTo;
    var n := |p.pieces|;
    CutUpToPush(p.pieces, piece, n);
    forall i | 0 <= i < |q.pieces| ensures q.pieces[i].flagged <==> CutUpTo(q.pieces, i + 1) {
      if i < n {
        assert q.pieces[i] == p.pieces[i];
        CutUpToPush(p.pieces, piece, i + 1);
      } else {
        assert q.pieces[i] == piece;
      }
    }
  }

  /** The projected text is complete: every content line, in order and verbatim. */
  ghost predicate Complete(p: Progress, content: seq<Numbered>) {
    |p.pieces| == |content| && forall i :: 0 <= i < |content| ==> p.pieces[i].text == content[i].raw
  }

  /** The loop's flag is false exactly when nothing was left out. */
  lemma {:induction false} NotTruncatedIffComplete(content: seq<Numbered>, lim: Limits)
    ensures !Projected(content, lim).truncated <==> Complete(Projected(content, lim), content)
  {
    ProjectionMeaning(content, lim);
  }

  /** No piece carries the stored flag exactly when no line was cut; an early stop leaves no stored trace. */
  lemma {:induction false} StoredFlagsSeeOnlyCuts(content: seq<Numbered>, lim: Limits)
    ensures var p := Projected(content, lim);
      (exists i :: 0 <= i < |p.pieces| && p.pieces[i].flagged) <==> (exists i :: 0 <= i < |p.pieces| && p.pieces[i].cut)
  {
    ProjectionMeaning(content, lim);
    var p := Projected(content, lim);
    forall i | 0 <= i < |p.pieces| && p.pieces[i].cut ensures p.pieces[i].flagged {
      assert CutUpTo(p.pieces, i + 1);
    }
  }

  /** The first `k` lines fit uncut and fill a budget exactly, with more to come. */
  ghost predicate FillsBudget(content: seq<Numbered>, lim: Limits, k: nat) {
    k < |content| && k <= lim.maxLines && (forall i :: 0 <= i < k ==> |content[i].raw| <= lim.maxLineChars) &&
    RawTotal(content[..k]) <= lim.maxChars && (k == lim.maxLines || RawTotal(content[..k]) == lim.maxChars)
  }

  lemma {:induction false} UncutTotals(pieces: seq<Piece>, content: seq<Numbered>, k: nat)
    requires k <= |pieces| && k <= |content| && forall i :: 0 <= i < k ==> pieces[i].text == content[i].raw
    ensures Total(pieces[..k]) == RawTotal(content[..k])
  {
    if k > 0 {
      UncutTotals(pieces, content, k - 1);
      assert pieces[..k][..k - 1] == pieces[..k - 1] && content[..k][..k - 1] == content[..k - 1];
    }
  }

  lemma {:induction false} TotalGrows(content: seq<Numbered>, j: nat, k: nat)
    requires j <= k <= |content|
    ensures RawTotal(content[..j]) <= RawTotal(content[..k])
    decreases k - j
  {
    if j < k {
      TotalGrows(content, j, k - 1);
      assert content[..k][..k - 1] == content[..k - 1];
    }
  }

  /** Lines that fit are projected uncut. */
  lemma {:induction false} FittingPrefix(content: seq<Numbered>, lim: Limits, k: nat)
    requires k <= |content| && k <= lim.maxLines && RawTotal(content[..k]) <= lim.maxChars
    requires forall i :: 0 <= i < k ==> |content[i].raw| <= lim.maxLineChars && content[i].raw != []
    ensures var p := Projected(content[..k], lim);
      !p.stopped && |p.pieces| == k && p.chars == RawTotal(content[..k]) &&
      forall i :: 0 <= i < k ==> p.pieces[i].text == content[i].raw
  {
    if k > 0 {
      var init := content[..k][..k - 1];
      assert init == content[..k - 1];
      FittingPrefix(content, lim, k - 1);
      var p, n := Projected(init, lim), content[k - 1];
      assert content[..k][k - 1] == n;
      assert p.chars + |n.raw| <= lim.maxChars;
      assert n.raw[..|n.raw|] == n.raw;
    }
  }

  lemma {:induction false} StoppedStays(content: seq<Numbered>, lim: Limits, k: nat)
    requires k <= |content| && Projected(content[..k], lim).stopped
    ensures Projected(content, lim) == Projected(content[..k], lim)
  {
    if k < |content| {
      var init := content[..|content| - 1];
      assert init[..k] == content[..k];
      StoppedStays(init, lim, k);
    } else {
      assert content[..k] == content;
    }
  }

  /** The exact case in which no stored flag says so although output was left out: some leading
      lines fit uncut and use up a budget to the last line or character, and content follows. */
  lemma {:induction false} SilentlyIncompleteIff(content: seq<Numbered>, lim: Limits)
    requires forall i :: 0 <= i < |content| ==> content[i].raw != []
    ensures var p := Projected(content, lim);
      (!(exists i :: 0 <= i < |p.pieces| && p.pieces[i].flagged) && !Complete(p, content)) <==>
      exists k: nat :: FillsBudget(content, lim, k)
  {
    var p := Projected(content, lim);
    StoredFlagsSeeOnlyCuts(content, lim);
    if !(exists i :: 0 <= i < |p.pieces| && p.pieces[i].cut) && !Complete(p, content) {
      StopFillsBudget(content, lim);
    }
    forall k: nat | FillsBudget(content, lim, k)
      ensures !(exists i :: 0 <= i < |p.pieces| && p.pieces[i].cut) && !Complete(p, content)
    {
      FullBudgetStops(content, lim, k);
    }
  }

  lemma {:induction false} StopFillsBudget(content: seq<Numbered>, lim: Limits)
    requires var p := Projected(content, lim);
      !(exists i :: 0 <= i < |p.pieces| && p.pieces[i].cut) && !Complete(p, content)
    ensures FillsBudget(content, lim, |Projected(content, lim).pieces|)
  {
    hide Flagged;
    var p := Projected(content, lim);
    ProjectionMeaning(content, lim);
    hide Projected;
    UncutTotals(p.pieces, content, |p.pieces|);
    assert p.pieces[..|p.pieces|] == p.pieces;
    assert forall i :: 0 <= i < |p.pieces| ==> |content[i].raw| == |p.pieces[i].text|;
  }

  lemma {:induction false} FullBudgetStops(content: seq<Numbered>, lim: Limits, k: nat)
    requires forall i :: 0 <= i < |content| ==> content[i].raw != []
    requires FillsBudget(content, lim, k)
    ensures var p := Projected(content, lim);
      !(exists i :: 0 <= i < |p.pieces| && p.pieces[i].cut) && !Complete(p, content)
  {
    FittingPrefix(content, lim, k);
    var q := Projected(content[..k], lim);
    StopHere(content, lim, k);
    UncutSoFar(content, lim, k);
    hide Projected, FillsBudget, RawTotal;
    assert Projected(content, lim).pieces == q.pieces && |q.pieces| < |content|;
  }

  /** The loop stops at the first line for which nothing is left. */
  lemma {:induction false} StopHere(content: seq<Numbered>, lim: Limits, k: nat)
    requires k < |content|
    requires var q := Projected(content[..k], lim);
      !q.stopped && (|q.pieces| >= lim.maxLines || q.chars >= lim.maxChars)
    ensures Projected(content, lim) == Projected(content[..k], lim).(truncated := true, stopped := true)
  {
    var q := Projected(content[..k], lim);
    assert content[..k + 1][..k] == content[..k];
    assert Projected(content[..k + 1], lim) == Step(q, content[k], lim);
    assert Step(q, content[k], lim) == q.(truncated := true, stopped := true);
    StoppedStays(content, lim, k + 1);
  }

  lemma {:induction false} UncutSoFar(content: seq<Numbered>, lim: Limits, k: nat)
    requires k <= |content|
    requires var q := Projected(content[..k], lim);
      |q.pieces| == k && forall i :: 0 <= i < k ==> q.pieces[i].text == content[i].raw
    ensures forall i :: 0 <= i < k ==> !Projected(content[..k], lim).pieces[i].cut
  {
    ProjectionMeaning(content[..k], lim);
    hide Projected, Flagged, Bounded;
  }

  /** A concrete output: two short lines under a limit of one line. */
  lemma StoredFlagsCanMissTheStop()
    ensures var content, lim := [Numbered(1, "a"), Numbered(2, "b")], Limits(1, 9, 9);
      Projected(content, lim).pieces == [Piece(1, "a", false, false)] && Projected(content, lim).truncated &&
      !Complete(Projected(content, lim), content)
  {
    var a, b, lim := Numbered(1, "a"), Numbered(2, "b"), Limits(1, 9, 9);
    assert [a, b][..1] == [a] && [a][..0] == [];
    assert "a"[..1] == "a";
    assert Projected([], lim) == Progress([], 0, false, false);
    assert Projected([a], lim) == Step(Projected([], lim), a, lim);
    assert Projected([a, b], lim) == Step(Projected([a], lim), b, lim);
  }

  // ----------------------------------------------------------------- when a projection raises

  /** The characters that the lines use up, each cut to its limit and to what the earlier ones leave. */
  function Used(content: seq<Numbered>, lim: Limits): (u: nat)
    ensures u <= lim.maxChars
  {
    if content == [] then 0
    else
      var u := Used(content[..|content| - 1], lim);
      u + |CutText(content[|content| - 1].raw, u, lim)|
  }

  function CutText(raw: string, used: nat, lim: Limits): (text: string)
    requires used <= lim.maxChars
    ensures |text| <= lim.maxChars - used
  {
    raw[..Min(|raw|, Min(lim.maxLineChars, lim.maxChars - used))]
  }

  /** Both budgets have room after the first `k` lines. */
  predicate HasRoom(content: seq<Numbered>, lim: Limits, k: nat)
    requires k <= |content|
  {
    k < lim.maxLines && Used(content[..k], lim) < lim.maxChars
  }

  /** What the loop makes of line `k` when it reaches it. */
  function Cut(content: seq<Numbered>, lim: Limits, k: nat): string
    requires k < |content|
  {
    CutText(content[k].raw, Used(content[..k], lim), lim)
  }

  /** Line `k` is reached, and nothing but blanks is left of it by its cut. */
  ghost predicate BlankAfterCut(content: seq<Numbered>, lim: Limits, k: nat) {
    k < |content| && HasRoom(content, lim, k) && Blank(Cut(content, lim, k))
  }

  ghost predicate SomeBlankAfterCut(content: seq<Numbered>, lim: Limits) {
    exists k: nat :: BlankAfterCut(content, lim, k)
  }

  lemma UsedNext(content: seq<Numbered>, lim: Limits, k: nat)
    requires k < |content|
    ensures Used(content[..k + 1], lim) == Used(content[..k], lim) + |Cut(content, lim, k)|
  {
    assert content[..k + 1][..k] == content[..k];
    hide CutText;
  }

  lemma {:induction false} RoomBefore(content: seq<Numbered>, lim: Limits, j: nat, k: nat)
    requires j <= k <= |content| && HasRoom(content, lim, k)
    ensures HasRoom(content, lim, j)
    decreases k - j
  {
    if j < k {
      UsedNext(content, lim, k - 1);
      hide Used, Cut;
      RoomBefore(content, lim, j, k - 1);
    }
  }

  lemma StepCuts(p: Progress, n: Numbered, lim: Limits)
    requires !p.stopped && |p.pieces| < lim.maxLines && p.chars < lim.maxChars
    ensures var q, text := Step(p, n, lim), CutText(n.raw, p.chars, lim);
      !q.stopped && q.chars == p.chars + |text| && |q.pieces| == |p.pieces| + 1 &&
      q.pieces[..|p.pieces|] == p.pieces && q.pieces[|p.pieces|].text == text
  {
  }

  /** The first `k` lines have been projected, each to its cut. */
  ghost predicate CutSoFar(p: Progress, content: seq<Numbered>, lim: Limits, k: nat)
    requires k <= |content|
  {
    !p.stopped && |p.pieces| == k && p.chars == Used(content[..k], lim) &&
    forall j :: 0 <= j < k ==> p.pieces[j].text == Cut(content, lim, j)
  }

  lemma CutNext(p: Progress, content: seq<Numbered>, lim: Limits, k: nat)
    requires k < |content| && HasRoom(content, lim, k) && CutSoFar(p, content, lim, k)
    ensures CutSoFar(Step(p, content[k], lim), content, lim, k + 1)
  {
    hide Step, CutText, Used;
    StepCuts(p, content[k], lim);
    UsedNext(content, lim, k);
    var q := Step(p, content[k], lim);
    assert q.pieces[k].text == Cut(content, lim, k);
    hide Cut;
    forall j | 0 <= j < k ensures q.pieces[j].text == Cut(content, lim, j) {
      assert q.pieces[..k][j] == p.pieces[j];
    }
  }

  /** As long as both budgets have room, the loop projects line after line. */
  lemma {:induction false} RoomLeft(content: seq<Numbered>, lim: Limits, k: nat)
    requires k <= |content| && (k == 0 || HasRoom(content, lim, k - 1))
    ensures CutSoFar(Projected(content[..k], lim), content, lim, k)
  {
    if k > 0 {
      hide Used, Cut, CutSoFar, Step;
      if k > 1 { RoomBefore(content, lim, k - 2, k - 1); }
      RoomLeft(content, lim, k - 1);
      assert content[..k][..k - 1] == content[..k - 1] && content[..k][k - 1] == content[k - 1];
      hide HasRoom;
      CutNext(Projected(content[..k - 1], lim), content, lim, k - 1);
    }
  }

  /** The first line at which a budget is used up, and nothing is projected from there on. */
  lemma {:induction false} NoRoomStops(content: seq<Numbered>, lim: Limits, k: nat)
    requires k < |content| && !HasRoom(content, lim, k) && (k == 0 || HasRoom(content, lim, k - 1))
    ensures |Projected(content, lim).pieces| == k
    ensures forall j :: 0 <= j < k ==> Projected(content, lim).pieces[j].text == Cut(content, lim, j)
  {
    RoomLeft(content, lim, k);
    hide Used, Cut, Projected;
    StopHere(content, lim, k);
  }

  /** The pieces are the cuts of the lines reached while both budgets have room. */
  lemma {:induction false} PiecesAreCuts(content: seq<Numbered>, lim: Limits, k: nat)
    requires k < |content|
    ensures var p := Projected(content, lim);
      (k < |p.pieces| <==> HasRoom(content, lim, k)) && (k < |p.pieces| ==> p.pieces[k].text == Cut(content, lim, k))
  {
    hide HasRoom, Cut;
    var n := FirstWithoutRoom(content, lim);
    if n < |content| {
      NoRoomStops(content, lim, n);
      hide Projected;
      if k > n && HasRoom(content, lim, k) { RoomBefore(content, lim, n, k); }
      if k < n { RoomBefore(content, lim, k, n - 1); }
    } else {
      assert content[..n] == content;
      RoomLeft(content, lim, n);
      hide Projected;
      RoomBefore(content, lim, k, n - 1);
    }
  }

  lemma {:induction false} FirstWithoutRoom(content: seq<Numbered>, lim: Limits) returns (n: nat)
    ensures n <= |content| && (n == 0 || HasRoom(content, lim, n - 1))
    ensures n < |content| ==> !HasRoom(content, lim, n)
  {
    hide HasRoom;
    n := 0;
    while n < |content| && HasRoom(content, lim, n)
      invariant n <= |content| && (n == 0 || HasRoom(content, lim, n - 1))
    {
      n := n + 1;
    }
  }

  /** The catalog refuses some piece, which ends the projection with an error, exactly when some line is reached
      whose cut leaves only blanks of it. */
  lemma {:induction false} BlankPieceIff(content: seq<Numbered>, lim: Limits)
    ensures var p := Projected(content, lim);
      (exists i :: 0 <= i < |p.pieces| && Blank(p.pieces[i].text)) <==> SomeBlankAfterCut(content, lim)
  {
    var p := Projected(content, lim);
    ProjectionMeaning(content, lim);
    hide Blank, Cut, HasRoom, Projected;
    forall k: nat | k < |content|
      ensures BlankAfterCut(content, lim, k) <==> k < |p.pieces| && Blank(p.pieces[k].text)
    {
      PiecesAreCuts(content, lim, k);
    }
  }

  /** A concrete output: one line that starts with as many blanks as a line may have characters. */
  lemma IndentedLineIsRefused(control: string -> bool)
    requires !control("  at")
    ensures var content, lim := Content(["  at"], control), Limits(9, 2, 9);
      content == [Numbered(1, "  at")] && BlankAfterCut(content, lim, 0)
  {
    var n, lim := Numbered(1, "  at"), Limits(9, 2, 9);
    assert !Blank("  at") by { assert "  at"[2] == 'a'; }
    assert ["  at"][..0] == [] && Content([], control) == [];
    assert Content(["  at"], control) == Content([], control) + [n];
    assert [n][..0] == [] && Used([n][..0], lim) == 0;
    assert Cut([n], lim, 0) == "  at"[..2] == "  ";
  }
}
