/** When a transcript that shows the whole source is verified, and one that is not. */
module PagedReadComplete {
  import opened Sequences
  import opened Transcript
  import opened PagedRead
  import opened PagedReadTheorems

  // ----------------------------------------------------------------- complete pages

  /** The shapes of a page that shows `k` source lines and nothing else: blank lines after them, as on a last or
      uncapped page, or blank lines and the footer that names the next line. */
  datatype Page = Plain(k: nat, blanks: seq<Line>) | Capped(k: nat, blanks: seq<Line>, foot: Line)

  function Tail(p: Page): seq<Line> {
    if p.Plain? then p.blanks else p.blanks + [p.foot]
  }

  predicate IsPage(func: Func, reply: Reply, lines: seq<Line>, rd: Reader, p: Page) {
    func.offset.Some? && 1 <= func.offset.value <= |lines| && !reply.isError &&
    var start := func.offset.value - 1;
    start + p.k <= |lines| && reply.text == Some(lines[start..start + p.k] + Tail(p)) &&
    (forall b :: b in p.blanks ==> rd.blank(b)) &&
    (p.Capped? ==> start + p.k < |lines| && !rd.blank(p.foot) && rd.foot(p.foot) == Some(func.offset.value + p.k))
  }

  /** How many lines a page counts for: a plain page for all its lines and for those of its blank tail that the
      source goes on with; a capped page for its lines if the source goes on differently, for its whole tail
      too if the source holds that, and otherwise for nothing. */
  function Counted(func: Func, lines: seq<Line>, p: Page): nat
    requires func.offset.Some? && 1 <= func.offset.value && func.offset.value - 1 + p.k <= |lines|
  {
    var next := lines[func.offset.value - 1 + p.k..];
    if p.Plain? then p.k + MatchCount(p.blanks, next, 0)
    else if next == [] || Tail(p)[0] != next[0] then p.k
    else if Tail(p) <= next then p.k + |Tail(p)|
    else 0
  }

  lemma {:induction false} MatchSplit(head: seq<Line>, tail: seq<Line>, lines: seq<Line>, start: nat)
    requires start + |head| <= |lines| && head == lines[start..start + |head|]
    ensures MatchCount(head + tail, lines, start) == |head| + MatchCount(tail, lines, start + |head|)
  {
    if head == [] {
      assert head + tail == tail;
    } else {
      assert (head + tail)[1..] == head[1..] + tail;
      assert head[0] == lines[start] && head[1..] == lines[start + 1..start + |head|];
      MatchSplit(head[1..], tail, lines, start + 1);
    }
  }

  lemma {:induction false} MatchShift(tail: seq<Line>, lines: seq<Line>, d: nat, start: nat)
    requires d + start <= |lines|
    ensures MatchCount(tail, lines, d + start) == MatchCount(tail, lines[d..], start)
  {
    if tail != [] && d + start < |lines| && tail[0] == lines[d + start] {
      MatchShift(tail[1..], lines, d, start + 1);
    }
  }

  /** A tail is matched whole exactly when the source goes on with it. */
  lemma {:induction false} MatchWhole(tail: seq<Line>, next: seq<Line>)
    ensures MatchCount(tail, next, 0) == |tail| <==> tail <= next
    ensures tail != [] ==> (MatchCount(tail, next, 0) == 0 <==> next == [] || tail[0] != next[0])
  {
    MatchedLinesAgree(tail, next, 0);
    if tail <= next {
      MatchSplit(tail, [], next, 0);
      assert tail + [] == tail;
    }
  }

  lemma {:induction false} BlanksDrop(blanks: seq<Line>, foot: Line, rd: Reader)
    requires forall b :: b in blanks ==> rd.blank(b)
    requires !rd.blank(foot)
    ensures DropTrailing(DropLeading(blanks + [foot], rd), rd) == [foot]
  {
    if blanks == [] {
      assert blanks + [foot] == [foot];
    } else {
      var b := blanks[0];
      assert b in blanks;
      assert rd.blank(b);
      assert (blanks + [foot])[0] == b && (blanks + [foot])[1..] == blanks[1..] + [foot];
      BlanksDrop(blanks[1..], foot, rd);
      assert DropLeading(blanks + [foot], rd) == DropLeading(blanks[1..] + [foot], rd);
    }
  }

  lemma {:induction false} AllBlankDrop(blanks: seq<Line>, rd: Reader)
    requires forall b :: b in blanks ==> rd.blank(b)
    ensures DropLeading(blanks, rd) == []
  {
    if blanks != [] {
      var b := blanks[0];
      assert b in blanks;
      assert rd.blank(b);
      AllBlankDrop(blanks[1..], rd);
      assert DropLeading(blanks, rd) == DropLeading(blanks[1..], rd);
    }
  }

  /** What is left of a page's tail when `m` of its lines were matched is accepted only if it is blank, or
      nothing was matched and it holds the footer. */
  lemma TailAccepted(p: Page, next: nat, rd: Reader, m: nat)
    requires (forall b :: b in p.blanks ==> rd.blank(b)) && m <= |Tail(p)|
    requires p.Capped? ==> !rd.blank(p.foot) && rd.foot(p.foot) == Some(next)
    ensures ValidTail(Tail(p)[m..], next + m, rd) <==> p.Plain? || m == 0 || m == |Tail(p)|
  {
    hide DropLeading, DropTrailing;
    if p.Plain? || m == |Tail(p)| {
      var left := Tail(p)[m..];
      AllBlankDrop(left, rd);
      DropNothing(rd);
    } else {
      var left := p.blanks[m..];
      assert Tail(p)[m..] == left + [p.foot];
      BlanksDrop(left, p.foot, rd);
    }
  }

  lemma {:induction false} DropNothing(rd: Reader)
    ensures DropTrailing([], rd) == []
  {
  }

  /** The counting loop first takes the page's own lines, then as much of its tail as the source goes on with. */
  lemma {:induction false} PageMatches(page: seq<Line>, lines: seq<Line>, start: nat, k: nat, tail: seq<Line>)
    requires start + k <= |lines| && page == lines[start..start + k] + tail
    ensures var m := MatchCount(tail, lines[start + k..], 0);
      m <= |tail| && MatchCount(page, lines, start) == k + m && page[k + m..] == tail[m..]
  {
    var head := lines[start..start + k];
    MatchSplit(head, tail, lines, start);
    MatchShift(tail, lines, start + k, 0);
    hide MatchCount;
    var m := MatchCount(tail, lines[start + k..], 0);
    assert page[k + m..] == tail[m..];
  }

  /** What each complete page counts for, whatever the source looks like. */
  lemma PageCounts(func: Func, reply: Reply, lines: seq<Line>, rd: Reader, p: Page)
    requires IsPage(func, reply, lines, rd, p)
    ensures PageLines(func, Some(reply), lines, rd) == Counted(func, lines, p)
  {
    hide MatchCount, ValidTail;
    var start, tail := func.offset.value - 1, Tail(p);
    var next := lines[start + p.k..];
    PageMatches(reply.text.value, lines, start, p.k, tail);
    var m := MatchCount(tail, next, 0);
    TailAccepted(p, func.offset.value + p.k, rd, m);
    assert PageLines(func, Some(reply), lines, rd) == if p.Plain? || m == 0 || m == |tail| then p.k + m else 0;
    hide PageLines, IsPage, Tail;
    if p.Capped? { MatchWhole(tail, next); }
  }

  /** In particular a capped page counts for exactly its lines if and only if the source line after it differs
      from the first line of its tail; otherwise it counts for nothing or, when the source holds it, for its
      tail too. */
  lemma CappedPageCountsIff(func: Func, reply: Reply, lines: seq<Line>, rd: Reader, p: Page)
    requires p.Capped? && p.k > 0 && IsPage(func, reply, lines, rd, p)
    ensures PageLines(func, Some(reply), lines, rd) == p.k <==> Tail(p)[0] != lines[func.offset.value - 1 + p.k]
    ensures PageLines(func, Some(reply), lines, rd) in {0, p.k, p.k + |p.blanks| + 1}
  {
    PageCounts(func, reply, lines, rd, p);
    hide PageLines, MatchCount;
  }

  // ----------------------------------------------------------------- complete transcripts

  /** Every read call that asks for lines was answered with a complete page, `pages` says which. */
  ghost predicate AllPages(s: Seen, lines: seq<Line>, rd: Reader, pages: map<Id, Page>) {
    forall e :: e in s.calls && e.value.offset.Some? ==>
      e.key in s.returned && e.key in pages && IsPage(e.value, s.returned[e.key], lines, rd, pages[e.key])
  }

  /** Line `x` (1-based) is one of the `n` lines from the call's offset on. */
  predicate Within(e: Entry<Func>, n: nat, x: int) {
    e.value.offset.Some? && e.value.offset.value <= x < e.value.offset.value + n
  }

  /** Line `x` is shown by some complete page that the counting loop accepts for at least its own lines. */
  ghost predicate OnCountingPage(s: Seen, lines: seq<Line>, rd: Reader, x: int) {
    exists e, p :: e in s.calls && e.key in s.returned && IsPage(e.value, s.returned[e.key], lines, rd, p) &&
      Within(e, p.k, x) && GoesOnDifferently(e, lines, p)
  }

  /** A plain page, or a capped one whose next source line differs from the first line of its tail. */
  predicate GoesOnDifferently(e: Entry<Func>, lines: seq<Line>, p: Page) {
    p.Plain? || (e.value.offset.Some? && var next := e.value.offset.value - 1 + p.k;
      0 <= next < |lines| && Tail(p)[0] != lines[next])
  }

  lemma CountedCovers(func: Func, reply: Reply, lines: seq<Line>, rd: Reader, p: Page, e: Entry<Func>, x: int)
    requires IsPage(func, reply, lines, rd, p) && e.value == func && Within(e, p.k, x) && GoesOnDifferently(e, lines, p)
    ensures x in PageCover(func, Some(reply), lines, rd)
  {
    hide IsPage, MatchCount, PageLines;
    PageCounts(func, reply, lines, rd, p);
    assert Counted(func, lines, p) >= p.k by { PageBounds(func, reply, lines, rd, p); }
  }

  lemma PageBounds(func: Func, reply: Reply, lines: seq<Line>, rd: Reader, p: Page)
    requires IsPage(func, reply, lines, rd, p)
    ensures func.offset.Some? && 1 <= func.offset.value && func.offset.value - 1 + p.k <= |lines|
  {
  }

  /** Completeness: a transcript without conflicts in which every line lies on a last or uncapped page, or on a
      capped page after which the source goes on differently from the page's tail, is verified. */
  lemma {:induction false} CompleteTranscriptIsVerified(ms: seq<ChatMessage>, lines: seq<Line>, rd: Reader)
    requires SeenIn(ms).Some? && lines != [] && SeenIn(ms).value.conflicts == 0
    requires forall x :: 1 <= x <= |lines| ==> OnCountingPage(SeenIn(ms).value, lines, rd, x)
    ensures Verified(SeenIn(ms).value, lines, rd)
  {
    hide SeenIn, Verified, PageCover, IsPage, Within, GoesOnDifferently;
    var s := SeenIn(ms).value;
    VerifiedIff(s, lines, rd);
    forall x | 1 <= x <= |lines| ensures CoveredBySome(s.calls, s.returned, lines, rd, x) {
      assert OnCountingPage(s, lines, rd, x);
      var e, p :| e in s.calls && e.key in s.returned && IsPage(e.value, s.returned[e.key], lines, rd, p) &&
        Within(e, p.k, x) && GoesOnDifferently(e, lines, p);
      CountedCovers(e.value, s.returned[e.key], lines, rd, p, e, x);
    }
  }

  /** The number of lines a call's page counts for. */
  ghost function CountOf(e: Entry<Func>, lines: seq<Line>, pages: map<Id, Page>): nat {
    if e.key in pages && e.value.offset.Some? && 1 <= e.value.offset.value &&
       e.value.offset.value - 1 + pages[e.key].k <= |lines|
    then Counted(e.value, lines, pages[e.key]) else 0
  }

  ghost predicate CountedBySome(s: Seen, lines: seq<Line>, pages: map<Id, Page>, x: int) {
    exists e :: e in s.calls && Within(e, CountOf(e, lines, pages), x)
  }

  lemma CoverIsCount(s: Seen, lines: seq<Line>, rd: Reader, pages: map<Id, Page>, e: Entry<Func>, x: int)
    requires AllPages(s, lines, rd, pages) && e in s.calls
    ensures x in PageCover(e.value, ReplyOf(s.returned, e.key), lines, rd) <==> Within(e, CountOf(e, lines, pages), x)
  {
    hide PageLines, Counted;
    if e.value.offset.Some? {
      PageCounts(e.value, s.returned[e.key], lines, rd, pages[e.key]);
    }
  }

  /** When all reads were answered with complete pages the verdict is given exactly when there is no conflict
      and each line lies among those some page counts for. */
  lemma {:induction false} PagesVerifiedIff(ms: seq<ChatMessage>, lines: seq<Line>, rd: Reader, pages: map<Id, Page>)
    requires SeenIn(ms).Some? && lines != [] && AllPages(SeenIn(ms).value, lines, rd, pages)
    ensures var s := SeenIn(ms).value;
      Verified(s, lines, rd) <==>
        s.conflicts == 0 && forall x :: 1 <= x <= |lines| ==> CountedBySome(s, lines, pages, x)
  {
    hide SeenIn, Verified, PageCover, Within, CountOf, AllPages;
    var s := SeenIn(ms).value;
    VerifiedIff(s, lines, rd);
    forall x ensures CoveredBySome(s.calls, s.returned, lines, rd, x) <==> CountedBySome(s, lines, pages, x) {
      forall e | e in s.calls
        ensures x in PageCover(e.value, ReplyOf(s.returned, e.key), lines, rd) <==>
                Within(e, CountOf(e, lines, pages), x)
      {
        CoverIsCount(s, lines, rd, pages, e, x);
      }
    }
  }

  /** The pages show every line, each line on one page only. */
  ghost predicate Partition(s: Seen, lines: seq<Line>, pages: map<Id, Page>) {
    (forall x :: 1 <= x <= |lines| ==> ShownBySome(s, pages, x)) &&
    (forall d, e, x :: d in s.calls && e in s.calls && OwnLine(d, pages, x) && OwnLine(e, pages, x) ==> d == e)
  }

  predicate OwnLine(e: Entry<Func>, pages: map<Id, Page>, x: int) {
    e.key in pages && Within(e, pages[e.key].k, x)
  }

  ghost predicate ShownBySome(s: Seen, pages: map<Id, Page>, x: int) {
    exists e :: e in s.calls && OwnLine(e, pages, x)
  }

  /** The source does not go on with the page's tail: not with a plain page's first blank line, and not with
      the whole tail of a capped page. */
  predicate StopsAtItsLines(e: Entry<Func>, lines: seq<Line>, p: Page) {
    e.value.offset.Some? && var at := e.value.offset.value - 1 + p.k;
    0 <= at <= |lines| && var next := lines[at..];
    if p.Plain? then next == [] || p.blanks == [] || p.blanks[0] != next[0] else !(Tail(p) <= next)
  }

  ghost predicate NoOverrun(s: Seen, lines: seq<Line>, pages: map<Id, Page>) {
    forall e :: e in s.calls && e.value.offset.Some? && e.key in pages ==> StopsAtItsLines(e, lines, pages[e.key])
  }

  /** That is exactly when a page counts for none but its own lines. */
  lemma StopsMeans(e: Entry<Func>, lines: seq<Line>, pages: map<Id, Page>)
    requires e.key in pages && e.value.offset.Some? && 1 <= e.value.offset.value
    requires e.value.offset.value - 1 + pages[e.key].k <= |lines|
    ensures CountOf(e, lines, pages) <= pages[e.key].k <==> StopsAtItsLines(e, lines, pages[e.key])
  {
    hide MatchCount;
    var p := pages[e.key];
    MatchWhole(p.blanks, lines[e.value.offset.value - 1 + p.k..]);
    var next := lines[e.value.offset.value - 1 + p.k..];
    if p.Capped? && Tail(p) <= next { assert Tail(p)[0] == next[0]; }
  }

  /** For complete pages that partition the source, none running on into it: the verdict is given exactly when
      there is no conflict and after each capped page the source goes on differently from the page's tail. */
  lemma {:induction false} PartitionVerifiedIff(ms: seq<ChatMessage>, lines: seq<Line>, rd: Reader,
                                                pages: map<Id, Page>)
    requires SeenIn(ms).Some? && lines != []
    requires var s := SeenIn(ms).value;
      AllPages(s, lines, rd, pages) && Partition(s, lines, pages) && NoOverrun(s, lines, pages)
    ensures var s := SeenIn(ms).value;
      Verified(s, lines, rd) <==>
        s.conflicts == 0 &&
        forall e ::
          e in s.calls && e.value.offset.Some? && pages[e.key].k > 0 ==> GoesOnDifferently(e, lines, pages[e.key])
  {
    hide SeenIn, Verified, Partition, NoOverrun, AllPages, CountOf, OwnLine, GoesOnDifferently;
    var s := SeenIn(ms).value;
    PagesVerifiedIff(ms, lines, rd, pages);
    if forall x :: 1 <= x <= |lines| ==> CountedBySome(s, lines, pages, x) {
      forall e | e in s.calls && e.value.offset.Some? && e.key in pages && pages[e.key].k > 0
        ensures GoesOnDifferently(e, lines, pages[e.key])
      {
        OwnPageCounts(s, lines, rd, pages, e);
      }
    }
    if forall e :: e in s.calls && e.value.offset.Some? && e.key in pages && pages[e.key].k > 0 ==>
         GoesOnDifferently(e, lines, pages[e.key])
    {
      forall x | 1 <= x <= |lines| ensures CountedBySome(s, lines, pages, x) {
        EachLineCounts(s, lines, rd, pages, x);
      }
    }
    AllPagesKnown(s, lines, rd, pages);
  }

  lemma AllPagesKnown(s: Seen, lines: seq<Line>, rd: Reader, pages: map<Id, Page>)
    requires AllPages(s, lines, rd, pages)
    ensures forall e :: e in s.calls && e.value.offset.Some? ==> e.key in pages
  {
  }

  /** A page that shows a line must count it itself, for the others stay on their own lines. */
  lemma OwnPageCounts(s: Seen, lines: seq<Line>, rd: Reader, pages: map<Id, Page>, e: Entry<Func>)
    requires AllPages(s, lines, rd, pages) && Partition(s, lines, pages) && NoOverrun(s, lines, pages)
    requires e in s.calls && e.value.offset.Some? && e.key in pages && pages[e.key].k > 0
    requires forall x :: 1 <= x <= |lines| ==> CountedBySome(s, lines, pages, x)
    ensures GoesOnDifferently(e, lines, pages[e.key])
  {
    var p, x := pages[e.key], e.value.offset.value;
    assert IsPage(e.value, s.returned[e.key], lines, rd, p);
    assert CountedBySome(s, lines, pages, x);
    hide Counted, StopsAtItsLines;
    var d :| d in s.calls && Within(d, CountOf(d, lines, pages), x);
    assert IsPage(d.value, s.returned[d.key], lines, rd, pages[d.key]);
    StopsMeans(d, lines, pages);
    assert OwnLine(d, pages, x) && OwnLine(e, pages, x);
    assert d == e;
    CountsMeans(e, lines, pages);
  }

  lemma CountsMeans(e: Entry<Func>, lines: seq<Line>, pages: map<Id, Page>)
    requires e.key in pages && e.value.offset.Some? && 1 <= e.value.offset.value
    requires var p := pages[e.key]; 0 < CountOf(e, lines, pages) <= p.k
    requires var p := pages[e.key]; p.Capped? ==> e.value.offset.value - 1 + p.k < |lines|
    ensures GoesOnDifferently(e, lines, pages[e.key])
  {
    hide MatchCount;
  }

  lemma EachLineCounts(s: Seen, lines: seq<Line>, rd: Reader, pages: map<Id, Page>, x: int)
    requires AllPages(s, lines, rd, pages) && Partition(s, lines, pages) && 1 <= x <= |lines|
    requires forall e :: e in s.calls && e.value.offset.Some? && e.key in pages && pages[e.key].k > 0 ==>
      GoesOnDifferently(e, lines, pages[e.key])
    ensures CountedBySome(s, lines, pages, x)
  {
    hide MatchCount, Counted;
    assert ShownBySome(s, pages, x);
    var e :| e in s.calls && OwnLine(e, pages, x);
    assert IsPage(e.value, s.returned[e.key], lines, rd, pages[e.key]);
    CountsAtLeast(e, lines, pages);
    assert Within(e, CountOf(e, lines, pages), x);
  }

  lemma CountsAtLeast(e: Entry<Func>, lines: seq<Line>, pages: map<Id, Page>)
    requires e.key in pages && e.value.offset.Some? && 1 <= e.value.offset.value
    requires e.value.offset.value - 1 + pages[e.key].k <= |lines| && GoesOnDifferently(e, lines, pages[e.key])
    ensures CountOf(e, lines, pages) >= pages[e.key].k
  {
    hide MatchCount;
  }

  // ----------------------------------------------------------------- the converse fails

  const READER := Reader((l: Line) => l == 0, (l: Line) => if l == 9 then Some(2) else None)
  const SOURCE: seq<Line> := [1, 0, 2]
  const FIRST := ToolCall(1, Func(1, Some(1)))
  const SECOND := ToolCall(2, Func(2, Some(2)))
  const FIRST_REPLY := Reply(1, false, Some([1, 0, 9]))
  const SECOND_REPLY := Reply(2, false, Some([0, 2]))

  /** Two reads: page 1 shows line 1, a blank line and the footer that names line 2; page 2 shows the rest. */
  const COMPLETE := [ChatMessage.Assistant([FIRST, SECOND]), Tool(Some(1), FIRST_REPLY), Tool(Some(2), SECOND_REPLY)]

  lemma CompleteIsSeen()
    ensures SeenIn(COMPLETE) ==
      Some(Seen([Entry(1, FIRST.func), Entry(2, SECOND.func)], map[1 := FIRST_REPLY, 2 := SECOND_REPLY], 0))
  {
    var start := Seen([], map[], 0);
    var one := Seen([Entry(1, FIRST.func)], map[], 0);
    var two := Seen([Entry(1, FIRST.func), Entry(2, SECOND.func)], map[], 0);
    assert [Entry(1, FIRST.func)][1..] == [];
    assert NoteCall(start, FIRST) == one && NoteCall(one, SECOND) == two;
    var cs := [FIRST, SECOND];
    assert cs[..1] == [FIRST] && [FIRST][..0] == [];
    assert NoteCalls(start, []) == Some(start);
    assert NoteCalls(start, [FIRST]) == Some(one);
    assert NoteCalls(start, cs) == Some(two);
    assert COMPLETE[..2][..1] == [ChatMessage.Assistant(cs)] && [ChatMessage.Assistant(cs)][..0] == [];
    assert SeenIn([]) == Some(start);
    assert SeenIn([ChatMessage.Assistant(cs)]) == Some(two);
    assert COMPLETE[..2] == [ChatMessage.Assistant(cs), Tool(Some(1), FIRST_REPLY)];
    assert SeenIn(COMPLETE[..2]) == Some(NoteReply(two, 1, FIRST_REPLY));
    assert SeenIn(COMPLETE) == Some(NoteReply(NoteReply(two, 1, FIRST_REPLY), 2, SECOND_REPLY));
  }

  /** The first page counts for nothing: its tail starts like the source goes on, but only starts. */
  lemma FirstPageCountsNothing()
    ensures PageLines(FIRST.func, Some(FIRST_REPLY), SOURCE, READER) == 0
  {
    var p := Capped(1, [0], 9);
    assert SOURCE[0..1] + Tail(p) == [1, 0, 9];
    assert IsPage(FIRST.func, FIRST_REPLY, SOURCE, READER, p);
    PageCounts(FIRST.func, FIRST_REPLY, SOURCE, READER, p);
    assert SOURCE[1..] == [0, 2] && Tail(p)[1] != SOURCE[1..][1];
  }

  /** The converse of soundness fails: this transcript returned every line of the source, without a conflict, and
      is not verified, because line 2 is blank and so is the line before the first page's footer. */
  lemma BlankAtPageBoundaryIsRefused()
    ensures SeenIn(COMPLETE).Some? && SeenIn(COMPLETE).value.conflicts == 0
    ensures forall n :: 0 <= n < |SOURCE| ==> Returned(COMPLETE, SOURCE, n)
    ensures !Verified(SeenIn(COMPLETE).value, SOURCE, READER)
  {
    CompleteIsSeen();
    var s := SeenIn(COMPLETE).value;
    hide SeenIn;
    EveryLineReturned();
    FirstPageCountsNothing();
    hide Returned, PageLines;
    assert !CoveredBySome(s.calls, s.returned, SOURCE, READER, 1);
    VerifiedIff(s, SOURCE, READER);
  }

  lemma EveryLineReturned()
    ensures forall n :: 0 <= n < |SOURCE| ==> Returned(COMPLETE, SOURCE, n)
  {
    assert COMPLETE[0].Assistant? && COMPLETE[0].calls[0] == FIRST && COMPLETE[0].calls[1] == SECOND;
    assert CallIn(COMPLETE, 1, FIRST.func) && CallIn(COMPLETE, 2, SECOND.func);
    assert COMPLETE[1] == Tool(Some(1), FIRST_REPLY) && COMPLETE[2] == Tool(Some(2), SECOND_REPLY);
    assert ReplyIn(COMPLETE, 1, FIRST_REPLY) && ReplyIn(COMPLETE, 2, SECOND_REPLY);
    assert forall r :: ReplyIn(COMPLETE, 1, r) ==> r == FIRST_REPLY;
    assert forall r :: ReplyIn(COMPLETE, 2, r) ==> r == SECOND_REPLY;
    hide CallIn, ReplyIn;
    assert ShowsLine(FIRST.func, FIRST_REPLY, SOURCE, 0);
    assert ShowsLine(SECOND.func, SECOND_REPLY, SOURCE, 1);
    assert ShowsLine(SECOND.func, SECOND_REPLY, SOURCE, 2);
  }
}
