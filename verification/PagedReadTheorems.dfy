/** The verdict is sound, and exactly when a complete page is accepted. */
module PagedReadTheorems {
  import opened Sequences
  import opened Transcript
  import opened TranscriptTheorems
  import opened PagedRead

  // ----------------------------------------------------------------- counting lines

  lemma {:induction false} SubsetOfRange(s: set<int>, n: nat)
    requires forall x :: x in s ==> 1 <= x <= n
    ensures |s| <= n
    ensures |s| == n <==> forall x :: 1 <= x <= n ==> x in s
  {
    if n == 0 {
      assert forall x :: x !in s;
      assert s == {};
    } else if n in s {
      SubsetOfRange(s - {n}, n - 1);
      assert s == (s - {n}) + {n};
    } else {
      SubsetOfRange(s, n - 1);
    }
  }

  lemma {:induction false} MatchedLinesAgree(actual: seq<Line>, lines: seq<Line>, start: nat)
    ensures var n := MatchCount(actual, lines, start);
      (forall i :: 0 <= i < n ==> start + i < |lines| && actual[i] == lines[start + i]) &&
      (n < |actual| && start + n < |lines| ==> actual[n] != lines[start + n])
  {
    if actual != [] && start < |lines| && actual[0] == lines[start] {
      MatchedLinesAgree(actual[1..], lines, start + 1);
      var n := MatchCount(actual, lines, start);
      forall i | 1 <= i < n ensures start + i < |lines| && actual[i] == lines[start + i] {
        assert actual[i] == actual[1..][i - 1];
      }
    }
  }

  lemma PageInRange(func: Func, reply: Option<Reply>, lines: seq<Line>, rd: Reader)
    ensures forall x :: x in PageCover(func, reply, lines, rd) ==> 1 <= x <= |lines|
  {
  }

  lemma {:induction false} CoveredInRange(calls: seq<Entry<Func>>, returned: map<Id, Reply>, lines: seq<Line>,
                                          rd: Reader)
    ensures forall x :: x in Covered(calls, returned, lines, rd) ==> 1 <= x <= |lines|
  {
    hide PageCover;
    if calls != [] {
      CoveredInRange(calls[..|calls| - 1], returned, lines, rd);
      PageInRange(calls[|calls| - 1].value, ReplyOf(returned, calls[|calls| - 1].key), lines, rd);
    }
  }

  /** Some page of the dictionary covers line `x`. */
  ghost predicate CoveredBySome(calls: seq<Entry<Func>>, returned: map<Id, Reply>, lines: seq<Line>, rd: Reader,
                                x: int)
  {
    exists e :: e in calls && x in PageCover(e.value, ReplyOf(returned, e.key), lines, rd)
  }

  lemma {:induction false} CoveredIff(calls: seq<Entry<Func>>, returned: map<Id, Reply>, lines: seq<Line>, rd: Reader,
                                      x: int)
    ensures x in Covered(calls, returned, lines, rd) <==> CoveredBySome(calls, returned, lines, rd, x)
  {
    hide PageCover;
    if calls != [] {
      var init, e := calls[..|calls| - 1], calls[|calls| - 1];
      CoveredIff(init, returned, lines, rd, x);
      assert calls == init + [e];
      if CoveredBySome(calls, returned, lines, rd, x) {
        var w :| w in calls && x in PageCover(w.value, ReplyOf(returned, w.key), lines, rd);
        assert w == e || w in init;
      }
      if CoveredBySome(init, returned, lines, rd, x) {
        var w :| w in init && x in PageCover(w.value, ReplyOf(returned, w.key), lines, rd);
        assert w in calls;
      }
    }
  }

  /** The verdict, whose code compares two counts, says that every line is covered by some page. */
  lemma VerifiedIff(s: Seen, lines: seq<Line>, rd: Reader)
    ensures Verified(s, lines, rd) <==>
      lines != [] && s.conflicts == 0 &&
      forall x :: 1 <= x <= |lines| ==> CoveredBySome(s.calls, s.returned, lines, rd, x)
  {
    CoveredInRange(s.calls, s.returned, lines, rd);
    SubsetOfRange(Covered(s.calls, s.returned, lines, rd), |lines|);
    forall x
      ensures x in Covered(s.calls, s.returned, lines, rd) <==> CoveredBySome(s.calls, s.returned, lines, rd, x)
    {
      CoveredIff(s.calls, s.returned, lines, rd, x);
    }
    hide Covered, CoveredBySome;
  }

  // ----------------------------------------------------------------- soundness

  predicate CallIn(ms: seq<ChatMessage>, id: Id, func: Func) {
    exists m :: m in ms && m.Assistant? && ToolCall(id, func) in m.calls
  }

  predicate ReplyIn(ms: seq<ChatMessage>, id: Id, r: Reply) {
    Tool(Some(id), r) in ms
  }

  /** The dictionaries hold nothing that was not in the transcript, and without a conflict they hold all of it. */
  ghost predicate FromTranscript(s: Seen, ms: seq<ChatMessage>) {
    (forall e :: e in s.calls ==> CallIn(ms, e.key, e.value)) &&
    (forall id :: id in s.returned ==> ReplyIn(ms, id, s.returned[id])) &&
    (s.conflicts == 0 ==> forall id, r :: ReplyIn(ms, id, r) ==> id in s.returned && s.returned[id] == r)
  }

  lemma {:induction false} PutMember<V>(d: seq<Entry<V>>, k: Id, v: V)
    ensures forall e :: e in Put(d, k, v) ==> e in d || e == Entry(k, v)
  {
    if d != [] && d[0].key != k {
      PutMember(d[1..], k, v);
      assert d == [d[0]] + d[1..];
    }
  }

  lemma {:induction false} NotedCalls(s: Seen, cs: seq<ToolCall>)
    requires NoteCalls(s, cs).Some?
    ensures var t := NoteCalls(s, cs).value;
      t.returned == s.returned && t.conflicts >= s.conflicts &&
      forall e :: e in t.calls ==> e in s.calls || ToolCall(e.key, e.value) in cs
  {
    if cs != [] {
      var init, c := cs[..|cs| - 1], cs[|cs| - 1];
      NotedCalls(s, init);
      PutMember(NoteCalls(s, init).value.calls, c.id, c.func);
      hide Put;
      assert cs == init + [c];
    }
  }

  lemma MessagesGrow(init: seq<ChatMessage>, m: ChatMessage)
    ensures forall id, f :: CallIn(init, id, f) ==> CallIn(init + [m], id, f)
    ensures forall id, r :: ReplyIn(init + [m], id, r) <==> ReplyIn(init, id, r) || m == Tool(Some(id), r)
    ensures m.Assistant? ==> forall id, f :: ToolCall(id, f) in m.calls ==> CallIn(init + [m], id, f)
  {
    assert forall x :: x in init + [m] <==> x in init || x == m;
  }

  lemma {:induction false} SeenIsFromTranscript(ms: seq<ChatMessage>)
    requires SeenIn(ms).Some?
    ensures FromTranscript(SeenIn(ms).value, ms)
  {
    if ms != [] {
      var init, m := ms[..|ms| - 1], ms[|ms| - 1];
      SeenIsFromTranscript(init);
      assert ms == init + [m];
      MessagesGrow(init, m);
      var s := SeenIn(init).value;
      if m.Assistant? { NotedCalls(s, m.calls); }
      hide CallIn, ReplyIn, NoteCalls;
    }
  }

  // ----------------------------------------------------------------- what a conflict is

  /** No id is used for two different calls, nor answered by two different replies. */
  ghost predicate OneAnswerEach(ms: seq<ChatMessage>) {
    (forall id, f, g :: CallIn(ms, id, f) && CallIn(ms, id, g) ==> f == g) &&
    (forall id, r, q :: ReplyIn(ms, id, r) && ReplyIn(ms, id, q) ==> r == q)
  }

  /** A conflict was counted exactly when some id was used twice, and otherwise the dictionaries are the transcript. */
  ghost predicate Exact(s: Seen, ms: seq<ChatMessage>) {
    (s.conflicts == 0 <==> OneAnswerEach(ms)) &&
    (s.conflicts == 0 ==> forall id, f :: CallIn(ms, id, f) <==> Entry(id, f) in s.calls) &&
    (s.conflicts == 0 ==> forall id, r :: ReplyIn(ms, id, r) <==> id in s.returned && s.returned[id] == r)
  }

  lemma {:induction false} ValueIsIn(d: seq<Entry<Func>>, k: Id)
    ensures Value(d, k).Some? ==> Entry(k, Value(d, k).value) in d
    ensures Value(d, k).None? ==> forall f :: Entry(k, f) !in d
  {
    if d != [] && d[0].key != k {
      ValueIsIn(d[1..], k);
      assert d == [d[0]] + d[1..];
    }
  }

  lemma {:induction false} PutHolds<V>(d: seq<Entry<V>>, k: Id, v: V)
    ensures Entry(k, v) in Put(d, k, v)
    ensures forall e :: e in d && e.key != k ==> e in Put(d, k, v)
  {
    if d == [] {
      assert Put(d, k, v)[0] == Entry(k, v);
    } else {
      assert d == [d[0]] + d[1..];
      if d[0].key == k {
        assert Put(d, k, v)[0] == Entry(k, v);
      } else {
        PutHolds(d[1..], k, v);
        assert Put(d, k, v) == [d[0]] + Put(d[1..], k, v);
      }
    }
  }

  lemma CallNoted(s: Seen, a: seq<ChatMessage>, b: seq<ChatMessage>, c: ToolCall)
    requires Exact(s, a) && c.ToolCall?
    requires forall id, f :: CallIn(b, id, f) <==> CallIn(a, id, f) || c == ToolCall(id, f)
    requires forall id, r :: ReplyIn(b, id, r) <==> ReplyIn(a, id, r)
    ensures Exact(NoteCall(s, c), b)
  {
    hide CallIn, ReplyIn, Put, Value;
    ValueIsIn(s.calls, c.id);
    PutMember(s.calls, c.id, c.func);
    PutHolds(s.calls, c.id, c.func);
    assert CallIn(b, c.id, c.func);
    if s.conflicts == 0 {
      var v := Value(s.calls, c.id);
      if v.Some? { assert CallIn(b, c.id, v.value); }
    }
  }

  lemma ReplyNoted(s: Seen, a: seq<ChatMessage>, b: seq<ChatMessage>, id: Id, r: Reply)
    requires Exact(s, a)
    requires forall id, f :: CallIn(b, id, f) <==> CallIn(a, id, f)
    requires forall k, q :: ReplyIn(b, k, q) <==> ReplyIn(a, k, q) || (k == id && q == r)
    ensures Exact(NoteReply(s, id, r), b)
  {
    hide CallIn, ReplyIn;
    assert ReplyIn(b, id, r);
    if s.conflicts == 0 && id in s.returned { assert ReplyIn(b, id, s.returned[id]); }
  }

  /** Messages that hold no call and no reply change nothing. */
  lemma NothingNoted(s: Seen, a: seq<ChatMessage>, b: seq<ChatMessage>)
    requires Exact(s, a)
    requires forall id, f :: CallIn(b, id, f) <==> CallIn(a, id, f)
    requires forall id, r :: ReplyIn(b, id, r) <==> ReplyIn(a, id, r)
    ensures Exact(s, b)
  {
    hide CallIn, ReplyIn;
  }

  lemma InPush(init: seq<ChatMessage>, m: ChatMessage)
    ensures forall id, f :: CallIn(init + [m], id, f) <==>
      CallIn(init, id, f) || (m.Assistant? && ToolCall(id, f) in m.calls)
    ensures forall id, r :: ReplyIn(init + [m], id, r) <==> ReplyIn(init, id, r) || m == Tool(Some(id), r)
  {
    assert forall x :: x in init + [m] <==> x in init || x == m;
  }

  lemma {:induction false} CallsNoted(s: Seen, init: seq<ChatMessage>, cs: seq<ToolCall>)
    requires Exact(s, init) && NoteCalls(s, cs).Some?
    ensures Exact(NoteCalls(s, cs).value, init + [ChatMessage.Assistant(cs)])
  {
    hide Exact, CallIn, ReplyIn, NoteCall;
    InPush(init, ChatMessage.Assistant(cs));
    if cs == [] {
      NothingNoted(s, init, init + [ChatMessage.Assistant(cs)]);
    } else {
      var less, c := cs[..|cs| - 1], cs[|cs| - 1];
      CallsNoted(s, init, less);
      InPush(init, ChatMessage.Assistant(less));
      assert forall x :: x in cs <==> x in less || x == c by { assert cs == less + [c]; }
      CallNoted(NoteCalls(s, less).value, init + [ChatMessage.Assistant(less)], init + [ChatMessage.Assistant(cs)], c);
    }
  }

  /** For every readable transcript: there is no conflict exactly when no id is used for two different things, and
      then the two dictionaries hold exactly the calls and the replies of the transcript. */
  lemma {:induction false} ConflictMeaning(ms: seq<ChatMessage>)
    requires SeenIn(ms).Some?
    ensures Exact(SeenIn(ms).value, ms)
  {
    hide CallIn, ReplyIn, NoteCalls, NoteReply;
    if ms == [] {
      NothingSeen();
    } else {
      var init, m := ms[..|ms| - 1], ms[|ms| - 1];
      ConflictMeaning(init);
      assert ms == init + [m];
      var s := SeenIn(init).value;
      hide Exact;
      InPush(init, m);
      match m
      case Assistant(cs) => CallsNoted(s, init, cs);
      case Tool(Some(id), r) => ReplyNoted(s, init, ms, id, r);
      case Tool(None, r) => NothingNoted(s, init, ms);
      case Other => NothingNoted(s, init, ms);
    }
  }

  lemma NothingSeen()
    ensures Exact(Seen([], map[], 0), [])
  {
  }

  /** A transcript is refused exactly when it holds something that is no message or no call. */
  lemma {:induction false} RefusedIff(ms: seq<ChatMessage>)
    ensures SeenIn(ms).None? <==> exists m :: m in ms && (m.NotADict? || (m.Assistant? && BadCall in m.calls))
  {
    hide NoteCalls, NoteReply;
    if ms != [] {
      var init, m := ms[..|ms| - 1], ms[|ms| - 1];
      RefusedIff(init);
      assert ms == init + [m];
      if SeenIn(init).Some? && m.Assistant? { BadCallIff(SeenIn(init).value, m.calls); }
    }
  }

  lemma {:induction false} BadCallIff(s: Seen, cs: seq<ToolCall>)
    ensures NoteCalls(s, cs).None? <==> BadCall in cs
  {
    if cs != [] {
      BadCallIff(s, cs[..|cs| - 1]);
      assert cs == cs[..|cs| - 1] + [cs[|cs| - 1]];
    }
  }

  /** Some call of the transcript and some reply to it verify line `x`. */
  ghost predicate PageIn(ms: seq<ChatMessage>, lines: seq<Line>, rd: Reader, x: int) {
    exists id, f, r :: CallIn(ms, id, f) && ReplyIn(ms, id, r) && x in PageCover(f, Some(r), lines, rd)
  }

  lemma CoveredIsOnAPage(s: Seen, ms: seq<ChatMessage>, lines: seq<Line>, rd: Reader, x: int)
    requires Exact(s, ms) && s.conflicts == 0
    ensures CoveredBySome(s.calls, s.returned, lines, rd, x) <==> PageIn(ms, lines, rd, x)
  {
    hide CallIn, ReplyIn, PageLines;
    if CoveredBySome(s.calls, s.returned, lines, rd, x) {
      var e :| e in s.calls && x in PageCover(e.value, ReplyOf(s.returned, e.key), lines, rd);
      assert ReplyOf(s.returned, e.key).Some? by { NoReplyNoPage(e.value, lines, rd); }
      assert e == Entry(e.key, e.value);
      assert CallIn(ms, e.key, e.value) && ReplyIn(ms, e.key, s.returned[e.key]);
    }
    if PageIn(ms, lines, rd, x) {
      var id, f, r :| CallIn(ms, id, f) && ReplyIn(ms, id, r) && x in PageCover(f, Some(r), lines, rd);
      assert Entry(id, f) in s.calls && ReplyOf(s.returned, id) == Some(r);
    }
  }

  lemma NoReplyNoPage(f: Func, lines: seq<Line>, rd: Reader)
    ensures PageCover(f, None, lines, rd) == {}
  {
  }

  /** The verdict over the transcript itself: the source is not empty, no id is used for two different things, and
      every line lies on the page of some call and its reply. */
  lemma VerdictIff(ms: seq<ChatMessage>, lines: seq<Line>, rd: Reader)
    requires SeenIn(ms).Some?
    ensures Verified(SeenIn(ms).value, lines, rd) <==>
      lines != [] && OneAnswerEach(ms) && forall x :: 1 <= x <= |lines| ==> PageIn(ms, lines, rd, x)
  {
    hide OneAnswerEach, CoveredBySome, PageIn, Verified, SeenIn;
    var s := SeenIn(ms).value;
    ConflictMeaning(ms);
    VerifiedIff(s, lines, rd);
    assert s.conflicts == 0 <==> OneAnswerEach(ms);
    if s.conflicts == 0 {
      forall x ensures CoveredBySome(s.calls, s.returned, lines, rd, x) <==> PageIn(ms, lines, rd, x) {
        CoveredIsOnAPage(s, ms, lines, rd, x);
      }
    }
  }

  // ----------------------------------------------------------------- the tail of a page

  ghost predicate AllBlank(tail: seq<Line>, rd: Reader) {
    forall i :: 0 <= i < |tail| ==> rd.blank(tail[i])
  }

  /** Line `k` is a footer that names `next`, and there is nothing else in the tail but white space. */
  ghost predicate OnlyFooter(tail: seq<Line>, next: nat, rd: Reader, k: int) {
    0 <= k < |tail| && !rd.blank(tail[k]) && rd.foot(tail[k]) == Some(next) &&
    forall i :: 0 <= i < |tail| && i != k ==> rd.blank(tail[i])
  }

  /** How many lines a strip takes from the front and leaves before the end. */
  lemma {:induction false} LeadingDropped(tail: seq<Line>, rd: Reader) returns (n: nat)
    ensures n <= |tail| && DropLeading(tail, rd) == tail[n..] && AllBlank(tail[..n], rd)
    ensures n < |tail| ==> !rd.blank(tail[n])
  {
    n := 0;
    if tail != [] && rd.blank(tail[0]) {
      var m := LeadingDropped(tail[1..], rd);
      n := m + 1;
      assert tail[1..][m..] == tail[n..];
      assert tail[..n] == [tail[0]] + tail[1..][..m];
    }
  }

  lemma {:induction false} TrailingDropped(tail: seq<Line>, rd: Reader) returns (n: nat)
    ensures n <= |tail| && DropTrailing(tail, rd) == tail[..n] && AllBlank(tail[n..], rd)
    ensures n > 0 ==> !rd.blank(tail[n - 1])
  {
    n := |tail|;
    if tail != [] && rd.blank(tail[n - 1]) {
      var init := tail[..n - 1];
      n := TrailingDropped(init, rd);
      assert init[..n] == tail[..n];
      assert tail[n..] == init[n..] + [tail[|tail| - 1]];
    } else {
      assert tail[..n] == tail;
    }
  }

  /** A page may end in white space, or in one footer that names the line after it with white space around it. */
  lemma TailMeaning(tail: seq<Line>, next: nat, rd: Reader)
    ensures ValidTail(tail, next, rd) <==> AllBlank(tail, rd) || exists k :: OnlyFooter(tail, next, rd, k)
  {
    var n := LeadingDropped(tail, rd);
    var rest := tail[n..];
    var m := TrailingDropped(rest, rd);
    hide DropLeading, DropTrailing;
    assert ValidTail(tail, next, rd) <==> m == 0 || (m == 1 && rd.foot(rest[0]) == Some(next));
    forall i | 0 <= i < |tail| ensures i < n || i >= n + m ==> rd.blank(tail[i]) {
      if i < n { assert tail[..n][i] == tail[i]; }
      if i >= n + m { assert rest[m..][i - n - m] == tail[i]; }
    }
    if m > 0 { assert !rd.blank(rest[0]) && !rd.blank(tail[n]); }
    if m > 1 { assert !rd.blank(rest[m - 1]) && !rd.blank(tail[n + m - 1]); }
    if m == 1 && rd.foot(rest[0]) == Some(next) { assert OnlyFooter(tail, next, rd, n); }
  }

  /** Line `n` (0-based) of the source came back verbatim, at its own position, in every reply to one read call. */
  ghost predicate Returned(ms: seq<ChatMessage>, lines: seq<Line>, n: nat)
    requires n < |lines|
  {
    exists id, func, reply ::
      CallIn(ms, id, func) && ReplyIn(ms, id, reply) && ShowsLine(func, reply, lines, n) &&
      forall other :: ReplyIn(ms, id, other) ==> other == reply
  }

  predicate ShowsLine(func: Func, reply: Reply, lines: seq<Line>, n: nat)
    requires n < |lines|
  {
    func.offset.Some? && 1 <= func.offset.value <= n + 1 && !reply.isError && reply.text.Some? &&
    var k := n - (func.offset.value - 1);
    k < |reply.text.value| && reply.text.value[k] == lines[n] &&
    forall i :: 0 <= i < k ==> reply.text.value[i] == lines[func.offset.value - 1 + i]
  }

  lemma PageShowsLine(func: Func, reply: Option<Reply>, lines: seq<Line>, rd: Reader, n: nat)
    requires n < |lines| && n + 1 in PageCover(func, reply, lines, rd)
    ensures reply.Some? && ShowsLine(func, reply.value, lines, n)
  {
    MatchedLinesAgree(reply.value.text.value, lines, func.offset.value - 1);
  }

  /** Soundness: a verified transcript returned every line of the source. */
  lemma {:induction false} VerifiedReturnsEveryLine(ms: seq<ChatMessage>, lines: seq<Line>, rd: Reader, n: nat)
    requires SeenIn(ms).Some? && Verified(SeenIn(ms).value, lines, rd) && n < |lines|
    ensures Returned(ms, lines, n)
  {
    var s := SeenIn(ms).value;
    SeenIsFromTranscript(ms);
    VerifiedIff(s, lines, rd);
    hide SeenIn, Verified, CallIn, ReplyIn, ShowsLine;
    assert CoveredBySome(s.calls, s.returned, lines, rd, n + 1);
    var e :| e in s.calls && n + 1 in PageCover(e.value, ReplyOf(s.returned, e.key), lines, rd);
    PageShowsLine(e.value, ReplyOf(s.returned, e.key), lines, rd, n);
    assert CallIn(ms, e.key, e.value) && ReplyIn(ms, e.key, s.returned[e.key]);
  }
}
