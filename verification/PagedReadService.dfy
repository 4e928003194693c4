/** `read_coverage` as it runs: two dictionaries filled from the transcript, then one loop over the read calls. */
module PagedReadService {
  import opened Sequences
  import opened Transcript
  import opened TranscriptTheorems
  import opened PagedRead
  import opened PagedReadTheorems

  /** None stands for the ValueError on a malformed transcript. */
  method ReadTranscript(messages: seq<ChatMessage>) returns (seen: Option<Seen>)
    ensures seen == SeenIn(messages)
  {
    hide Put, NoteCalls, NoteReply;
    var s := Seen([], map[], 0);
    var i := 0;
    while i < |messages|
      invariant 0 <= i <= |messages| && SeenIn(messages[..i]) == Some(s)
    {
      var m := messages[i];
      assert messages[..i + 1][..i] == messages[..i] && messages[..i + 1][i] == m;
      if m.NotADict? {
        RaisedStays(messages, i + 1);
        return None;
      }
      if m.Assistant? {
        var next := ReadCalls(s, m.calls);
        if next.None? {
          RaisedStays(messages, i + 1);
          return None;
        }
        s := next.value;
      }
      if m.Tool? && m.id.Some? {
        s := ReadReply(s, m.id.value, m.reply);
      }
      i := i + 1;
    }
    assert messages[..i] == messages;
    return Some(s);
  }

  method ReadCalls(before: Seen, cs: seq<ToolCall>) returns (after: Option<Seen>)
    ensures after == NoteCalls(before, cs)
  {
    hide Put, Value;
    var s := before;
    var i := 0;
    while i < |cs|
      invariant 0 <= i <= |cs| && NoteCalls(before, cs[..i]) == Some(s)
    {
      assert cs[..i + 1][..i] == cs[..i] && cs[..i + 1][i] == cs[i];
      if cs[i].BadCall? {
        RaisedCallStays(before, cs, i + 1);
        return None;
      }
      var known := Value(s.calls, cs[i].id);
      var conflicts := s.conflicts;
      if known.Some? && known.value != cs[i].func {
        conflicts := conflicts + 1;
      }
      s := Seen(Put(s.calls, cs[i].id, cs[i].func), s.returned, conflicts);
      i := i + 1;
    }
    assert cs[..i] == cs;
    return Some(s);
  }

  method ReadReply(before: Seen, id: Id, reply: Reply) returns (after: Seen)
    ensures after == NoteReply(before, id, reply)
  {
    var conflicts := before.conflicts;
    if id in before.returned && before.returned[id] != reply {
      conflicts := conflicts + 1;
    }
    after := Seen(before.calls, before.returned[id := reply], conflicts);
  }

  lemma {:induction false} RaisedStays(ms: seq<ChatMessage>, i: nat)
    requires i <= |ms| && SeenIn(ms[..i]).None?
    ensures SeenIn(ms).None?
    decreases |ms| - i
  {
    if i < |ms| {
      assert ms[..i + 1][..i] == ms[..i];
      RaisedStays(ms, i + 1);
    } else {
      assert ms[..i] == ms;
    }
  }

  lemma {:induction false} RaisedCallStays(s: Seen, cs: seq<ToolCall>, i: nat)
    requires i <= |cs| && NoteCalls(s, cs[..i]).None?
    ensures NoteCalls(s, cs).None?
    decreases |cs| - i
  {
    if i < |cs| {
      assert cs[..i + 1][..i] == cs[..i];
      RaisedCallStays(s, cs, i + 1);
    } else {
      assert cs[..i] == cs;
    }
  }

  /** One read call: the counting loop and the test of what follows. */
  method ReadPage(func: Func, reply: Option<Reply>, lines: seq<Line>, rd: Reader) returns (matched: nat)
    ensures matched == PageLines(func, reply, lines, rd)
  {
    if func.offset.None? || func.offset.value < 1 {
      return 0;
    }
    var offset := func.offset.value;
    if reply.None? || reply.value.isError || reply.value.text.None? || offset > |lines| {
      return 0;
    }
    var actual := reply.value.text.value;
    var count := 0;
    while count < |actual| && offset - 1 + count < |lines|
      invariant 0 <= count <= |actual| && offset - 1 + count <= |lines|
      invariant MatchCount(actual, lines, offset - 1) == count + MatchCount(actual[count..], lines, offset - 1 + count)
    {
      if actual[count] != lines[offset - 1 + count] {
        break;
      }
      assert actual[count..][1..] == actual[count + 1..];
      count := count + 1;
    }
    if ValidTail(actual[count..], offset + count, rd) {
      return count;
    }
    return 0;
  }

  /** The verdict.  When it is given, every source line was returned verbatim at its own position by a
      linked read, and no other reply to that read says otherwise. */
  method ReadCoverage(messages: seq<ChatMessage>, lines: seq<Line>, rd: Reader) returns (verified: Option<bool>)
    ensures verified.None? <==> SeenIn(messages).None?
    ensures verified.Some? ==> (verified.value <==> Verified(SeenIn(messages).value, lines, rd))
    ensures verified == Some(true) ==> forall n :: 0 <= n < |lines| ==> Returned(messages, lines, n)
  {
    hide SeenIn, PageLines, Returned, Covered, Range;
    var seen := ReadTranscript(messages);
    if seen.None? {
      return None;
    }
    var s := seen.value;
    var covered: set<int> := {};
    NothingCovered(s.returned, lines, rd);
    var i := 0;
    while i < |s.calls|
      invariant 0 <= i <= |s.calls| && covered == Covered(s.calls[..i], s.returned, lines, rd)
    {
      var e := s.calls[i];
      CoveredNext(s.calls, s.returned, lines, rd, i);
      var matched := ReadPage(e.value, ReplyOf(s.returned, e.key), lines, rd);
      if e.value.offset.Some? {
        covered := covered + Range(e.value.offset.value, matched);
      }
      i := i + 1;
    }
    assert s.calls[..i] == s.calls;
    var complete := lines != [] && |covered| == |lines| && s.conflicts == 0;
    if complete {
      EveryLineReturned(messages, lines, rd);
    }
    return Some(complete);
  }

  lemma NothingCovered(returned: map<Id, Reply>, lines: seq<Line>, rd: Reader)
    ensures forall calls: seq<Entry<Func>> :: Covered(calls[..0], returned, lines, rd) == {}
  {
  }

  lemma {:induction false} CoveredNext(calls: seq<Entry<Func>>, returned: map<Id, Reply>, lines: seq<Line>, rd: Reader,
                                       i: nat)
    requires i < |calls|
    ensures var e := calls[i];
      Covered(calls[..i + 1], returned, lines, rd) == Covered(calls[..i], returned, lines, rd) +
        (if e.value.offset.None? then {}
         else Range(e.value.offset.value, PageLines(e.value, ReplyOf(returned, e.key), lines, rd)))
  {
    hide PageLines, Range;
    assert calls[..i + 1][..i] == calls[..i];
  }

  lemma {:induction false} EveryLineReturned(messages: seq<ChatMessage>, lines: seq<Line>, rd: Reader)
    requires SeenIn(messages).Some? && Verified(SeenIn(messages).value, lines, rd)
    ensures forall n :: 0 <= n < |lines| ==> Returned(messages, lines, n)
  {
    hide SeenIn, Verified, Returned;
    forall n | 0 <= n < |lines| ensures Returned(messages, lines, n) {
      VerifiedReturnsEveryLine(messages, lines, rd, n);
    }
  }
}
