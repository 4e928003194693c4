/**
 The paged-read checker of scripts/poc02_run.py (`read_coverage`): does a transcript show that every
 line of a source was returned at its own position?  Lines are opaque values; `blank` says which are
 white space only, `foot` which are cap footers and what offset they name.
 */
module PagedRead {
  import opened Sequences
  import opened Transcript
  import opened TranscriptTheorems

  type Line = int

  datatype Reader = Reader(blank: Line -> bool, foot: Line -> Option<nat>)

  /** A tool call's function object; `offset` is the first line asked for when it is a usable read of the file. */
  datatype Func = Func(raw: int, offset: Option<nat>)

  /** A tool message; `text` is None when its content is not text. */
  datatype Reply = Reply(raw: int, isError: bool, text: Option<seq<Line>>)

  datatype ToolCall = BadCall | ToolCall(id: Id, func: Func)
  datatype ChatMessage = NotADict | Assistant(calls: seq<ToolCall>) | Tool(id: Option<Id>, reply: Reply) | Other

  /** The dictionaries and the conflicts found while filling them. */
  datatype Seen = Seen(calls: seq<Entry<Func>>, returned: map<Id, Reply>, conflicts: nat)

  // ----------------------------------------------------------------- the transcript

  function Value(d: seq<Entry<Func>>, k: Id): Option<Func> {
    if d == [] then None else if d[0].key == k then Some(d[0].value) else Value(d[1..], k)
  }

  function NoteCall(s: Seen, c: ToolCall): Seen
    requires c.ToolCall?
  {
    var clash := Value(s.calls, c.id).Some? && Value(s.calls, c.id).value != c.func;
    Seen(Put(s.calls, c.id, c.func), s.returned, s.conflicts + if clash then 1 else 0)
  }

  function NoteReply(s: Seen, id: Id, r: Reply): Seen {
    var clash := id in s.returned && s.returned[id] != r;
    Seen(s.calls, s.returned[id := r], s.conflicts + if clash then 1 else 0)
  }

  /** None stands for the ValueError on a malformed message. */
  function NoteCalls(s: Seen, cs: seq<ToolCall>): Option<Seen> {
    if cs == [] then Some(s)
    else
      var before, c := NoteCalls(s, cs[..|cs| - 1]), cs[|cs| - 1];
      if before.None? || c.BadCall? then None else Some(NoteCall(before.value, c))
  }

  function NoteMessage(s: Seen, m: ChatMessage): Option<Seen> {
    match m
    case NotADict => None
    case Assistant(cs) => NoteCalls(s, cs)
    case Tool(id, r) => Some(if id.Some? then NoteReply(s, id.value, r) else s)
    case Other => Some(s)
  }

  function SeenIn(ms: seq<ChatMessage>): Option<Seen> {
    if ms == [] then Some(Seen([], map[], 0))
    else
      var before := SeenIn(ms[..|ms| - 1]);
      if before.None? then None else NoteMessage(before.value, ms[|ms| - 1])
  }

  // ----------------------------------------------------------------- one page

  /** How many lines agree with the source from `start` on, before the first that does not. */
  function MatchCount(actual: seq<Line>, lines: seq<Line>, start: nat): (n: nat)
    ensures n <= |actual| && (start <= |lines| ==> start + n <= |lines|)
  {
    if actual == [] || start >= |lines| || actual[0] != lines[start] then 0
    else 1 + MatchCount(actual[1..], lines, start + 1)
  }

  function DropLeading(tail: seq<Line>, rd: Reader): seq<Line> {
    if tail != [] && rd.blank(tail[0]) then DropLeading(tail[1..], rd) else tail
  }

  function DropTrailing(tail: seq<Line>, rd: Reader): seq<Line> {
    if tail != [] && rd.blank(tail[|tail| - 1]) then DropTrailing(tail[..|tail| - 1], rd) else tail
  }

  /** The tail after the matched lines: white space, or one footer that names the line after them. */
  predicate ValidTail(tail: seq<Line>, next: nat, rd: Reader) {
    var t := DropTrailing(DropLeading(tail, rd), rd);
    t == [] || (|t| == 1 && rd.foot(t[0]) == Some(next))
  }

  /** The number of lines one read call verifies, from its offset on. */
  function PageLines(func: Func, reply: Option<Reply>, lines: seq<Line>, rd: Reader): nat {
    if func.offset.None? || func.offset.value < 1 || func.offset.value > |lines| then 0
    else if reply.None? || reply.value.isError || reply.value.text.None? then 0
    else
      var actual, start := reply.value.text.value, func.offset.value - 1;
      var count := MatchCount(actual, lines, start);
      if ValidTail(actual[count..], func.offset.value + count, rd) then count else 0
  }

  function ReplyOf(returned: map<Id, Reply>, id: Id): Option<Reply> {
    if id in returned then Some(returned[id]) else None
  }

  function Range(from: int, n: nat): (s: set<int>)
    ensures forall x :: x in s <==> from <= x < from + n
    ensures |s| == n
  {
    if n == 0 then {} else Range(from, n - 1) + {from + n - 1}
  }

  /** The 1-based numbers of the lines the page covers. */
  function PageCover(func: Func, reply: Option<Reply>, lines: seq<Line>, rd: Reader): set<int> {
    if func.offset.None? then {} else Range(func.offset.value, PageLines(func, reply, lines, rd))
  }

  function Covered(calls: seq<Entry<Func>>, returned: map<Id, Reply>, lines: seq<Line>, rd: Reader): set<int> {
    if calls == [] then {}
    else
      var e := calls[|calls| - 1];
      Covered(calls[..|calls| - 1], returned, lines, rd) + PageCover(e.value, ReplyOf(returned, e.key), lines, rd)
  }

  /** The verdict `verified_paged_read`. */
  predicate Verified(s: Seen, lines: seq<Line>, rd: Reader) {
    lines != [] && |Covered(s.calls, s.returned, lines, rd)| == |lines| && s.conflicts == 0
  }
}
