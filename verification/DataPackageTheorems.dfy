/** What the data package builder promises, for every sequence of requests. */
module DataPackageTheorems {
  import opened Sequences
  import opened DataPackage

  // ----------------------------------------------------------------- budget

  function Sum(files: seq<FileRow>): nat {
    if files == [] then 0 else Sum(files[..|files| - 1]) + files[|files| - 1].bytes
  }

  function NamesOf(files: seq<FileRow>): (names: seq<Name>)
    ensures |names| == |files| && forall i :: 0 <= i < |files| ==> names[i] == files[i].name
  {
    if files == [] then [] else NamesOf(files[..|files| - 1]) + [files[|files| - 1].name]
  }

  /** Both budgets hold, the manifest adds up, and it describes the archive entry by entry. */
  ghost predicate Inv(p: Pack, lim: Limits, digest: seq<Byte> -> Digest) {
    p.total <= lim.maxBytes && |p.files| <= lim.maxFiles &&
    Sum(p.files) == p.total &&
    NoDup(NamesOf(p.files)) && |p.written| == |p.files| &&
    (forall n :: n in p.written <==> n in NamesOf(p.files)) &&
    |p.contents| == |p.files| &&
    forall i :: 0 <= i < |p.files| ==>
      p.files[i].bytes == |p.contents[i]| && p.files[i].sha == digest(p.contents[i])
  }

  lemma {:induction false} CopyFitsRoom(rest: seq<Byte>, remaining: nat, readNo: nat, fault: Option<nat>, mode: Mode,
                                        stamp: Stamper, room: int, data: seq<Byte>)
    requires |data| <= room
    ensures var c := CopyFrom(rest, remaining, readNo, fault, mode, stamp, room, data);
      c.Copied? ==> |c.data| <= room
    decreases remaining
  {
    if remaining > 0 && fault != Some(readNo) {
      var block := Block(rest, Min(remaining, CHUNK), mode);
      if block != [] {
        CopyFitsRoom(rest[|block|..], remaining - |block|, readNo + 1, fault, mode, stamp, room, data);
        if |data| + |block| <= room {
          CopyFitsRoom(rest[|block|..], remaining - |block|, readNo + 1, fault, mode, stamp, room, data + block);
        }
      }
    }
  }

  lemma InvBudget(p: Pack, lim: Limits, digest: seq<Byte> -> Digest)
    requires Inv(p, lim, digest)
    ensures p.total <= lim.maxBytes
  {
  }

  lemma NotedKeepsInv(p: Pack, lim: Limits, path: Path, reason: Reason, digest: seq<Byte> -> Digest)
    requires Inv(p, lim, digest)
    ensures Inv(Noted(p, path, reason), lim, digest)
  {
  }

  lemma StoredKeepsInv(p: Pack, lim: Limits, r: Request, data: seq<Byte>, digest: seq<Byte> -> Digest)
    requires Inv(p, lim, digest)
    requires r.name !in p.written && |p.written| < lim.maxFiles && p.total + |data| <= lim.maxBytes
    ensures Inv(Stored(p, r, data, digest), lim, digest)
  {
    var q := Stored(p, r, data, digest);
    if q.files != p.files {
      assert q.files[..|p.files|] == p.files && q.contents[..|p.files|] == p.contents;
      assert NamesOf(q.files) == NamesOf(p.files) + [r.name];
    }
  }

  lemma AddedKeepsInv(p: Pack, lim: Limits, r: Request, stamp: Stamper, digest: seq<Byte> -> Digest)
    requires Inv(p, lim, digest)
    ensures Inv(Added(p, lim, r, stamp, digest), lim, digest)
  {
    hide CopyFrom, Inv, Stored;
    forall reason ensures Inv(Noted(p, r.path, reason), lim, digest) { NotedKeepsInv(p, lim, r.path, reason, digest); }
    if r.name !in p.written && |p.written| < lim.maxFiles && r.source.Readable? {
      var c := Copying(p, lim, r, stamp);
      InvBudget(p, lim, digest);
      CopyFitsRoom(r.source.bytes, r.source.size, 0, r.source.fault, r.mode, stamp, lim.maxBytes - p.total, []);
      if c.Copied? {
        StoredKeepsInv(if c.cut then Noted(p, r.path, PartialLog) else p, lim, r, c.data, digest);
      }
    }
  }

  /** For any sequence of calls the byte and file budgets hold and the manifest adds up. */
  lemma {:induction false} AnySequenceKeepsTheBudget(p: Pack, lim: Limits, rs: seq<Request>, stamp: Stamper,
                                                     digest: seq<Byte> -> Digest)
    requires Inv(p, lim, digest)
    ensures Inv(AddedAll(p, lim, rs, stamp, digest), lim, digest)
  {
    if rs != [] {
      AnySequenceKeepsTheBudget(p, lim, rs[..|rs| - 1], stamp, digest);
      AddedKeepsInv(AddedAll(p, lim, rs[..|rs| - 1], stamp, digest), lim, rs[|rs| - 1], stamp, digest);
    }
  }

  /** Requests are served one after the other: a list served as a whole is its parts served in turn. */
  lemma {:induction false} AddedInTurn(p: Pack, lim: Limits, rs: seq<Request>, more: seq<Request>, stamp: Stamper,
                                       digest: seq<Byte> -> Digest)
    ensures AddedAll(p, lim, rs + more, stamp, digest) ==
            AddedAll(AddedAll(p, lim, rs, stamp, digest), lim, more, stamp, digest)
    ensures forall r :: AddedAll(p, lim, [r], stamp, digest) == Added(p, lim, r, stamp, digest)
  {
    hide Added;
    if more == [] {
      assert rs + more == rs;
    } else {
      var init := more[..|more| - 1];
      AddedInTurn(p, lim, rs, init, stamp, digest);
      assert (rs + more)[..|rs + more| - 1] == rs + init;
    }
    forall r ensures AddedAll(p, lim, [r], stamp, digest) == Added(p, lim, r, stamp, digest) {
      assert [r][..0] == [];
    }
  }

  // ----------------------------------------------------------------- whole files

  lemma SplitRead(rest: seq<Byte>, m: nat, n: nat, data: seq<Byte>)
    requires m <= n <= |rest|
    ensures (data + rest[..m]) + rest[m..][..n - m] == data + rest[..n]
  {
    assert rest[..n] == rest[..m] + rest[m..][..n - m];
  }

  lemma {:induction false} WholeCopy(rest: seq<Byte>, remaining: nat, readNo: nat, fault: Option<nat>, stamp: Stamper,
                                     room: int, data: seq<Byte>)
    requires |data| + remaining <= room
    ensures var c := CopyFrom(rest, remaining, readNo, fault, Whole, stamp, room, data);
      (c.Copied? ==> remaining <= |rest| && c == Copied(data + rest[..remaining], false)) &&
      (c.Shortened? ==> |rest| < remaining) && (c.Faulted? ==> fault.Some?)
    decreases remaining
  {
    if remaining == 0 {
      assert data + rest[..0] == data;
    } else if fault != Some(readNo) {
      var block := Block(rest, Min(remaining, CHUNK), Whole);
      if block != [] {
        var later := rest[|block|..];
        WholeCopy(later, remaining - |block|, readNo + 1, fault, stamp, room, data + block);
        if remaining <= |rest| { SplitRead(rest, |block|, remaining, data); }
      }
    }
  }

  /** A whole file is read in blocks of the full size: read number `k` takes place exactly if the blocks before it do
      not hold the file. */
  lemma {:induction false} WholeFaultIff(rest: seq<Byte>, remaining: nat, readNo: nat, fault: Option<nat>,
                                         stamp: Stamper, room: int, data: seq<Byte>)
    requires |data| + remaining <= room && remaining <= |rest|
    ensures CopyFrom(rest, remaining, readNo, fault, Whole, stamp, room, data).Faulted? <==>
      fault.Some? && fault.value >= readNo && (fault.value - readNo) * CHUNK < remaining
    decreases remaining
  {
    if remaining > 0 && fault != Some(readNo) {
      var block := Block(rest, Min(remaining, CHUNK), Whole);
      assert |block| == Min(remaining, CHUNK);
      WholeFaultIff(rest[|block|..], remaining - |block|, readNo + 1, fault, stamp, room, data + block);
    }
  }

  predicate FaultBeforeEnd(size: nat, fault: Option<nat>) {
    fault.Some? && fault.value * CHUNK < size
  }

  /** A whole file that enters the archive is a verbatim copy, and the partial-log branch is never taken for it. */
  lemma WholeFileIsVerbatim(p: Pack, lim: Limits, r: Request, stamp: Stamper, digest: seq<Byte> -> Digest)
    requires r.mode.Whole? && r.source.Readable?
    ensures var q := Added(p, lim, r, stamp, digest);
      (q.contents != p.contents ==>
        r.source.size <= |r.source.bytes| && q.contents == p.contents + [r.source.bytes[..r.source.size]]) &&
      (Issue(r.path, PartialLog) in q.missing ==> Issue(r.path, PartialLog) in p.missing)
    ensures Added(p, lim, r, stamp, digest).contents != p.contents <==>
      r.name !in p.written && |p.written| < lim.maxFiles && p.total + r.source.size <= lim.maxBytes &&
      r.source.size <= |r.source.bytes| && !FaultBeforeEnd(r.source.size, r.source.fault)
  {
    hide CopyFrom;
    if r.source.size <= lim.maxBytes - p.total {
      WholeCopy(r.source.bytes, r.source.size, 0, r.source.fault, stamp, lim.maxBytes - p.total, []);
      if r.source.size <= |r.source.bytes| {
        assert [] + r.source.bytes[..r.source.size] == r.source.bytes[..r.source.size];
        WholeFaultIff(r.source.bytes, r.source.size, 0, r.source.fault, stamp, lim.maxBytes - p.total, []);
      }
    }
  }

  // ----------------------------------------------------------------- windowed logs

  function Concat(blocks: seq<seq<Byte>>): seq<Byte> {
    if blocks == [] then [] else blocks[0] + Concat(blocks[1..])
  }

  /** The blocks that successive `readline` calls return. */
  function LineBlocks(bytes: seq<Byte>): (blocks: seq<seq<Byte>>)
    ensures forall b :: b in blocks ==> b != []
  {
    if bytes == [] then []
    else
      var block := bytes[..Min(LineLength(bytes), CHUNK)];
      [block] + LineBlocks(bytes[|block|..])
  }

  /** The text cut after each newline. */
  function Lines(bytes: seq<Byte>): seq<seq<Byte>> {
    if bytes == [] then [] else [bytes[..LineLength(bytes)]] + Lines(bytes[LineLength(bytes)..])
  }

  function Picked(blocks: seq<seq<Byte>>, windows: seq<Window>, stamp: Stamper): (picked: seq<seq<Byte>>)
    ensures forall b :: b in picked <==> b in blocks && Selected(b, windows, stamp)
  {
    if blocks == [] then []
    else (if Selected(blocks[0], windows, stamp) then [blocks[0]] else []) + Picked(blocks[1..], windows, stamp)
  }

  /** The blocks lose nothing, and they are the lines when every line fits in one read. */
  lemma {:induction false} BlocksAreLines(bytes: seq<Byte>)
    ensures Concat(LineBlocks(bytes)) == bytes && Concat(Lines(bytes)) == bytes
    ensures (forall l :: l in Lines(bytes) ==> |l| <= CHUNK) ==> LineBlocks(bytes) == Lines(bytes)
    decreases |bytes|
  {
    if bytes != [] {
      var n := LineLength(bytes);
      var k := Min(n, CHUNK);
      BlocksAreLines(bytes[k..]);
      BlocksAreLines(bytes[n..]);
      assert bytes == bytes[..k] + bytes[k..] && bytes == bytes[..n] + bytes[n..];
      assert LineBlocks(bytes) == [bytes[..k]] + LineBlocks(bytes[k..]);
      assert Lines(bytes)[0] == bytes[..n] && Lines(bytes)[1..] == Lines(bytes[n..]);
      assert LineBlocks(bytes)[1..] == LineBlocks(bytes[k..]);
      assert forall l :: l in Lines(bytes[n..]) ==> l in Lines(bytes);
    }
  }

  /** A line holds its only newline at its end. */
  lemma {:induction false} LineEndsAtNewline(bytes: seq<Byte>)
    requires bytes != []
    ensures var n := LineLength(bytes);
      (forall i :: 0 <= i < n - 1 ==> bytes[i] != NEWLINE) && (n < |bytes| ==> bytes[n - 1] == NEWLINE)
  {
    if bytes[0] != NEWLINE && |bytes| > 1 {
      LineEndsAtNewline(bytes[1..]);
      assert forall i :: 1 <= i < |bytes| ==> bytes[i] == bytes[1..][i - 1];
    }
  }

  /** The first `k` picked blocks were staged after `data`: all of them, or the next one does not fit. */
  ghost predicate KeptPrefix(c: Copy, data: seq<Byte>, picked: seq<seq<Byte>>, k: nat, room: int) {
    k <= |picked| &&
    (c.Copied? ==> c.data == data + Concat(picked[..k])) &&
    (c.Copied? ==> (c.cut <==> k < |picked|)) &&
    (c.Copied? && k < |picked| ==> |c.data| + |picked[k]| > room)
  }

  lemma KeptNone(c: Copy, data: seq<Byte>, picked: seq<seq<Byte>>, room: int)
    requires !c.Copied? || (c == Copied(data, false) && picked == []) ||
             (c == Copied(data, true) && picked != [] && |data| + |picked[0]| > room)
    ensures KeptPrefix(c, data, picked, 0, room)
  {
    assert picked[..0] == [];
    assert data + Concat([]) == data;
  }

  lemma KeptOneMore(c: Copy, data: seq<Byte>, block: seq<Byte>, tail: seq<seq<Byte>>, j: nat, room: int)
    requires KeptPrefix(c, data + block, tail, j, room)
    ensures KeptPrefix(c, data, [block] + tail, j + 1, room)
  {
    ConcatCons(data, block, tail, j);
  }

  /** How many of the picked blocks the staging loop keeps: as many as fit, in order. */
  lemma {:induction false} WindowedCopy(rest: seq<Byte>, remaining: nat, readNo: nat, fault: Option<nat>,
                                        windows: seq<Window>, stamp: Stamper, room: int, data: seq<Byte>)
    returns (k: nat)
    requires |data| <= room
    ensures var c := CopyFrom(rest, remaining, readNo, fault, Windowed(windows), stamp, room, data);
      var picked := Picked(LineBlocks(rest[..Min(remaining, |rest|)]), windows, stamp);
      KeptPrefix(c, data, picked, k, room) &&
      (c.Copied? && !c.cut ==> remaining <= |rest|) &&
      (c.Shortened? ==> |rest| < remaining) && (c.Faulted? ==> fault.Some?)
    decreases remaining
  {
    hide Selected, LineBlocks, LineLength, Block, KeptPrefix, Concat, Picked;
    k := 0;
    var c := CopyFrom(rest, remaining, readNo, fault, Windowed(windows), stamp, room, data);
    if remaining == 0 || rest == [] {
      assert rest[..Min(remaining, |rest|)] == [];
      NoBlocks(windows, stamp);
      assert rest == [] ==> Block(rest, Min(remaining, CHUNK), Windowed(windows)) == [];
      KeptNone(c, data, [], room);
    } else if fault == Some(readNo) {
      KeptNone(c, data, Picked(LineBlocks(rest[..Min(remaining, |rest|)]), windows, stamp), room);
    } else {
      FirstBlock(rest, remaining, windows);
      var block := Block(rest, Min(remaining, CHUNK), Windowed(windows));
      var later := rest[|block|..];
      var tail := LineBlocks(later[..Min(remaining - |block|, |later|)]);
      PickedCons(block, tail, windows, stamp);
      if !Selected(block, windows, stamp) {
        k := WindowedCopy(later, remaining - |block|, readNo + 1, fault, windows, stamp, room, data);
        assert [] + Picked(tail, windows, stamp) == Picked(tail, windows, stamp);
      } else if |data| + |block| <= room {
        var j := WindowedCopy(later, remaining - |block|, readNo + 1, fault, windows, stamp, room, data + block);
        k := j + 1;
        KeptOneMore(c, data, block, Picked(tail, windows, stamp), j, room);
      } else {
        KeptNone(c, data, [block] + Picked(tail, windows, stamp), room);
      }
    }
  }

  lemma {:induction false} NoBlocks(windows: seq<Window>, stamp: Stamper)
    ensures LineBlocks([]) == [] && Picked([], windows, stamp) == []
  {
  }

  lemma {:induction false} PickedCons(block: seq<Byte>, tail: seq<seq<Byte>>, windows: seq<Window>, stamp: Stamper)
    ensures Picked([block] + tail, windows, stamp) ==
      (if Selected(block, windows, stamp) then [block] else []) + Picked(tail, windows, stamp)
  {
    hide Selected;
    assert ([block] + tail)[1..] == tail;
  }

  lemma ConcatCons(data: seq<Byte>, block: seq<Byte>, tail: seq<seq<Byte>>, j: nat)
    requires j <= |tail|
    ensures data + Concat(([block] + tail)[..j + 1]) == data + block + Concat(tail[..j])
  {
    assert ([block] + tail)[..j + 1] == [block] + tail[..j];
    assert ([block] + tail[..j])[1..] == tail[..j];
  }

  /** The next block read is the first block of the readable part. */
  lemma FirstBlock(rest: seq<Byte>, remaining: nat, windows: seq<Window>)
    requires remaining > 0 && rest != []
    ensures var readable := rest[..Min(remaining, |rest|)];
      var block := Block(rest, Min(remaining, CHUNK), Windowed(windows));
      var later := rest[|block|..][..Min(remaining - |block|, |rest| - |block|)];
      block != [] && LineBlocks(readable) == [block] + LineBlocks(later)
  {
    var m := Min(remaining, |rest|);
    var readable := rest[..m];
    LineLengthOfPrefix(rest, m);
    var block := Block(rest, Min(remaining, CHUNK), Windowed(windows));
    assert block == readable[..Min(LineLength(readable), CHUNK)];
    SliceOfPrefix(rest, m, |block|);
  }

  lemma SliceOfPrefix(s: seq<Byte>, m: nat, k: nat)
    requires k <= m <= |s|
    ensures s[..m][k..] == s[k..][..m - k]
  {
  }

  lemma {:induction false} LineLengthOfPrefix(bytes: seq<Byte>, m: nat)
    requires m <= |bytes|
    ensures LineLength(bytes[..m]) == Min(LineLength(bytes), m)
  {
    if m > 0 && bytes[0] != NEWLINE {
      LineLengthOfPrefix(bytes[1..], m - 1);
      assert bytes[..m][1..] == bytes[1..][..m - 1];
    }
  }

  /** The block's first 32 bytes carry a time stamp, and it lies in one of the windows. */
  ghost predicate StampedInside(b: seq<Byte>, windows: seq<Window>, stamp: Stamper) {
    exists i :: 0 <= i < |windows| &&
      var t := stamp(b[..if |b| < 32 then |b| else 32]);
      t.Some? && windows[i].start <= t.value && t.value < windows[i].end
  }

  lemma SelectedIff(b: seq<Byte>, windows: seq<Window>, stamp: Stamper)
    ensures Selected(b, windows, stamp) <==> StampedInside(b, windows, stamp)
  {
    var t := stamp(b[..Min(|b|, 32)]);
    if StampedInside(b, windows, stamp) {
      var i :| 0 <= i < |windows| && t.Some? && windows[i].start <= t.value && t.value < windows[i].end;
      assert windows[i] in windows;
    }
    if Selected(b, windows, stamp) {
      var w :| w in windows && w.start <= t.value < w.end;
      var i :| 0 <= i < |windows| && windows[i] == w;
      assert windows[i].start <= t.value && t.value < windows[i].end;
    }
  }

  /** Exactly the blocks stamped inside a window, each as often as it occurs, in their order. */
  ghost predicate IsSelection(picked: seq<seq<Byte>>, blocks: seq<seq<Byte>>, windows: seq<Window>, stamp: Stamper) {
    Subsequence(picked, blocks) &&
    forall b :: multiset(picked)[b] == if StampedInside(b, windows, stamp) then multiset(blocks)[b] else 0
  }

  lemma {:induction false} PickedPush(init: seq<seq<Byte>>, b: seq<Byte>, windows: seq<Window>, stamp: Stamper)
    ensures Picked(init + [b], windows, stamp) ==
            Picked(init, windows, stamp) + (if Selected(b, windows, stamp) then [b] else [])
  {
    hide Selected;
    if init == [] {
      assert init + [b] == [b] + [];
      PickedCons(b, [], windows, stamp);
      assert Picked([], windows, stamp) == [];
    } else {
      var x, rest := init[0], init[1..];
      assert init == [x] + rest && init + [b] == [x] + (rest + [b]);
      PickedCons(x, rest, windows, stamp);
      PickedCons(x, rest + [b], windows, stamp);
      PickedPush(rest, b, windows, stamp);
      hide Picked;
    }
  }

  lemma {:induction false} PickedMeaning(blocks: seq<seq<Byte>>, windows: seq<Window>, stamp: Stamper)
    ensures IsSelection(Picked(blocks, windows, stamp), blocks, windows, stamp)
  {
    hide Selected, StampedInside, Picked, Subsequence;
    if blocks == [] {
      NoBlocks(windows, stamp);
      SubsequenceRefl(blocks);
    } else {
      var init, b := blocks[..|blocks| - 1], blocks[|blocks| - 1];
      PickedMeaning(init, windows, stamp);
      PickedPush(init, b, windows, stamp);
      SelectedIff(b, windows, stamp);
      assert blocks == init + [b];
      SubsequencePush(Picked(init, windows, stamp), init, b);
      if !Selected(b, windows, stamp) {
        assert Picked(init, windows, stamp) + [] == Picked(init, windows, stamp);
      }
    }
  }

  /** A windowed log in the archive is the in-order selection of the blocks stamped inside a
      window: all of them, or as many as fit when the byte limit cuts it, and then that is noted. */
  lemma WindowedLogIsSelection(p: Pack, lim: Limits, r: Request, stamp: Stamper, digest: seq<Byte> -> Digest)
    returns (k: nat)
    requires r.mode.Windowed? && r.source.Readable? && p.total <= lim.maxBytes
    ensures var q := Added(p, lim, r, stamp, digest);
      var size := Min(r.source.size, |r.source.bytes|);
      var picked := Picked(LineBlocks(r.source.bytes[..size]), r.mode.windows, stamp);
      IsSelection(picked, LineBlocks(r.source.bytes[..size]), r.mode.windows, stamp) && k <= |picked| &&
      (q.contents != p.contents ==>
        q.contents == p.contents + [Concat(picked[..k])] &&
        (k < |picked| ==> Issue(r.path, PartialLog) in q.missing && q.total + |picked[k]| > lim.maxBytes))
  {
    PickedMeaning(LineBlocks(r.source.bytes[..Min(r.source.size, |r.source.bytes|)]), r.mode.windows, stamp);
    hide Added, Picked, IsSelection, LineBlocks;
    k := StoredSelection(p, lim, r, stamp, digest);
  }

  lemma StoredSelection(p: Pack, lim: Limits, r: Request, stamp: Stamper, digest: seq<Byte> -> Digest)
    returns (k: nat)
    requires r.mode.Windowed? && r.source.Readable? && p.total <= lim.maxBytes
    ensures var q := Added(p, lim, r, stamp, digest);
      var size := Min(r.source.size, |r.source.bytes|);
      var picked := Picked(LineBlocks(r.source.bytes[..size]), r.mode.windows, stamp);
      k <= |picked| &&
      (q.contents != p.contents ==>
        q.contents == p.contents + [Concat(picked[..k])] &&
        (k < |picked| ==> Issue(r.path, PartialLog) in q.missing && q.total + |picked[k]| > lim.maxBytes))
  {
    hide CopyFrom, Picked;
    k := WindowedCopy(r.source.bytes, r.source.size, 0, r.source.fault, r.mode.windows, stamp,
                      lim.maxBytes - p.total, []);
    var picked := Picked(LineBlocks(r.source.bytes[..Min(r.source.size, |r.source.bytes|)]), r.mode.windows, stamp);
    assert [] + Concat(picked[..k]) == Concat(picked[..k]);
  }

  lemma {:induction false} ConcatGrows(blocks: seq<seq<Byte>>, k: nat)
    requires k < |blocks|
    ensures |Concat(blocks[..k])| + |blocks[k]| <= |Concat(blocks)|
  {
    if k > 0 {
      ConcatGrows(blocks[1..], k - 1);
      assert blocks[..k][1..] == blocks[1..][..k - 1];
    } else {
      assert blocks[..0] == [];
    }
  }

  /** When nothing fails and the selection fits, the whole selection is stored. */
  lemma WindowedLogIsComplete(p: Pack, lim: Limits, r: Request, stamp: Stamper, digest: seq<Byte> -> Digest)
    requires r.mode.Windowed? && r.source.Readable? && p.total <= lim.maxBytes
    requires r.name !in p.written && |p.written| < lim.maxFiles
    requires r.source.fault.None? && r.source.size <= |r.source.bytes|
    ensures var picked := Picked(LineBlocks(r.source.bytes[..r.source.size]), r.mode.windows, stamp);
      IsSelection(picked, LineBlocks(r.source.bytes[..r.source.size]), r.mode.windows, stamp)
    ensures var picked := Picked(LineBlocks(r.source.bytes[..r.source.size]), r.mode.windows, stamp);
      p.total + |Concat(picked)| <= lim.maxBytes && picked != [] ==>
        Added(p, lim, r, stamp, digest).contents == p.contents + [Concat(picked)]
  {
    hide CopyFrom, LineBlocks, IsSelection;
    var blocks := LineBlocks(r.source.bytes[..r.source.size]);
    PickedMeaning(blocks, r.mode.windows, stamp);
    var picked := Picked(blocks, r.mode.windows, stamp);
    var k := WindowedCopy(r.source.bytes, r.source.size, 0, r.source.fault, r.mode.windows, stamp,
                          lim.maxBytes - p.total, []);
    assert forall b :: b in picked ==> b in blocks && b != [];
    hide Picked;
    ConcatEmpty(picked);
    assert [] + Concat(picked[..k]) == Concat(picked[..k]);
    if k < |picked| { ConcatGrows(picked, k); }
    assert picked[..|picked|] == picked;
  }

  // ----------------------------------------------------------------- silence

  lemma {:induction false} ConcatEmpty(blocks: seq<seq<Byte>>)
    requires forall b :: b in blocks ==> b != []
    ensures Concat(blocks) == [] <==> blocks == []
  {
    if blocks != [] { assert blocks[0] in blocks; }
  }

  lemma SilentWhenNothingStaged(p: Pack, lim: Limits, r: Request, stamp: Stamper, digest: seq<Byte> -> Digest)
    requires p.total <= lim.maxBytes
    ensures Added(p, lim, r, stamp, digest) == p <==>
      r.name in p.written ||
      (|p.written| < lim.maxFiles && r.source.Readable? && r.mode.Windowed? &&
       Copying(p, lim, r, stamp) == Copied([], false))
  {
    hide CopyFrom;
    var q := Added(p, lim, r, stamp, digest);
    assert q == p <==> |q.missing| == |p.missing| && |q.files| == |p.files|;
  }

  lemma {:induction false} NonePickedIff(blocks: seq<seq<Byte>>, windows: seq<Window>, stamp: Stamper)
    ensures Picked(blocks, windows, stamp) == [] <==> forall b :: b in blocks ==> !Selected(b, windows, stamp)
  {
    hide Selected;
    var picked := Picked(blocks, windows, stamp);
    hide Picked;
    if picked != [] { assert picked[0] in picked; }
  }

  lemma NothingStagedIff(p: Pack, lim: Limits, r: Request, stamp: Stamper)
    requires p.total <= lim.maxBytes && r.source.Readable? && r.mode.Windowed? && Copying(p, lim, r, stamp).Copied?
    ensures Copying(p, lim, r, stamp) == Copied([], false) <==>
      forall b :: b in LineBlocks(r.source.bytes[..Min(r.source.size, |r.source.bytes|)]) ==>
        !Selected(b, r.mode.windows, stamp)
  {
    hide CopyFrom, Selected;
    var k := WindowedCopy(r.source.bytes, r.source.size, 0, r.source.fault, r.mode.windows, stamp,
                          lim.maxBytes - p.total, []);
    var blocks := LineBlocks(r.source.bytes[..Min(r.source.size, |r.source.bytes|)]);
    hide LineBlocks;
    var picked := Picked(blocks, r.mode.windows, stamp);
    NonePickedIff(blocks, r.mode.windows, stamp);
    hide Picked;
    assert forall b :: b in picked[..k] ==> b in picked && b in blocks;
    ConcatEmpty(picked[..k]);
    assert [] + Concat(picked[..k]) == Concat(picked[..k]);
  }

  /** A call leaves no trace exactly when the archive name is already written, or a windowed
      log was read to its end without one matching block. */
  lemma SilentIff(p: Pack, lim: Limits, r: Request, stamp: Stamper, digest: seq<Byte> -> Digest)
    requires p.total <= lim.maxBytes
    ensures Added(p, lim, r, stamp, digest) == p <==>
      r.name in p.written ||
      (|p.written| < lim.maxFiles && r.source.Readable? && r.mode.Windowed? && Copying(p, lim, r, stamp).Copied? &&
       forall b :: b in LineBlocks(r.source.bytes[..Min(r.source.size, |r.source.bytes|)]) ==>
         !StampedInside(b, r.mode.windows, stamp))
  {
    hide Added, Copying, LineBlocks, Selected, StampedInside;
    SilentWhenNothingStaged(p, lim, r, stamp, digest);
    if r.source.Readable? && r.mode.Windowed? && Copying(p, lim, r, stamp).Copied? {
      NothingStagedIff(p, lim, r, stamp);
      forall b: seq<Byte>
        ensures Selected(b, r.mode.windows, stamp) <==> StampedInside(b, r.mode.windows, stamp)
      {
        SelectedIff(b, r.mode.windows, stamp);
      }
    }
  }

  // ----------------------------------------------------------------- what a call notes

  /** The package with one more note and nothing else. */
  predicate OnlyNotes(p: Pack, q: Pack, path: Path, reason: Reason) {
    q.total == p.total && q.written == p.written && q.files == p.files && q.contents == p.contents &&
    q.missing == p.missing + [Issue(path, reason)]
  }

  /** The package with one more entry, its manifest row and the notes made on the way. */
  predicate Holds(p: Pack, q: Pack, r: Request, data: seq<Byte>, sha: Digest, cut: bool) {
    q.total == p.total + |data| && q.written == p.written + {r.name} && q.contents == p.contents + [data] &&
    q.files == p.files + [FileRow(r.path, r.name, |data|, sha, r.expected)] &&
    q.missing == p.missing + (if cut then [Issue(r.path, PartialLog)] else []) +
                 (if r.expected.Some? && r.expected.value != sha then [Issue(r.path, ContentChanged)] else [])
  }

  /** The refusals in their order, and what is noted of a file that can be opened but not copied. */
  lemma AddOutcome(p: Pack, lim: Limits, r: Request, stamp: Stamper, digest: seq<Byte> -> Digest)
    requires p.total <= lim.maxBytes
    ensures var q := Added(p, lim, r, stamp, digest);
      if r.name in p.written then q == p
      else if |p.written| >= lim.maxFiles then OnlyNotes(p, q, r.path, FileLimit)
      else if r.source.Unavailable? then OnlyNotes(p, q, r.path, NotAvailable)
      else if r.mode.Whole? && p.total + r.source.size > lim.maxBytes then OnlyNotes(p, q, r.path, ByteLimit)
      else
        (q == p && r.mode.Windowed?) ||
        (OnlyNotes(p, q, r.path, SourceShortened) && |r.source.bytes| < r.source.size) ||
        (OnlyNotes(p, q, r.path, ReadError) && r.source.fault.Some?) ||
        (OnlyNotes(p, q, r.path, PartialLog) && r.mode.Windowed?) ||
        (q.contents != p.contents && var data := q.contents[|q.contents| - 1];
         Holds(p, q, r, data, digest(data), false) || (Holds(p, q, r, data, digest(data), true) && r.mode.Windowed?))
  {
    hide CopyFrom;
    if r.source.Readable? {
      if r.mode.Whole? {
        if p.total + r.source.size <= lim.maxBytes {
          WholeCopy(r.source.bytes, r.source.size, 0, r.source.fault, stamp, lim.maxBytes - p.total, []);
        }
      } else {
        var k := WindowedCopy(r.source.bytes, r.source.size, 0, r.source.fault, r.mode.windows, stamp,
                              lim.maxBytes - p.total, []);
      }
      if Copying(p, lim, r, stamp).Copied? {
        var c := Copying(p, lim, r, stamp);
        StoredHolds(p, r, c.data, c.cut, digest);
      }
    }
    hide Copying, Holds, Stored;
  }

  lemma StoredHolds(p: Pack, r: Request, data: seq<Byte>, cut: bool, digest: seq<Byte> -> Digest)
    ensures var q := Stored(if cut then Noted(p, r.path, PartialLog) else p, r, data, digest);
      if data == [] && r.mode.Windowed? then (if cut then OnlyNotes(p, q, r.path, PartialLog) else q == p)
      else
        Holds(p, q, r, data, digest(data), cut) && |q.contents| == |p.contents| + 1 && q.contents[|p.contents|] == data
  {
  }

  // ----------------------------------------------------------------- merging

  predicate Earlier(a: Window, b: Window) {
    a.start < b.start || (a.start == b.start && a.end < b.end)
  }

  ghost predicate Sorted(ws: seq<Window>) {
    forall i, j :: 0 <= i < j < |ws| ==> Earlier(ws[i], ws[j])
  }

  lemma {:induction false} InsertKeepsOrder(w: Window, sorted: seq<Window>)
    requires Sorted(sorted)
    ensures Sorted(InsertWindow(w, sorted))
    ensures forall x :: x in InsertWindow(w, sorted) <==> x == w || x in sorted
  {
    hide Sorted;
    if sorted == [] {
      SortedOne(w);
    } else {
      var first, rest := sorted[0], sorted[1..];
      assert sorted == [first] + rest;
      SortedSplit(first, rest);
      if w != first && !Before(w, first) {
        InsertKeepsOrder(w, rest);
        SortedJoin(first, InsertWindow(w, rest));
      } else if w != first {
        SortedJoin(w, sorted);
      }
    }
  }

  lemma SortedOne(w: Window)
    ensures Sorted([w])
  {
  }

  lemma SortedSplit(first: Window, rest: seq<Window>)
    requires Sorted([first] + rest)
    ensures Sorted(rest) && forall x :: x in rest ==> Earlier(first, x)
  {
    hide Earlier;
    var all := [first] + rest;
    forall i, j | 0 <= i < j < |rest| ensures Earlier(rest[i], rest[j]) { assert Earlier(all[i + 1], all[j + 1]); }
    forall x | x in rest ensures Earlier(first, x) {
      var i :| 0 <= i < |rest| && rest[i] == x;
      assert Earlier(all[0], all[i + 1]);
    }
  }

  lemma SortedJoin(first: Window, rest: seq<Window>)
    requires Sorted(rest) && forall x :: x in rest ==> Earlier(first, x)
    ensures Sorted([first] + rest)
  {
    assert forall i :: 0 <= i < |rest| ==> rest[i] in rest;
  }

  /** Sorting keeps exactly the recorded windows, each once, by start and then end. */
  lemma {:induction false} SortedSetMeaning(windows: seq<Window>)
    ensures Sorted(SortedSet(windows))
    ensures forall x :: x in SortedSet(windows) <==> x in windows
  {
    if windows != [] {
      SortedSetMeaning(windows[1..]);
      InsertKeepsOrder(windows[0], SortedSet(windows[1..]));
      assert windows == [windows[0]] + windows[1..];
    }
  }

  /** Neighbours never touch; the last start is the largest merged so far at most. */
  ghost predicate Separated(ws: seq<Window>) {
    forall i :: 0 <= i < |ws| - 1 ==> ws[i].end < ws[i + 1].start
  }

  lemma MergeStepMeaning(merged: seq<Window>, w: Window, t: int)
    requires Separated(merged) && (merged != [] ==> merged[|merged| - 1].start <= w.start)
    ensures var m := MergeStep(merged, w);
      m != [] && Separated(m) && m[|m| - 1].start <= w.start &&
      (InSome(m, t) <==> InSome(merged, t) || w.start <= t < w.end)
  {
    var m := MergeStep(merged, w);
    if merged != [] && w.start <= merged[|merged| - 1].end {
      var l := |merged| - 1;
      assert merged == merged[..l] + [merged[l]] && m == merged[..l] + [m[l]];
      InSomeSplit(merged[..l], merged[l], t);
      InSomeSplit(merged[..l], m[l], t);
    } else {
      InSomeSplit(merged, w, t);
    }
  }

  lemma InSomeSplit(ws: seq<Window>, w: Window, t: int)
    ensures InSome(ws + [w], t) <==> InSome(ws, t) || w.start <= t < w.end
  {
    assert forall x :: x in ws + [w] <==> x in ws || x == w;
    if w.start <= t < w.end { assert w in ws + [w]; }
  }

  lemma {:induction false} MergedAllMeaning(sorted: seq<Window>, t: int)
    requires Sorted(sorted)
    ensures var m := MergedAll(sorted);
      Separated(m) && (m != [] ==> m[|m| - 1].start <= sorted[|sorted| - 1].start) && (m != [] <==> sorted != []) &&
      (InSome(m, t) <==> InSome(sorted, t))
  {
    if sorted != [] {
      var init, w := sorted[..|sorted| - 1], sorted[|sorted| - 1];
      assert sorted == init + [w];
      MergedAllMeaning(init, t);
      if init != [] { assert Before(init[|init| - 1], w); }
      MergeStepMeaning(MergedAll(init), w, t);
      InSomeSplit(init, w, t);
    }
  }

  /** Merging keeps the meaning of the windows, inverted ones included: a stamp lies in a merged
      window exactly when it lies in a recorded one; merged neighbours never touch. */
  lemma MergePreservesMeaning(windows: seq<Window>, t: int)
    ensures InSome(Merged(windows), t) <==> InSome(windows, t)
    ensures Separated(Merged(windows))
  {
    SortedSetMeaning(windows);
    MergedAllMeaning(SortedSet(windows), t);
  }

  lemma {:induction false} MergeKeepsOrdered(sorted: seq<Window>)
    requires forall w :: w in sorted ==> w.start <= w.end
    ensures forall w :: w in MergedAll(sorted) ==> w.start <= w.end
  {
    if sorted != [] {
      MergeKeepsOrdered(sorted[..|sorted| - 1]);
      assert sorted[|sorted| - 1] in sorted;
      var m := MergedAll(sorted[..|sorted| - 1]);
      if m != [] { assert m[|m| - 1] in m; }
    }
  }

  /** For recorded windows that are not inverted, any two merged windows are strictly apart, in order. */
  lemma MergedWindowsAreApart(windows: seq<Window>, i: nat, j: nat)
    requires forall w :: w in windows ==> w.start <= w.end
    requires i < j < |Merged(windows)|
    ensures Merged(windows)[i].start <= Merged(windows)[i].end < Merged(windows)[j].start <= Merged(windows)[j].end
  {
    SortedSetMeaning(windows);
    MergeKeepsOrdered(SortedSet(windows));
    MergePreservesMeaning(windows, 0);
    Apart(Merged(windows), i, j);
  }

  lemma {:induction false} Apart(ws: seq<Window>, i: nat, j: nat)
    requires Separated(ws) && i < j < |ws| && forall w :: w in ws ==> w.start <= w.end
    ensures ws[i].start <= ws[i].end < ws[j].start <= ws[j].end
    decreases j
  {
    assert ws[i] in ws && ws[j] in ws;
    if i + 1 < j {
      Apart(ws, i, j - 1);
      assert ws[j - 1].end < ws[j - 1 + 1].start;
    }
  }

  lemma {:induction false} SameSelectionSameCopy(rest: seq<Byte>, remaining: nat, readNo: nat, fault: Option<nat>,
                                                 ws: seq<Window>, vs: seq<Window>, stamp: Stamper, room: int,
                                                 data: seq<Byte>)
    requires forall t :: InSome(ws, t) <==> InSome(vs, t)
    ensures CopyFrom(rest, remaining, readNo, fault, Windowed(ws), stamp, room, data) ==
            CopyFrom(rest, remaining, readNo, fault, Windowed(vs), stamp, room, data)
    decreases remaining
  {
    hide InSome;
    if remaining > 0 && fault != Some(readNo) {
      var block := Block(rest, Min(remaining, CHUNK), Windowed(ws));
      assert block == Block(rest, Min(remaining, CHUNK), Windowed(vs));
      assert Selected(block, ws, stamp) == Selected(block, vs, stamp);
      if block != [] {
        SameSelectionSameCopy(rest[|block|..], remaining - |block|, readNo + 1, fault, ws, vs, stamp, room, data);
        SameSelectionSameCopy(rest[|block|..], remaining - |block|, readNo + 1, fault, ws, vs, stamp, room,
                              data + block);
      }
    }
  }

  /** Scanning each log once with the merged windows gives the same package as using the recorded ones. */
  lemma MergingKeepsThePackage(p: Pack, lim: Limits, r: Request, ws: seq<Window>, stamp: Stamper,
                               digest: seq<Byte> -> Digest)
    ensures Added(p, lim, r.(mode := Windowed(Merged(ws))), stamp, digest) ==
            Added(p, lim, r.(mode := Windowed(ws)), stamp, digest)
  {
    hide CopyFrom, InSome, Merged, Added;
    if r.source.Readable? {
      forall t ensures InSome(Merged(ws), t) <==> InSome(ws, t) { MergePreservesMeaning(ws, t); }
      SameSelectionSameCopy(r.source.bytes, r.source.size, 0, r.source.fault, Merged(ws), ws, stamp,
                            lim.maxBytes - p.total, []);
    }
    SameCopySamePackage(p, lim, r, Merged(ws), ws, stamp, digest);
  }

  lemma SameCopySamePackage(p: Pack, lim: Limits, r: Request, vs: seq<Window>, ws: seq<Window>, stamp: Stamper,
                            digest: seq<Byte> -> Digest)
    requires r.source.Readable? ==>
      Copying(p, lim, r.(mode := Windowed(vs)), stamp) == Copying(p, lim, r.(mode := Windowed(ws)), stamp)
    ensures Added(p, lim, r.(mode := Windowed(vs)), stamp, digest) ==
            Added(p, lim, r.(mode := Windowed(ws)), stamp, digest)
  {
    hide Copying;
    forall q, data
      ensures Stored(q, r.(mode := Windowed(vs)), data, digest) == Stored(q, r.(mode := Windowed(ws)), data, digest)
    {
    }
    hide Stored;
  }

  // ----------------------------------------------------------------- images

  predicate Stamped(e: Entry, start: int, end: int) {
    e.stamp.Some? && start <= e.stamp.value < end
  }

  /** The images whose stamp lies in the window, wherever they are filed. */
  ghost function FullScan(tree: Tree, start: int, end: int): set<Image> {
    set h, e | h in tree && e in tree[h] && e.stamp.Some? && start <= e.stamp.value < end :: Image(h, e.name)
  }

  /** The images the hour cursor reaches: buckets from the start's hour on that begin before the end. */
  ghost function HourScan(tree: Tree, start: int, end: int): set<Image> {
    set h, e | h in tree && e in tree[h] && start / HOUR <= h && h * HOUR < end && Stamped(e, start, end) ::
      Image(h, e.name)
  }

  predicate FiledByHour(tree: Tree) {
    forall h, e :: h in tree && e in tree[h] && e.stamp.Some? ==> h == e.stamp.value / HOUR
  }

  /** When every image is filed under its own hour, the hour cursor finds what a full scan finds. */
  lemma HourScanIsFullScan(tree: Tree, start: int, end: int)
    requires FiledByHour(tree)
    ensures HourScan(tree, start, end) == FullScan(tree, start, end)
  {
    forall h, e | h in tree && e in tree[h] && Stamped(e, start, end)
      ensures start / HOUR <= h && h * HOUR < end
    {
      HourBounds(start, e.stamp.value);
    }
  }

  lemma HourBounds(a: int, b: int)
    requires a <= b
    ensures a / HOUR <= b / HOUR && (b / HOUR) * HOUR <= b
  {
  }
}
