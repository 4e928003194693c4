/** The builder as it runs: `add_file`, the window merge and the hour-bucket scan. */
module DataPackageService {
  import opened Sequences
  import opened DataPackage
  import opened DataPackageTheorems

  class PackageBuilder {
    const limits: Limits
    const stamp: Stamper
    const digest: seq<Byte> -> Digest
    var total: nat
    var written: set<Name>
    var files: seq<FileRow>
    var missing: seq<Issue>
    var contents: seq<seq<Byte>>

    ghost function View(): Pack
      reads this
    {
      Pack(total, written, files, missing, contents)
    }

    constructor (limits: Limits, stamp: Stamper, digest: seq<Byte> -> Digest)
      ensures this.limits == limits && this.stamp == stamp && this.digest == digest
      ensures View() == Pack(0, {}, [], [], []) && Inv(View(), limits, digest)
    {
      this.limits, this.stamp, this.digest := limits, stamp, digest;
      total, written, files, missing, contents := 0, {}, [], [], [];
    }

    method Note(path: Path, reason: Reason)
      modifies this`missing
      ensures View() == Noted(old(View()), path, reason)
    {
      missing := missing + [Issue(path, reason)];
    }

    /** `add_file`: stage the file block by block, then store the staged bytes. */
    method AddFile(r: Request)
      requires Inv(View(), limits, digest)
      modifies this
      ensures View() == Added(old(View()), limits, r, stamp, digest)
      ensures Inv(View(), limits, digest)
    {
      hide Inv, StoreMeaning, Stored, Selected;
      AddedKeepsInv(View(), limits, r, stamp, digest);
      if r.name in written {
        return;
      }
      if |written| >= limits.maxFiles {
        Note(r.path, FileLimit);
        return;
      }
      if r.source.Unavailable? {
        Note(r.path, NotAvailable);
        return;
      }
      var remaining: nat, rest, readNo: nat := r.source.size, r.source.bytes, 0;
      var staged: seq<Byte> := [];
      if r.mode.Whole? && remaining > limits.maxBytes - total {
        Note(r.path, ByteLimit);
        return;
      }
      while remaining > 0
        invariant View() == old(View())
        invariant r.mode.Whole? ==> |staged| + remaining <= limits.maxBytes - total
        invariant CopyFrom(rest, remaining, readNo, r.source.fault, r.mode, stamp, limits.maxBytes - total, staged) ==
                  Copying(old(View()), limits, r, stamp)
      {
        if r.source.fault == Some(readNo) {
          Note(r.path, ReadError);
          return;
        }
        var block := Block(rest, Min(remaining, CHUNK), r.mode);
        if block == [] {
          Note(r.path, SourceShortened);
          return;
        }
        remaining, rest, readNo := remaining - |block|, rest[|block|..], readNo + 1;
        if r.mode.Windowed? && !Selected(block, r.mode.windows, stamp) {
          continue;
        }
        if total + |staged| + |block| > limits.maxBytes {
          // The size check above makes this branch unreachable for a whole file.
          assert r.mode.Windowed?;
          Note(r.path, PartialLog);
          break;
        }
        staged := staged + block;
      }
      Store(r, staged);
    }

    /** The end of `add_file`, after staging. */
    method Store(r: Request, staged: seq<Byte>)
      modifies this
      ensures View() == Stored(old(View()), r, staged, digest)
      ensures StoreMeaning(old(View()), View(), limits, r, staged, digest)
    {
      StoredMeans(View(), limits, r, staged, digest);
      hide StoreMeaning;
      if staged == [] && r.mode.Windowed? {
        return;
      }
      var sha := digest(staged);
      if r.expected.Some? && sha != r.expected.value {
        Note(r.path, ContentChanged);
      }
      contents := contents + [staged];
      written := written + {r.name};
      total := total + |staged|;
      files := files + [FileRow(r.path, r.name, |staged|, sha, r.expected)];
    }

    /** The log part of `build`: each log whole, cut to its merged windows, or both.  The result is the
        package that the recorded windows themselves would give. */
    method AddLogs(logs: seq<Log>, wholeMode: bool, windowMode: bool)
      requires Inv(View(), limits, digest)
      modifies this
      ensures View() == AddedAll(old(View()), limits, LogRequests(logs, wholeMode, windowMode), stamp, digest)
      ensures Inv(View(), limits, digest)
    {
      hide Inv, Added, Merged;
      var i := 0;
      while i < |logs|
        invariant 0 <= i <= |logs| && Inv(View(), limits, digest)
        invariant View() == AddedAll(old(View()), limits, LogRequests(logs[..i], wholeMode, windowMode), stamp, digest)
      {
        assert logs[..i + 1][..i] == logs[..i] && logs[..i + 1][i] == logs[i];
        ghost var rs := LogRequests(logs[..i], wholeMode, windowMode);
        ghost var rs' := if wholeMode then rs + [WholeRequest(logs[i])] else rs;
        if wholeMode {
          assert rs'[..|rs|] == rs;
          AddFile(WholeRequest(logs[i]));
        }
        if windowMode {
          MergingKeepsThePackage(View(), limits, WindowRequest(logs[i]), logs[i].windows, stamp, digest);
          var merged := MergeWindows(logs[i].windows);
          AddFile(WindowRequest(logs[i]).(mode := Windowed(merged)));
          assert (rs' + [WindowRequest(logs[i])])[..|rs'|] == rs';
        }
        assert LogRequests(logs[..i + 1], wholeMode, windowMode) ==
               (if windowMode then rs' + [WindowRequest(logs[i])] else rs');
        i := i + 1;
      }
      assert logs[..i] == logs;
    }
  }

  /** What storing means for a caller: a new name with bytes that fit keeps both budgets and the agreement of manifest
      and archive, a written name has its row and its bytes at the end, and a changed digest is noted although the
      bytes are stored all the same. */
  ghost predicate StoreMeaning(p: Pack, q: Pack, lim: Limits, r: Request, data: seq<Byte>,
                               digest: seq<Byte> -> Digest)
  {
    (Inv(p, lim, digest) && r.name !in p.written && |p.written| < lim.maxFiles && p.total + |data| <= lim.maxBytes ==>
      Inv(q, lim, digest)) &&
    (r.name in q.written && r.name !in p.written ==>
      q.contents == p.contents + [data] &&
      q.files == p.files + [FileRow(r.path, r.name, |data|, digest(data), r.expected)]) &&
    (r.expected.Some? && r.expected.value != digest(data) && r.name in q.written && r.name !in p.written ==>
      Issue(r.path, ContentChanged) in q.missing) &&
    (Issue(r.path, ContentChanged) in q.missing && Issue(r.path, ContentChanged) !in p.missing ==>
      r.expected.Some? && r.expected.value != digest(data) && r.name in q.written)
  }

  lemma StoredMeans(p: Pack, lim: Limits, r: Request, data: seq<Byte>, digest: seq<Byte> -> Digest)
    ensures StoreMeaning(p, Stored(p, r, data, digest), lim, r, data, digest)
  {
    if Inv(p, lim, digest) && r.name !in p.written && |p.written| < lim.maxFiles &&
       p.total + |data| <= lim.maxBytes
    {
      StoredKeepsInv(p, lim, r, data, digest);
    }
    hide Inv;
    var q, issue := Stored(p, r, data, digest), Issue(r.path, ContentChanged);
    if q.missing != p.missing {
      assert q.missing == p.missing + [issue];
    }
  }

  /** A recorded log: what opening it finds (it is opened once for each mode) and its recorded windows. */
  datatype Log = Log(path: Path, wholeName: Name, windowName: Name, first: Source, second: Source, windows: seq<Window>)

  function WholeRequest(l: Log): Request { Request(l.path, l.wholeName, l.first, None, Whole) }

  function WindowRequest(l: Log): Request { Request(l.path, l.windowName, l.second, None, Windowed(l.windows)) }

  ghost function LogRequests(logs: seq<Log>, wholeMode: bool, windowMode: bool): seq<Request> {
    if logs == [] then []
    else
      var l := logs[|logs| - 1];
      LogRequests(logs[..|logs| - 1], wholeMode, windowMode) +
      (if wholeMode then [WholeRequest(l)] else []) + (if windowMode then [WindowRequest(l)] else [])
  }

  /** The logs are asked for one after the other, each as a whole file before its windows. */
  lemma {:induction false} LogRequestsMeaning(logs: seq<Log>, l: Log, wholeMode: bool, windowMode: bool)
    ensures LogRequests([l], wholeMode, windowMode) ==
      (if wholeMode then [Request(l.path, l.wholeName, l.first, None, Whole)] else []) +
      (if windowMode then [Request(l.path, l.windowName, l.second, None, Windowed(l.windows))] else [])
    ensures LogRequests(logs + [l], wholeMode, windowMode) ==
      LogRequests(logs, wholeMode, windowMode) + LogRequests([l], wholeMode, windowMode)
    ensures LogRequests([], wholeMode, windowMode) == []
  {
    assert (logs + [l])[..|logs|] == logs && (logs + [l])[|logs|] == l;
    assert [l][..0] == [] && LogRequests([l][..0], wholeMode, windowMode) == [];
  }

  /** The merge loop, which rewrites the last merged window in place. */
  method MergeWindows(windows: seq<Window>) returns (merged: seq<Window>)
    ensures merged == Merged(windows)
    ensures Separated(merged) && forall t :: InSome(merged, t) <==> InSome(windows, t)
  {
    var sorted := SortedSet(windows);
    merged := [];
    var i := 0;
    while i < |sorted|
      invariant 0 <= i <= |sorted| && merged == MergedAll(sorted[..i])
    {
      assert sorted[..i + 1][..i] == sorted[..i];
      var w := sorted[i];
      if merged != [] && w.start <= merged[|merged| - 1].end {
        var last := merged[|merged| - 1];
        merged := merged[|merged| - 1 := Window(last.start, if w.end > last.end then w.end else last.end)];
      } else {
        merged := merged + [w];
      }
      i := i + 1;
    }
    assert sorted[..i] == sorted;
    MergePreservesMeaning(windows, 0);
    forall t ensures InSome(merged, t) <==> InSome(windows, t) { MergePreservesMeaning(windows, t); }
  }

  /** The entries of one hour's directory. */
  method ScanBucket(hour: int, entries: seq<Entry>, start: int, end: int, before: set<Image>)
    returns (found: set<Image>)
    ensures found == before + InBucket(hour, entries, start, end)
  {
    found := before;
    var j := 0;
    while j < |entries|
      invariant 0 <= j <= |entries| && found == before + InBucket(hour, entries[..j], start, end)
    {
      var e := entries[j];
      assert entries[..j + 1] == entries[..j] + [e];
      if e.stamp.Some? && start <= e.stamp.value < end {
        found := found + {Image(hour, e.name)};
      }
      j := j + 1;
    }
    assert entries[..j] == entries;
  }

  /** The hour cursor over one window: it visits consecutive hours, each once, and adds what is stamped inside. */
  method ScanWindow(tree: Tree, start: int, end: int, before: set<Image>)
    returns (found: set<Image>, ghost hours: seq<int>)
    ensures found == before + HourScan(tree, start, end)
    ensures forall i :: 0 <= i < |hours| ==> hours[i] == start / HOUR + i && hours[i] * HOUR < end
    ensures (start / HOUR + |hours|) * HOUR >= end
  {
    hide InBucket, ScannedUpTo, HourScan;
    found, hours := before, [];
    var cursor := start - start % HOUR;
    NothingScanned(tree, start, end);
    while cursor < end
      invariant cursor == (start / HOUR + |hours|) * HOUR
      invariant forall i :: 0 <= i < |hours| ==> hours[i] == start / HOUR + i && hours[i] * HOUR < end
      invariant found == before + ScannedUpTo(tree, start, end, start / HOUR + |hours|)
      decreases end - cursor
    {
      var hour := cursor / HOUR;
      assert hour == start / HOUR + |hours|;
      ScannedNext(tree, start, end, hour);
      if hour in tree {
        found := ScanBucket(hour, tree[hour], start, end, found);
      }
      hours := hours + [hour];
      cursor := cursor - cursor % HOUR;
      cursor := cursor + HOUR;
    }
    assert hours != [] ==> hours[|hours| - 1] == start / HOUR + |hours| - 1;
    ScannedAll(tree, start, end, start / HOUR + |hours|);
  }

  lemma NothingScanned(tree: Tree, start: int, end: int)
    ensures ScannedUpTo(tree, start, end, start / HOUR) == {}
  {
  }

  lemma ScannedNext(tree: Tree, start: int, end: int, hour: int)
    requires start / HOUR <= hour
    ensures ScannedUpTo(tree, start, end, hour + 1) ==
      ScannedUpTo(tree, start, end, hour) + (if hour in tree then InBucket(hour, tree[hour], start, end) else {})
  {
  }

  lemma ScannedAll(tree: Tree, start: int, end: int, next: int)
    requires end <= next * HOUR && (start / HOUR < next ==> (next - 1) * HOUR < end)
    requires start / HOUR <= next
    ensures ScannedUpTo(tree, start, end, next) == HourScan(tree, start, end)
  {
    forall h | start / HOUR <= h ensures h < next <==> h * HOUR < end { }
  }

  ghost function InBucket(hour: int, entries: seq<Entry>, start: int, end: int): set<Image> {
    set e | e in entries && Stamped(e, start, end) :: Image(hour, e.name)
  }

  ghost function ScannedUpTo(tree: Tree, start: int, end: int, next: int): set<Image> {
    set h, e | h in tree && e in tree[h] && start / HOUR <= h < next && Stamped(e, start, end) :: Image(h, e.name)
  }

  /** `_window_images`: every recorded window is scanned by hour buckets. */
  method WindowImages(tree: Tree, windows: seq<Window>) returns (found: set<Image>)
    ensures forall im :: im in found <==> exists w :: w in windows && im in HourScan(tree, w.start, w.end)
    ensures FiledByHour(tree) ==>
      forall im :: im in found <==> exists w :: w in windows && im in FullScan(tree, w.start, w.end)
  {
    found := {};
    var i := 0;
    while i < |windows|
      invariant 0 <= i <= |windows|
      invariant forall im ::
        im in found <==> exists k :: 0 <= k < i && im in HourScan(tree, windows[k].start, windows[k].end)
    {
      ghost var hours;
      found, hours := ScanWindow(tree, windows[i].start, windows[i].end, found);
      i := i + 1;
    }
    if FiledByHour(tree) {
      forall w | w in windows ensures HourScan(tree, w.start, w.end) == FullScan(tree, w.start, w.end) {
        HourScanIsFullScan(tree, w.start, w.end);
      }
    }
  }
}
