/**
 The data package builder of scopex/api/data_packages.py: one staged file at a time is
 copied into the archive under a byte and a file budget, whole or cut down to recorded
 time windows.  Names, paths and digests are numbers, a file is a sequence of bytes.
 */
module DataPackage {
  import opened Sequences

  type Byte = int
  type Path = int
  type Name = int
  type Digest = int

  const NEWLINE: Byte := 10
  const CHUNK: nat := 1_048_576

  /** What the timestamp pattern reads from the first 32 bytes of a block. */
  type Stamper = seq<Byte> -> Option<int>

  datatype Window = Window(start: int, end: int)

  predicate InSome(windows: seq<Window>, t: int) {
    exists w :: w in windows && w.start <= t < w.end
  }

  datatype Mode = Whole | Windowed(windows: seq<Window>)

  /** A source file: its size when opened, the bytes that can be read, and the read call that fails, if one does. */
  datatype Source = Unavailable | Readable(size: nat, bytes: seq<Byte>, fault: Option<nat>)

  datatype Reason =
    | FileLimit | NotAvailable | ByteLimit | SourceShortened | PartialLog | ReadError | ContentChanged

  datatype Issue = Issue(path: Path, reason: Reason)

  datatype FileRow = FileRow(source: Path, name: Name, bytes: nat, sha: Digest, expected: Option<Digest>)

  datatype Limits = Limits(maxBytes: nat, maxFiles: nat)

  /** `contents` is the archive, entry by entry beside the manifest's `files`. */
  datatype Pack = Pack(total: nat, written: set<Name>, files: seq<FileRow>, missing: seq<Issue>,
                       contents: seq<seq<Byte>>)

  datatype Request = Request(path: Path, name: Name, source: Source, expected: Option<Digest>, mode: Mode)

  // ----------------------------------------------------------------- reading

  /** Length of the first line, its newline included. */
  function LineLength(bytes: seq<Byte>): (n: nat)
    ensures n <= |bytes| && (bytes != [] ==> 0 < n)
  {
    if bytes == [] then 0
    else if bytes[0] == NEWLINE then 1
    else 1 + LineLength(bytes[1..])
  }

  /** `read(limit)` for a whole file, `readline(limit)` for a windowed log. */
  function Block(rest: seq<Byte>, limit: nat, mode: Mode): (b: seq<Byte>)
    ensures |b| <= limit && b <= rest && (rest != [] && limit > 0 ==> b != [])
  {
    rest[..Min(if mode.Whole? then |rest| else LineLength(rest), limit)]
  }

  predicate Selected(block: seq<Byte>, windows: seq<Window>, stamp: Stamper) {
    var t := stamp(block[..Min(|block|, 32)]);
    t.Some? && InSome(windows, t.value)
  }

  datatype Copy = Shortened | Faulted | Copied(data: seq<Byte>, cut: bool)

  /** The staging loop, from a point where `data` is staged and `remaining` bytes are to be read. */
  function CopyFrom(rest: seq<Byte>, remaining: nat, readNo: nat, fault: Option<nat>, mode: Mode, stamp: Stamper,
                    room: int, data: seq<Byte>): Copy
    decreases remaining
  {
    if remaining == 0 then Copied(data, false)
    else if fault == Some(readNo) then Faulted
    else
      var block := Block(rest, Min(remaining, CHUNK), mode);
      if block == [] then Shortened
      else if mode.Windowed? && !Selected(block, mode.windows, stamp) then
        CopyFrom(rest[|block|..], remaining - |block|, readNo + 1, fault, mode, stamp, room, data)
      else if |data| + |block| > room then Copied(data, true)
      else CopyFrom(rest[|block|..], remaining - |block|, readNo + 1, fault, mode, stamp, room, data + block)
  }

  // ----------------------------------------------------------------- packing

  function Noted(p: Pack, path: Path, reason: Reason): Pack {
    p.(missing := p.missing + [Issue(path, reason)])
  }

  function Copying(p: Pack, lim: Limits, r: Request, stamp: Stamper): Copy
    requires r.source.Readable?
  {
    CopyFrom(r.source.bytes, r.source.size, 0, r.source.fault, r.mode, stamp, lim.maxBytes - p.total, [])
  }

  /** One `add_file` call. */
  function Added(p: Pack, lim: Limits, r: Request, stamp: Stamper, digest: seq<Byte> -> Digest): Pack {
    if r.name in p.written then p
    else if |p.written| >= lim.maxFiles then Noted(p, r.path, FileLimit)
    else if r.source.Unavailable? then Noted(p, r.path, NotAvailable)
    else if r.mode.Whole? && r.source.size > lim.maxBytes - p.total then Noted(p, r.path, ByteLimit)
    else
      match Copying(p, lim, r, stamp)
      case Shortened => Noted(p, r.path, SourceShortened)
      case Faulted => Noted(p, r.path, ReadError)
      case Copied(data, cut) => Stored(if cut then Noted(p, r.path, PartialLog) else p, r, data, digest)
  }

  /** The staged bytes go into the archive, unless a windowed log left none. */
  function Stored(p: Pack, r: Request, data: seq<Byte>, digest: seq<Byte> -> Digest): Pack {
    if data == [] && r.mode.Windowed? then p
    else
      var sha := digest(data);
      var q := if r.expected.Some? && sha != r.expected.value then Noted(p, r.path, ContentChanged) else p;
      q.(total := q.total + |data|, written := q.written + {r.name},
         files := q.files + [FileRow(r.path, r.name, |data|, sha, r.expected)], contents := q.contents + [data])
  }

  function AddedAll(p: Pack, lim: Limits, rs: seq<Request>, stamp: Stamper, digest: seq<Byte> -> Digest): Pack {
    if rs == [] then p
    else Added(AddedAll(p, lim, rs[..|rs| - 1], stamp, digest), lim, rs[|rs| - 1], stamp, digest)
  }

  // ----------------------------------------------------------------- windows

  predicate Before(a: Window, b: Window) {
    a.start < b.start || (a.start == b.start && a.end < b.end)
  }

  function InsertWindow(w: Window, sorted: seq<Window>): seq<Window> {
    if sorted == [] then [w]
    else if w == sorted[0] then sorted
    else if Before(w, sorted[0]) then [w] + sorted
    else [sorted[0]] + InsertWindow(w, sorted[1..])
  }

  /** `sorted(set(windows))` */
  function SortedSet(windows: seq<Window>): seq<Window> {
    if windows == [] then [] else InsertWindow(windows[0], SortedSet(windows[1..]))
  }

  /** One step of the merge: the window joins the last merged one or follows it. */
  function MergeStep(merged: seq<Window>, w: Window): seq<Window> {
    if merged != [] && w.start <= merged[|merged| - 1].end then
      var last := merged[|merged| - 1];
      merged[|merged| - 1 := Window(last.start, if w.end > last.end then w.end else last.end)]
    else merged + [w]
  }

  function MergedAll(sorted: seq<Window>): seq<Window> {
    if sorted == [] then [] else MergeStep(MergedAll(sorted[..|sorted| - 1]), sorted[|sorted| - 1])
  }

  function Merged(windows: seq<Window>): seq<Window> {
    MergedAll(SortedSet(windows))
  }

  // ----------------------------------------------------------------- images

  const HOUR: int := 3_600_000_000

  /** A directory entry; `stamp` is None when the name is not an image name or is not a plain file. */
  datatype Entry = Entry(name: Name, stamp: Option<int>)

  /** The camera directory: the bucket of each hour (counted from an epoch) that is a plain directory. */
  type Tree = map<int, seq<Entry>>

  datatype Image = Image(hour: int, name: Name)
}
