/**
 The assessment journal of one task: scopex/assessment.py and the save and
 reconcile code of scopex/api/service.py.

 One record is kept in three places, written one after the other: the file
 assessment.json, the append-only history, and the metadata inside task.json (with a
 copy in memory while the task has a live handle).  Each write is atomic; the process
 may stop between any two of them.
 */
module Journal {
  import opened Sequences

  datatype Status = NOT_ASSESSED | PENDING | NORMAL | ABNORMAL | NEEDS_REVIEW

  datatype Origin = SYSTEM | NATIVE | NATIVE_REUSE | MANUAL_TEXT

  type RecordId = int

  /** A stored dictionary.  `version1` says its version is the current one; the optional
      fields are `None` when missing or ill-typed; `text` stands for all display fields. */
  datatype Doc = Doc(
    version1: bool, status: Option<Status>, origin: Origin, text: int, calls: nat,
    total: Option<nat>, revision: Option<int>, id: Option<RecordId>, historyRequired: bool)

  /** `live` says the task has a handle; then `memory` is what `get_task` reads. */
  datatype Store = Store(
    task: Option<Doc>, file: Option<Doc>, history: seq<Doc>, live: bool, memory: Option<Doc>)

  // ------------------------------------------------------------ record algebra

  function NewRecord(status: Status, origin: Origin, text: int, calls: nat): Doc {
    Doc(true, Some(status), origin, text, calls, None, None, None, false)
  }

  predicate IsPersisted(d: Doc) {
    d.version1 && d.status.Some? && d.id.Some? && d.revision.Some? && d.revision.value > 0
  }

  function PriorRevision(previous: Option<Doc>): nat {
    if previous.Some? && previous.value.revision.Some? && previous.value.revision.value > 0
    then previous.value.revision.value else 0
  }

  function PersistedRecord(value: Doc, previous: Option<Doc>, historyRequired: bool, freshId: RecordId): Doc {
    var prior := PriorRevision(previous);
    value.(
      revision := if value.revision.Some? && value.revision.value > prior then value.revision else Some(prior + 1),
      id := if value.id.Some? then value.id else Some(freshId),
      historyRequired := historyRequired)
  }

  function TotalOf(d: Option<Doc>): nat {
    if d.Some? && d.value.total.Some? then d.value.total.value else 0
  }

  // --------------------------------------------------------------------- save

  datatype Write = WriteFile(doc: Doc) | AppendHistory(doc: Doc) | WriteTask(doc: Doc)

  /** A write to task.json goes through the handle when there is one. */
  function Perform(s: Store, w: Write): Store {
    match w
    case WriteFile(d) => s.(file := Some(d))
    case AppendHistory(d) => s.(history := s.history + [d])
    case WriteTask(d) => s.(task := Some(d), memory := if s.live then Some(d) else s.memory)
  }

  function PerformAll(s: Store, ws: seq<Write>): Store
    decreases |ws|
  {
    if ws == [] then s else PerformAll(Perform(s, ws[0]), ws[1..])
  }

  function Row(s: Store): Option<Doc> {
    if s.live then s.memory else s.task
  }

  /** The record a save continues from: the row, unless the file holds a later revision. */
  function Previous(s: Store): Option<Doc> {
    if s.file.Some? && IsPersisted(s.file.value) && s.file.value.revision.value > PriorRevision(Row(s))
    then s.file else Row(s)
  }

  function SavedRecord(s: Store, value: Doc, freshId: RecordId): Doc {
    var before := TotalOf(Previous(s));
    var total := if value.total.Some? then (if value.total.value < before then before else value.total.value)
                 else before + value.calls;
    PersistedRecord(value.(total := Some(total)), Previous(s), true, freshId)
  }

  function SavePlan(s: Store, value: Doc, freshId: RecordId): seq<Write> {
    var v := SavedRecord(s, value, freshId);
    [WriteFile(v), AppendHistory(v), WriteTask(v)]
  }

  /** `done` writes succeed.  With a live handle the memory copy changes before task.json
      is written, so it is already new when only that last write fails. */
  function Save(s: Store, value: Doc, freshId: RecordId, done: nat): Store {
    var plan := SavePlan(s, value, freshId);
    var v := SavedRecord(s, value, freshId);
    var s1 := PerformAll(s, if done < 3 then plan[..done] else plan);
    if done == 2 && s.live then s1.(memory := Some(v)) else s1
  }

  // ---------------------------------------------------------------- reconcile

  predicate Upgradable(d: Option<Doc>) {
    d.Some? && !IsPersisted(d.value) && d.value.version1 && d.value.status.Some?
  }

  /** Records of the older format get a revision and an identity on restart. */
  function Upgraded(d: Option<Doc>, freshId: RecordId): Option<Doc> {
    if Upgradable(d) then
      Some(PersistedRecord(d.value, None,
        d.value.origin == MANUAL_TEXT || d.value.origin == NATIVE_REUSE || d.value.status == Some(PENDING), freshId))
    else d
  }

  predicate Candidate(d: Option<Doc>) {
    d.Some? && IsPersisted(d.value)
  }

  datatype Ids = Ids(forTask: RecordId, forFile: RecordId, forExpiry: RecordId)

  /** The copy with the greatest revision; task.json wins a tie. */
  function Current(s: Store, ids: Ids): Option<Doc> {
    var t, f := Upgraded(s.task, ids.forTask), Upgraded(s.file, ids.forFile);
    if Candidate(t) && Candidate(f) then (if f.value.revision.value > t.value.revision.value then f else t)
    else if Candidate(t) then t
    else if Candidate(f) then f
    else None
  }

  predicate StoredId(d: Option<Doc>, id: Option<RecordId>) {
    d.Some? && d.value.id == id
  }

  /** The writes that make the stored copies and the history agree on `c`. */
  function RepairWrites(s: Store, c: Doc): seq<Write> {
    (if StoredId(s.task, c.id) then [] else [WriteTask(c)]) +
    (if StoredId(s.file, c.id) then [] else [WriteFile(c)]) +
    (if c.historyRequired && !(exists i :: 0 <= i < |s.history| && s.history[i].id == c.id)
     then [AppendHistory(c)] else [])
  }

  function RepairPlan(s: Store, ids: Ids): seq<Write> {
    var c := Current(s, ids);
    if c.None? then [] else RepairWrites(s, c.value)
  }

  const EXPIRED := NewRecord(NEEDS_REVIEW, MANUAL_TEXT, 0, 0)

  /** All writes of `_reconcile_assessments` for one task: repair, then expire a pending label. */
  function ReconcilePlan(s: Store, ids: Ids): seq<Write> {
    var c := Current(s, ids);
    var repair := RepairPlan(s, ids);
    if c.Some? && c.value.status == Some(PENDING)
    then repair + SavePlan(PerformAll(s, repair), EXPIRED, ids.forExpiry)
    else repair
  }

  function Reconcile(s: Store, ids: Ids): Store {
    PerformAll(s, ReconcilePlan(s, ids))
  }

  /** The process stops: memory is gone, a restarted service has no handle for the task. */
  function Restart(s: Store): Store {
    s.(live := false, memory := None)
  }
}
