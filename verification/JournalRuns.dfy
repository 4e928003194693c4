/** Whole runs of the assessment journal: saves that fail part-way, crashes at any write,
    restarts that are themselves interrupted, in any order and number. */
module JournalRuns {
  import opened Sequences
  import opened Journal
  import opened JournalTheorems

  // --------------------------------------------------------------------- invariant

  /** `d` is no later than `top`: an older revision with no larger call total, or `top` itself. */
  ghost predicate NotLater(d: Option<Doc>, top: Doc) {
    Candidate(d) && top.revision.Some? ==>
      d.value.revision.value <= top.revision.value && TotalOf(d) <= TotalOf(Some(top)) &&
      (d.value.revision.value == top.revision.value ==> d.value == top)
  }

  /** History revisions strictly increase and end at or before the file's record. */
  ghost predicate Logged(s: Store) {
    (forall i :: 0 <= i < |s.history| ==> IsPersisted(s.history[i])) &&
    (forall i, j :: 0 <= i < j < |s.history| ==> s.history[i].revision.value < s.history[j].revision.value) &&
    (s.history != [] ==> Candidate(s.file)) &&
    (Candidate(s.file) ==> forall i :: 0 <= i < |s.history| ==> NotLater(Some(s.history[i]), s.file.value))
  }

  /** The failure record stashed in memory before it is saved has no identity yet. */
  predicate Unsaved(d: Option<Doc>) {
    d.Some? && d.value.id.None? && d.value.revision.None?
  }

  ghost predicate Copies(s: Store) {
    (s.task.None? || Candidate(s.task)) && (s.file.None? || Candidate(s.file)) &&
    (!s.live ==> s.memory.None?) &&
    (s.memory.None? || Candidate(s.memory) || (Unsaved(s.memory) && Candidate(s.file))) &&
    (Candidate(s.file) ==> NotLater(s.task, s.file.value) && NotLater(s.memory, s.file.value)) &&
    (s.file.None? && s.live && s.task.Some? ==> s.task == s.memory) &&
    (s.file.None? ==> TotalOf(s.task) == 0 && TotalOf(s.memory) == 0)
  }

  ghost predicate Inv(s: Store) {
    Identified(s) && Logged(s) && Copies(s)
  }

  lemma LoggedOnce(s: Store)
    requires Inv(s)
    ensures AtMostOnce(s.history)
  {
    forall i, j | 0 <= i < j < |s.history| && s.history[i].id.Some? ensures s.history[i].id != s.history[j].id {
      assert InStore(s, s.history[i]) && InStore(s, s.history[j]);
    }
  }

  // ------------------------------------------------------- one write at a time

  /** A record that is new to the store and later than everything in it. */
  ghost predicate Newest(s: Store, d: Doc) {
    IsPersisted(d) && FreshId(s, d.id.value) &&
    (forall e :: InStore(s, e) && IsPersisted(e) ==> e.revision.value < d.revision.value) &&
    (Candidate(s.task) ==> TotalOf(s.task) <= TotalOf(Some(d))) &&
    (Candidate(s.file) ==> TotalOf(s.file) <= TotalOf(Some(d))) &&
    (Candidate(s.memory) ==> TotalOf(s.memory) <= TotalOf(Some(d))) &&
    (forall i :: 0 <= i < |s.history| ==> TotalOf(Some(s.history[i])) <= TotalOf(Some(d)))
  }

  ghost predicate OkWrite(s: Store, w: Write) {
    match w
    case WriteFile(d) => Newest(s, d) || (!s.live && s.file.None? && s.task == Some(d))
    case AppendHistory(d) => s.file == Some(d) && !InHistory(s.history, d.id)
    case WriteTask(d) => s.file == Some(d)
  }

  lemma WriteKeepsInv(s: Store, w: Write)
    requires Inv(s) && OkWrite(s, w)
    ensures Inv(Perform(s, w))
  {
    match w
    case WriteFile(d) =>
      if Newest(s, d) {
        NewestKeepsInv(s, d);
      } else {
        CopyKeepsInv(s, d);
      }
    case AppendHistory(d) => AppendKeepsInv(s, d);
    case WriteTask(d) => WriteTaskKeepsInv(s, d);
  }

  lemma CopyKeepsInv(s: Store, d: Doc)
    requires Inv(s) && !s.live && s.file.None? && s.task == Some(d)
    ensures Inv(s.(file := Some(d)))
  {
    forall e | InStore(s.(file := Some(d)), e) ensures InStore(s, e) {}
  }

  lemma AppendKeepsInv(s: Store, d: Doc)
    requires Inv(s) && s.file == Some(d) && !InHistory(s.history, d.id)
    ensures Inv(s.(history := s.history + [d]))
  {
    forall e | InStore(s.(history := s.history + [d]), e) ensures InStore(s, e) {}
    forall i | 0 <= i < |s.history| ensures s.history[i].revision.value < d.revision.value {
      assert NotLater(Some(s.history[i]), d);
    }
  }

  lemma WriteTaskKeepsInv(s: Store, d: Doc)
    requires Inv(s) && s.file == Some(d)
    ensures Inv(Perform(s, WriteTask(d)))
  {
    forall e | InStore(Perform(s, WriteTask(d)), e) ensures InStore(s, e) {}
  }

  lemma NewestKeepsInv(s: Store, d: Doc)
    requires Inv(s) && Newest(s, d)
    ensures Inv(s.(file := Some(d)))
  {
    var s' := s.(file := Some(d));
    forall e | InStore(s', e) ensures InStore(s, e) || e == d {}
    forall i | 0 <= i < |s.history| ensures NotLater(Some(s.history[i]), d) {
      assert InStore(s, s.history[i]);
    }
    if s.task.Some? { assert InStore(s, s.task.value); }
    if s.memory.Some? { assert InStore(s, s.memory.value); }
  }

  ghost predicate OkPlan(s: Store, ws: seq<Write>)
    decreases |ws|
  {
    ws != [] ==> OkWrite(s, ws[0]) && OkPlan(Perform(s, ws[0]), ws[1..])
  }

  lemma {:induction false} PrefixKeepsInv(s: Store, ws: seq<Write>, k: nat)
    requires Inv(s) && OkPlan(s, ws) && k <= |ws|
    ensures Inv(PerformAll(s, ws[..k]))
    decreases |ws|
  {
    if k > 0 {
      WriteKeepsInv(s, ws[0]);
      PrefixKeepsInv(Perform(s, ws[0]), ws[1..], k - 1);
      assert ws[..k][1..] == ws[1..][..k - 1];
    }
  }

  lemma {:induction false} PlanAppend(s: Store, a: seq<Write>, b: seq<Write>)
    requires OkPlan(s, a) && OkPlan(PerformAll(s, a), b)
    ensures OkPlan(s, a + b)
    decreases |a|
  {
    if a == [] {
      assert a + b == b;
    } else {
      assert (a + b)[1..] == a[1..] + b;
      PlanAppend(Perform(s, a[0]), a[1..], b);
    }
  }

  // ------------------------------------------------------------------------- saves

  /** Values handed to a save come from `record`: no identity or revision yet. */
  predicate Raw(value: Doc) {
    value.version1 && value.status.Some? && value.id.None? && value.revision.None?
  }

  /** Every save makes a record later than everything it could read, with a total that
      covers all earlier calls and its own. */
  lemma SavedIsNewest(s: Store, value: Doc, freshId: RecordId)
    requires Inv(s) && Raw(value) && FreshId(s, freshId)
    ensures var v := SavedRecord(s, value, freshId);
      Newest(s, v) && v.id == Some(freshId) && v.historyRequired && v.total.Some? &&
      TotalOf(Previous(s)) <= TotalOf(Some(v)) &&
      (value.total.None? ==> TotalOf(Some(v)) == TotalOf(Previous(s)) + value.calls)
  {
    var v := SavedRecord(s, value, freshId);
    forall e | InStore(s, e) && IsPersisted(e) ensures e.revision.value < v.revision.value {
      if e in s.history {
        var i :| 0 <= i < |s.history| && s.history[i] == e;
        assert NotLater(Some(s.history[i]), s.file.value);
      }
    }
    forall i | 0 <= i < |s.history| ensures TotalOf(Some(s.history[i])) <= TotalOf(Some(v)) {
      assert NotLater(Some(s.history[i]), s.file.value);
    }
  }

  /** The revision a stored label carries, 0 for none. */
  function RevisionIn(d: Option<Doc>): int {
    if d.Some? && d.value.revision.Some? && d.value.revision.value > 0 then d.value.revision.value else 0
  }

  /** `d` shows exactly what `value` says, under a revision, an identity and a total of its own. */
  predicate Shows(d: Doc, value: Doc) {
    d.version1 == value.version1 && d.status == value.status && d.origin == value.origin &&
    d.text == value.text && d.calls == value.calls
  }

  /** What a save adds to the label it is given: the next revision after those of the row and the file, the new
      identity, the total of calls so far, and that it must be in the history; nothing else changes. */
  lemma SavedMeaning(s: Store, value: Doc, freshId: RecordId)
    requires Raw(value)
    ensures var v := SavedRecord(s, value, freshId); var row := if s.live then s.memory else s.task;
      var filed := if s.file.Some? && IsPersisted(s.file.value) then RevisionIn(s.file) else 0;
      Shows(v, value) && v.id == Some(freshId) && v.historyRequired && v.total.Some? &&
      v.revision == Some(1 + if filed > RevisionIn(row) then filed else RevisionIn(row)) &&
      (var before := TotalOf(if filed > RevisionIn(row) then s.file else row);
       value.total.None? ==> v.total.value == before + value.calls) &&
      (var before := TotalOf(if filed > RevisionIn(row) then s.file else row);
       value.total.Some? ==> v.total.value >= before && v.total.value >= value.total.value &&
                             (v.total.value == before || v.total.value == value.total.value))
  {
  }

  lemma {:induction false} SavePlanOk(s: Store, value: Doc, freshId: RecordId)
    requires Inv(s) && Raw(value) && FreshId(s, freshId)
    ensures OkPlan(s, SavePlan(s, value, freshId))
  {
    SavedIsNewest(s, value, freshId);
    var v := SavedRecord(s, value, freshId);
    var w := SavePlan(s, value, freshId);
    forall i | 0 <= i < |s.history| ensures s.history[i].id != v.id {
      assert InStore(s, s.history[i]);
    }
    var s1 := Perform(s, WriteFile(v));
    var s2 := Perform(s1, AppendHistory(v));
    OneOk(s, WriteFile(v));
    OneOk(s1, AppendHistory(v));
    OneOk(s2, WriteTask(v));
    PlanAppend(s1, [AppendHistory(v)], [WriteTask(v)]);
    PlanAppend(s, [WriteFile(v)], [AppendHistory(v)] + [WriteTask(v)]);
    assert w == [WriteFile(v)] + ([AppendHistory(v)] + [WriteTask(v)]);
  }

  lemma {:induction false} OneOk(s: Store, w: Write)
    requires OkWrite(s, w)
    ensures OkPlan(s, [w]) && PerformAll(s, [w]) == Perform(s, w)
  {
    assert [w][1..] == [];
  }

  lemma SaveKeepsInv(s: Store, value: Doc, freshId: RecordId, done: nat)
    requires Inv(s) && Raw(value) && FreshId(s, freshId)
    ensures Inv(Save(s, value, freshId, done))
  {
    SavePlanOk(s, value, freshId);
    var plan := SavePlan(s, value, freshId);
    PrefixKeepsInv(s, plan, if done < 3 then done else 3);
    assert plan[..3] == plan;
    if done == 2 && s.live {
      SaveStages(s, value, freshId);
      var s1 := PerformAll(s, plan[..2]);
      var v := SavedRecord(s, value, freshId);
      SavedIsNewest(s, value, freshId);
      var s2 := s1.(memory := Some(v));
      assert s1.file == Some(v);
      forall d | InStore(s2, d) ensures InStore(s1, d) {}
    }
  }

  /** What is on disk after each number of successful writes of one save. */
  lemma {:induction false} SaveStages(s: Store, value: Doc, freshId: RecordId)
    ensures var v := SavedRecord(s, value, freshId);
      Save(s, value, freshId, 0) == s &&
      Save(s, value, freshId, 1) == s.(file := Some(v)) &&
      Save(s, value, freshId, 2) ==
        s.(file := Some(v), history := s.history + [v], memory := if s.live then Some(v) else s.memory) &&
      Save(s, value, freshId, 3) ==
        s.(file := Some(v), history := s.history + [v], task := Some(v),
           memory := if s.live then Some(v) else s.memory)
    ensures var v := SavedRecord(s, value, freshId);
      PerformAll(s, SavePlan(s, value, freshId)[..2]) == s.(file := Some(v), history := s.history + [v])
  {
    var v := SavedRecord(s, value, freshId);
    var w := SavePlan(s, value, freshId);
    PerformSave(s, v);
    assert w[..0] == [] && w[..1] == [WriteFile(v)] && w[..2] == [WriteFile(v)] + [AppendHistory(v)];
    PerformAppend(s, [WriteFile(v)], [AppendHistory(v)]);
    PerformOne(s, [WriteFile(v)]);
    PerformOne(Perform(s, WriteFile(v)), [AppendHistory(v)]);
  }

  /** What a save of a label leaves behind after `done` of its writes, none of which changes what the label says. */
  ghost predicate Left(s: Store, t: Store, value: Doc, freshId: RecordId, done: nat) {
    if done == 0 then t == s
    else
      t.file.Some? && Shows(t.file.value, value) && t.file.value.historyRequired && t.live == s.live &&
      (value.id.None? ==> t.file.value.id == Some(freshId)) &&
      t.history == (if done == 1 then s.history else s.history + [t.file.value]) &&
      t.task == (if done < 3 then s.task else t.file) &&
      t.memory == (if done == 1 || !s.live then s.memory else t.file)
  }

  lemma SaveLeaves(s: Store, value: Doc, freshId: RecordId, done: nat)
    ensures Left(s, Save(s, value, freshId, done), value, freshId, done)
  {
    SaveStages(s, value, freshId);
    var v := SavedRecord(s, value, freshId);
    assert Shows(v, value) && v.historyRequired && (value.id.None? ==> v.id == Some(freshId));
    assert done > 3 ==> Save(s, value, freshId, done) == Save(s, value, freshId, 3);
    hide Save, SavedRecord, SavePlan, PerformAll, Shows;
  }

  // --------------------------------------------------------------------- recovery

  lemma RestartKeepsInv(s: Store)
    requires Inv(s)
    ensures Inv(Restart(s))
  {
    forall d | InStore(Restart(s), d) ensures InStore(s, d) {}
  }

  lemma {:induction false} RepairPlanOk(s: Store, ids: Ids)
    requires Inv(s) && !s.live
    ensures OkPlan(s, RepairPlan(s, ids))
  {
    var c := Current(s, ids);
    if c.Some? {
      var d := c.value;
      assert InStore(s, d);
      if s.task.Some? { assert InStore(s, s.task.value); }
      if s.file.Some? { assert InStore(s, s.file.value); }
      var a := if StoredId(s.task, d.id) then [] else [WriteTask(d)];
      var b := if StoredId(s.file, d.id) then [] else [WriteFile(d)];
      var l := if d.historyRequired && !InHistory(s.history, d.id) then [AppendHistory(d)] else [];
      assert RepairPlan(s, ids) == a + (b + l);
      assert a == [] || b == [];
      assert a != [] ==> OkWrite(s, WriteTask(d));
      var s1 := PerformAll(s, a);
      PerformOne(s, a);
      assert b != [] ==> OkWrite(s1, WriteFile(d));
      var s2 := PerformAll(s1, b);
      PerformOne(s1, b);
      assert l != [] ==> OkWrite(s2, AppendHistory(d));
      if a != [] { OneOk(s, WriteTask(d)); }
      if b != [] { OneOk(s1, WriteFile(d)); }
      if l != [] { OneOk(s2, AppendHistory(d)); }
      PlanAppend(s1, b, l);
      PlanAppend(s, a, b + l);
    }
  }

  lemma {:induction false} ReconcilePlanOk(s: Store, ids: Ids)
    requires Inv(s) && !s.live && FreshIds(s, ids)
    ensures OkPlan(s, ReconcilePlan(s, ids))
  {
    RepairPlanOk(s, ids);
    var c := Current(s, ids);
    if c.Some? && c.value.status == Some(PENDING) {
      var m := PerformAll(s, RepairPlan(s, ids));
      RepairedIsOk(s, ids);
      hide Inv, OkPlan, RepairPlan, FreshIds;
      SavePlanOk(m, EXPIRED, ids.forExpiry);
      PlanAppend(s, RepairPlan(s, ids), SavePlan(m, EXPIRED, ids.forExpiry));
    }
  }

  /** After the repair writes the invariant holds and the expiry identity is still new. */
  lemma {:induction false} RepairedIsOk(s: Store, ids: Ids)
    requires Inv(s) && !s.live && FreshIds(s, ids) && Current(s, ids).Some?
    requires Current(s, ids).value.status == Some(PENDING)
    ensures var m := PerformAll(s, RepairPlan(s, ids)); Inv(m) && FreshId(m, ids.forExpiry)
  {
    var plan := RepairPlan(s, ids);
    RepairPlanOk(s, ids);
    PrefixKeepsInv(s, plan, |plan|);
    assert plan[..|plan|] == plan;
    hide Inv, OkPlan;
    RepairAddsNothing(s, ids);
  }

  /** The repair writes put in no record that was nowhere before. */
  lemma {:induction false} RepairAddsNothing(s: Store, ids: Ids)
    requires Inv(s) && !s.live && FreshIds(s, ids) && Current(s, ids).Some?
    requires Current(s, ids).value.status == Some(PENDING)
    ensures forall d :: InStore(PerformAll(s, RepairPlan(s, ids)), d) ==> InStore(s, d)
  {
    var c, m := Current(s, ids), PerformAll(s, RepairPlan(s, ids));
    PerformRepair(s, ids);
    assert InStore(s, c.value);
    hide Inv;
    forall d | InStore(m, d) ensures InStore(s, d) {
      if d in m.history && d !in s.history { assert d == c.value; }
    }
  }

  /** A restart whose reconciliation is cut off after `writes` writes. */
  ghost function Recover(s: Store, ids: Ids, writes: nat): Store {
    var plan := ReconcilePlan(Restart(s), ids);
    PerformAll(Restart(s), if writes < |plan| then plan[..writes] else plan)
  }

  lemma RecoverKeepsInv(s: Store, ids: Ids, writes: nat)
    requires Inv(s) && FreshIds(s, ids)
    ensures Inv(Recover(s, ids, writes))
  {
    var r := Restart(s);
    RestartKeepsInv(s);
    forall d | InStore(r, d) ensures InStore(s, d) {}
    ReconcilePlanOk(r, ids);
    var plan := ReconcilePlan(r, ids);
    PrefixKeepsInv(r, plan, if writes < |plan| then writes else |plan|);
    assert plan[..|plan|] == plan;
  }

  // -------------------------------------------------------------------------- runs

  datatype Step =
    | Publish(status: Status, text: int, id: RecordId, fileOk: bool, taskOk: bool)
    | SaveStep(value: Doc, id: RecordId, done: nat)
    | Stash(value: Doc)
    | Crash
    | RecoverStep(ids: Ids, writes: nat)

  const NEW_TASK := Store(None, None, [], true, None)

  /** The native answer's own label, written once before any save (`finish_native_answer`);
      a failed file write downgrades the copy in memory. */
  ghost function Published(s: Store, status: Status, text: int, id: RecordId, fileOk: bool, taskOk: bool): Store {
    var r := PersistedRecord(NewRecord(status, NATIVE, text, 0), None, false, id);
    var m := if fileOk then r else r.(status := Some(NEEDS_REVIEW));
    s.(file := if fileOk then Some(r) else s.file, memory := Some(m), task := if taskOk then Some(m) else s.task)
  }

  ghost predicate Enabled(s: Store, step: Step) {
    match step
    case Publish(_, _, id, _, _) => s == NEW_TASK
    case SaveStep(value, id, _) => Raw(value) && FreshId(s, id)
    case Stash(value) => s.live && Raw(value) && Candidate(s.file)
    case Crash => true
    case RecoverStep(ids, _) => FreshIds(s, ids)
  }

  ghost function Apply(s: Store, step: Step): Store {
    if !Enabled(s, step) then s else
      match step
      case Publish(status, text, id, fileOk, taskOk) => Published(s, status, text, id, fileOk, taskOk)
      case SaveStep(value, id, done) => Save(s, value, id, done)
      case Stash(value) => s.(memory := Some(value))
      case Crash => Restart(s)
      case RecoverStep(ids, writes) => Recover(s, ids, writes)
  }

  lemma PublishKeepsInv(status: Status, text: int, id: RecordId, fileOk: bool, taskOk: bool)
    ensures Inv(Published(NEW_TASK, status, text, id, fileOk, taskOk))
  {
  }

  lemma StashKeepsInv(s: Store, value: Doc)
    requires Inv(s) && s.live && Raw(value) && Candidate(s.file)
    ensures Inv(s.(memory := Some(value)))
  {
    forall d | InStore(s.(memory := Some(value)), d) ensures InStore(s, d) || d == value {}
  }

  lemma StepKeepsInv(s: Store, step: Step)
    requires Inv(s)
    ensures Inv(Apply(s, step))
  {
    hide Inv, Published, Save, Restart, Recover, FreshId, FreshIds;
    if Enabled(s, step) {
      match step
      case Publish(status, text, id, fileOk, taskOk) => PublishKeepsInv(status, text, id, fileOk, taskOk);
      case SaveStep(value, id, done) => SaveKeepsInv(s, value, id, done);
      case Stash(value) => StashKeepsInv(s, value);
      case Crash => RestartKeepsInv(s);
      case RecoverStep(ids, writes) => RecoverKeepsInv(s, ids, writes);
    }
  }

  ghost function Run(s: Store, steps: seq<Step>): Store
    decreases |steps|
  {
    if steps == [] then s else Run(Apply(s, steps[0]), steps[1..])
  }

  // -------------------------------------------------------------------------- what a run is

  /** A native answer publishes a label of revision 1 in memory; task.json and the file have it if their writes
      succeed, and if the file has not, the other two need a review. */
  ghost predicate PublishedAs(s: Store, t: Store, status: Status, text: int, id: RecordId, fileOk: bool, taskOk: bool) {
    t.live == s.live && t.history == s.history && t.memory.Some? &&
    (var d := t.memory.value;
     d.version1 && d.status == Some(if fileOk then status else NEEDS_REVIEW) && d.origin == NATIVE && d.text == text &&
     d.calls == 0 && d.total.None? && d.revision == Some(1) && d.id == Some(id) && !d.historyRequired) &&
    t.task == (if taskOk then t.memory else s.task) && t.file == (if fileOk then t.memory else s.file)
  }

  /** What each step of a run does to the store; a step that cannot take place does nothing. */
  ghost predicate Stepped(s: Store, step: Step, t: Store) {
    match step
    case Publish(status, text, id, fileOk, taskOk) =>
      if s == NEW_TASK then PublishedAs(s, t, status, text, id, fileOk, taskOk) else t == s
    case SaveStep(value, id, done) => if Raw(value) && FreshId(s, id) then Left(s, t, value, id, done) else t == s
    case Stash(value) =>
      t.task == s.task && t.file == s.file && t.history == s.history && t.live == s.live &&
      t.memory == if s.live && Raw(value) && Candidate(s.file) then Some(value) else s.memory
    case Crash => t.task == s.task && t.file == s.file && t.history == s.history && !t.live && t.memory.None?
    case RecoverStep(ids, writes) =>
      FreshIds(s, ids) && writes >= |ReconcilePlan(Restart(s), ids)| ==> t == Reconcile(Restart(s), ids)
  }

  lemma StepMeaning(s: Store, step: Step)
    ensures Stepped(s, step, Apply(s, step))
  {
    hide Left, Save, Raw, FreshId, FreshIds, ReconcilePlan;
    match step
    case Publish(_, _, _, _, _) => PublishMeaning(s, step);
    case SaveStep(value, id, done) => SaveLeaves(s, value, id, done);
    case Stash(value) =>
    case Crash =>
    case RecoverStep(ids, writes) =>
  }

  lemma PublishMeaning(s: Store, step: Step)
    requires step.Publish?
    ensures Stepped(s, step, Apply(s, step))
  {
  }

  /** A run is its steps one after the other. */
  lemma {:induction false} RunInTurn(s: Store, a: seq<Step>, b: seq<Step>)
    ensures Run(s, a + b) == Run(Run(s, a), b)
    ensures forall step :: Run(s, [step]) == Apply(s, step)
    decreases |a|
  {
    hide Apply;
    if a == [] {
      assert a + b == b;
    } else {
      assert (a + b)[1..] == a[1..] + b;
      RunInTurn(Apply(s, a[0]), a[1..], b);
    }
    forall step ensures Run(s, [step]) == Apply(s, step) {
      assert Run(Apply(s, step), []) == Apply(s, step);
    }
  }

  lemma {:induction false} RunKeepsInv(s: Store, steps: seq<Step>)
    requires Inv(s)
    ensures Inv(Run(s, steps))
    decreases |steps|
  {
    if steps != [] {
      StepKeepsInv(s, steps[0]);
      RunKeepsInv(Apply(s, steps[0]), steps[1..]);
    }
  }

  /** After any history of partial saves, crashes and interrupted restarts, a restart that
      completes leaves one finished record everywhere, the latest that ever reached the disk. */
  lemma {:induction false} EveryRunRecovers(steps: seq<Step>, ids: Ids)
    requires FreshIds(Run(NEW_TASK, steps), ids)
    ensures var s := Run(NEW_TASK, steps); var r := Reconcile(Restart(s), ids);
      Settled(r) && AtMostOnce(r.history) && Inv(r) &&
      (Candidate(s.file) && s.file.value.status != Some(PENDING) ==> r.task == s.file && r.file == s.file) &&
      (Candidate(s.file) && s.file.value.status == Some(PENDING) ==>
         r.task.Some? && r.task.value.status == Some(NEEDS_REVIEW) && TotalOf(r.task) == TotalOf(s.file)) &&
      (s.file.None? && s.task.Some? && s.task.value.status != Some(PENDING) ==> r.task == s.task && r.file == s.task)
  {
    RunKeepsInv(NEW_TASK, steps);
    var s := Run(NEW_TASK, steps);
    hide Inv, Reconcile, Run, FreshIds;
    FullRecovery(s, ids);
    RecoveredRecord(s, ids);
  }

  lemma FullRecovery(s: Store, ids: Ids)
    requires Inv(s) && FreshIds(s, ids)
    ensures var r := Restart(s);
      Identified(r) && AtMostOnce(r.history) && FreshIds(r, ids) && !r.live && r.memory.None?
    ensures var r := Reconcile(Restart(s), ids); Settled(r) && AtMostOnce(r.history) && Inv(r)
  {
    var r := Restart(s);
    RestartKeepsInv(s);
    LoggedOnce(r);
    forall d | InStore(r, d) ensures InStore(s, d) {}
    ReconcileConverges(r, ids);
    RecoverKeepsInv(s, ids, |ReconcilePlan(r, ids)|);
  }

  /** The record a complete restart settles on is that of the file, or its expiry; without a file, the label. */
  lemma RecoveredRecord(s: Store, ids: Ids)
    requires Inv(s) && FreshIds(s, ids)
    ensures var r := Reconcile(Restart(s), ids);
      (Candidate(s.file) && s.file.value.status != Some(PENDING) ==> r.task == s.file && r.file == s.file) &&
      (Candidate(s.file) && s.file.value.status == Some(PENDING) ==>
         r.task.Some? && r.task.value.status == Some(NEEDS_REVIEW) && TotalOf(r.task) == TotalOf(s.file)) &&
      (s.file.None? && s.task.Some? && s.task.value.status != Some(PENDING) ==> r.task == s.task && r.file == s.task)
  {
    FullRecovery(s, ids);
    ReconcileConverges(Restart(s), ids);
    hide Reconcile, FreshIds, AtMostOnce;
  }

  /** History revisions strictly increase in every run. */
  lemma {:induction false} HistoryRevisionsIncrease(steps: seq<Step>, i: nat, j: nat)
    requires i < j < |Run(NEW_TASK, steps).history|
    ensures var h := Run(NEW_TASK, steps).history;
      h[i].revision.Some? && h[j].revision.Some? && h[i].revision.value < h[j].revision.value &&
      h[i].id != h[j].id
  {
    RunKeepsInv(NEW_TASK, steps);
    LoggedOnce(Run(NEW_TASK, steps));
  }
}
