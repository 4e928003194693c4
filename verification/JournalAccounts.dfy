/** Model-call accounting of the journal, and which save a crash cannot undo. */
module JournalAccounts {
  import opened Sequences
  import opened Journal
  import opened JournalTheorems
  import opened JournalRuns

  /** The call total the next save will start from. */
  function CallTotal(s: Store): nat {
    TotalOf(Previous(s))
  }

  lemma TotalIsTheFiles(s: Store)
    requires Inv(s)
    ensures Candidate(s.file) ==> CallTotal(s) == TotalOf(s.file)
    ensures s.file.None? ==> CallTotal(s) == 0
  {
  }

  lemma WriteKeepsTotal(s: Store, w: Write)
    requires Inv(s) && OkWrite(s, w)
    ensures CallTotal(s) <= CallTotal(Perform(s, w))
  {
    WriteKeepsInv(s, w);
    TotalIsTheFiles(s);
    TotalIsTheFiles(Perform(s, w));
  }

  lemma {:induction false} PrefixKeepsTotal(s: Store, ws: seq<Write>, k: nat)
    requires Inv(s) && OkPlan(s, ws) && k <= |ws|
    ensures CallTotal(s) <= CallTotal(PerformAll(s, ws[..k]))
    decreases |ws|
  {
    if k > 0 {
      WriteKeepsInv(s, ws[0]);
      WriteKeepsTotal(s, ws[0]);
      PrefixKeepsTotal(Perform(s, ws[0]), ws[1..], k - 1);
      assert ws[..k][1..] == ws[1..][..k - 1];
    }
  }

  lemma SaveKeepsTotal(s: Store, value: Doc, id: RecordId, done: nat)
    requires Inv(s) && Raw(value) && FreshId(s, id)
    ensures CallTotal(s) <= CallTotal(Save(s, value, id, done))
  {
    SaveKeepsInv(s, value, id, done);
    SavedIsNewest(s, value, id);
    SaveStages(s, value, id);
    assert done > 3 ==> Save(s, value, id, done) == Save(s, value, id, 3);
    TotalIsTheFiles(s);
    TotalIsTheFiles(Save(s, value, id, done));
  }

  lemma StepKeepsTotal(s: Store, step: Step)
    requires Inv(s)
    ensures CallTotal(s) <= CallTotal(Apply(s, step))
  {
    StepKeepsInv(s, step);
    TotalIsTheFiles(s);
    TotalIsTheFiles(Apply(s, step));
    if Enabled(s, step) {
      match step
      case Publish(status, text, id, fileOk, taskOk) =>
      case SaveStep(value, id, done) => SaveKeepsTotal(s, value, id, done);
      case Stash(value) =>
      case Crash =>
      case RecoverStep(ids, writes) => RecoverKeepsTotal(s, ids, writes);
    }
  }

  lemma RecoverKeepsTotal(s: Store, ids: Ids, writes: nat)
    requires Inv(s) && FreshIds(s, ids)
    ensures CallTotal(s) <= CallTotal(Recover(s, ids, writes))
  {
    var r := Restart(s);
    RestartKeepsInv(s);
    forall d | InStore(r, d) ensures InStore(s, d) {}
    ReconcilePlanOk(r, ids);
    TotalIsTheFiles(s);
    TotalIsTheFiles(r);
    hide Inv;
    var plan := ReconcilePlan(r, ids);
    PrefixKeepsTotal(r, plan, if writes < |plan| then writes else |plan|);
    assert plan[..|plan|] == plan;
  }

  /** `manual_model_calls_total` never falls, whatever fails and however often the service restarts. */
  lemma {:induction false} TotalNeverFalls(s: Store, steps: seq<Step>)
    requires Inv(s)
    ensures CallTotal(s) <= CallTotal(Run(s, steps))
    decreases |steps|
  {
    if steps != [] {
      StepKeepsInv(s, steps[0]);
      StepKeepsTotal(s, steps[0]);
      TotalNeverFalls(Apply(s, steps[0]), steps[1..]);
    }
  }

  // -------------------------------------------------------------- classifier runs

  datatype RunIds = RunIds(pending: RecordId, verdict: RecordId, failure: RecordId)

  const PENDING_LABEL := NewRecord(PENDING, MANUAL_TEXT, 0, 0)

  /** What the classifier thread leaves behind: a pending record, then the verdict; when
      saving the verdict fails after `done1` writes, a failure record is put in memory and saved. */
  ghost function ClassifierRun(s: Store, verdict: Status, text: int, calls: nat, ids: RunIds, done1: nat,
                               done2: nat): Store
  {
    var s1 := Save(s, PENDING_LABEL, ids.pending, 3);
    var s2 := Save(s1, NewRecord(verdict, MANUAL_TEXT, text, calls), ids.verdict, done1);
    if done1 >= 3 then s2 else
      var failed := FailureRecord(s, calls);
      Save(if s2.live then s2.(memory := Some(failed)) else s2, failed, ids.failure, done2)
  }

  function FailureRecord(s: Store, calls: nat): Doc {
    NewRecord(NEEDS_REVIEW, MANUAL_TEXT, 0, calls).(total := Some(CallTotal(s) + calls))
  }

  ghost predicate FreshRun(s: Store, ids: RunIds) {
    FreshId(s, ids.pending) && FreshId(s, ids.verdict) && FreshId(s, ids.failure) &&
    ids.pending != ids.verdict && ids.pending != ids.failure && ids.verdict != ids.failure
  }

  lemma SaveAddsOneId(s: Store, value: Doc, id: RecordId, done: nat, other: RecordId)
    requires Inv(s) && Raw(value) && FreshId(s, id) && FreshId(s, other) && id != other
    ensures FreshId(Save(s, value, id, done), other)
  {
    SaveStages(s, value, id);
    assert done > 3 ==> Save(s, value, id, done) == Save(s, value, id, 3);
    SavedIsNewest(s, value, id);
    forall d | InStore(Save(s, value, id, done), d) ensures InStore(s, d) || d == SavedRecord(s, value, id) {}
  }

  /** The total a save of `value` records when it starts from `before`. */
  function NextTotal(before: nat, value: Doc): nat {
    if value.total.None? then before + value.calls
    else if value.total.value < before then before else value.total.value
  }

  lemma SaveTotal(s: Store, value: Doc, id: RecordId, done: nat)
    requires Inv(s) && Raw(value) && FreshId(s, id)
    ensures var s' := Save(s, value, id, done);
      Inv(s') && s'.live == s.live &&
      CallTotal(s') == (if done == 0 then CallTotal(s) else NextTotal(CallTotal(s), value)) &&
      (done >= 3 ==> s'.task.Some? && s'.task == s'.file && TotalOf(s'.task) == NextTotal(CallTotal(s), value)) &&
      (done == 0 ==> s' == s) && (done >= 1 ==> Candidate(s'.file))
  {
    SaveKeepsInv(s, value, id, done);
    SaveStages(s, value, id);
    assert done > 3 ==> Save(s, value, id, done) == Save(s, value, id, 3);
    SavedIsNewest(s, value, id);
    TotalIsTheFiles(Save(s, value, id, done));
  }

  lemma StashKeepsTotal(s: Store, failed: Doc, id: RecordId)
    requires Inv(s) && Raw(failed) && Candidate(s.file) && FreshId(s, id)
    ensures var s' := if s.live then s.(memory := Some(failed)) else s;
      Inv(s') && CallTotal(s') == CallTotal(s) && FreshId(s', id)
  {
    var s' := if s.live then s.(memory := Some(failed)) else s;
    if s.live { StepKeepsInv(s, Stash(failed)); }
    forall d | InStore(s', d) ensures InStore(s, d) || d == failed {}
    TotalIsTheFiles(s);
    TotalIsTheFiles(s');
  }

  /** A classifier run of `calls` model calls adds exactly `calls` once either save completes:
      never twice when the verdict reached the file before its save failed, and never zero. */
  lemma ClassifierRunCountsOnce(s: Store, verdict: Status, text: int, calls: nat, ids: RunIds, done1: nat, done2: nat)
    requires Inv(s) && FreshRun(s, ids)
    ensures var r := ClassifierRun(s, verdict, text, calls, ids, done1, done2);
      Inv(r) &&
      CallTotal(r) == CallTotal(s) + (if done1 == 0 && done2 == 0 then 0 else calls) &&
      (done1 >= 3 || done2 >= 3 ==> r.task.Some? && r.task == r.file && TotalOf(r.task) == CallTotal(s) + calls)
  {
    hide Save, Inv, CallTotal, FreshId, Candidate, IsPersisted;
    var s1 := Save(s, PENDING_LABEL, ids.pending, 3);
    SaveTotal(s, PENDING_LABEL, ids.pending, 3);
    SaveAddsOneId(s, PENDING_LABEL, ids.pending, 3, ids.verdict);
    SaveAddsOneId(s, PENDING_LABEL, ids.pending, 3, ids.failure);
    var v := NewRecord(verdict, MANUAL_TEXT, text, calls);
    var s2 := Save(s1, v, ids.verdict, done1);
    SaveTotal(s1, v, ids.verdict, done1);
    SaveAddsOneId(s1, v, ids.verdict, done1, ids.failure);
    if done1 < 3 {
      var failed := FailureRecord(s, calls);
      StashKeepsTotal(s2, failed, ids.failure);
      SaveTotal(if s2.live then s2.(memory := Some(failed)) else s2, failed, ids.failure, done2);
    }
  }

  /** `d` is the label with this status, origin, text and call count, under this identity. */
  predicate Is(d: Option<Doc>, status: Status, origin: Origin, text: int, calls: nat, id: RecordId) {
    d.Some? && d.value.version1 && d.value.status == Some(status) && d.value.origin == origin &&
    d.value.text == text && d.value.calls == calls && d.value.id == Some(id) && d.value.historyRequired
  }

  /** After a classifier run the file holds what the classifier said, under the verdict's identity, unless saving
      that failed and the failure record was written over it; so does task.json once a save has run to its end; and
      the history has gained the pending label and each record whose second write was made, in order. */
  ghost predicate Classified(s: Store, r: Store, verdict: Status, text: int, calls: nat, ids: RunIds, done1: nat,
                             done2: nat)
  {
    (if done1 >= 3 || (done1 >= 1 && done2 == 0) then Is(r.file, verdict, MANUAL_TEXT, text, calls, ids.verdict)
     else if done2 >= 1 then Is(r.file, NEEDS_REVIEW, MANUAL_TEXT, 0, calls, ids.failure)
     else Is(r.file, PENDING, MANUAL_TEXT, 0, 0, ids.pending)) &&
    (if done1 >= 3 || done2 >= 3 then r.task == r.file else Is(r.task, PENDING, MANUAL_TEXT, 0, 0, ids.pending)) &&
    (var n, first := |s.history|, if done1 >= 2 then 1 else 0;
     var second := if done1 < 3 && done2 >= 2 then 1 else 0;
     |r.history| == n + 1 + first + second && r.history[..n] == s.history &&
     Is(Some(r.history[n]), PENDING, MANUAL_TEXT, 0, 0, ids.pending) &&
     (first == 1 ==> Is(Some(r.history[n + 1]), verdict, MANUAL_TEXT, text, calls, ids.verdict)) &&
     (second == 1 ==> Is(Some(r.history[n + 1 + first]), NEEDS_REVIEW, MANUAL_TEXT, 0, calls, ids.failure)))
  }

  /** The store between the two saves: the pending label, and the verdict as far as its save got. */
  ghost predicate Midway(s: Store, t: Store, verdict: Status, text: int, calls: nat, ids: RunIds, done1: nat) {
    (if done1 >= 1 then Is(t.file, verdict, MANUAL_TEXT, text, calls, ids.verdict)
     else Is(t.file, PENDING, MANUAL_TEXT, 0, 0, ids.pending)) &&
    (if done1 >= 3 then t.task == t.file else Is(t.task, PENDING, MANUAL_TEXT, 0, 0, ids.pending)) &&
    (var n, first := |s.history|, if done1 >= 2 then 1 else 0;
     |t.history| == n + 1 + first && t.history[..n] == s.history &&
     Is(Some(t.history[n]), PENDING, MANUAL_TEXT, 0, 0, ids.pending) &&
     (first == 1 ==> Is(Some(t.history[n + 1]), verdict, MANUAL_TEXT, text, calls, ids.verdict)))
  }

  lemma SavedIs(s: Store, value: Doc, status: Status, text: int, calls: nat, id: RecordId, done: nat)
    requires done >= 1 && value == NewRecord(status, MANUAL_TEXT, text, calls).(total := value.total)
    ensures Is(Save(s, value, id, done).file, status, MANUAL_TEXT, text, calls, id)
  {
    hide Save;
    SaveLeaves(s, value, id, done);
  }

  lemma MidwayHolds(s: Store, verdict: Status, text: int, calls: nat, ids: RunIds, done1: nat)
    ensures var s1 := Save(s, PENDING_LABEL, ids.pending, 3);
      Midway(s, Save(s1, NewRecord(verdict, MANUAL_TEXT, text, calls), ids.verdict, done1), verdict, text, calls, ids,
             done1)
  {
    hide Save, Is, Shows;
    var v := NewRecord(verdict, MANUAL_TEXT, text, calls);
    var s1 := Save(s, PENDING_LABEL, ids.pending, 3);
    SaveLeaves(s, PENDING_LABEL, ids.pending, 3);
    SavedIs(s, PENDING_LABEL, PENDING, 0, 0, ids.pending, 3);
    SaveLeaves(s1, v, ids.verdict, done1);
    if done1 >= 1 { SavedIs(s1, v, verdict, text, calls, ids.verdict, done1); }
  }

  /** Writing the failure record over it, as far as that gets. */
  lemma FailureOver(s: Store, m: Store, t: Store, verdict: Status, text: int, calls: nat, ids: RunIds, done1: nat,
                    done2: nat, failed: Doc)
    requires Midway(s, m, verdict, text, calls, ids, done1) && done1 < 3
    requires Left(m, t, failed, ids.failure, done2)
    requires done2 >= 1 ==> Is(t.file, NEEDS_REVIEW, MANUAL_TEXT, 0, calls, ids.failure)
    ensures Classified(s, t, verdict, text, calls, ids, done1, done2)
  {
    hide Is, Shows;
    assert done2 >= 2 ==> t.history[..|m.history|] == m.history;
  }

  lemma ClassifierRunStores(s: Store, verdict: Status, text: int, calls: nat, ids: RunIds, done1: nat, done2: nat)
    ensures Classified(s, ClassifierRun(s, verdict, text, calls, ids, done1, done2), verdict, text, calls, ids, done1,
                       done2)
  {
    hide Save, Is, Left, Midway;
    var s1 := Save(s, PENDING_LABEL, ids.pending, 3);
    var s2 := Save(s1, NewRecord(verdict, MANUAL_TEXT, text, calls), ids.verdict, done1);
    MidwayHolds(s, verdict, text, calls, ids, done1);
    if done1 < 3 {
      var failed := FailureRecord(s, calls);
      var m := if s2.live then s2.(memory := Some(failed)) else s2;
      SaveLeaves(m, failed, ids.failure, done2);
      if done2 >= 1 { SavedIs(m, failed, NEEDS_REVIEW, 0, calls, ids.failure, done2); }
      MidwayStash(s, s2, failed, verdict, text, calls, ids, done1);
      FailureOver(s, m, Save(m, failed, ids.failure, done2), verdict, text, calls, ids, done1, done2, failed);
    } else {
      NoFailure(s, s2, verdict, text, calls, ids, done1, done2);
    }
  }

  /** Keeping a label in memory changes none of the copies. */
  lemma MidwayStash(s: Store, m: Store, failed: Doc, verdict: Status, text: int, calls: nat, ids: RunIds, done1: nat)
    requires Midway(s, m, verdict, text, calls, ids, done1)
    ensures Midway(s, m.(memory := Some(failed)), verdict, text, calls, ids, done1)
  {
    hide Is;
  }

  lemma NoFailure(s: Store, m: Store, verdict: Status, text: int, calls: nat, ids: RunIds, done1: nat, done2: nat)
    requires Midway(s, m, verdict, text, calls, ids, done1) && done1 >= 3
    ensures Classified(s, m, verdict, text, calls, ids, done1, done2)
  {
    hide Is;
  }

  // ------------------------------------------------------- which save survives a crash

  /** Once a save's first write is on disk, a restart finds exactly that record. */
  lemma SaveSurvivesCrash(s: Store, value: Doc, id: RecordId, done: nat, ids: Ids)
    requires Inv(s) && Raw(value) && FreshId(s, id) && done >= 1
    ensures Current(Restart(Save(s, value, id, done)), ids) == Some(SavedRecord(s, value, id))
  {
    SaveStages(s, value, id);
    assert done > 3 ==> Save(s, value, id, done) == Save(s, value, id, 3);
    SavedIsNewest(s, value, id);
    if s.task.Some? { assert InStore(s, s.task.value); }
  }

  /** Outside reconciled stores the same holds exactly unless task.json still carries an
      older-format label and no copy has a revision yet: then the upgraded old label and the
      new record both get revision 1, and the tie goes to the old label. */
  lemma SaveSurvivesCrashIff(s: Store, value: Doc, id: RecordId, done: nat, ids: Ids)
    requires !s.live && Raw(value) && 1 <= done <= 2
    requires FreshId(s, id) && id != ids.forTask
    ensures Current(Restart(Save(s, value, id, done)), ids) == Some(SavedRecord(s, value, id)) <==>
            !(Upgradable(s.task) && PriorRevision(Previous(s)) == 0)
  {
    SaveStages(s, value, id);
    if s.task.Some? { assert InStore(s, s.task.value); }
  }

  lemma TieGoesToOldLabel(s: Store, value: Doc, id: RecordId, ids: Ids)
    requires !s.live && s.memory.None? && Raw(value) && Upgradable(s.task) && PriorRevision(Previous(s)) == 0
    ensures var crashed := Save(s, value, id, 1); var v := SavedRecord(s, value, id);
      crashed == s.(file := Some(v)) && v.status == value.status && v.id == Some(id) &&
      Restart(crashed) == crashed && Current(crashed, ids) == Upgraded(s.task, ids.forTask)
  {
    SaveStages(s, value, id);
  }

  /** A completed reconciliation leaves no label of the older format, so after it no save can be lost this way. */
  lemma ReconciledLosesNoSave(s: Store, ids: Ids, value: Doc, id: RecordId, done: nat, next: Ids)
    requires !s.live && s.memory.None? && Identified(s) && AtMostOnce(s.history) && FreshIds(s, ids)
    requires Raw(value) && 1 <= done <= 2 && FreshId(Reconcile(s, ids), id) && id != next.forTask
    ensures var r := Reconcile(s, ids);
      !Upgradable(r.task) && !Upgradable(r.file) &&
      Current(Restart(Save(r, value, id, done)), next) == Some(SavedRecord(r, value, id))
  {
    var r := Reconcile(s, ids);
    ReconcileConverges(s, ids);
    CurrentIsGreatest(s, ids);
    assert !r.live by { ReconciledIsOffline(s, ids); }
    assert !Upgradable(r.task) && !Upgradable(r.file);
    hide Reconcile, Save, Current, SavedRecord, Settled;
    SaveSurvivesCrashIff(r, value, id, done, next);
  }

  lemma ReconciledIsOffline(s: Store, ids: Ids)
    requires !s.live
    ensures !Reconcile(s, ids).live
  {
    StaysOffline(s, ReconcilePlan(s, ids));
  }

  lemma {:induction false} StaysOffline(s: Store, ws: seq<Write>)
    requires !s.live
    ensures !PerformAll(s, ws).live
    decreases |ws|
  {
    if ws != [] { StaysOffline(Perform(s, ws[0]), ws[1..]); }
  }

  /** The loss on a concrete store: an old `normal` label, a new `abnormal` verdict whose
      save stops after its first write, and a restart that puts `normal` back everywhere. */
  lemma OldLabelWinsTie()
    ensures var before := Doc(true, Some(NORMAL), NATIVE, 1, 0, None, None, None, false);
      var s := Store(Some(before), None, [], false, None);
      var crashed := Save(s, NewRecord(ABNORMAL, NATIVE_REUSE, 2, 0), 7, 1);
      var r := Reconcile(Restart(crashed), Ids(8, 9, 10));
      crashed.file.Some? && crashed.file.value.status == Some(ABNORMAL) &&
      r.task.Some? && r.task.value.status == Some(NORMAL) && r.file == r.task
  {
    var before := Doc(true, Some(NORMAL), NATIVE, 1, 0, None, None, None, false);
    var s := Store(Some(before), None, [], false, None);
    var ids := Ids(8, 9, 10);
    var value := NewRecord(ABNORMAL, NATIVE_REUSE, 2, 0);
    TieGoesToOldLabel(s, value, 7, ids);
    var crashed := Save(s, value, 7, 1);
    hide Save, SavedRecord, Current, PerformAll;
    PerformRepair(crashed, ids);
  }
}
