/** `_save_assessment_locked`, the classifier thread and `_reconcile_assessments` of one task,
    writing the three places one after the other, each proved to do what module Journal says. */
module JournalService {
  import opened Sequences
  import opened Journal
  import opened JournalTheorems
  import opened JournalRuns
  import opened JournalAccounts

  class AssessmentFiles {
    var task: Option<Doc>
    var file: Option<Doc>
    var history: seq<Doc>
    var live: bool
    var memory: Option<Doc>

    ghost function View(): Store
      reads this
    {
      Store(task, file, history, live, memory)
    }

    constructor ()
      ensures View() == NEW_TASK
    {
      task, file, history, live, memory := None, None, [], true, None;
    }

    /** Saves one record; the write after `done` successful ones raises. */
    method SaveAssessmentLocked(value: Doc, freshId: RecordId, done: nat) returns (ok: bool)
      modifies this
      ensures View() == Save(old(View()), value, freshId, done) && ok == (done >= 3)
      ensures Left(old(View()), View(), value, freshId, done)
    {
      hide PersistedRecord, PerformAll, SavePlan;
      SaveLeaves(View(), value, freshId, done);
      hide Left;
      SaveStages(View(), value, freshId);
      assert done > 3 ==> Save(View(), value, freshId, done) == Save(View(), value, freshId, 3);
      var previous := if live then memory else task;
      if file.Some? && IsPersisted(file.value) && file.value.revision.value > PriorRevision(previous) {
        previous := file;
      }
      var previousTotal := if previous.Some? && previous.value.total.Some? then previous.value.total.value else 0;
      var record := value;
      if record.total.Some? {
        if record.total.value < previousTotal {
          record := record.(total := Some(previousTotal));
        }
      } else {
        record := record.(total := Some(previousTotal + record.calls));
      }
      record := PersistedRecord(record, previous, true, freshId);
      assert record == SavedRecord(old(View()), value, freshId);
      hide Save, SavedRecord, Previous, IsPersisted;
      if done == 0 { return false; }
      file := Some(record);
      if done == 1 { return false; }
      history := history + [record];
      if live {
        memory := Some(record);
      }
      if done == 2 { return false; }
      task := Some(record);
      return true;
    }

    /** The classifier thread: pending label, verdict, and on a storage error the failure record.  `verdict`, `text` and
        `calls` are what the thread hands over: the classifier's answer, or what stands in for it when it raised, when
        the text has changed meanwhile, or in shutdown. */
    method RunClassifier(verdict: Status, text: int, calls: nat, ids: RunIds, done1: nat, done2: nat)
      requires Inv(View()) && FreshRun(View(), ids)
      modifies this
      ensures View() == ClassifierRun(old(View()), verdict, text, calls, ids, done1, done2)
      ensures CallTotal(View()) == old(CallTotal(View())) + (if done1 == 0 && done2 == 0 then 0 else calls)
      ensures Classified(old(View()), View(), verdict, text, calls, ids, done1, done2)
    {
      ClassifierRunStores(View(), verdict, text, calls, ids, done1, done2);
      hide Save, Inv, CallTotal, FreshId, Candidate, IsPersisted, Classified, Left;
      ghost var start := View();
      ClassifierRunCountsOnce(start, verdict, text, calls, ids, done1, done2);
      SaveTotal(start, PENDING_LABEL, ids.pending, 3);
      var ok := SaveAssessmentLocked(PENDING_LABEL, ids.pending, 3);
      var pendingTotal := if file.Some? && file.value.total.Some? then file.value.total.value else 0;
      assert pendingTotal == CallTotal(start);
      ok := SaveAssessmentLocked(NewRecord(verdict, MANUAL_TEXT, text, calls), ids.verdict, done1);
      if !ok {
        var failed := NewRecord(NEEDS_REVIEW, MANUAL_TEXT, 0, calls).(total := Some(pendingTotal + calls));
        if live {
          memory := Some(failed);
        }
        ok := SaveAssessmentLocked(failed, ids.failure, done2);
      }
    }

    /** The repair writes for `current`; `stopped` says the process ended before the last one. */
    method WriteRepairs(current: Doc, budget: nat) returns (left: nat, stopped: bool)
      requires !live
      modifies this
      ensures var plan := RepairWrites(old(View()), current);
        stopped == (budget < |plan|) &&
        View() == PerformAll(old(View()), if stopped then plan[..budget] else plan) &&
        (!stopped ==> left == budget - |plan|) && !live
    {
      hide PerformAll;
      ghost var start := View();
      ghost var a := if StoredId(task, current.id) then [] else [WriteTask(current)];
      ghost var b := if StoredId(file, current.id) then [] else [WriteFile(current)];
      ghost var l :=
        if current.historyRequired && !InHistory(history, current.id) then [AppendHistory(current)] else [];
      assert RepairWrites(start, current) == a + b + l;
      PlanCuts(start, a, b, l, budget);
      PerformOne(start, a);
      PerformOne(PerformAll(start, a), b);
      PerformOne(PerformAll(PerformAll(start, a), b), l);
      left := budget;
      if !StoredId(task, current.id) {
        if left == 0 { return 0, true; }
        task := Some(current);
        left := left - 1;
      }
      if !StoredId(file, current.id) {
        if left == 0 { return 0, true; }
        file := Some(current);
        left := left - 1;
      }
      if current.historyRequired && !(exists i :: 0 <= i < |history| && history[i].id == current.id) {
        if left == 0 { return 0, true; }
        history := history + [current];
        left := left - 1;
      }
      return left, false;
    }

    /** Reconciles after a restart; the process stops once `budget` writes are done. */
    method ReconcileAssessment(ids: Ids, budget: nat)
      requires !live
      modifies this
      ensures var plan := ReconcilePlan(old(View()), ids);
        View() == PerformAll(old(View()), if budget < |plan| then plan[..budget] else plan)
    {
      hide PerformAll, Save, SavePlan, RepairWrites;
      ghost var start := View();
      NoWrites(start);
      var t, f := Upgraded(task, ids.forTask), Upgraded(file, ids.forFile);
      if !Candidate(t) && !Candidate(f) {
        return;
      }
      var current := if Candidate(t) && (!Candidate(f) || t.value.revision.value >= f.value.revision.value)
                     then t.value else f.value;
      ghost var repair := RepairWrites(start, current);
      ghost var m := PerformAll(start, repair);
      ghost var e := if current.status == Some(PENDING) then SavePlan(m, EXPIRED, ids.forExpiry) else [];
      assert ReconcilePlan(start, ids) == repair + e;
      TailCut(start, repair, e, budget);
      var left, stopped := WriteRepairs(current, budget);
      if stopped {
        return;
      }
      assert View() == m;
      SaveOffline(m, EXPIRED, ids.forExpiry, left);
      NoWrites(m);
      if current.status == Some(PENDING) {
        var ok := SaveAssessmentLocked(EXPIRED, ids.forExpiry, left);
      }
    }
  }

  lemma {:induction false} SaveOffline(m: Store, value: Doc, id: RecordId, done: nat)
    requires !m.live
    ensures |SavePlan(m, value, id)| == 3
    ensures Save(m, value, id, done) ==
            PerformAll(m, if done < 3 then SavePlan(m, value, id)[..done] else SavePlan(m, value, id))
  {
  }

  lemma {:induction false} NoWrites(m: Store)
    ensures PerformAll(m, []) == m
  {
  }

  lemma {:induction false} TailCut(s: Store, repair: seq<Write>, e: seq<Write>, budget: nat)
    ensures var plan := repair + e;
      PerformAll(s, if budget < |plan| then plan[..budget] else plan) ==
      if budget < |repair| then PerformAll(s, repair[..budget])
      else PerformAll(PerformAll(s, repair), if budget - |repair| < |e| then e[..budget - |repair|] else e)
  {
    var plan := repair + e;
    if budget < |repair| {
      assert plan[..budget] == repair[..budget];
    } else {
      var k := budget - |repair|;
      var tail := if k < |e| then e[..k] else e;
      assert (if budget < |plan| then plan[..budget] else plan) == repair + tail;
      PerformAppend(s, repair, tail);
    }
  }

  /** Where a budget of writes cuts a plan made of up to three single writes. */
  lemma PlanCuts(s: Store, a: seq<Write>, b: seq<Write>, l: seq<Write>, budget: nat)
    requires |a| <= 1 && |b| <= 1 && |l| <= 1
    ensures var plan := a + b + l;
      var r := PerformAll(s, if budget < |plan| then plan[..budget] else plan);
      (budget < |a| ==> r == s) &&
      (|a| <= budget < |a| + |b| ==> r == PerformAll(s, a)) &&
      (|a| + |b| <= budget < |a| + |b| + |l| ==> r == PerformAll(PerformAll(s, a), b))
    ensures PerformAll(s, a + b + l) == PerformAll(PerformAll(PerformAll(s, a), b), l)
  {
    var plan := a + b + l;
    PerformAppend(s, a + b, l);
    PerformAppend(s, a, b);
    if budget < |a| {
      assert plan[..budget] == [];
    } else if budget < |a| + |b| {
      assert plan[..budget] == a;
    } else if budget < |a| + |b| + |l| {
      assert plan[..budget] == a + b;
    }
  }
}
