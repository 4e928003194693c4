/** Crash convergence, revision order and call accounting of the assessment journal. */
module JournalTheorems {
  import opened Sequences
  import opened Journal

  // ------------------------------------------------------------- well-formed stores

  ghost predicate InStore(s: Store, d: Doc) {
    s.task == Some(d) || s.file == Some(d) || s.memory == Some(d) || d in s.history
  }

  /** Identity and revision are always given together, and an identity names one record. */
  ghost predicate Identified(s: Store) {
    (forall d :: InStore(s, d) && d.id.Some? ==> IsPersisted(d)) &&
    (forall d, e :: InStore(s, d) && InStore(s, e) && d.id.Some? && d.id == e.id ==> d == e)
  }

  ghost predicate FreshId(s: Store, id: RecordId) {
    forall d :: InStore(s, d) ==> d.id != Some(id)
  }

  ghost predicate FreshIds(s: Store, ids: Ids) {
    FreshId(s, ids.forTask) && FreshId(s, ids.forFile) && FreshId(s, ids.forExpiry) &&
    ids.forTask != ids.forFile && ids.forTask != ids.forExpiry && ids.forFile != ids.forExpiry
  }

  ghost predicate AtMostOnce(h: seq<Doc>) {
    forall i, j :: 0 <= i < j < |h| && h[i].id.Some? ==> h[i].id != h[j].id
  }

  ghost predicate InHistory(h: seq<Doc>, id: Option<RecordId>) {
    exists i :: 0 <= i < |h| && h[i].id == id
  }

  /** Nothing to repair: both copies are the same finished record, logged if it must be,
      or there is no record at all. */
  ghost predicate Settled(s: Store) {
    (!Candidate(s.task) && !Candidate(s.file) && !Upgradable(s.task) && !Upgradable(s.file)) ||
    (Candidate(s.task) && s.task == s.file && s.task.value.status != Some(PENDING) &&
     (s.task.value.historyRequired ==> InHistory(s.history, s.task.value.id)))
  }

  // -------------------------------------------------------------- performing writes

  lemma {:induction false} PerformAppend(s: Store, a: seq<Write>, b: seq<Write>)
    ensures PerformAll(s, a + b) == PerformAll(PerformAll(s, a), b)
    decreases |a|
  {
    if a == [] {
      assert a + b == b;
    } else {
      assert (a + b)[1..] == a[1..] + b && (a + b)[0] == a[0];
      PerformAppend(Perform(s, a[0]), a[1..], b);
    }
  }

  lemma {:induction false} PerformSave(s: Store, v: Doc)
    ensures PerformAll(s, [WriteFile(v), AppendHistory(v), WriteTask(v)]) ==
            s.(file := Some(v), history := s.history + [v], task := Some(v),
               memory := if s.live then Some(v) else s.memory)
  {
    var w := [WriteFile(v), AppendHistory(v), WriteTask(v)];
    assert w == [WriteFile(v)] + ([AppendHistory(v)] + [WriteTask(v)]);
    PerformAppend(s, [WriteFile(v)], [AppendHistory(v)] + [WriteTask(v)]);
    PerformAppend(Perform(s, WriteFile(v)), [AppendHistory(v)], [WriteTask(v)]);
    PerformOne(s, [WriteFile(v)]);
    PerformOne(Perform(s, WriteFile(v)), [AppendHistory(v)]);
    PerformOne(Perform(Perform(s, WriteFile(v)), AppendHistory(v)), [WriteTask(v)]);
  }

  /** The repair writes, in one stroke. */
  lemma {:induction false} PerformRepair(s: Store, ids: Ids)
    requires !s.live && Current(s, ids).Some?
    ensures var c := Current(s, ids).value; var r := PerformAll(s, RepairPlan(s, ids));
      r.task == (if StoredId(s.task, c.id) then s.task else Some(c)) &&
      r.file == (if StoredId(s.file, c.id) then s.file else Some(c)) &&
      r.history == (if c.historyRequired && !InHistory(s.history, c.id) then s.history + [c] else s.history) &&
      !r.live && r.memory == s.memory
  {
    var c := Current(s, ids).value;
    var a := if StoredId(s.task, c.id) then [] else [WriteTask(c)];
    var b := if StoredId(s.file, c.id) then [] else [WriteFile(c)];
    var l := if c.historyRequired && !InHistory(s.history, c.id) then [AppendHistory(c)] else [];
    assert RepairPlan(s, ids) == a + b + l;
    PerformAppend(s, a + b, l);
    PerformAppend(s, a, b);
    PerformOne(s, a);
    PerformOne(PerformAll(s, a), b);
    PerformOne(PerformAll(s, a + b), l);
  }

  lemma {:induction false} PerformOne(s: Store, w: seq<Write>)
    requires |w| <= 1
    ensures PerformAll(s, w) == if w == [] then s else Perform(s, w[0])
  {
    if w != [] { assert w[1..] == []; }
  }

  // ------------------------------------------------------------------- convergence

  /** A stored label counts as it is when its version, status, identity and positive revision can all be read.  One of
      the older format, with version and status only, gets what it lacks and shows the same; any other is ignored. */
  lemma UpgradeMeaning(d: Option<Doc>, freshId: RecordId)
    ensures Candidate(d) <==>
      d.Some? && d.value.version1 && d.value.status.Some? && d.value.id.Some? && d.value.revision.Some? &&
      d.value.revision.value >= 1
    ensures var u := Upgraded(d, freshId);
      if d.Some? && d.value.version1 && d.value.status.Some? && !Candidate(d) then
        u == Some(d.value.(
          id := if d.value.id.Some? then d.value.id else Some(freshId),
          revision := if d.value.revision.Some? && d.value.revision.value >= 1 then d.value.revision else Some(1),
          historyRequired := d.value.origin in {MANUAL_TEXT, NATIVE_REUSE} || d.value.status == Some(PENDING))) &&
        Candidate(u)
      else u == d
  {
  }

  lemma CurrentIsGreatest(s: Store, ids: Ids)
    ensures var c := Current(s, ids);
      (c.None? <==> !Candidate(s.task) && !Candidate(s.file) && !Upgradable(s.task) && !Upgradable(s.file)) &&
      (c.Some? ==> IsPersisted(c.value)) &&
      (c.Some? && Candidate(s.task) ==> c.value.revision.value >= s.task.value.revision.value) &&
      (c.Some? && Candidate(s.file) ==> c.value.revision.value >= s.file.value.revision.value)
    ensures var c, t, f := Current(s, ids), Upgraded(s.task, ids.forTask), Upgraded(s.file, ids.forFile);
      c.Some? ==>
        (c == t || c == f) &&
        (Candidate(t) ==> c.value.revision.value >= t.value.revision.value &&
                          (c.value.revision.value == t.value.revision.value ==> c == t)) &&
        (Candidate(f) ==> c.value.revision.value >= f.value.revision.value)
  {
  }

  /** After the repair writes both stored copies are the current record, logged once if required. */
  lemma {:induction false} RepairAgrees(s: Store, ids: Ids)
    requires !s.live && s.memory.None? && Identified(s) && AtMostOnce(s.history) && FreshIds(s, ids)
    requires Current(s, ids).Some?
    ensures var c := Current(s, ids).value; var r := PerformAll(s, RepairPlan(s, ids));
      r.task == Some(c) && r.file == Some(c) && AtMostOnce(r.history) && !r.live && r.memory.None? &&
      (c.historyRequired ==> InHistory(r.history, c.id))
  {
    PerformRepair(s, ids);
    var c := Current(s, ids).value;
    var r := PerformAll(s, RepairPlan(s, ids));
    if s.task.Some? { assert InStore(s, s.task.value); }
    if s.file.Some? { assert InStore(s, s.file.value); }
    if c.historyRequired && !InHistory(s.history, c.id) {
      assert r.history[|s.history|] == c;
    }
  }

  /** Crash convergence: from any store a crash can leave behind, reconciling makes both copies
      the same finished record, never older than either, logged exactly once if required. */
  lemma ReconcileConverges(s: Store, ids: Ids)
    requires !s.live && s.memory.None? && Identified(s) && AtMostOnce(s.history) && FreshIds(s, ids)
    ensures var r := Reconcile(s, ids);
      Settled(r) && AtMostOnce(r.history) &&
      (Candidate(s.task) ==> Candidate(r.task) && r.task.value.revision.value >= s.task.value.revision.value) &&
      (Candidate(s.file) ==> Candidate(r.task) && r.task.value.revision.value >= s.file.value.revision.value)
    ensures var r := Reconcile(s, ids); var c := Current(s, ids);
      (c.None? ==> r == s) &&
      (c.Some? && c.value.status != Some(PENDING) ==> r.task == c) &&
      (c.Some? && c.value.status == Some(PENDING) ==>
         r.task.Some? && r.task.value.status == Some(NEEDS_REVIEW) &&
         r.task.value.revision == Some(c.value.revision.value + 1) && TotalOf(r.task) == TotalOf(c))
  {
    CurrentIsGreatest(s, ids);
    var c := Current(s, ids);
    if c.Some? {
      RepairAgrees(s, ids);
      var repair := RepairPlan(s, ids);
      var m := PerformAll(s, repair);
      if c.value.status == Some(PENDING) {
        PerformAppend(s, repair, SavePlan(m, EXPIRED, ids.forExpiry));
        var v := SavedRecord(m, EXPIRED, ids.forExpiry);
        PerformSave(m, v);
        ExpiryIsNew(s, ids, m);
        assert Reconcile(s, ids).history[|m.history|] == v;
      }
    }
  }

  /** The expiry identity occurs nowhere after the repair writes. */
  lemma {:induction false} ExpiryIsNew(s: Store, ids: Ids, m: Store)
    requires !s.live && FreshIds(s, ids) && Current(s, ids).Some? && m == PerformAll(s, RepairPlan(s, ids))
    ensures forall i :: 0 <= i < |m.history| ==> m.history[i].id != Some(ids.forExpiry)
  {
    PerformRepair(s, ids);
    var c := Current(s, ids).value;
    if s.task.Some? { assert InStore(s, s.task.value); }
    if s.file.Some? { assert InStore(s, s.file.value); }
    assert c.id != Some(ids.forExpiry);
    forall i | 0 <= i < |m.history| ensures m.history[i].id != Some(ids.forExpiry) {
      if i < |s.history| {
        assert m.history[i] == s.history[i];
        assert InStore(s, s.history[i]);
      }
    }
  }

  /** A second reconciliation changes nothing. */
  lemma ReconcileIsIdempotent(s: Store, ids: Ids, again: Ids)
    requires !s.live && s.memory.None? && Identified(s) && AtMostOnce(s.history) && FreshIds(s, ids)
    ensures Reconcile(Reconcile(s, ids), again) == Reconcile(s, ids)
  {
    ReconcileConverges(s, ids);
    SettledIsFixed(Reconcile(s, ids), again);
  }

  lemma SettledIsFixed(s: Store, ids: Ids)
    requires Settled(s)
    ensures Reconcile(s, ids) == s
  {
    if Current(s, ids).Some? {
      assert Current(s, ids) == s.task;
      assert RepairPlan(s, ids) == [];
    }
  }
}
