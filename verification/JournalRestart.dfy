/** Restarts that are cut short, from any store at all, including those of older versions
    whose labels carry neither revision nor identity. */
module JournalRestart {
  import opened Sequences
  import opened Journal
  import opened JournalTheorems

  /** What every store on disk satisfies, whatever its age. */
  ghost predicate OnDisk(s: Store) {
    !s.live && s.memory.None? && Identified(s) && AtMostOnce(s.history)
  }

  ghost predicate Harmless(s: Store, w: Write) {
    IsPersisted(w.doc) && (InStore(s, w.doc) || FreshId(s, w.doc.id.value)) &&
    (w.AppendHistory? ==> !InHistory(s.history, w.doc.id))
  }

  lemma HarmlessKeepsDisk(s: Store, w: Write)
    requires OnDisk(s) && Harmless(s, w)
    ensures OnDisk(Perform(s, w)) && InStore(Perform(s, w), w.doc)
  {
    var s' := Perform(s, w);
    forall d | InStore(s', d) ensures InStore(s, d) || d == w.doc {}
    if w.AppendHistory? { assert s'.history[|s.history|] == w.doc; }
  }

  ghost predicate HarmlessPlan(s: Store, ws: seq<Write>)
    decreases |ws|
  {
    ws != [] ==> Harmless(s, ws[0]) && HarmlessPlan(Perform(s, ws[0]), ws[1..])
  }

  lemma {:induction false} HarmlessPrefix(s: Store, ws: seq<Write>, k: nat)
    requires OnDisk(s) && HarmlessPlan(s, ws) && k <= |ws|
    ensures OnDisk(PerformAll(s, ws[..k]))
    decreases |ws|
  {
    if k > 0 {
      HarmlessKeepsDisk(s, ws[0]);
      HarmlessPrefix(Perform(s, ws[0]), ws[1..], k - 1);
      assert ws[..k][1..] == ws[1..][..k - 1];
    }
  }

  lemma {:induction false} HarmlessAppend(s: Store, a: seq<Write>, b: seq<Write>)
    requires HarmlessPlan(s, a) && HarmlessPlan(PerformAll(s, a), b)
    ensures HarmlessPlan(s, a + b)
    decreases |a|
  {
    if a == [] {
      assert a + b == b;
    } else {
      assert (a + b)[1..] == a[1..] + b;
      HarmlessAppend(Perform(s, a[0]), a[1..], b);
    }
  }

  /** Writes of one record, with at most one history entry, last among the repair writes. */
  lemma {:induction false} SameRecordHarmless(s: Store, ws: seq<Write>, d: Doc)
    requires OnDisk(s) && IsPersisted(d) && (InStore(s, d) || FreshId(s, d.id.value))
    requires forall i :: 0 <= i < |ws| ==> ws[i].doc == d
    requires forall i :: 0 <= i < |ws| && ws[i].AppendHistory? ==> i == |ws| - 1 && !InHistory(s.history, d.id)
    ensures HarmlessPlan(s, ws)
    decreases |ws|
  {
    if ws != [] {
      HarmlessKeepsDisk(s, ws[0]);
      SameRecordHarmless(Perform(s, ws[0]), ws[1..], d);
    }
  }

  lemma CurrentIdentified(s: Store, ids: Ids)
    requires OnDisk(s) && FreshIds(s, ids) && Current(s, ids).Some?
    ensures var d := Current(s, ids).value; IsPersisted(d) && (InStore(s, d) || FreshId(s, d.id.value))
  {
    CurrentIsGreatest(s, ids);
    if s.task.Some? { assert InStore(s, s.task.value); }
    if s.file.Some? { assert InStore(s, s.file.value); }
  }

  lemma {:induction false} RepairHarmless(s: Store, ids: Ids)
    requires OnDisk(s) && FreshIds(s, ids)
    ensures HarmlessPlan(s, RepairPlan(s, ids))
  {
    hide Current, OnDisk, FreshIds, InStore;
    if Current(s, ids).Some? {
      CurrentIdentified(s, ids);
      SameRecordHarmless(s, RepairPlan(s, ids), Current(s, ids).value);
    }
  }

  lemma {:induction false} ExpiryHarmless(m: Store, id: RecordId)
    requires OnDisk(m) && FreshId(m, id)
    ensures HarmlessPlan(m, SavePlan(m, EXPIRED, id))
  {
    var v := SavedRecord(m, EXPIRED, id);
    assert [WriteFile(v), AppendHistory(v), WriteTask(v)] ==
           [WriteFile(v)] + ([AppendHistory(v)] + [WriteTask(v)]);
    HarmlessKeepsDisk(m, WriteFile(v));
    var m1 := Perform(m, WriteFile(v));
    forall i | 0 <= i < |m.history| ensures m.history[i].id != v.id { assert InStore(m, m.history[i]); }
    HarmlessKeepsDisk(m1, AppendHistory(v));
    var m2 := Perform(m1, AppendHistory(v));
    SameRecordHarmless(m, [WriteFile(v)], v);
    SameRecordHarmless(m1, [AppendHistory(v)], v);
    SameRecordHarmless(m2, [WriteTask(v)], v);
    PerformOne(m, [WriteFile(v)]);
    PerformOne(m1, [AppendHistory(v)]);
    HarmlessAppend(m1, [AppendHistory(v)], [WriteTask(v)]);
    HarmlessAppend(m, [WriteFile(v)], [AppendHistory(v)] + [WriteTask(v)]);
  }

  lemma {:induction false} RepairKeepsFresh(s: Store, ids: Ids)
    requires OnDisk(s) && FreshIds(s, ids) && Current(s, ids).Some?
    ensures FreshId(PerformAll(s, RepairPlan(s, ids)), ids.forExpiry)
  {
    PerformRepair(s, ids);
    var m, c := PerformAll(s, RepairPlan(s, ids)), Current(s, ids).value;
    if s.task.Some? { assert InStore(s, s.task.value); }
    if s.file.Some? { assert InStore(s, s.file.value); }
    assert c.id != Some(ids.forExpiry);
    forall d | InStore(m, d) ensures d == c || InStore(s, d) {}
  }

  /** A reconciliation stopped after any number of its writes, from any store, leaves a store
      from which the next complete reconciliation still converges. */
  lemma {:induction false} InterruptedReconcileConverges(s: Store, ids: Ids, writes: nat, next: Ids)
    requires OnDisk(s) && FreshIds(s, ids) && writes <= |ReconcilePlan(s, ids)|
    requires FreshIds(PerformAll(s, ReconcilePlan(s, ids)[..writes]), next)
    ensures var crashed := PerformAll(s, ReconcilePlan(s, ids)[..writes]);
      Settled(Reconcile(crashed, next)) && AtMostOnce(Reconcile(crashed, next).history)
  {
    RepairHarmless(s, ids);
    var repair := RepairPlan(s, ids);
    var c := Current(s, ids);
    if c.Some? && c.value.status == Some(PENDING) {
      var m := PerformAll(s, repair);
      HarmlessPrefix(s, repair, |repair|);
      assert repair[..|repair|] == repair;
      RepairKeepsFresh(s, ids);
      ExpiryHarmless(m, ids.forExpiry);
      HarmlessAppend(s, repair, SavePlan(m, EXPIRED, ids.forExpiry));
    }
    HarmlessPrefix(s, ReconcilePlan(s, ids), writes);
    ReconcileConverges(PerformAll(s, ReconcilePlan(s, ids)[..writes]), next);
  }
}
