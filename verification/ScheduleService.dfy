/** `ScheduleService`: the rows it updates in place and the run log it appends to. */
module ScheduleService {
  import opened Sequences
  import opened Schedules
  import opened ScheduleTheorems

  type ScheduleId = int

  datatype RunRow =
    | Fired(id: ScheduleId, plannedFor: int, at: int, status: Status, task: Option<int>, manual: bool)
    | Missed(id: ScheduleId, count: nat, first: int, last: int, at: int)

  /** What `create_task` answers: a task, or none when the service is busy. */
  datatype Answer = Answer(status: Status, task: Option<int>)

  class ScheduleRows {
    var items: map<ScheduleId, Row>
    var runs: seq<RunRow>

    ghost predicate Valid()
      reads this
    {
      forall id :: id in items ==> RowOk(items[id])
    }

    constructor ()
      ensures Valid() && items == map[] && runs == []
    {
      items, runs := map[], [];
    }

    /** `_trigger`; `at` is the clock when the trigger starts, `answer` what the task service says. */
    method Trigger(id: ScheduleId, planned: int, at: int, answer: Answer, advance: bool)
      requires id in items && ValidRule(items[id].rule)
      modifies this
      ensures items == old(items)[id := Triggered(old(items)[id], planned, at, answer.status, answer.task, advance)]
      ensures runs == old(runs) + [Fired(id, planned, Iso(at), answer.status, answer.task, !advance)]
    {
      runs := runs + [Fired(id, planned, Iso(at), answer.status, answer.task, !advance)];
      var row := items[id].(lastRun := Some(Iso(at)), lastStatus := answer.status, lastTask := answer.task);
      if advance {
        if row.rule.Once? {
          row := row.(enabled := false, nextRun := None);
        } else {
          var nextRun := NextAfter(planned, row.rule);
          while nextRun <= at
            invariant items == old(items)
            invariant runs == old(runs) + [Fired(id, planned, Iso(at), answer.status, answer.task, !advance)]
            invariant FirstAfter(nextRun, at, row.rule) == FirstAfter(NextAfter(planned, row.rule), at, row.rule)
            decreases at - nextRun
          {
            NextAdvances(nextRun, row.rule);
            nextRun := NextAfter(nextRun, row.rule);
          }
          row := row.(nextRun := Some(Iso(nextRun)));
        }
      }
      items := items[id := row];
    }

    /** The first lock section of `_tick`: the due schedules with their planned times. */
    method CollectDue(order: seq<ScheduleId>, current: int) returns (due: seq<(ScheduleId, int)>)
      requires forall id :: id in order ==> id in items
      ensures due == DueList(items, order, current)
    {
      due := [];
      var i := 0;
      while i < |order|
        invariant 0 <= i <= |order| && due == DueList(items, order[..i], current)
      {
        var id := order[i];
        assert id in order;
        assert order[..i + 1][..i] == order[..i];
        if items[id].enabled && items[id].nextRun.Some? && items[id].nextRun.value <= current {
          due := due + [(id, items[id].nextRun.value)];
        }
        i := i + 1;
      }
      assert order[..i] == order;
    }

    /** `_tick`: `order` lists the schedules, `clock` and `answers` give each trigger its own
        reading and reply.  Exactly the due rows fire, each once, for its planned time. */
    method Tick(order: seq<ScheduleId>, current: int, clock: ScheduleId -> int, answers: ScheduleId -> Answer)
      requires Valid() && NoDup(order) && forall id :: id in order <==> id in items
      modifies this
      ensures items.Keys == old(items).Keys
      ensures forall id :: id in old(items) ==>
        items[id] == TickedRow(old(items)[id], current, clock(id), answers(id))
      ensures forall id :: id in old(items) && !Due(old(items)[id], current) ==> items[id] == old(items)[id]
      ensures forall id :: id in old(items) && Due(old(items)[id], current) ==>
        items[id] == Triggered(old(items)[id], old(items)[id].nextRun.value, clock(id), answers(id).status,
                               answers(id).task, true)
      ensures runs == old(runs) + FiredRows(DueList(old(items), order, current), clock, answers)
      ensures Valid()
    {
      hide NoDup, RowOk, TickedRow, DueList;
      ghost var before := items;
      TickedRowsOk(before, current, clock, answers);
      DueListMeaning(before, order, current);
      var due := CollectDue(order, current);
      FireDue(due, current, clock, answers);
      forall id | id in before
        ensures !Due(before[id], current) ==> items[id] == before[id]
        ensures Due(before[id], current) ==>
          items[id] == Triggered(before[id], before[id].nextRun.value, clock(id), answers(id).status,
                                 answers(id).task, true)
      {
        TickedRowIs(before[id], current, clock(id), answers(id));
      }
    }

    /** The rest of `_tick`: the collected schedules are triggered one after the other. */
    method FireDue(due: seq<(ScheduleId, int)>, current: int, clock: ScheduleId -> int, answers: ScheduleId -> Answer)
      requires forall id :: id in items ==> ValidRule(items[id].rule)
      requires forall k :: 0 <= k < |due| ==>
        due[k].0 in items && ValidRule(items[due[k].0].rule) && Due(items[due[k].0], current) &&
        due[k].1 == items[due[k].0].nextRun.value
      requires NamesDistinct(due)
      requires forall id :: id in items && Due(items[id], current) ==> exists k :: 0 <= k < |due| && due[k].0 == id
      modifies this
      ensures items.Keys == old(items).Keys
      ensures forall id :: id in old(items) ==>
        items[id] == TickedRow(old(items)[id], current, clock(id), answers(id))
      ensures runs == old(runs) + FiredRows(due, clock, answers)
    {
      hide FiredUpTo, Triggered, NamesDistinct, Due, ValidRule;
      ghost var before := items;
      FiredNone(before, due, current, clock, answers);
      var j := 0;
      while j < |due|
        invariant 0 <= j <= |due| && FiredUpTo(before, items, due, j, current, clock, answers)
        invariant runs == old(runs) + FiredRows(due[..j], clock, answers)
      {
        var (id, planned) := due[j];
        assert due[..j + 1][..j] == due[..j] && due[..j + 1][j] == due[j];
        FiredOneMore(before, items, due, j, current, clock, answers);
        Trigger(id, planned, clock(id), answers(id), true);
        j := j + 1;
      }
      assert due[..j] == due;
      FiredAll(before, items, due, current, clock, answers);
    }

    /** `run_now`: an unknown schedule is refused, anything else is triggered at once. */
    method RunNow(id: ScheduleId, now: int, at: int, answer: Answer) returns (found: bool)
      requires Valid()
      modifies this
      ensures found == (id in old(items)) && Valid()
      ensures !found ==> items == old(items) && runs == old(runs)
      ensures found ==>
        items == old(items)[id := Triggered(old(items)[id], Iso(now), at, answer.status, answer.task, false)] &&
        items[id].nextRun == old(items)[id].nextRun && items[id].enabled == old(items)[id].enabled &&
        runs == old(runs) + [Fired(id, Iso(now), Iso(at), answer.status, answer.task, true)]
    {
      if id !in items {
        return false;
      }
      RunNowKeepsPlan(items[id], Iso(now), at, answer.status, answer.task);
      Trigger(id, Iso(now), at, answer, false);
      return true;
    }

    /** `set_enabled`; `ok` is false for an unknown schedule and for an expired one-shot. */
    method SetEnabled(id: ScheduleId, enabled: bool, current: int) returns (ok: bool)
      requires Valid()
      modifies this
      ensures ok == (id in old(items) && Schedules.SetEnabled(old(items)[id], enabled, current).Some?)
      ensures !ok ==> items == old(items)
      ensures ok ==> items == old(items)[id := Schedules.SetEnabled(old(items)[id], enabled, current).value]
      ensures Valid() && runs == old(runs)
    {
      if id !in items {
        return false;
      }
      SwitchKeepsInv(World(items[id], [], current), enabled, current);
      var row := items[id];
      if enabled {
        if row.rule.Once? && row.rule.runAt <= current {
          return false;
        }
        row := row.(nextRun := Some(Iso(NextAfter(current, row.rule))));
      } else {
        row := row.(nextRun := None);
      }
      items := items[id := row.(enabled := enabled)];
      return true;
    }

    /** `_reconcile_offline_misses_locked`: every overdue row is counted and moved on, no task is created. */
    method ReconcileOffline(order: seq<ScheduleId>, current: int)
      requires Valid() && NoDup(order) && forall id :: id in order <==> id in items
      modifies this
      ensures Valid() && items.Keys == old(items).Keys
      ensures forall id :: id in old(items) ==> items[id] == Reconciled(old(items)[id], current)
      ensures forall id :: id in items ==> !Due(items[id], current)
      ensures runs == old(runs) + MissedRows(old(items), order, current)
    {
      hide ValidRule, Iso, IntervalMissed, Step;
      ghost var before := items;
      var audit: seq<RunRow> := [];
      var i := 0;
      while i < |order|
        invariant 0 <= i <= |order| && items.Keys == before.Keys && runs == old(runs)
        invariant forall id :: id in before ==> (items[id] ==
          if id in order[..i] then Reconciled(before[id], current) else before[id])
        invariant audit == MissedRows(before, order[..i], current)
      {
        var id := order[i];
        assert id in order;
        assert order[..i + 1] == order[..i] + [id];
        assert id !in order[..i];
        assert order[..i + 1][..i] == order[..i];
        if Due(items[id], current) {
          var row, entry := MoveOn(id, items[id], current);
          items := items[id := row];
          audit := audit + [entry];
        }
        i := i + 1;
      }
      assert order[..i] == order;
      forall id | id in items ensures RowOk(items[id]) && !Due(items[id], current) {
        if Due(before[id], current) { RestartKeepsRow(before[id], current); }
      }
      runs := runs + audit;
    }
  }

  ghost function TickedRow(row: Row, current: int, at: int, answer: Answer): Row
    requires ValidRule(row.rule)
  {
    if Due(row, current) then Triggered(row, row.nextRun.value, at, answer.status, answer.task, true) else row
  }

  lemma TickedRowIs(row: Row, current: int, at: int, answer: Answer)
    requires ValidRule(row.rule)
    ensures Due(row, current) ==>
      TickedRow(row, current, at, answer) == Triggered(row, row.nextRun.value, at, answer.status, answer.task, true)
    ensures !Due(row, current) ==> TickedRow(row, current, at, answer) == row
  {
  }

  /** The due schedules with their planned times, in the order of `order`. */
  ghost function DueList(items: map<ScheduleId, Row>, order: seq<ScheduleId>,
                         current: int): (due: seq<(ScheduleId, int)>)
    ensures forall k :: 0 <= k < |due| ==> due[k].0 in order && due[k].0 in items
    ensures forall k :: 0 <= k < |due| ==>
      Due(items[due[k].0], current) && due[k].1 == items[due[k].0].nextRun.value
  {
    if order == [] then []
    else
      var id, rest := order[|order| - 1], DueList(items, order[..|order| - 1], current);
      if id in items && Due(items[id], current) then rest + [(id, items[id].nextRun.value)] else rest
  }

  ghost predicate NamesDistinct(due: seq<(ScheduleId, int)>) {
    forall j, k :: 0 <= j < k < |due| ==> due[j].0 != due[k].0
  }

  /** The rows when the first `j` entries of `due` have been triggered. */
  ghost predicate FiredUpTo(before: map<ScheduleId, Row>, now: map<ScheduleId, Row>, due: seq<(ScheduleId, int)>,
                            j: nat, current: int, clock: ScheduleId -> int, answers: ScheduleId -> Answer)
    requires j <= |due| && forall k :: 0 <= k < |due| ==> due[k].0 in before && ValidRule(before[due[k].0].rule)
  {
    now.Keys == before.Keys &&
    (forall k :: 0 <= k < j ==>
      now[due[k].0] == TickedRow(before[due[k].0], current, clock(due[k].0), answers(due[k].0))) &&
    (forall id :: id in before && (forall k :: 0 <= k < j ==> due[k].0 != id) ==> now[id] == before[id])
  }

  lemma FiredNone(before: map<ScheduleId, Row>, due: seq<(ScheduleId, int)>,
                  current: int, clock: ScheduleId -> int, answers: ScheduleId -> Answer)
    requires forall k :: 0 <= k < |due| ==> due[k].0 in before && ValidRule(before[due[k].0].rule)
    ensures FiredUpTo(before, before, due, 0, current, clock, answers)
  {
  }

  /** The next entry has not been touched yet, so triggering it gives the row the tick promises. */
  lemma FiredOneMore(before: map<ScheduleId, Row>, now: map<ScheduleId, Row>, due: seq<(ScheduleId, int)>, j: nat,
                     current: int, clock: ScheduleId -> int, answers: ScheduleId -> Answer)
    requires j < |due| && forall k :: 0 <= k < |due| ==> due[k].0 in before && ValidRule(before[due[k].0].rule)
    requires Due(before[due[j].0], current) && due[j].1 == before[due[j].0].nextRun.value
    requires NamesDistinct(due) && FiredUpTo(before, now, due, j, current, clock, answers)
    ensures due[j].0 in now && now[due[j].0] == before[due[j].0] && ValidRule(now[due[j].0].rule)
    ensures var id, planned := due[j].0, due[j].1;
      FiredUpTo(before, now[id := Triggered(now[id], planned, clock(id), answers(id).status, answers(id).task, true)],
                due, j + 1, current, clock, answers)
  {
    hide Triggered, Due, ValidRule;
    var id := due[j].0;
    assert id in before;
    assert forall k :: 0 <= k < j ==> due[k].0 != id;
    assert now[id] == before[id];
  }

  lemma FiredAll(before: map<ScheduleId, Row>, now: map<ScheduleId, Row>, due: seq<(ScheduleId, int)>,
                 current: int, clock: ScheduleId -> int, answers: ScheduleId -> Answer)
    requires forall id :: id in before ==> ValidRule(before[id].rule)
    requires forall k :: 0 <= k < |due| ==> due[k].0 in before && ValidRule(before[due[k].0].rule)
    requires forall id :: id in before && Due(before[id], current) ==> exists k :: 0 <= k < |due| && due[k].0 == id
    requires FiredUpTo(before, now, due, |due|, current, clock, answers)
    ensures now.Keys == before.Keys
    ensures forall id :: id in before ==> now[id] == TickedRow(before[id], current, clock(id), answers(id))
  {
    hide Triggered;
  }

  ghost function FiredRows(due: seq<(ScheduleId, int)>, clock: ScheduleId -> int,
                           answers: ScheduleId -> Answer): seq<RunRow>
  {
    if due == [] then []
    else
      var (id, planned) := due[|due| - 1];
      FiredRows(due[..|due| - 1], clock, answers) +
      [Fired(id, planned, Iso(clock(id)), answers(id).status, answers(id).task, false)]
  }

  /** The log has one entry for each schedule that fired, in the order in which they fired. */
  lemma {:induction false} FiredRowsMeaning(due: seq<(ScheduleId, int)>, clock: ScheduleId -> int,
                                            answers: ScheduleId -> Answer)
    ensures var rows := FiredRows(due, clock, answers);
      |rows| == |due| &&
      forall k :: 0 <= k < |due| ==>
        var (id, planned) := due[k];
        rows[k] == Fired(id, planned, Iso(clock(id)), answers(id).status, answers(id).task, false)
  {
    hide Iso;
    if due != [] { FiredRowsMeaning(due[..|due| - 1], clock, answers); }
  }

  /** The log entry of an overdue schedule: how many times were missed, the first and the last. */
  function MissedEntry(id: ScheduleId, row: Row, current: int): RunRow
    requires ValidRule(row.rule) && Due(row, current)
  {
    var r := Reconciled(row, current);
    Missed(id, r.missed - row.missed, Iso(row.nextRun.value), r.lastMissed.value, Iso(current))
  }

  /** The log entries of a restart, in the order of `order`. */
  ghost function MissedRows(items: map<ScheduleId, Row>, order: seq<ScheduleId>, current: int): seq<RunRow>
    requires forall id :: id in items ==> ValidRule(items[id].rule)
  {
    if order == [] then []
    else
      var id, rest := order[|order| - 1], MissedRows(items, order[..|order| - 1], current);
      if id in items && Due(items[id], current) then rest + [MissedEntry(id, items[id], current)] else rest
  }

  /** The log of a restart has one entry for each schedule that was overdue, in order. */
  lemma {:induction false} MissedRowsMeaning(items: map<ScheduleId, Row>, order: seq<ScheduleId>, current: int)
    requires forall id :: id in items ==> ValidRule(items[id].rule)
    ensures var rows, due := MissedRows(items, order, current), DueList(items, order, current);
      |rows| == |due| &&
      forall k :: 0 <= k < |due| ==>
        var before, r := items[due[k].0], Reconciled(items[due[k].0], current);
        r.lastMissed.Some? && r.missed >= before.missed &&
        rows[k] == Missed(due[k].0, r.missed - before.missed, Iso(due[k].1), r.lastMissed.value, Iso(current))
  {
    hide Iso, Due, ValidRule, Reconciled, MissedEntry;
    if order != [] {
      var id := order[|order| - 1];
      MissedRowsMeaning(items, order[..|order| - 1], current);
      if id in items && Due(items[id], current) { MissedEntryIs(id, items[id], current); }
    }
  }

  lemma MissedEntryIs(id: ScheduleId, row: Row, current: int)
    requires ValidRule(row.rule) && Due(row, current)
    ensures var r := Reconciled(row, current);
      r.lastMissed.Some? && r.missed >= row.missed &&
      MissedEntry(id, row, current) ==
        Missed(id, r.missed - row.missed, Iso(row.nextRun.value), r.lastMissed.value, Iso(current))
  {
  }

  /** By how much the daily closed form is off: it counts one firing too many when the time of day is early. */
  function Early(row: Row, current: int): int
    requires row.nextRun.Some?
  {
    if row.rule.Daily? && current % DAY < row.nextRun.value % DAY then 1 else 0
  }

  /** The loop body of the offline reconciliation, for one overdue schedule: the row is not due any more, and
      both the row and the log entry are what iterating the rule gives, plus the early firing of a daily rule. */
  method MoveOn(id: ScheduleId, overdue: Row, current: int) returns (row: Row, entry: RunRow)
    requires ValidRule(overdue.rule) && Due(overdue, current)
    ensures row == Reconciled(overdue, current) && entry == MissedEntry(id, overdue, current)
    ensures RowOk(overdue) ==> RowOk(row) && row.rule == overdue.rule && !Due(row, current)
    ensures entry.Missed? && row.missed == overdue.missed + entry.count
    ensures overdue.rule.Once? ==> !row.enabled && row.nextRun.None? && entry.count == 1
    ensures RowOk(overdue) && !overdue.rule.Once? ==>
      var p, rule, early := overdue.nextRun.value, overdue.rule, Early(overdue, current);
      row.nextRun == Some(FirstAfter(p, current, rule) + DAY * early) &&
      entry == Missed(id, Misses(p, current, rule) + early, p, LastPassed(p, current, rule) + DAY * early, Iso(current))
  {
    MoveOnMeaning(id, overdue, current);
    hide RowOk, Misses, FirstAfter, LastPassed;
    var planned := overdue.nextRun.value;
    var missed: nat, lastMissed: int;
    row := overdue;
    match row.rule {
      case Once(_) =>
        missed, lastMissed := 1, planned;
        row := row.(enabled := false, nextRun := None);
      case Interval(m) =>
        missed := IntervalMissed(planned, current, m);
        lastMissed := planned + Step(m) * (missed - 1);
        row := row.(nextRun := Some(Iso(planned + Step(m) * missed)));
      case Daily(_) =>
        missed := DailyMissed(planned, current);
        lastMissed := planned + DAY * (missed - 1);
        row := row.(nextRun := Some(Iso(planned + DAY * missed)));
    }
    row := row.(missed := row.missed + missed, lastMissed := Some(Iso(lastMissed)), lastStatus := MISSED_OFFLINE);
    entry := Missed(id, missed, Iso(planned), Iso(lastMissed), Iso(current));
  }

  lemma {:induction false} MoveOnMeaning(id: ScheduleId, overdue: Row, current: int)
    requires ValidRule(overdue.rule) && Due(overdue, current)
    ensures var row := Reconciled(overdue, current);
      RowOk(overdue) ==> RowOk(row) && row.rule == overdue.rule && !Due(row, current)
    ensures RowOk(overdue) && !overdue.rule.Once? ==>
      var p, rule, early := overdue.nextRun.value, overdue.rule, Early(overdue, current);
      Reconciled(overdue, current).nextRun == Some(FirstAfter(p, current, rule) + DAY * early) &&
      MissedEntry(id, overdue, current) ==
        Missed(id, Misses(p, current, rule) + early, p, LastPassed(p, current, rule) + DAY * early, Iso(current))
  {
    if RowOk(overdue) {
      RestartKeepsRow(overdue, current);
      IsoExact(overdue.nextRun.value);
      if overdue.rule.Interval? { IntervalCatchUp(overdue, current); }
      if overdue.rule.Daily? { DailyCatchUp(overdue, current); }
      hide Reconciled, FirstAfter, Misses, LastPassed;
    }
  }

  /** A tick keeps every stored row well formed. */
  lemma TickedRowsOk(items: map<ScheduleId, Row>, current: int, clock: ScheduleId -> int, answers: ScheduleId -> Answer)
    requires forall id :: id in items ==> RowOk(items[id])
    ensures forall id :: id in items ==> ValidRule(items[id].rule) &&
                                         RowOk(TickedRow(items[id], current, clock(id), answers(id)))
  {
    hide Triggered, FirstAfter;
    forall id | id in items
      ensures ValidRule(items[id].rule) && RowOk(TickedRow(items[id], current, clock(id), answers(id)))
    {
      if Due(items[id], current) {
        TriggeredKeepsRow(items[id], current, clock(id), answers(id).status, answers(id).task);
      }
    }
  }

  /** The list collected by a tick misses no due schedule. */
  lemma {:induction false} DueListFinds(items: map<ScheduleId, Row>, order: seq<ScheduleId>, current: int,
                                        id: ScheduleId)
    returns (k: nat)
    requires id in order && id in items && Due(items[id], current)
    ensures k < |DueList(items, order, current)| && DueList(items, order, current)[k].0 == id
  {
    hide Due;
    var t := order[..|order| - 1];
    assert order == t + [order[|order| - 1]];
    if order[|order| - 1] == id {
      k := |DueList(items, t, current)|;
    } else {
      k := DueListFinds(items, t, current, id);
    }
  }

  /** It names none twice. */
  lemma {:induction false} DueListDistinct(items: map<ScheduleId, Row>, order: seq<ScheduleId>, current: int)
    requires NoDup(order)
    ensures NamesDistinct(DueList(items, order, current))
  {
    if order != [] {
      var last, t := order[|order| - 1], order[..|order| - 1];
      assert order == t + [last];
      assert last !in t;
      var rest := DueList(items, t, current);
      DueListDistinct(items, t, current);
      hide NoDup;
      var due := DueList(items, order, current);
      assert due == rest || due == rest + [(last, due[|rest|].1)];
      forall j, k | 0 <= j < k < |due| ensures due[j].0 != due[k].0 {
        assert due[j] == rest[j] && rest[j].0 in t;
        assert k < |rest| ==> due[k] == rest[k];
      }
    }
  }

  /** Schedules are collected in the order in which they are stored. */
  ghost predicate InStoredOrder(due: seq<(ScheduleId, int)>, order: seq<ScheduleId>) {
    forall a, b, j, k ::
      0 <= a < b < |order| && 0 <= j < |due| && 0 <= k < |due| && order[a] == due[j].0 && order[b] == due[k].0 ==> j < k
  }

  lemma {:induction false} DueListInOrder(items: map<ScheduleId, Row>, order: seq<ScheduleId>, current: int)
    requires NoDup(order)
    ensures InStoredOrder(DueList(items, order, current), order)
  {
    hide Due;
    if order != [] {
      var init, id := order[..|order| - 1], order[|order| - 1];
      DueListInOrder(items, init, current);
      assert id !in init;
    }
  }

  /** The list collected by a tick names each due schedule exactly once, with its planned time. */
  lemma {:induction false} DueListMeaning(items: map<ScheduleId, Row>, order: seq<ScheduleId>, current: int)
    requires NoDup(order) && forall id :: id in order ==> id in items
    ensures var due := DueList(items, order, current);
      (forall k :: 0 <= k < |due| ==> due[k].0 in order && due[k].0 in items && Due(items[due[k].0], current) &&
                                      due[k].1 == items[due[k].0].nextRun.value) &&
      (forall id :: id in order && Due(items[id], current) ==> exists k :: 0 <= k < |due| && due[k].0 == id) &&
      NamesDistinct(due) && InStoredOrder(due, order)
  {
    hide Due;
    DueListDistinct(items, order, current);
    DueListInOrder(items, order, current);
    hide NoDup;
    forall id | id in order && Due(items[id], current)
      ensures exists k :: 0 <= k < |DueList(items, order, current)| && DueList(items, order, current)[k].0 == id
    {
      var k := DueListFinds(items, order, current, id);
    }
  }
}
