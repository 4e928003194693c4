/** Catch-up in closed form against the iterated rule, and firing order over whole runs. */
module ScheduleTheorems {
  import opened Sequences
  import opened Schedules

  // ------------------------------------------------------- what the iterated rule does

  /** A rule whose steps from `t` are all of length `d`. */
  ghost predicate Regular(t: int, d: int, rule: Rule) {
    ValidRule(rule) && !rule.Once? && d > 0 &&
    forall k: nat {:trigger d * k} :: NextAfter(t + d * k, rule) == t + d * k + d
  }

  lemma IntervalIsRegular(t: int, rule: Rule)
    requires ValidRule(rule) && rule.Interval?
    ensures Regular(t, Step(rule.minutes), rule)
  {
  }

  lemma DailyIsRegular(t: int, rule: Rule)
    requires ValidRule(rule) && rule.Daily? && t % DAY == rule.timeOfDay
    ensures Regular(t, DAY, rule)
  {
    forall k: nat {:trigger DAY * k} ensures NextAfter(t + DAY * k, rule) == t + DAY * k + DAY {
      ModShift(t / DAY + k, rule.timeOfDay);
      assert t + DAY * k == (t / DAY + k) * DAY + rule.timeOfDay;
    }
  }

  /** On a regular grid the iterated rule is multiplication: after `n` steps in one leap. */
  lemma {:induction false} IterationInClosedForm(t: int, d: int, rule: Rule, current: int, j: nat, n: nat)
    requires Regular(t, d, rule) && 1 <= n && j < n && t + d * (n - 1) <= current < t + d * n
    ensures t + d * j <= current
    ensures Misses(t + d * j, current, rule) == n - j
    ensures FirstAfter(t + d * j, current, rule) == t + d * n
    ensures LastPassed(t + d * j, current, rule) == t + d * (n - 1)
    decreases n - j
  {
    MulMonotone(d, j, n - 1);
    var p, next := t + d * j, t + d * (j + 1);
    assert NextAfter(p, rule) == next by { MulNext(d, j); }
    assert ValidRule(rule) && !rule.Once? && p <= current;
    if j + 1 < n {
      IterationInClosedForm(t, d, rule, current, j + 1, n);
    }
    hide Regular, NextAfter;
  }

  lemma MulNext(d: int, k: int)
    ensures d * (k + 1) == d * k + d
  {
  }

  lemma MulMonotone(d: int, a: int, b: int)
    requires d > 0 && a <= b
    ensures d * a <= d * b
  {
  }

  lemma {:induction false} LeapFromDivision(t: int, d: int, rule: Rule, current: int)
    requires Regular(t, d, rule) && t <= current
    ensures var n := (current - t) / d + 1;
      n >= 1 && Misses(t, current, rule) == n && FirstAfter(t, current, rule) == t + d * n &&
      LastPassed(t, current, rule) == t + d * (n - 1)
  {
    DivBounds(current - t, d);
    var n := (current - t) / d + 1;
    IterationInClosedForm(t, d, rule, current, 0, n);
    assert t + d * 0 == t;
  }

  /** The rule in microseconds: an interval of `m` minutes adds exactly those, a daily rule names its time of day
      within the next 24 hours, a one-shot its own moment. */
  lemma NextMeaning(t: int, rule: Rule)
    requires ValidRule(rule)
    ensures rule.Interval? ==> NextAfter(t, rule) == t + 60_000_000 * rule.minutes
    ensures rule.Daily? ==>
      t < NextAfter(t, rule) <= t + 86_400_000_000 && NextAfter(t, rule) % 86_400_000_000 == rule.timeOfDay
    ensures rule.Once? ==> NextAfter(t, rule) == rule.runAt
  {
    if !rule.Once? { NextAdvances(t, rule); }
  }

  // ------------------------------------------------------------- catch-up after downtime

  /** Stored times carry whole seconds and a daily row is planned at its time of day. */
  ghost predicate RowOk(row: Row) {
    ValidRule(row.rule) &&
    (row.nextRun.Some? ==>
       row.nextRun.value % SECOND == 0 &&
       (row.rule.Daily? ==> row.nextRun.value % DAY == row.rule.timeOfDay) &&
       (row.rule.Once? ==> row.nextRun.value == row.rule.runAt))
  }

  lemma IsoExact(t: int)
    requires t % SECOND == 0
    ensures Iso(t) == t
  {
  }

  lemma StepKeepsSeconds(t: int, d: int, k: int)
    requires t % SECOND == 0 && d % SECOND == 0
    ensures (t + d * k) % SECOND == 0
  {
    assert t == SECOND * (t / SECOND) && d == SECOND * (d / SECOND);
    assert t + d * k == SECOND * (t / SECOND + (d / SECOND) * k);
    MulMod(t / SECOND + (d / SECOND) * k);
  }

  lemma MulMod(q: int)
    ensures (SECOND * q) % SECOND == 0
  {
  }

  /** Interval schedules: the floor division counts exactly the passed grid points, and the row
      lands where iterating the rule would. */
  lemma {:induction false} IntervalCatchUp(row: Row, current: int)
    requires RowOk(row) && row.rule.Interval? && Due(row, current)
    ensures var r := Reconciled(row, current); var p := row.nextRun.value;
      r.missed == row.missed + Misses(p, current, row.rule) &&
      r.nextRun == Some(FirstAfter(p, current, row.rule)) &&
      r.lastMissed == Some(LastPassed(p, current, row.rule)) &&
      r.lastMissed.value <= current < r.nextRun.value && r.enabled
  {
    var p, d := row.nextRun.value, Step(row.rule.minutes);
    IntervalIsRegular(p, row.rule);
    LeapFromDivision(p, d, row.rule, current);
    var n := IntervalMissed(p, current, row.rule.minutes);
    StepKeepsSeconds(p, d, n);
    StepKeepsSeconds(p, d, n - 1);
  }

  /** Daily schedules compare calendar dates.  The result agrees with iterating the rule exactly
      when the current time of day is not before the planned one. */
  lemma {:induction false} DailyCatchUpAgreesIff(row: Row, current: int)
    requires RowOk(row) && row.rule.Daily? && Due(row, current)
    ensures var r := Reconciled(row, current); var p := row.nextRun.value;
      (r.missed == row.missed + Misses(p, current, row.rule) && r.nextRun == Some(FirstAfter(p, current, row.rule)) &&
       r.lastMissed == Some(LastPassed(p, current, row.rule)))
      <==> current % DAY >= p % DAY
  {
    DailyCatchUp(row, current);
    var p := row.nextRun.value;
    DailyIsRegular(p, row.rule);
    LeapFromDivision(p, DAY, row.rule, current);
  }

  /** In the other case it counts one firing that has not happened and skips exactly that one. */
  lemma {:induction false} DailyCatchUp(row: Row, current: int)
    requires RowOk(row) && row.rule.Daily? && Due(row, current)
    ensures var r := Reconciled(row, current); var p := row.nextRun.value;
      var early := if current % DAY < p % DAY then 1 else 0;
      r.missed == row.missed + Misses(p, current, row.rule) + early &&
      r.nextRun == Some(FirstAfter(p, current, row.rule) + DAY * early) &&
      r.lastMissed == Some(LastPassed(p, current, row.rule) + DAY * early) &&
      current < r.nextRun.value && (early == 1 <==> current < r.lastMissed.value)
  {
    var p := row.nextRun.value;
    var n := DailyMissed(p, current);
    var early := if current % DAY < p % DAY then 1 else 0;
    DailyGrid(p, current, row.rule, n, early);
    hide FirstAfter, Misses, LastPassed, NextAfter;
    StepKeepsSeconds(p, DAY, n);
    StepKeepsSeconds(p, DAY, n - 1);
  }

  lemma {:induction false} DailyGrid(p: int, current: int, rule: Rule, n: int, early: int)
    requires ValidRule(rule) && rule.Daily? && p % DAY == rule.timeOfDay && p <= current
    requires n == DailyMissed(p, current) && early == if current % DAY < p % DAY then 1 else 0
    ensures n == Misses(p, current, rule) + early
    ensures p + DAY * n == FirstAfter(p, current, rule) + DAY * early
    ensures p + DAY * (n - 1) == LastPassed(p, current, rule) + DAY * early
    ensures early == 1 <==> current < p + DAY * (n - 1)
  {
    DailyIsRegular(p, rule);
    LeapFromDivision(p, DAY, rule, current);
    DateDifference(p, current);
    DivBounds(current - p, DAY);
  }

  lemma DateDifference(p: int, c: int)
    requires p <= c
    ensures c / DAY - p / DAY == (c - p) / DAY + (if c % DAY < p % DAY then 1 else 0)
  {
    var q := c / DAY - p / DAY;
    assert c - p == DAY * q + (c % DAY - p % DAY);
    if c % DAY < p % DAY {
      QuotientIs(c - p, q - 1, DAY + (c % DAY - p % DAY));
    } else {
      QuotientIs(c - p, q, c % DAY - p % DAY);
    }
  }

  lemma QuotientIs(n: int, q: int, r: int)
    requires n == DAY * q + r && 0 <= r < DAY
    ensures n / DAY == q
  {
  }

  /** Planned for 10:00 on day 1, restarted at 09:00 on day 2: two misses are recorded though
      one time has passed, and the 10:00 firing of day 2, one hour away, is skipped. */
  lemma DailyCatchUpSkipsAFiring()
    ensures var rule := Daily(600 * MINUTE);
      var row := Row(rule, true, Some(DAY + 600 * MINUTE), 0, None, None, NEVER, None);
      var now := 2 * DAY + 540 * MINUTE;
      RowOk(row) && Due(row, now) && Misses(DAY + 600 * MINUTE, now, rule) == 1 &&
      Reconciled(row, now).missed == 2 && Reconciled(row, now).nextRun == Some(3 * DAY + 600 * MINUTE) &&
      FirstAfter(DAY + 600 * MINUTE, now, rule) == 2 * DAY + 600 * MINUTE
  {
    var rule := Daily(600 * MINUTE);
    var row := Row(rule, true, Some(DAY + 600 * MINUTE), 0, None, None, NEVER, None);
    var now := 2 * DAY + 540 * MINUTE;
    assert Due(row, now);
    DailyCatchUp(row, now);
    DailyIsRegular(DAY + 600 * MINUTE, rule);
    LeapFromDivision(DAY + 600 * MINUTE, DAY, rule, now);
  }

  /** Plan, switch, counters and last run of a row; what else a row holds is its rule. */
  predicate SamePlan(a: Row, b: Row) {
    a.rule == b.rule && a.enabled == b.enabled && a.nextRun == b.nextRun
  }

  predicate SameMisses(a: Row, b: Row) {
    a.missed == b.missed && a.lastMissed == b.lastMissed
  }

  predicate SameLastRun(a: Row, b: Row) {
    a.lastRun == b.lastRun && a.lastTask == b.lastTask
  }

  /** What a restart does not touch, and how it marks a row that was overdue; only a one-shot is switched off. */
  lemma ReconciledMeaning(row: Row, current: int)
    requires RowOk(row)
    ensures var r := Reconciled(row, current);
      (!Due(row, current) ==> r == row) &&
      (Due(row, current) ==>
         r.rule == row.rule && SameLastRun(r, row) && r.lastStatus == MISSED_OFFLINE && r.missed > row.missed &&
         r.lastMissed.Some? && r.lastMissed.value >= row.nextRun.value &&
         (if row.rule.Once? then !r.enabled && r.nextRun.None?
          else r.enabled && r.nextRun.Some? && current < r.nextRun.value))
  {
    if Due(row, current) {
      RestartKeepsRow(row, current);
      hide FirstAfter, Misses, LastPassed, NextAfter;
      match row.rule
      case Interval(m) => IntervalCatchUp(row, current);
      case Daily(_) => DailyCatchUp(row, current);
      case Once(r) => IsoExact(r);
    }
  }

  /** One-shot schedules: one miss, then never again. */
  lemma OnceCatchUp(row: Row, current: int, later: int)
    requires RowOk(row) && row.rule.Once? && Due(row, current)
    ensures var r := Reconciled(row, current);
      r.missed == row.missed + 1 && r.lastMissed == row.nextRun && !Due(r, later) && Reconciled(r, later) == r
  {
  }

  // ---------------------------------------------------------------- firing while online

  /** What the advance loop leaves: the first grid point after the trigger, so the cadence is
      not shifted by a late trigger and no point up to `at` is left to fire again. */
  lemma {:induction false} FirstAfterIsFirst(t: int, current: int, rule: Rule)
    requires ValidRule(rule) && !rule.Once? && t % SECOND == 0
    ensures var r := FirstAfter(t, current, rule);
      r % SECOND == 0 && t <= r && (t > current ==> r == t) &&
      (t <= current ==> LastPassed(t, current, rule) <= current < r &&
                        NextAfter(LastPassed(t, current, rule), rule) == r) &&
      (rule.Interval? ==> exists k: nat :: r == t + Step(rule.minutes) * k) &&
      (rule.Daily? && t % DAY == rule.timeOfDay ==> r % DAY == rule.timeOfDay)
    decreases current - t
  {
    if t > current {
      if rule.Interval? { assert t == t + Step(rule.minutes) * 0; }
    } else {
      NextAdvances(t, rule);
      var t' := NextAfter(t, rule);
      NextKeepsSeconds(t, rule);
      FirstAfterIsFirst(t', current, rule);
      if rule.Interval? {
        var k: nat :| FirstAfter(t', current, rule) == t' + Step(rule.minutes) * k;
        assert FirstAfter(t, current, rule) == t + Step(rule.minutes) * (k + 1);
      }
    }
  }

  lemma NextKeepsSeconds(t: int, rule: Rule)
    requires ValidRule(rule) && (rule.Interval? ==> t % SECOND == 0)
    ensures NextAfter(t, rule) % SECOND == 0
  {
    match rule
    case Interval(m) => StepKeepsSeconds(t, MINUTE, m);
    case Daily(tod) =>
      assert tod == MINUTE * (tod / MINUTE);
      assert t - t % DAY == DAY * (t / DAY);
      StepKeepsSeconds(0, DAY, t / DAY);
      StepKeepsSeconds(DAY * (t / DAY), MINUTE, tod / MINUTE);
      StepKeepsSeconds(DAY * (t / DAY) + tod, DAY, 1);
    case Once(r) =>
  }

  /** The operations that may happen to one row, with the clock readings they take. */
  /** A trigger records when it ran and what came of it, leaves the miss counters alone, and moves the plan only when
      it was planned: a one-shot is over, any other row goes on after the trigger. */
  lemma TriggeredMeaning(row: Row, planned: int, at: int, status: Status, task: Option<int>, advance: bool)
    requires ValidRule(row.rule)
    ensures var r := Triggered(row, planned, at, status, task, advance);
      r.rule == row.rule && SameMisses(r, row) && r.lastStatus == status && r.lastTask == task && r.lastRun.Some? &&
      at - 1_000_000 < r.lastRun.value <= at && r.lastRun.value % 1_000_000 == 0 &&
      (!advance ==> SamePlan(r, row)) &&
      (advance && row.rule.Once? ==> !r.enabled && r.nextRun.None?) &&
      (advance && !row.rule.Once? ==> r.enabled == row.enabled && r.nextRun.Some?)
  {
    IsoBounds(at);
  }

  /** Switching off leaves nothing due, ever; switching on plans the next time of the rule after now, cut to whole
      seconds, which still lies ahead, and is refused only for a one-shot that is over. */
  lemma SwitchedMeaning(row: Row, enabled: bool, current: int)
    requires RowOk(row)
    ensures var r := SetEnabled(row, enabled, current);
      (r.None? <==> enabled && row.rule.Once? && !(current < row.rule.runAt)) &&
      (r.Some? ==>
         r.value.rule == row.rule && r.value.enabled == enabled && SameMisses(r.value, row) &&
         SameLastRun(r.value, row) && r.value.lastStatus == row.lastStatus &&
         (!enabled ==> r.value.nextRun.None? && forall now :: !Due(r.value, now)) &&
         (enabled ==>
            var n := NextAfter(current, row.rule);
            r.value.nextRun.Some? && current < r.value.nextRun.value <= n && n < r.value.nextRun.value + 1_000_000 &&
            r.value.nextRun.value % 1_000_000 == 0 && !Due(r.value, current)))
  {
    if enabled && !(row.rule.Once? && row.rule.runAt <= current) {
      PlannedRowOk(row, current);
      IsoBounds(NextAfter(current, row.rule));
      hide NextAfter, RowOk;
    }
  }

  datatype Event =
    | Tick(current: int, at: int, status: Status, task: Option<int>)
    | RunNow(at: int, status: Status, task: Option<int>)
    | Switch(enabled: bool, current: int)
    | Restart(current: int)

  /** A row, the planned times fired so far by the clock, and the last clock reading. */
  datatype World = World(row: Row, fired: seq<int>, clock: int)

  ghost predicate Possible(w: World, e: Event) {
    match e
    case Tick(current, at, _, _) => w.clock <= current <= at
    case RunNow(at, _, _) => w.clock <= at
    case Switch(_, current) => w.clock <= current
    case Restart(current) => w.clock <= current
  }

  ghost function After(w: World, e: Event): World
    requires ValidRule(w.row.rule)
  {
    match e
    case Tick(current, at, status, task) =>
      if Due(w.row, current) then
        World(Triggered(w.row, w.row.nextRun.value, at, status, task, true), w.fired + [w.row.nextRun.value], at)
      else w.(clock := at)
    case RunNow(at, status, task) => World(Triggered(w.row, Iso(at), at, status, task, false), w.fired, at)
    case Switch(enabled, current) =>
      var r := SetEnabled(w.row, enabled, current);
      World(if r.Some? then r.value else w.row, w.fired, current)
    case Restart(current) => World(Reconciled(w.row, current), w.fired, current)
  }

  ghost predicate Increasing(s: seq<int>) {
    forall i, j :: 0 <= i < j < |s| ==> s[i] < s[j]
  }

  /** Fired times increase, lie in the past, and precede whatever is planned next. */
  ghost predicate Inv(w: World) {
    RowOk(w.row) && Increasing(w.fired) &&
    (forall i :: 0 <= i < |w.fired| ==> w.fired[i] <= w.clock) &&
    (w.row.nextRun.Some? ==> forall i :: 0 <= i < |w.fired| ==> w.fired[i] < w.row.nextRun.value) &&
    (w.row.rule.Once? ==> forall i :: 0 <= i < |w.fired| ==> w.fired[i] == w.row.rule.runAt)
  }

  lemma TriggeredKeepsRow(row: Row, current: int, at: int, status: Status, task: Option<int>)
    requires RowOk(row) && Due(row, current)
    ensures var r := Triggered(row, row.nextRun.value, at, status, task, true);
      RowOk(r) && r.rule == row.rule &&
      (r.nextRun.Some? ==> at < r.nextRun.value && row.nextRun.value < r.nextRun.value)
  {
    if !row.rule.Once? {
      var p := row.nextRun.value;
      NextAdvances(p, row.rule);
      NextKeepsSeconds(p, row.rule);
      FirstAfterIsFirst(NextAfter(p, row.rule), at, row.rule);
    }
  }

  lemma TickKeepsInv(w: World, current: int, at: int, status: Status, task: Option<int>)
    requires Inv(w) && Possible(w, Tick(current, at, status, task))
    ensures Inv(After(w, Tick(current, at, status, task)))
    ensures After(w, Tick(current, at, status, task)).row.rule == w.row.rule
  {
    if Due(w.row, current) {
      TriggeredKeepsRow(w.row, current, at, status, task);
    }
  }

  lemma SwitchKeepsInv(w: World, enabled: bool, current: int)
    requires Inv(w) && Possible(w, Switch(enabled, current))
    ensures Inv(After(w, Switch(enabled, current)))
  {
    if enabled && !(w.row.rule.Once? && w.row.rule.runAt <= current) { PlannedRowOk(w.row, current); }
    hide RowOk, NextAfter, Increasing;
  }

  /** Planned from now, a row stays valid and lies ahead; cutting the microseconds does not bring it back. */
  lemma PlannedRowOk(row: Row, current: int)
    requires RowOk(row) && (row.rule.Once? ==> current < row.rule.runAt)
    ensures var n := Iso(NextAfter(current, row.rule));
      current < n && RowOk(row.(enabled := true, nextRun := Some(n))) &&
      (row.rule.Once? ==> n == row.rule.runAt)
  {
    var n := NextAfter(current, row.rule);
    IsoBounds(n);
    match row.rule
    case Interval(_) => NextAdvances(current, row.rule);
    case Daily(_) =>
      NextAdvances(current, row.rule);
      NextKeepsSeconds(current, row.rule);
      IsoExact(n);
    case Once(_) =>
  }

  lemma IsoBounds(t: int)
    ensures t - SECOND < Iso(t) <= t && Iso(t) % SECOND == 0
  {
    StepKeepsSeconds(0, SECOND, t / SECOND);
  }

  lemma RestartKeepsInv(w: World, current: int)
    requires Inv(w) && Possible(w, Restart(current))
    ensures Inv(After(w, Restart(current)))
  {
    if Due(w.row, current) {
      RestartKeepsRow(w.row, current);
    }
  }

  lemma RestartKeepsRow(row: Row, current: int)
    requires RowOk(row) && Due(row, current)
    ensures var r := Reconciled(row, current);
      RowOk(r) && r.rule == row.rule && (r.nextRun.Some? ==> current < r.nextRun.value)
  {
    hide FirstAfter, Misses, LastPassed, NextAfter;
    match row.rule
    case Interval(m) =>
      IntervalCatchUp(row, current);
      FirstAfterIsFirst(row.nextRun.value, current, row.rule);
    case Daily(_) =>
      DailyCatchUp(row, current);
      var f := FirstAfter(row.nextRun.value, current, row.rule);
      FirstAfterIsFirst(row.nextRun.value, current, row.rule);
      StepKeepsSeconds(f, DAY, 1);
      ModShift(f / DAY + 1, f % DAY);
    case Once(_) =>
  }

  lemma EventKeepsInv(w: World, e: Event)
    requires Inv(w) && Possible(w, e)
    ensures Inv(After(w, e))
  {
    match e
    case Tick(current, at, status, task) => TickKeepsInv(w, current, at, status, task);
    case RunNow(at, status, task) =>
    case Switch(enabled, current) => SwitchKeepsInv(w, enabled, current);
    case Restart(current) => RestartKeepsInv(w, current);
  }

  ghost predicate PossibleRun(w: World, es: seq<Event>)
    requires Inv(w)
    decreases |es|
  {
    es != [] ==> Possible(w, es[0]) && (EventKeepsInv(w, es[0]); PossibleRun(After(w, es[0]), es[1..]))
  }

  ghost function Run(w: World, es: seq<Event>): World
    requires Inv(w) && PossibleRun(w, es)
    decreases |es|
  {
    if es == [] then w else (EventKeepsInv(w, es[0]); Run(After(w, es[0]), es[1..]))
  }

  lemma {:induction false} RunKeepsInv(w: World, es: seq<Event>)
    requires Inv(w) && PossibleRun(w, es)
    ensures Inv(Run(w, es)) && Run(w, es).row.rule == w.row.rule
    decreases |es|
  {
    if es != [] {
      EventKeepsInv(w, es[0]);
      RunKeepsInv(After(w, es[0]), es[1..]);
    }
  }

  /** What each event does to a row and to the last clock reading. */
  lemma EventMeaning(w: World, e: Event)
    requires Inv(w)
    ensures var t := After(w, e);
      match e
      case Tick(current, at, _, _) =>
        t.clock == at &&
        (if w.row.enabled && w.row.nextRun.Some? && !(current < w.row.nextRun.value)
         then t.row == Triggered(w.row, w.row.nextRun.value, at, e.status, e.task, true) else t.row == w.row)
      case RunNow(at, status, task) =>
        t.clock == at && SamePlan(t.row, w.row) && SameMisses(t.row, w.row) && t.row.lastStatus == status
      case Switch(enabled, current) =>
        t.clock == current && SameMisses(t.row, w.row) && SameLastRun(t.row, w.row) &&
        (if enabled && w.row.rule.Once? && !(current < w.row.rule.runAt) then t.row == w.row
         else t.row.enabled == enabled && (t.row.nextRun.Some? <==> enabled))
      case Restart(current) => t.clock == current && t.row == Reconciled(w.row, current)
  {
    hide Triggered, NextAfter, Reconciled;
    match e
    case Tick(_, _, _, _) =>
    case RunNow(at, status, task) => TriggeredMeaning(w.row, Iso(at), at, status, task, false);
    case Switch(enabled, current) => SwitchedMeaning(w.row, enabled, current);
    case Restart(_) =>
  }

  /** A run is its events one after the other. */
  lemma {:induction false} RunInTurn(w: World, a: seq<Event>, e: Event)
    requires Inv(w) && PossibleRun(w, a + [e])
    ensures PossibleRun(w, a) && Inv(Run(w, a)) && Run(w, a + [e]) == After(Run(w, a), e)
    ensures Run(w, []) == w
    decreases |a|
  {
    hide After;
    if a == [] {
      assert a + [e] == [e];
      EventKeepsInv(w, e);
      assert PossibleRun(w, [e]);
      assert [e][1..] == [];
    } else {
      assert (a + [e])[0] == a[0] && (a + [e])[1..] == a[1..] + [e];
      EventKeepsInv(w, a[0]);
      RunInTurn(After(w, a[0]), a[1..], e);
    }
  }

  /** With a clock that does not run backwards, planned times fire in strictly increasing order,
      so none fires twice, and a one-shot schedule fires at most once; through any mix of ticks,
      manual runs, switching and restarts. */
  lemma {:induction false} PlannedTimesFireInOrder(row: Row, clock: int, es: seq<Event>)
    requires RowOk(row) && PossibleRun(World(row, [], clock), es)
    ensures var w := Run(World(row, [], clock), es);
      Increasing(w.fired) && (row.rule.Once? ==> |w.fired| <= 1)
  {
    RunKeepsInv(World(row, [], clock), es);
    var w := Run(World(row, [], clock), es);
    assert |w.fired| > 1 ==> w.fired[0] < w.fired[1];
  }

  /** A tick fires the planned time exactly when that has come and the row is switched on; nothing else fires it. */
  lemma FiresIff(w: World, e: Event)
    requires Inv(w)
    ensures var t := After(w, e);
      t.fired == (if e.Tick? && w.row.enabled && w.row.nextRun.Some? && !(e.current < w.row.nextRun.value)
                  then w.fired + [w.row.nextRun.value] else w.fired)
  {
  }

  /** A row that is switched off fires nothing until it is switched on again, through any mix of ticks, manual runs
      and restarts. */
  lemma {:induction false} SwitchedOffStaysQuiet(w: World, es: seq<Event>)
    requires Inv(w) && PossibleRun(w, es) && !w.row.enabled
    requires forall k :: 0 <= k < |es| ==> !(es[k].Switch? && es[k].enabled)
    ensures Run(w, es).fired == w.fired && !Run(w, es).row.enabled
    decreases |es|
  {
    if es != [] {
      EventKeepsInv(w, es[0]);
      FiresIff(w, es[0]);
      OffStaysOff(w, es[0]);
      hide After, Inv;
      SwitchedOffStaysQuiet(After(w, es[0]), es[1..]);
    }
  }

  lemma OffStaysOff(w: World, e: Event)
    requires Inv(w) && !w.row.enabled && !(e.Switch? && e.enabled)
    ensures !After(w, e).row.enabled
  {
  }

  /** An extra manual run records itself and moves neither the plan nor the switch. */
  lemma RunNowKeepsPlan(row: Row, planned: int, at: int, status: Status, task: Option<int>)
    requires ValidRule(row.rule)
    ensures var r := Triggered(row, planned, at, status, task, false);
      r.nextRun == row.nextRun && r.enabled == row.enabled && r.rule == row.rule &&
      r.missed == row.missed && r.lastMissed == row.lastMissed
  {
  }
}
