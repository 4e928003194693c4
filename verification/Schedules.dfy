/**
 The schedule clock of scopex/api/schedules.py.  Time is a whole number of microseconds
 of local time with 24-hour days; timestamps are stored with whole seconds.
 */
module Schedules {
  import opened Sequences

  const SECOND: int := 1_000_000
  const MINUTE: int := 60_000_000
  const DAY: int := 86_400_000_000

  /** What storing a time as text with `timespec="seconds"` keeps of it. */
  function Iso(t: int): int {
    t - t % SECOND
  }

  /** `timeOfDay` is the HH:MM of a daily rule, `runAt` the moment of a one-shot rule. */
  datatype Rule = Interval(minutes: int) | Daily(timeOfDay: int) | Once(runAt: int)

  datatype Status = NEVER | TRIGGERED | QUEUED | SKIPPED_BUSY | MISSED_OFFLINE

  datatype Row = Row(
    rule: Rule, enabled: bool, nextRun: Option<int>, missed: nat, lastMissed: Option<int>,
    lastRun: Option<int>, lastStatus: Status, lastTask: Option<int>)

  /** Exactly what `_normalize_rule` lets through. */
  predicate ValidRule(rule: Rule) {
    match rule
    case Interval(m) => 1 <= m <= 10080
    case Daily(tod) => 0 <= tod < DAY && tod % MINUTE == 0
    case Once(t) => t % SECOND == 0
  }

  function Step(minutes: int): int {
    minutes * MINUTE
  }

  function NextAfter(base: int, rule: Rule): int {
    match rule
    case Interval(m) => base + Step(m)
    case Daily(tod) =>
      var candidate := base - base % DAY + tod;
      if candidate <= base then candidate + DAY else candidate
    case Once(t) => t
  }

  /** The rule's firing times from `t` on, up to the first one after `current`. */
  ghost function FirstAfter(t: int, current: int, rule: Rule): (r: int)
    requires ValidRule(rule) && !rule.Once?
    ensures r > current
    decreases current - t
  {
    if t > current then t else (NextAdvances(t, rule); FirstAfter(NextAfter(t, rule), current, rule))
  }

  /** How many of the rule's firing times from `t` on have passed at `current`. */
  ghost function Misses(t: int, current: int, rule: Rule): nat
    requires ValidRule(rule) && !rule.Once?
    decreases current - t
  {
    if t > current then 0 else (NextAdvances(t, rule); 1 + Misses(NextAfter(t, rule), current, rule))
  }

  /** The last firing time from `t` on that has passed at `current`. */
  ghost function LastPassed(t: int, current: int, rule: Rule): (r: int)
    requires ValidRule(rule) && !rule.Once? && t <= current
    ensures t <= r <= current
    decreases current - t
  {
    NextAdvances(t, rule);
    if NextAfter(t, rule) > current then t else LastPassed(NextAfter(t, rule), current, rule)
  }

  /** Each application of the rule moves at least one minute (interval) or to the next
      daily time, so the catch-up loop makes progress. */
  lemma NextAdvances(t: int, rule: Rule)
    requires ValidRule(rule) && !rule.Once?
    ensures NextAfter(t, rule) > t
    ensures rule.Interval? ==> NextAfter(t, rule) >= t + MINUTE
    ensures rule.Daily? ==> NextAfter(t, rule) <= t + DAY && NextAfter(t, rule) % DAY == rule.timeOfDay
  {
    if rule.Daily? {
      var tod := rule.timeOfDay;
      assert (t - t % DAY + tod) % DAY == tod by { ModShift(t / DAY, tod); }
      assert (t - t % DAY + tod + DAY) % DAY == tod by { ModShift(t / DAY + 1, tod); }
    }
  }

  lemma ModShift(q: int, r: int)
    requires 0 <= r < DAY
    ensures (q * DAY + r) % DAY == r && (q * DAY + r) / DAY == q
  {
  }

  // ----------------------------------------------------------------- operations

  function Due(row: Row, current: int): bool {
    row.enabled && row.nextRun.Some? && row.nextRun.value <= current
  }

  /** The row after one trigger at `at` for the planned time; a manual run does not advance it. */
  ghost function Triggered(row: Row, planned: int, at: int, status: Status, task: Option<int>, advance: bool): Row
    requires ValidRule(row.rule)
  {
    var r := row.(lastRun := Some(Iso(at)), lastStatus := status, lastTask := task);
    if !advance then r
    else if row.rule.Once? then r.(enabled := false, nextRun := None)
    else r.(nextRun := Some(Iso(FirstAfter(NextAfter(planned, row.rule), at, row.rule))))
  }

  /** The row after a restart at `current`: overdue times are counted, not replayed. */
  function Reconciled(row: Row, current: int): Row
    requires ValidRule(row.rule)
  {
    if !Due(row, current) then row
    else
      var planned := row.nextRun.value;
      match row.rule
      case Once(_) =>
        row.(enabled := false, nextRun := None, missed := row.missed + 1, lastMissed := Some(Iso(planned)),
             lastStatus := MISSED_OFFLINE)
      case Interval(m) =>
        var missed := IntervalMissed(planned, current, m);
        row.(nextRun := Some(Iso(planned + Step(m) * missed)), missed := row.missed + missed,
             lastMissed := Some(Iso(planned + Step(m) * (missed - 1))), lastStatus := MISSED_OFFLINE)
      case Daily(_) =>
        var missed := DailyMissed(planned, current);
        row.(nextRun := Some(Iso(planned + DAY * missed)), missed := row.missed + missed,
             lastMissed := Some(Iso(planned + DAY * (missed - 1))), lastStatus := MISSED_OFFLINE)
  }

  /** Floor division of the elapsed time by the interval. */
  function IntervalMissed(planned: int, current: int, minutes: int): (missed: nat)
    requires planned <= current && 1 <= minutes
    ensures missed >= 1
  {
    DivBounds(current - planned, Step(minutes));
    (current - planned) / Step(minutes) + 1
  }

  /** The difference of the two calendar dates, not of the two moments. */
  function DailyMissed(planned: int, current: int): (missed: nat)
    requires planned <= current
    ensures missed >= 1
  {
    current / DAY - planned / DAY + 1
  }

  lemma DivBounds(n: int, d: int)
    requires n >= 0 && d > 0
    ensures n / d >= 0 && d * (n / d) <= n < d * (n / d + 1)
  {
    assert n == d * (n / d) + n % d;
  }

  /** Enabling computes the next time from now; an expired one-shot is refused. */
  function SetEnabled(row: Row, enabled: bool, current: int): Option<Row>
    requires ValidRule(row.rule)
  {
    if !enabled then Some(row.(enabled := false, nextRun := None))
    else if row.rule.Once? && row.rule.runAt <= current then None
    else Some(row.(enabled := true, nextRun := Some(Iso(NextAfter(current, row.rule)))))
  }
}
