/** The states of one task and the moves the task object accepts (scopex/runtime/task.py). */
module Lifecycle {

  datatype TaskState =
    | CREATED
    | QUEUED
    | RUNNING
    | PAUSING
    | PAUSED
    | FINALIZING
    | COMPLETED
    | FAILED
    | CANCELLED

  predicate Terminal(s: TaskState) {
    s == COMPLETED || s == FAILED || s == CANCELLED
  }

  /** The transition table; staying in the same state is a silent no-op of the task object. */
  predicate Allowed(from: TaskState, to: TaskState) {
    match from
    case CREATED => to == QUEUED || to == RUNNING || to == CANCELLED || to == FAILED
    case QUEUED => to == CREATED || to == CANCELLED || to == FAILED
    case RUNNING => to == PAUSING || to == FINALIZING || Terminal(to)
    case PAUSING => to == PAUSED || to == CANCELLED || to == FAILED
    case PAUSED => to == RUNNING || to == CANCELLED || to == FAILED
    case FINALIZING => Terminal(to)
    case COMPLETED => false
    case FAILED => false
    case CANCELLED => false
  }

  /** The moves of the table, one by one; the states without a way out are the terminal ones. */
  lemma TableMeaning(from: TaskState, to: TaskState)
    ensures Allowed(from, to) <==> (from, to) in {
      (CREATED, QUEUED), (CREATED, RUNNING), (CREATED, CANCELLED), (CREATED, FAILED),
      (QUEUED, CREATED), (QUEUED, CANCELLED), (QUEUED, FAILED),
      (RUNNING, PAUSING), (RUNNING, FINALIZING), (RUNNING, COMPLETED), (RUNNING, CANCELLED), (RUNNING, FAILED),
      (PAUSING, PAUSED), (PAUSING, CANCELLED), (PAUSING, FAILED),
      (PAUSED, RUNNING), (PAUSED, CANCELLED), (PAUSED, FAILED),
      (FINALIZING, COMPLETED), (FINALIZING, CANCELLED), (FINALIZING, FAILED)}
    ensures Terminal(from) <==> forall t :: !Allowed(from, t)
    ensures Terminal(from) <==> from in {COMPLETED, FAILED, CANCELLED}
  {
    if !Terminal(from) { assert Allowed(from, FAILED); }
  }
}
