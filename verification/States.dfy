/** The status machines of executions and tasks (src/workflow/states.js). */
module States {

  datatype ExecutionStatus =
    | PENDING | RUNNING | PAUSED | WAITING_FOR_APPROVAL | COMPLETED | FAILED | CANCELLED

  datatype TaskStatus =
    | PENDING | READY | QUEUED | RUNNING | RETRYING | WAITING_FOR_APPROVAL
    | COMPLETED | FAILED | DEAD_LETTER | CANCELLED

  type E = ExecutionStatus
  type T = TaskStatus

  /** The execution table: the statuses an execution may move to next. */
  function ExecutionTransitions(from: E): set<E> {
    match from
    case PENDING => {E.RUNNING, E.CANCELLED}
    case RUNNING => {E.PAUSED, E.WAITING_FOR_APPROVAL, E.COMPLETED, E.FAILED, E.CANCELLED}
    case PAUSED => {E.RUNNING, E.FAILED, E.CANCELLED}
    case WAITING_FOR_APPROVAL => {E.RUNNING, E.FAILED, E.CANCELLED}
    case COMPLETED => {}
    case FAILED => {}
    case CANCELLED => {}
  }

  /** The task table: the statuses a task may move to next. */
  function TaskTransitions(from: T): set<T> {
    match from
    case PENDING => {T.READY, T.CANCELLED}
    case READY => {T.QUEUED, T.CANCELLED}
    case QUEUED => {T.RUNNING, T.READY, T.CANCELLED}
    case RUNNING => {T.COMPLETED, T.FAILED, T.RETRYING, T.WAITING_FOR_APPROVAL, T.QUEUED, T.CANCELLED}
    case RETRYING => {T.QUEUED, T.CANCELLED}
    case WAITING_FOR_APPROVAL => {T.COMPLETED, T.FAILED, T.CANCELLED}
    case FAILED => {T.DEAD_LETTER}
    case COMPLETED => {}
    case DEAD_LETTER => {}
    case CANCELLED => {}
  }

  predicate CanMoveExecution(from: E, to: E) {
    to in ExecutionTransitions(from)
  }

  predicate CanMoveTask(from: T, to: T) {
    to in TaskTransitions(from)
  }

  /** A path of the task table: every consecutive pair is a legal transition. */
  ghost predicate TaskPath(path: seq<T>) {
    |path| > 0 && forall i :: 0 <= i < |path| - 1 ==> CanMoveTask(path[i], path[i + 1])
  }

  /** `to` can be reached from `from` by transitions of the task table (possibly none). */
  ghost predicate TaskReaches(from: T, to: T) {
    exists path :: TaskPath(path) && path[0] == from && path[|path| - 1] == to
  }

  /** Finished: what `pendingTasks` stops counting. */
  predicate Finished(t: T) {
    t in {T.COMPLETED, T.FAILED, T.DEAD_LETTER, T.CANCELLED}
  }

  /** The run still accepts changes of its plan: neither finished nor never started. */
  predicate Live(e: E) {
    e == E.RUNNING || e == E.PAUSED
  }

  /** A single legal transition is a path. */
  lemma OneMove(from: T, to: T)
    requires from == to || CanMoveTask(from, to)
    ensures TaskReaches(from, to)
  {
    var path := if from == to then [from] else [from, to];
    assert TaskPath(path) && path[0] == from && path[|path| - 1] == to;
  }

  /** Two legal transitions in a row are a path. */
  lemma TwoMoves(from: T, via: T, to: T)
    requires CanMoveTask(from, via) && CanMoveTask(via, to)
    ensures TaskReaches(from, to)
  {
    var path := [from, via, to];
    assert TaskPath(path) && path[0] == from && path[|path| - 1] == to;
  }

  lemma ReachesTransitive(from: T, via: T, to: T)
    requires TaskReaches(from, via) && TaskReaches(via, to)
    ensures TaskReaches(from, to)
  {
    var p :| TaskPath(p) && p[0] == from && p[|p| - 1] == via;
    var q :| TaskPath(q) && q[0] == via && q[|q| - 1] == to;
    var path := p + q[1..];
    forall i | 0 <= i < |path| - 1
      ensures CanMoveTask(path[i], path[i + 1])
    {
      if i < |p| - 1 {
        assert path[i] == p[i] && path[i + 1] == p[i + 1];
      } else {
        var j := i - (|p| - 1);
        assert path[i] == q[j] && path[i + 1] == q[j + 1];
      }
    }
    assert TaskPath(path) && path[0] == from && path[|path| - 1] == to;
  }

  /** Nothing leaves COMPLETED, DEAD_LETTER or CANCELLED; FAILED only moves to DEAD_LETTER. */
  lemma {:induction false} TerminalStays(path: seq<T>)
    requires TaskPath(path) && Finished(path[0])
    ensures Finished(path[|path| - 1])
    ensures path[0] != T.FAILED ==> path[|path| - 1] == path[0]
    decreases |path|
  {
    if |path| > 1 {
      assert CanMoveTask(path[0], path[1]);
      assert TaskPath(path[1..]);
      TerminalStays(path[1..]);
    }
  }
}
