/** What every reachable state of a run satisfies, and how runs evolve. */
module Invariant {
  import opened Graphs
  import opened States
  import opened Options
  import opened Documents
  import opened Sums
  import opened Transactions

  /** The documents are those of `defs`: one task each, with its children list, and one approval slot each. */
  ghost predicate Follows(defs: seq<TaskDef>, s: Run) {
    && |s.tasks| == |s.approvals| == |defs|
    && forall i :: 0 <= i < |defs| ==>
      s.tasks[i].def == defs[i] && s.tasks[i].dependents == ChildKeys(defs, defs[i].key)
  }

  /** Task `p` is one of the tasks `i` waits for. */
  predicate IsParent(s: Run, p: nat, i: nat)
    requires p < |s.tasks| && i < |s.tasks|
  {
    s.tasks[p].def.key in s.tasks[i].def.dependsOn
  }

  /** One for each listed task that is not COMPLETED. */
  function MissingWeight(deps: seq<Key>): (int, Task) -> int {
    (_: int, t: Task) => if t.def.key in deps && t.status != T.COMPLETED then 1 else 0
  }

  function Missing(deps: seq<Key>, tasks: seq<Task>): int {
    Sum(MissingWeight(deps), tasks)
  }

  /** The hand-maintained counter of the execution is exact. */
  ghost predicate PendingExact(s: Run) {
    s.exec.pendingTasks == Sum(UnfinishedWeight(), s.tasks)
  }

  ghost predicate StatusAgrees(s: Run) {
    && s.exec.status in {E.RUNNING, E.PAUSED, E.COMPLETED, E.FAILED, E.CANCELLED}
    && (s.exec.status == E.RUNNING ==> s.exec.pendingTasks > 0)
    && (s.exec.status == E.COMPLETED ==> s.exec.pendingTasks == 0)
  }

  /** The dependency counters are kept while the plan can still matter. */
  predicate Counting(e: E) {
    Live(e) || e == E.COMPLETED
  }

  /** The hand-maintained counter of each task is exact. */
  ghost predicate DepsExact(s: Run) {
    Counting(s.exec.status) ==>
      forall i :: 0 <= i < |s.tasks| ==> s.tasks[i].remainingDeps == Missing(s.tasks[i].def.dependsOn, s.tasks)
  }

  /** A task that left PENDING without being cancelled has all its parents COMPLETED. */
  ghost predicate ParentsDone(s: Run) {
    forall i, p :: 0 <= i < |s.tasks| && 0 <= p < |s.tasks|
      && s.tasks[i].status != T.PENDING && s.tasks[i].status != T.CANCELLED && IsParent(s, p, i)
      ==> s.tasks[p].status == T.COMPLETED
  }

  /** While RUNNING, a PENDING task really waits for something. */
  ghost predicate PendingWaits(s: Run) {
    s.exec.status == E.RUNNING ==>
      forall i :: 0 <= i < |s.tasks| && s.tasks[i].status == T.PENDING ==> s.tasks[i].remainingDeps > 0
  }

  predicate FailedForGood(t: T) {
    t == T.FAILED || t == T.DEAD_LETTER
  }

  predicate NotStarted(t: T) {
    t == T.PENDING || t == T.READY || t == T.QUEUED
  }

  /** How the status of the run and those of its tasks fit together. */
  ghost predicate OutcomeAgrees(s: Run) {
    && (Counting(s.exec.status) ==>
      forall i :: 0 <= i < |s.tasks| ==> !FailedForGood(s.tasks[i].status) && s.tasks[i].status != T.CANCELLED)
    && (s.exec.status == E.FAILED ==>
      && (exists i :: 0 <= i < |s.tasks| && FailedForGood(s.tasks[i].status))
      && (forall i :: 0 <= i < |s.tasks| ==> !NotStarted(s.tasks[i].status)))
    && (s.exec.status == E.CANCELLED ==>
      forall i :: 0 <= i < |s.tasks| ==> s.tasks[i].status == T.COMPLETED || s.tasks[i].status == T.CANCELLED)
  }

  /** The status of a task and the state of its approval request fit together. */
  predicate Paired(t: T, a: Approval) {
    match a
    case NONE => t != T.WAITING_FOR_APPROVAL
    case REQUESTED(_) => t == T.WAITING_FOR_APPROVAL
    case DECIDED(d) => t == if d == APPROVED then T.COMPLETED else T.FAILED
    case WITHDRAWN => t == T.CANCELLED
  }

  ghost predicate ApprovalsAgree(s: Run) {
    |s.approvals| == |s.tasks| && forall i :: 0 <= i < |s.tasks| ==> Paired(s.tasks[i].status, s.approvals[i])
  }

  /** The fencing token counts the attempts; a lease deadline is set exactly while RUNNING; outputs exactly when COMPLETED. */
  predicate FieldsAgree(t: Task) {
    && t.attempt == t.leaseToken >= 0
    && (t.status == T.RUNNING <==> t.leaseExpiresAt.Some?)
    && (t.status == T.COMPLETED <==> t.output.Some?)
    && (t.status in {T.RUNNING, T.RETRYING, T.WAITING_FOR_APPROVAL, T.COMPLETED, T.FAILED, T.DEAD_LETTER} ==> t.attempt > 0)
  }

  ghost predicate TasksAgree(s: Run) {
    forall i :: 0 <= i < |s.tasks| ==> FieldsAgree(s.tasks[i])
  }

  /** The events whose number the state determines. */
  predicate Recorded(e: Event) {
    !e.ExecutionPaused? && !e.ExecutionResumed? && !e.TaskRetrying?
  }

  /** How many rows of a recorded event the state calls for. */
  function Expected(s: Run, e: Event): nat {
    match e
    case ExecutionStarted => 1
    case ExecutionCompleted => if s.exec.status == E.COMPLETED then 1 else 0
    case ExecutionFailed => if s.exec.status == E.FAILED then 1 else 0
    case ExecutionCancelled => if s.exec.status == E.CANCELLED then 1 else 0
    case TaskCompleted(k) => if At(s, k, T.COMPLETED) then 1 else 0
    case TaskFailed(k) => if At(s, k, T.FAILED) then 1 else 0
    case TaskDeadLettered(k) => if At(s, k, T.DEAD_LETTER) then 1 else 0
    case ApprovalRequested(k) => if k < |s.approvals| && s.approvals[k] != NONE then 1 else 0
    case ApprovalDecided(k, d) => if k < |s.approvals| && s.approvals[k] == DECIDED(d) then 1 else 0
    case ExecutionPaused => 0
    case ExecutionResumed => 0
    case TaskRetrying(_, _) => 0
  }

  function PauseBalance(s: Run): int {
    Count(s.outbox, ExecutionPaused) - Count(s.outbox, ExecutionResumed)
  }

  /** The outbox log tells exactly what happened. */
  ghost predicate LogAgrees(s: Run) {
    && (forall e :: Recorded(e) ==> Count(s.outbox, e) == Expected(s, e))
    && (Counting(s.exec.status) ==> PauseBalance(s) == if s.exec.status == E.PAUSED then 1 else 0)
  }

  /** The invariant of the execution, task and approval documents. */
  ghost predicate CoreInv(defs: seq<TaskDef>, s: Run) {
    && Structural(defs) && Follows(defs, s)
    && PendingExact(s) && StatusAgrees(s)
    && DepsExact(s) && ParentsDone(s) && PendingWaits(s)
    && OutcomeAgrees(s) && ApprovalsAgree(s) && TasksAgree(s)
  }

  ghost predicate Inv(defs: seq<TaskDef>, s: Run) {
    CoreInv(defs, s) && LogAgrees(s)
  }

  // ---------------------------------------------------------------- counting

  lemma PendingNonNegative(s: Run)
    ensures Sum(UnfinishedWeight(), s.tasks) >= 0
    ensures forall i :: 0 <= i < |s.tasks| && !Finished(s.tasks[i].status) ==> Sum(UnfinishedWeight(), s.tasks) > 0
  {
    SumNonNegative(UnfinishedWeight(), s.tasks);
    forall i | 0 <= i < |s.tasks| && !Finished(s.tasks[i].status) ensures Sum(UnfinishedWeight(), s.tasks) > 0 {
      assert UnfinishedWeight()(i, s.tasks[i]) == 1;
    }
  }

  /** Nothing is missing exactly when every listed task is COMPLETED. */
  lemma MissingZero(deps: seq<Key>, tasks: seq<Task>)
    ensures Missing(deps, tasks) >= 0
    ensures Missing(deps, tasks) == 0 <==>
      forall p :: 0 <= p < |tasks| && tasks[p].def.key in deps ==> tasks[p].status == T.COMPLETED
  {
    var f := MissingWeight(deps);
    SumNonNegative(f, tasks);
    SumZero(f, tasks);
    if Missing(deps, tasks) == 0 {
      forall p | 0 <= p < |tasks| && tasks[p].def.key in deps ensures tasks[p].status == T.COMPLETED {
        assert f(p, tasks[p]) == 0;
      }
    }
  }

  /** The children list of `p` and the dependency list of `i` tell the same. */
  lemma ChildIffListed(defs: seq<TaskDef>, s: Run, p: nat, i: nat)
    requires Structural(defs) && Follows(defs, s) && p < |s.tasks| && i < |s.tasks|
    ensures s.tasks[i].def.key in s.tasks[p].dependents <==> IsParent(s, p, i)
    ensures IsParent(s, p, i) ==> p != i
  {
    var child, parent := defs[i].key, defs[p].key;
    ChildKeysAreEdges(defs, parent);
    if Edge(defs, parent, child) {
      var t :| t in defs && t.key == child && parent in t.dependsOn;
      var j :| 0 <= j < |defs| && defs[j] == t;
      assert j == i;
    }
    if IsParent(s, p, i) {
      assert defs[i] in defs;
    }
  }

  // ---------------------------------------------------------------- evolution

  /** How far a task is from being handed to a worker for the first time. */
  function StartRank(t: T): nat {
    match t
    case PENDING => 3
    case READY => 2
    case QUEUED => 1
    case _ => 0
  }

  /** What no step ever undoes in a task document. */
  ghost predicate TaskEvolves(a: Task, b: Task) {
    && a.def == b.def && a.dependents == b.dependents
    && a.leaseToken <= b.leaseToken
    && StartRank(b.status) <= StartRank(a.status)
    && (Finished(a.status) ==> b.status == a.status && b.output == a.output)
    && (b.status == T.RUNNING && b.leaseToken == a.leaseToken ==> a.status == T.RUNNING)
    && TaskReaches(a.status, b.status)
  }

  ghost predicate ApprovalEvolves(a: Approval, b: Approval) {
    && (a.DECIDED? || a.WITHDRAWN? ==> b == a)
    && (a.REQUESTED? ==> b != NONE)
  }

  ghost predicate ExecutionEvolves(a: Execution, b: Execution) {
    && b.pendingTasks <= a.pendingTasks
    && (!Live(a.status) ==> b.status == a.status)
  }

  ghost predicate Evolves(a: Run, b: Run) {
    && SameShape(a, b)
    && ExecutionEvolves(a.exec, b.exec)
    && (forall i :: 0 <= i < |a.tasks| ==> TaskEvolves(a.tasks[i], b.tasks[i]))
    && (forall i :: 0 <= i < |a.approvals| ==> ApprovalEvolves(a.approvals[i], b.approvals[i]))
    && a.outbox <= b.outbox
  }

  lemma SameTaskEvolves(t: Task)
    ensures TaskEvolves(t, t)
  {
    OneMove(t.status, t.status);
  }

  lemma EvolvesReflexive(s: Run)
    ensures Evolves(s, s)
  {
    forall i | 0 <= i < |s.tasks| ensures TaskEvolves(s.tasks[i], s.tasks[i]) {
      SameTaskEvolves(s.tasks[i]);
    }
  }

  lemma EvolvesTransitive(a: Run, b: Run, c: Run)
    requires Evolves(a, b) && Evolves(b, c)
    ensures Evolves(a, c)
  {
    forall i | 0 <= i < |a.tasks| ensures TaskEvolves(a.tasks[i], c.tasks[i]) {
      ReachesTransitive(a.tasks[i].status, b.tasks[i].status, c.tasks[i].status);
    }
    forall i | 0 <= i < |a.approvals| ensures ApprovalEvolves(a.approvals[i], c.approvals[i]) {
      assert ApprovalEvolves(a.approvals[i], b.approvals[i]) && ApprovalEvolves(b.approvals[i], c.approvals[i]);
    }
  }
}
