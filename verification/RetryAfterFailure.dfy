/**
 * Fail-fast and retries. `failTask` reads the execution before it retries but does
 * not write it, so under snapshot isolation a retry and a failure of the run need not
 * conflict: a FAILED run may keep a RETRYING task. This module says exactly when.
 */
module RetryAfterFailure {
  import opened Graphs
  import opened States
  import opened Options
  import opened Documents
  import opened Transactions
  import opened Invariant
  import opened SnapshotIsolation
  import opened System
  import opened SystemInvariant
  import opened RunTheorems
  import Success
  import FailForGood
  import Moves
  import Preserves

  ghost predicate SomeRetrying(run: Run) {
    exists i :: 0 <= i < |run.tasks| && run.tasks[i].status == T.RETRYING
  }

  /** What fail-fast promises about retries: a FAILED run retries nothing. */
  ghost predicate CleanFailure(run: Run) {
    run.exec.status == E.FAILED ==> !SomeRetrying(run)
  }

  /** On its snapshot the call decides to retry. */
  predicate RetriesOn(tx: Txn, base: Run) {
    tx.FailTask? && Holds(base, tx.task, tx.token) && WillRetry(base, tx.task, tx.retryable)
  }

  /** On its snapshot the call decides that a task failed for good. */
  predicate FailsOn(tx: Txn, base: Run) {
    || (tx.FailTask? && Holds(base, tx.task, tx.token) && !WillRetry(base, tx.task, tx.retryable))
    || (tx.ResolveApproval? && tx.decision != APPROVED && tx.task < |base.approvals| && base.approvals[tx.task].REQUESTED?)
  }

  /** Some task is RETRYING now that was not when the snapshot was taken. */
  ghost predicate RetriedSince(base: Run, cur: Run) {
    exists i :: 0 <= i < |base.tasks| && i < |cur.tasks|
      && cur.tasks[i].status == T.RETRYING && base.tasks[i].status != T.RETRYING
  }

  /** A retry decided before the run failed commits after it, or the other way round. */
  ghost predicate Crosses(tx: Txn, base: Run, cur: Run) {
    || (RetriesOn(tx, base) && cur.exec.status == E.FAILED)
    || (FailsOn(tx, base) && Live(base.exec.status) && RetriedSince(base, cur))
  }

  /** The three ways a transaction treats retries. */
  ghost predicate NoNewRetry(base: Run, after: Run) {
    && |after.tasks| == |base.tasks|
    && (forall i :: 0 <= i < |base.tasks| && after.tasks[i].status == T.RETRYING ==> base.tasks[i].status == T.RETRYING)
    && (after.exec.status == E.FAILED ==> base.exec.status == E.FAILED)
  }

  ghost predicate StopsAll(base: Run, after: Run) {
    && |after.tasks| == |base.tasks|
    && !SomeRetrying(after) && after.exec.status == E.FAILED && after.exec != base.exec
  }

  lemma Kinds(defs: seq<TaskDef>, tx: Txn, base: Run)
    requires Inv(defs, base)
    ensures !RetriesOn(tx, base) && !FailsOn(tx, base) ==> NoNewRetry(base, Apply(tx, base))
    ensures FailsOn(tx, base) && !Live(base.exec.status) ==> NoNewRetry(base, Apply(tx, base))
    ensures FailsOn(tx, base) && Live(base.exec.status) ==> StopsAll(base, Apply(tx, base))
    ensures RetriesOn(tx, base) ==> Moves.MovesOn(base, tx.task, Apply(tx, base)) && At(Apply(tx, base), tx.task, T.RETRYING)
  {
    hide Inv;
    match tx
    case CompleteTask(k, token, output, now) =>
      if Holds(base, k, token) {
        Preserves.CompleteKeeps(defs, base, k, token, output, now);
        SuccessKind(base, k, Apply(tx, base));
      }
    case FailTask(k, token, retryable, delayMs, now) =>
      if Holds(base, k, token) {
        if WillRetry(base, k, retryable) {
          Preserves.RetryKeeps(defs, base, k, token, retryable, delayMs, now);
        } else {
          Preserves.FailForGoodKeeps(defs, base, k, token, retryable, delayMs, now);
          FailureKind(base, k, Apply(tx, base));
        }
      }
    case SuspendForApproval(_, _, _, _) =>
    case ResolveApproval(k, decision, now) =>
      if k < |base.approvals| && base.approvals[k].REQUESTED? {
        if decision == APPROVED {
          Preserves.ApproveKeeps(defs, base, k, now);
          SuccessKind(base, k, Apply(tx, base));
        } else {
          Preserves.RejectKeeps(defs, base, k, decision, now);
          FailureKind(base, k, Apply(tx, base));
        }
      }
    case PauseExecution =>
    case ResumeExecution(_) =>
    case CancelExecution =>
  }

  lemma SuccessKind(s: Run, k: nat, a: Run)
    requires Success.Succeeds(s, k, a)
    ensures NoNewRetry(s, a)
  {
    forall i | 0 <= i < |s.tasks| && a.tasks[i].status == T.RETRYING ensures s.tasks[i].status == T.RETRYING {
      if i != k {
        assert Success.ToldFrom(s.exec.status, s.tasks[k].dependents, s.tasks[i], a.tasks[i]);
      }
    }
  }

  lemma FailureKind(s: Run, k: nat, a: Run)
    requires FailForGood.Fails(s, k, a)
    ensures if Live(s.exec.status) then StopsAll(s, a) else NoNewRetry(s, a)
  {
    forall i | 0 <= i < |s.tasks| && i != k ensures FailForGood.StoppedFrom(s.exec.status, s.tasks[i], a.tasks[i]) {
    }
  }

  /** A commit breaks the promise exactly when it crosses a retry with the failure of the run. */
  lemma CommitIsClean(defs: seq<TaskDef>, tx: Txn, base: Run, cur: Run)
    requires Inv(defs, base) && CleanFailure(cur) && CanCommit(base, cur, Apply(tx, base))
    ensures CleanFailure(Merge(base, cur, Apply(tx, base))) <==> !Crosses(tx, base, cur)
  {
    Kinds(defs, tx, base);
    hide Inv, Apply, RetriesOn, FailsOn;
    var after := Apply(tx, base);
    var m := Merge(base, cur, after);
    if RetriesOn(tx, base) {
      assert m.tasks[tx.task] == after.tasks[tx.task];
      if cur.exec.status == E.FAILED {
        assert SomeRetrying(m);
      }
      assert !FailsOn(tx, base) by {
        OneOrTheOther(tx, base);
      }
    } else if FailsOn(tx, base) && Live(base.exec.status) {
      StoppingCommit(base, cur, after);
    } else {
      QuietCommit(base, cur, after);
    }
  }

  lemma OneOrTheOther(tx: Txn, base: Run)
    requires RetriesOn(tx, base)
    ensures !FailsOn(tx, base)
  {
  }

  lemma StoppingCommit(base: Run, cur: Run, after: Run)
    requires CanCommit(base, cur, after) && StopsAll(base, after)
    ensures CleanFailure(Merge(base, cur, after)) <==> !RetriedSince(base, cur)
  {
    var m := Merge(base, cur, after);
    if RetriedSince(base, cur) {
      var i :| 0 <= i < |base.tasks| && cur.tasks[i].status == T.RETRYING && base.tasks[i].status != T.RETRYING;
      assert m.tasks[i] == cur.tasks[i];
      assert SomeRetrying(m);
    }
    if SomeRetrying(m) {
      var i :| 0 <= i < |m.tasks| && m.tasks[i].status == T.RETRYING;
      assert after.tasks[i].status != T.RETRYING;
      assert m.tasks[i] == cur.tasks[i] && after.tasks[i] == base.tasks[i];
      assert RetriedSince(base, cur);
    }
  }

  lemma QuietCommit(base: Run, cur: Run, after: Run)
    requires CanCommit(base, cur, after) && NoNewRetry(base, after) && CleanFailure(cur)
    ensures CleanFailure(Merge(base, cur, after))
  {
    var m := Merge(base, cur, after);
    forall i | 0 <= i < |m.tasks| && m.tasks[i].status == T.RETRYING ensures cur.tasks[i].status == T.RETRYING {
    }
  }

  /** The step is a commit that crosses a retry with the failure of the run. */
  ghost predicate CrossingCommit(step: Step, s: Sys) {
    && step.Commit? && ActorOf(s, step.w).InTransaction?
    && var a := ActorOf(s, step.w);
      CanCommit(a.base, s.run, Apply(a.tx, a.base)) && Crosses(a.tx, a.base, s.run)
  }

  /** Whatever the actors do, the promise breaks exactly at such a commit. */
  lemma RetryAfterFailureExactly(defs: seq<TaskDef>, s: Sys, leaseMs: nat, step: Step)
    requires Reachable(defs, s, leaseMs) && CleanFailure(s.run)
    ensures CleanFailure(Do(step, s, leaseMs).run) <==> !CrossingCommit(step, s)
  {
    hide Inv, Evolves, Crosses, Apply, Merge, CanCommit, HandoutsOk, ReportsOk, LeasesOk, ParentOutputs, DistinctKeys,
      MayBegin, Claim, Claimable, Dispatch, Renew, Holds, CleanFailure;
    ReachableInv(defs, s, leaseMs);
    match step
    case Commit(w) =>
      var a := ActorOf(s, w);
      if a.InTransaction? {
        assert ActorOk(defs, s.run, a);
        if CanCommit(a.base, s.run, Apply(a.tx, a.base)) {
          CommitIsClean(defs, a.tx, a.base, s.run);
        }
      }
    case DispatchTask(k) => SingleStepsAreClean(s.run, k, 0, s.clock, leaseMs);
    case ClaimTask(w, k) => SingleStepsAreClean(s.run, k, 0, s.clock, leaseMs);
    case Heartbeat(w) =>
      var a := ActorOf(s, w);
      if a.Handling? {
        SingleStepsAreClean(s.run, a.ticket.task, a.ticket.token, s.clock, leaseMs);
      }
    case _ =>
  }

  lemma SingleStepsAreClean(run: Run, k: nat, token: int, now: int, leaseMs: nat)
    requires CleanFailure(run)
    ensures CleanFailure(Dispatch(run, k, now)) && CleanFailure(Claim(run, k, now, leaseMs))
    ensures CleanFailure(Renew(run, k, token, now, leaseMs))
  {
    forall a: Run | a in {Dispatch(run, k, now), Claim(run, k, now, leaseMs), Renew(run, k, token, now, leaseMs)} && SomeRetrying(a)
      ensures SomeRetrying(run)
    {
      var i :| 0 <= i < |a.tasks| && a.tasks[i].status == T.RETRYING;
      assert run.tasks[i].status == T.RETRYING;
    }
  }

  // ---------------------------------------------------------------- transactions one at a time

  /** Every transaction of the run commits on the documents it read: nothing came in between. */
  ghost predicate OneAtATime(steps: seq<Step>, s: Sys, leaseMs: nat)
    decreases |steps|
  {
    steps == [] ||
    var n := |steps| - 1;
    && OneAtATime(steps[..n], s, leaseMs)
    && var mid, step := Exec(steps[..n], s, leaseMs), steps[n];
      step.Commit? && ActorOf(mid, step.w).InTransaction? ==> ActorOf(mid, step.w).base == mid.run
  }

  lemma AtomicNeverCrosses(tx: Txn, run: Run)
    ensures !Crosses(tx, run, run)
  {
  }

  /** With transactions one at a time, a FAILED run has no RETRYING task. */
  lemma {:induction false} AtomicFailureIsClean(defs: seq<TaskDef>, now: int, steps: seq<Step>, leaseMs: nat)
    requires ValidGraph(defs) && defs != [] && OneAtATime(steps, Initial(defs, now), leaseMs)
    ensures CleanFailure(Exec(steps, Initial(defs, now), leaseMs).run)
    decreases |steps|
  {
    if steps != [] {
      var n := |steps| - 1;
      var mid := Exec(steps[..n], Initial(defs, now), leaseMs);
      AtomicFailureIsClean(defs, now, steps[..n], leaseMs);
      assert Reachable(defs, mid, leaseMs);
      hide Reachable, Crosses, CleanFailure, Do, Apply, CanCommit;
      RetryAfterFailureExactly(defs, mid, leaseMs, steps[n]);
      if CrossingCommit(steps[n], mid) {
        AtomicNeverCrosses(ActorOf(mid, steps[n].w).tx, mid.run);
      }
    }
  }

  // ---------------------------------------------------------------- a run where it happens

  lemma OneMoreStep(defs: seq<TaskDef>, s: Sys, step: Step, leaseMs: nat)
    requires Reachable(defs, s, leaseMs)
    ensures Reachable(defs, Do(step, s, leaseMs), leaseMs)
  {
    var now, steps :| Exec(steps, Initial(defs, now), leaseMs) == s;
    var longer := steps + [step];
    assert longer[..|longer| - 1] == steps;
    assert Exec(longer, Initial(defs, now), leaseMs) == Do(step, s, leaseMs);
  }

  /** Two independent tasks. */
  function TwoRoots(): seq<TaskDef> {
    [TaskDef("A", [], 3), TaskDef("B", [], 3)]
  }

  lemma TwoRootsAreValid()
    ensures ValidGraph(TwoRoots())
  {
    forall path | |path| >= 2 ensures !Chain(TwoRoots(), path) {
      assert !Edge(TwoRoots(), path[0], path[1]);
    }
  }

  /** What the run of the example looks like: the status and token of both tasks. */
  ghost predicate Both(s: Sys, e: E, st0: T, st1: T, token: int) {
    && |s.run.tasks| == 2 && |s.run.approvals| == 2 && s.run.exec.status == e
    && s.run.tasks[0].status == st0 && s.run.tasks[1].status == st1
    && forall i :: 0 <= i < 2 ==>
      && s.run.tasks[i].leaseToken == token && s.run.tasks[i].attempt == token
      && s.run.tasks[i].def == TwoRoots()[i]
  }

  lemma BothQueued(leaseMs: nat) returns (s: Sys)
    ensures Reachable(TwoRoots(), s, leaseMs) && Both(s, E.RUNNING, T.QUEUED, T.QUEUED, 0)
    ensures ActorOf(s, 1).Idle? && ActorOf(s, 2).Idle? && ActorOf(s, 3).Idle? && s.clock == 0
  {
    TwoRootsAreValid();
    hide ValidGraph, Reachable;
    var defs := TwoRoots();
    s := Initial(defs, 0);
    StartIsReachable(defs, 0, leaseMs);
    assert Both(s, E.RUNNING, T.READY, T.READY, 0);
    s := Advance(defs, s, DispatchTask(0), leaseMs);
    s := Advance(defs, s, DispatchTask(1), leaseMs);
  }

  lemma BothClaimed(leaseMs: nat) returns (s: Sys)
    ensures Reachable(TwoRoots(), s, leaseMs) && Both(s, E.RUNNING, T.RUNNING, T.RUNNING, 1)
    ensures ActorOf(s, 1) == Claimed(Ticket(0, 1)) && ActorOf(s, 2) == Claimed(Ticket(1, 1))
    ensures ActorOf(s, 3).Idle? && s.clock == 0 && s.run.tasks[0].leaseExpiresAt == Some(leaseMs)
  {
    hide Reachable;
    var defs := TwoRoots();
    s := BothQueued(leaseMs);
    s := Advance(defs, s, Step.ClaimTask(1, 0), leaseMs);
    s := Advance(defs, s, Step.ClaimTask(2, 1), leaseMs);
  }

  lemma StartIsReachable(defs: seq<TaskDef>, now: int, leaseMs: nat)
    requires ValidGraph(defs) && defs != []
    ensures Reachable(defs, Initial(defs, now), leaseMs)
  {
    assert Exec([], Initial(defs, now), leaseMs) == Initial(defs, now);
  }

  lemma Advance(defs: seq<TaskDef>, s: Sys, step: Step, leaseMs: nat) returns (s': Sys)
    requires Reachable(defs, s, leaseMs)
    ensures s' == Do(step, s, leaseMs) && Reachable(defs, s', leaseMs)
  {
    hide Reachable, Do;
    OneMoreStep(defs, s, step, leaseMs);
    s' := Do(step, s, leaseMs);
  }

  lemma BothReporting(leaseMs: nat, retry: Txn, failure: Txn) returns (s: Sys)
    requires retry == Txn.FailTask(0, 1, true, 0, 0) && failure == Txn.FailTask(1, 1, false, 0, 0)
    ensures Reachable(TwoRoots(), s, leaseMs) && Both(s, E.RUNNING, T.RUNNING, T.RUNNING, 1)
    ensures ActorOf(s, 1) == InTransaction(retry, s.run, Some(Ticket(0, 1)))
    ensures ActorOf(s, 2) == InTransaction(failure, s.run, Some(Ticket(1, 1)))
  {
    hide Reachable;
    var defs := TwoRoots();
    s := BothClaimed(leaseMs);
    assert DistinctKeys(s.run);
    s := Advance(defs, s, HandOut(1), leaseMs);
    assert ActorOf(s, 1) == Handling(Ticket(0, 1)) && DistinctKeys(s.run);
    s := Advance(defs, s, HandOut(2), leaseMs);
    s := Advance(defs, s, Begin(1, retry), leaseMs);
    s := Advance(defs, s, Begin(2, failure), leaseMs);
  }

  /**
   * The promise does break: two workers report at the same time, one a transient
   * error and one a permanent one. Both snapshots show a RUNNING run; the permanent
   * failure commits first and fails the run, the retry still commits after it.
   */
  lemma FailedRunThatRetries(leaseMs: nat) returns (s: Sys)
    ensures Reachable(TwoRoots(), s, leaseMs)
    ensures s.run.exec.status == E.FAILED && |s.run.tasks| == 2 && s.run.tasks[0].status == T.RETRYING
    ensures !CleanFailure(s.run)
  {
    hide Reachable;
    var defs := TwoRoots();
    var retry, failure := Txn.FailTask(0, 1, true, 0, 0), Txn.FailTask(1, 1, false, 0, 0);
    s := BothReporting(leaseMs, retry, failure);
    var base := s.run;
    var failed := Apply(failure, base);
    var retried := Apply(retry, base);
    assert failed.tasks[0] == base.tasks[0] && failed.exec.status == E.FAILED;
    assert retried.exec == base.exec && retried.tasks[0].status == T.RETRYING && retried.tasks[1] == base.tasks[1];
    AtomicIsSpecial(base, failed);
    s := Advance(defs, s, Commit(2), leaseMs);
    assert s.run == failed && ActorOf(s, 1) == InTransaction(retry, base, Some(Ticket(0, 1)));
    assert CanCommit(base, s.run, retried);
    s := Advance(defs, s, Commit(1), leaseMs);
    assert SomeRetrying(s.run);
  }
}
