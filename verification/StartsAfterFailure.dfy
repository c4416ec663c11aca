/**
 * What still starts in a FAILED or a PAUSED run (src/workflow/engine.js): `claimTask` never
 * looks at the execution, and `failTask` retries while the run is paused.
 */
module StartsAfterFailure {
  import opened Graphs
  import opened States
  import opened Options
  import opened Documents
  import opened Transactions
  import opened Invariant
  import opened SnapshotIsolation
  import opened System
  import opened SystemInvariant
  import opened RunTheorems
  import opened RetryAfterFailure
  import Preserves

  /** In a FAILED run a task can be claimed exactly if it is RETRYING, or RUNNING under a lease that has run out. */
  lemma ClaimableAfterFailure(defs: seq<TaskDef>, s: Sys, leaseMs: nat, k: nat)
    requires Reachable(defs, s, leaseMs) && s.run.exec.status == E.FAILED && k < |s.run.tasks|
    ensures Claimable(s.run, k, s.clock) <==>
      || s.run.tasks[k].status == T.RETRYING
      || (s.run.tasks[k].status == T.RUNNING && LeaseExpired(s.run.tasks[k], s.clock))
  {
    ReachableInv(defs, s, leaseMs);
  }

  /** With transactions one at a time, only the second of these happens: nothing but takeovers starts. */
  lemma AtomicFailureOnlyTakesOver(defs: seq<TaskDef>, now: int, steps: seq<Step>, leaseMs: nat, k: nat)
    requires ValidGraph(defs) && defs != [] && OneAtATime(steps, Initial(defs, now), leaseMs)
    requires var s := Exec(steps, Initial(defs, now), leaseMs); s.run.exec.status == E.FAILED && k < |s.run.tasks|
    ensures var s := Exec(steps, Initial(defs, now), leaseMs);
      Claimable(s.run, k, s.clock) <==> s.run.tasks[k].status == T.RUNNING && LeaseExpired(s.run.tasks[k], s.clock)
  {
    var s := Exec(steps, Initial(defs, now), leaseMs);
    AtomicFailureIsClean(defs, now, steps, leaseMs);
    assert Reachable(defs, s, leaseMs);
    hide Reachable;
    ClaimableAfterFailure(defs, s, leaseMs, k);
    assert s.run.tasks[k].status == T.RETRYING ==> SomeRetrying(s.run);
  }

  // ---------------------------------------------------------------- new attempts

  /** Some task is in a later attempt than before. */
  ghost predicate NewAttempt(a: Run, b: Run) {
    exists k :: 0 <= k < |a.tasks| && k < |b.tasks| && b.tasks[k].attempt > a.tasks[k].attempt
  }

  /** The step takes over a task, or starts a retry. */
  predicate TakesOrRetries(step: Step, s: Sys) {
    && step.ClaimTask? && ActorOf(s, step.w).Idle? && step.task < |s.run.tasks|
    && var t := s.run.tasks[step.task];
      t.status == T.RETRYING || (t.status == T.RUNNING && LeaseExpired(t, s.clock))
  }

  ghost predicate SameAttempts(a: Run, b: Run) {
    |a.tasks| == |b.tasks| && forall i :: 0 <= i < |a.tasks| ==> a.tasks[i].attempt == b.tasks[i].attempt
  }

  lemma NoTransactionStarts(defs: seq<TaskDef>, tx: Txn, base: Run, cur: Run)
    requires Inv(defs, base) && CanCommit(base, cur, Apply(tx, base))
    ensures SameAttempts(cur, Merge(base, cur, Apply(tx, base)))
  {
    Preserves.TransactionKeeps(defs, tx, base);
    LeasesOnlyShrink(tx, base);
    hide Apply, Evolves;
    TokensAreAttempts(defs, base);
    TokensAreAttempts(defs, Apply(tx, base));
    hide Inv, CanCommit, Merge;
    MergedAttempts(base, cur, Apply(tx, base));
  }

  lemma TokensAreAttempts(defs: seq<TaskDef>, run: Run)
    requires Inv(defs, run)
    ensures forall i :: 0 <= i < |run.tasks| ==> run.tasks[i].attempt == run.tasks[i].leaseToken
  {
    forall i | 0 <= i < |run.tasks| ensures run.tasks[i].attempt == run.tasks[i].leaseToken {
      assert FieldsAgree(run.tasks[i]);
    }
  }

  lemma MergedAttempts(base: Run, cur: Run, after: Run)
    requires CanCommit(base, cur, after) && NoNewLeases(base, after)
    requires forall i :: 0 <= i < |base.tasks| ==> base.tasks[i].attempt == base.tasks[i].leaseToken
    requires forall i :: 0 <= i < |after.tasks| ==> after.tasks[i].attempt == after.tasks[i].leaseToken
    ensures SameAttempts(cur, Merge(base, cur, after))
  {
  }

  lemma SingleStepAttempts(run: Run, k: nat, token: int, now: int, leaseMs: nat)
    ensures SameAttempts(run, Dispatch(run, k, now)) && SameAttempts(run, Renew(run, k, token, now, leaseMs))
    ensures Claimable(run, k, now) ==> NewAttempt(run, Claim(run, k, now, leaseMs))
  {
    if Claimable(run, k, now) {
      assert Claim(run, k, now, leaseMs).tasks[k].attempt > run.tasks[k].attempt;
    }
  }

  /** In a FAILED run a step starts a new attempt of some task if and only if it takes one over or starts a retry. */
  lemma StartsAfterFailureExactly(defs: seq<TaskDef>, s: Sys, leaseMs: nat, step: Step)
    requires Reachable(defs, s, leaseMs) && s.run.exec.status == E.FAILED
    ensures NewAttempt(s.run, Do(step, s, leaseMs).run) <==> TakesOrRetries(step, s)
  {
    if step.ClaimTask? && step.task < |s.run.tasks| {
      ClaimableAfterFailure(defs, s, leaseMs, step.task);
    }
    hide Committed, Claim, Dispatch, Renew, Reachable, LeaseExpired, ParentOutputs, DistinctKeys, MayBegin;
    match step
    case Commit(w) => CommitStartsNothing(defs, s, leaseMs, w);
    case DispatchTask(k) => SingleStepAttempts(s.run, k, 0, s.clock, leaseMs);
    case ClaimTask(w, k) => SingleStepAttempts(s.run, k, 0, s.clock, leaseMs);
    case Heartbeat(w) =>
      var a := ActorOf(s, w);
      if a.Handling? {
        SingleStepAttempts(s.run, a.ticket.task, a.ticket.token, s.clock, leaseMs);
      }
    case _ =>
  }

  lemma CommitStartsNothing(defs: seq<TaskDef>, s: Sys, leaseMs: nat, w: nat)
    requires Reachable(defs, s, leaseMs)
    ensures SameAttempts(s.run, Do(Commit(w), s, leaseMs).run)
  {
    hide Reachable, Apply, Inv, ActorsOk, HandoutsOk, ReportsOk, LeasesOk, Evolves, SameAttempts, Merge, CanCommit, Issued;
    ReachableInv(defs, s, leaseMs);
    ActorIsOk(defs, s, w);
    AttemptsStay(s.run);
    var a := ActorOf(s, w);
    if a.InTransaction? {
      hide ActorOk;
      BaseIsOk(defs, s.run, a);
      if CanCommit(a.base, s.run, Apply(a.tx, a.base)) {
        NoTransactionStarts(defs, a.tx, a.base, s.run);
      }
    }
  }

  lemma BaseIsOk(defs: seq<TaskDef>, run: Run, a: Actor)
    requires a.InTransaction? && ActorOk(defs, run, a)
    ensures Inv(defs, a.base)
  {
    hide Inv, Evolves, Issued;
  }

  lemma AttemptsStay(run: Run)
    ensures SameAttempts(run, run)
  {
  }

  // ---------------------------------------------------------------- runs where it happens

  /** An actor makes one call, undisturbed. */
  lemma CallAlone(defs: seq<TaskDef>, s: Sys, leaseMs: nat, w: nat, tx: Txn) returns (s': Sys)
    requires Reachable(defs, s, leaseMs) && ActorOf(s, w).Idle?
    ensures Reachable(defs, s', leaseMs) && s'.run == Apply(tx, s.run) && s'.clock == s.clock && ActorOf(s', w).Idle?
  {
    hide Reachable, Apply, Do;
    RunAlone(defs, s, leaseMs, w, tx);
    var open := Advance(defs, s, Begin(w, tx), leaseMs);
    s' := Advance(defs, open, Commit(w), leaseMs);
    IdleAgain(defs, s, leaseMs, w, tx);
  }

  lemma IdleAgain(defs: seq<TaskDef>, s: Sys, leaseMs: nat, w: nat, tx: Txn)
    requires Reachable(defs, s, leaseMs) && ActorOf(s, w).Idle?
    ensures var s' := Do(Commit(w), Do(Begin(w, tx), s, leaseMs), leaseMs);
      ActorOf(s', w).Idle? && s'.clock == s.clock
  {
    hide SysInv, Reachable, Do, Apply, CanCommit;
    ReachableInv(defs, s, leaseMs);
    BeginsOnNow(s, leaseMs, w, tx);
    RunOfInv(defs, s, leaseMs);
    AloneCommits(defs, s.run, tx);
    CommitEndsIdle(Do(Begin(w, tx), s, leaseMs), leaseMs, w, tx);
    BeginsClock(s, leaseMs, w, tx);
  }

  lemma RunOfInv(defs: seq<TaskDef>, s: Sys, leaseMs: nat)
    requires SysInv(defs, s, leaseMs)
    ensures Inv(defs, s.run)
  {
  }

  lemma BeginsClock(s: Sys, leaseMs: nat, w: nat, tx: Txn)
    ensures Do(Begin(w, tx), s, leaseMs).clock == s.clock
  {
  }

  lemma CommitEndsIdle(open: Sys, leaseMs: nat, w: nat, tx: Txn)
    requires ActorOf(open, w) == InTransaction(tx, open.run, None) && CanCommit(open.run, open.run, Apply(tx, open.run))
    ensures ActorOf(Do(Commit(w), open, leaseMs), w).Idle? && Do(Commit(w), open, leaseMs).clock == open.clock
  {
    hide Apply, CanCommit, Merge;
  }

  /**
   * One task fails for good while the other's worker has died: the run is FAILED and
   * retries nothing, and yet the other task is taken over for a second attempt.
   */
  lemma FailedRunThatTakesOver(leaseMs: nat) returns (s: Sys, s': Sys)
    ensures Reachable(TwoRoots(), s, leaseMs) && s.run.exec.status == E.FAILED && CleanFailure(s.run)
    ensures s' == Do(Step.ClaimTask(3, 0), s, leaseMs) && |s.run.tasks| == |s'.run.tasks| == 2
    ensures s.run.tasks[0].attempt == 1 && s'.run.tasks[0].attempt == 2 && s'.run.tasks[0].status == T.RUNNING
    ensures s'.run.exec.status == E.FAILED
  {
    hide Reachable;
    var failure := Txn.FailTask(1, 1, false, 0, 0);
    var running := BothClaimed(leaseMs);
    SecondFails(running.run, failure);
    var failed := CallAlone(TwoRoots(), running, leaseMs, 3, failure);
    hide Apply, CleanFailure, Both;
    s := Advance(TwoRoots(), failed, Tick(leaseMs + 1), leaseMs);
    s' := Do(Step.ClaimTask(3, 0), s, leaseMs);
  }

  /** The second of two running tasks fails for good; the first one goes on running. */
  lemma SecondFails(run: Run, failure: Txn)
    requires |run.tasks| == 2 && run.exec.status == E.RUNNING && failure == Txn.FailTask(1, 1, false, 0, 0)
    requires run.tasks[0].status == run.tasks[1].status == T.RUNNING && run.tasks[1].leaseToken == 1
    ensures var failed := Apply(failure, run);
      && |failed.tasks| == 2 && failed.tasks[0] == run.tasks[0] && failed.exec.status == E.FAILED && CleanFailure(failed)
  {
    var failed := Apply(failure, run);
    assert failed.tasks[0] == run.tasks[0] && failed.tasks[1].status == T.FAILED;
  }

  /** A failed attempt is retried exactly if the error is transient, attempts are left, and the run is RUNNING or PAUSED. */
  lemma RetriesExactly(s: Run, k: nat, token: int, retryable: bool, delayMs: int, now: int)
    requires Holds(s, k, token)
    ensures At(Fail(s, k, token, retryable, delayMs, now), k, T.RETRYING) <==>
      && retryable && s.tasks[k].attempt < s.tasks[k].def.maxAttempts
      && (s.exec.status == E.RUNNING || s.exec.status == E.PAUSED)
  {
    var t := s.tasks[k];
    if !WillRetry(s, k, retryable) {
      var dead := retryable && t.attempt >= t.def.maxAttempts;
      var failed := Put(s, k, t.(status := if dead then T.DEAD_LETTER else T.FAILED, leaseExpiresAt := None));
      assert AfterTaskFailedForGood(failed, k, dead).tasks[k].status == failed.tasks[k].status;
    }
  }

  /** A reachable PAUSED run in which a report takes a task from RUNNING to RETRYING. */
  lemma PausedRunThatRetries(leaseMs: nat) returns (s: Sys, s': Sys)
    ensures Reachable(TwoRoots(), s, leaseMs) && Reachable(TwoRoots(), s', leaseMs)
    ensures s'.run == Apply(Txn.FailTask(0, 1, true, 0, 0), s.run) && |s.run.tasks| == |s'.run.tasks| == 2
    ensures s.run.exec.status == s'.run.exec.status == E.PAUSED
    ensures s.run.tasks[0].status == T.RUNNING && s'.run.tasks[0].status == T.RETRYING
  {
    hide Reachable;
    var running := BothClaimed(leaseMs);
    s := CallAlone(TwoRoots(), running, leaseMs, 3, PauseExecution);
    assert s.run == Pause(running.run);
    s' := CallAlone(TwoRoots(), s, leaseMs, 3, Txn.FailTask(0, 1, true, 0, 0));
  }
}
