/** Why the reconciler can always restart a run that came to a standstill (src/workflow/engine.js). */
module Recovery {
  import opened Graphs
  import opened States
  import opened Options
  import opened Documents
  import opened Transactions
  import opened Invariant
  import opened SnapshotIsolation
  import opened System
  import opened RunTheorems
  import opened Calls

  /** A task carries the time since which it waits: what the reconciler's sweeps compare. */
  predicate Stamped(t: Task) {
    && (t.status == T.READY ==> t.readyAt.Some?)
    && (t.status == T.QUEUED ==> t.queuedAt.Some?)
    && (t.status == T.RETRYING ==> t.retryAt.Some?)
  }

  ghost predicate AllStamped(tasks: seq<Task>) {
    forall i :: 0 <= i < |tasks| ==> Stamped(tasks[i])
  }

  lemma ToldStamped(s: Run, keys: seq<Key>, now: int)
    requires AllStamped(s.tasks)
    ensures AllStamped(ChildrenTold(s, keys, now).tasks)
  {
  }

  lemma SuccessStamped(s: Run, k: nat, now: int)
    requires k < |s.tasks| && AllStamped(s.tasks)
    ensures AllStamped(AfterTaskSucceeded(s, k, now).tasks)
  {
    ToldStamped(OneLessPending(s), s.tasks[k].dependents, now);
    hide ChildrenTold, Stamped;
  }

  lemma FailureStamped(s: Run, k: nat, dead: bool)
    requires AllStamped(s.tasks)
    ensures AllStamped(AfterTaskFailedForGood(s, k, dead).tasks)
  {
  }

  lemma ResolveStamped(s: Run, k: nat, decision: Decision, now: int)
    requires AllStamped(s.tasks)
    ensures AllStamped(Resolve(s, k, decision, now).tasks)
  {
    if k < |s.approvals| && s.approvals[k].REQUESTED? && !NotActionable(s, k) {
      var s1 := s.(approvals := s.approvals[k := DECIDED(decision)]);
      var t := s1.tasks[k];
      var completed := Put(s1, k, t.(status := T.COMPLETED, output := Some("approved")));
      var failed := Put(s1, k, t.(status := T.FAILED));
      assert AllStamped(completed.tasks) && AllStamped(failed.tasks);
      hide AfterTaskSucceeded, AfterTaskFailedForGood, Stamped;
      SuccessStamped(completed, k, now);
      FailureStamped(failed, k, false);
    }
  }

  lemma CompleteStamped(s: Run, k: nat, token: int, output: Output, now: int)
    requires AllStamped(s.tasks)
    ensures AllStamped(Complete(s, k, token, output, now).tasks)
  {
    if Holds(s, k, token) {
      var done := Put(s, k, s.tasks[k].(status := T.COMPLETED, output := Some(output), leaseExpiresAt := None));
      assert AllStamped(done.tasks);
      hide AfterTaskSucceeded, Stamped;
      SuccessStamped(done, k, now);
    }
  }

  lemma FailStamped(s: Run, k: nat, token: int, retryable: bool, delayMs: int, now: int)
    requires AllStamped(s.tasks)
    ensures AllStamped(Fail(s, k, token, retryable, delayMs, now).tasks)
  {
    if Holds(s, k, token) && !WillRetry(s, k, retryable) {
      var t := s.tasks[k];
      var dead := retryable && t.attempt >= t.def.maxAttempts;
      var failed := Put(s, k, t.(status := if dead then T.DEAD_LETTER else T.FAILED, leaseExpiresAt := None));
      assert AllStamped(failed.tasks);
      hide AfterTaskFailedForGood, Stamped;
      FailureStamped(failed, k, dead);
    }
  }

  lemma ApplyStamped(tx: Txn, s: Run)
    requires AllStamped(s.tasks)
    ensures AllStamped(Apply(tx, s).tasks)
  {
    match tx
    case CompleteTask(k, token, output, now) => CompleteStamped(s, k, token, output, now);
    case FailTask(k, token, retryable, delayMs, now) => FailStamped(s, k, token, retryable, delayMs, now);
    case ResolveApproval(k, decision, now) => ResolveStamped(s, k, decision, now);
    case _ => hide Complete, Fail, Resolve;
  }

  ghost predicate SysStamped(s: Sys) {
    && AllStamped(s.run.tasks)
    && forall w :: w in s.actors && s.actors[w].InTransaction? ==> AllStamped(s.actors[w].base.tasks)
  }

  /** A commit takes each document from the snapshot's outcome or from the current state: both are stamped. */
  lemma CommitStamped(s: Sys, w: nat, tx: Txn, base: Run, ticket: Option<Ticket>)
    requires SysStamped(s) && AllStamped(base.tasks)
    ensures SysStamped(Committed(s, w, tx, base, ticket))
  {
    ApplyStamped(tx, base);
    hide Apply, Stamped;
    if CanCommit(base, s.run, Apply(tx, base)) {
      assert AllStamped(Merge(base, s.run, Apply(tx, base)).tasks);
    }
  }

  lemma StepStamped(step: Step, s: Sys, leaseMs: nat)
    requires SysStamped(s)
    ensures SysStamped(Do(step, s, leaseMs))
  {
    match step
    case DispatchTask(k) => assert AllStamped(Dispatch(s.run, k, s.clock).tasks);
    case ClaimTask(w, k) => assert AllStamped(Claim(s.run, k, s.clock, leaseMs).tasks);
    case Heartbeat(w) =>
      var a := ActorOf(s, w);
      if a.Handling? {
        assert AllStamped(Renew(s.run, a.ticket.task, a.ticket.token, s.clock, leaseMs).tasks);
      }
    case Commit(w) =>
      var a := ActorOf(s, w);
      if a.InTransaction? {
        CommitStamped(s, w, a.tx, a.base, a.holder);
      }
      hide Committed;
    case _ =>
  }

  lemma {:induction false} ExecStamped(steps: seq<Step>, s: Sys, leaseMs: nat)
    requires SysStamped(s)
    ensures SysStamped(Exec(steps, s, leaseMs))
    decreases |steps|
  {
    hide Do, SysStamped;
    if steps != [] {
      ExecStamped(steps[..|steps| - 1], s, leaseMs);
      StepStamped(steps[|steps| - 1], Exec(steps[..|steps| - 1], s, leaseMs), leaseMs);
    }
  }

  lemma AlwaysStamped(defs: seq<TaskDef>, s: Sys, leaseMs: nat)
    requires Reachable(defs, s, leaseMs)
    ensures AllStamped(s.run.tasks)
  {
    var now, steps :| Exec(steps, Initial(defs, now), leaseMs) == s;
    assert SysStamped(Initial(defs, now));
    ExecStamped(steps, Initial(defs, now), leaseMs);
  }

  /** Everything the task waits for in the queue, or a worker's lease on it, has run out. */
  predicate Lapsed(t: Task, cutoff: int, now: int) {
    && (t.readyAt.Some? ==> t.readyAt.value < cutoff)
    && (t.queuedAt.Some? ==> t.queuedAt.value < cutoff)
    && (t.retryAt.Some? ==> t.retryAt.value < cutoff)
    && (t.leaseExpiresAt.Some? ==> t.leaseExpiresAt.value < now)
  }

  /**
   * No run is lost: in every reachable RUNNING state, once all its waits and leases have
   * run out, some task is one the reconciler puts in the queue, or waits for a human's
   * answer, whatever crashed and whatever the queue lost.
   */
  lemma NoRunIsLost(defs: seq<TaskDef>, s: Sys, leaseMs: nat, cutoff: int)
    requires Reachable(defs, s, leaseMs) && s.run.exec.status == E.RUNNING
    requires forall i :: 0 <= i < |s.run.tasks| ==> Lapsed(s.run.tasks[i], cutoff, s.clock)
    ensures exists k: nat ::
      (NeedsQueue(s.run, k, cutoff, s.clock) || (k < |s.run.approvals| && s.run.approvals[k].REQUESTED?))
  {
    AlwaysStamped(defs, s, leaseMs);
    ReachableInv(defs, s, leaseMs);
    var k := SomethingIsActive(defs, s.run);
    StandstillShows(defs, s.run, k, cutoff, s.clock);
  }

  lemma StandstillShows(defs: seq<TaskDef>, s: Run, k: nat, cutoff: int, now: int)
    requires Inv(defs, s) && s.exec.status == E.RUNNING && AllStamped(s.tasks)
    requires k < |s.tasks| && Active(s.tasks[k].status) && Lapsed(s.tasks[k], cutoff, now)
    ensures NeedsQueue(s, k, cutoff, now) || (k < |s.approvals| && s.approvals[k].REQUESTED?)
  {
    assert Stamped(s.tasks[k]) && Paired(s.tasks[k].status, s.approvals[k]);
  }
}
