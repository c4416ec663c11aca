/** Lease exclusion: while a lease lasts, nobody else gets the task. */
module Leases {
  import opened Graphs
  import opened States
  import opened Options
  import opened Documents
  import opened Transactions
  import opened Invariant
  import opened SnapshotIsolation
  import opened System
  import opened SystemInvariant
  import opened RunTheorems

  /** The holder of ticket `t` has reported, or still holds a lease up to `deadline`, or the task was cancelled under it. */
  ghost predicate Kept(s: Sys, t: Ticket, deadline: int) {
    && t.task < |s.run.tasks|
    && (|| t in s.applied
        || TaskKept(s.run.tasks[t.task], t.token, deadline))
  }

  ghost predicate TaskKept(task: Task, token: int, deadline: int) {
    && task.leaseToken == token
    && (|| task.status == T.CANCELLED
        || (task.status == T.RUNNING && task.leaseExpiresAt.Some? && task.leaseExpiresAt.value >= deadline))
  }

  /** What a transaction may do to a RUNNING task: it is that task's report, or cancels it, or leaves its lease alone. */
  ghost predicate LeavesLease(tx: Txn, i: nat, t: Task, t': Task) {
    || TicketOf(tx) == Some(Ticket(i, t.leaseToken))
    || t'.status == T.CANCELLED
    || (t'.status == T.RUNNING && t'.leaseExpiresAt == t.leaseExpiresAt)
  }

  lemma RunningIsLeftAlone(tx: Txn, s: Run, i: nat)
    requires At(s, i, T.RUNNING)
    ensures |Apply(tx, s).tasks| == |s.tasks| && LeavesLease(tx, i, s.tasks[i], Apply(tx, s).tasks[i])
  {
    match tx
    case CompleteTask(k, token, output, now) => CompletionLeaves(s, k, token, output, now, i);
    case FailTask(k, token, retryable, delayMs, now) => FailureLeaves(s, k, token, retryable, delayMs, now, i);
    case SuspendForApproval(_, _, _, _) =>
    case ResolveApproval(k, decision, now) => DecisionLeaves(s, k, decision, now, i);
    case PauseExecution =>
    case ResumeExecution(_) =>
    case CancelExecution =>
  }

  lemma CompletionLeaves(s: Run, k: nat, token: int, output: Output, now: int, i: nat)
    requires At(s, i, T.RUNNING)
    ensures LeavesLease(Txn.CompleteTask(k, token, output, now), i, s.tasks[i], Complete(s, k, token, output, now).tasks[i])
  {
  }

  lemma FailureLeaves(s: Run, k: nat, token: int, retryable: bool, delayMs: int, now: int, i: nat)
    requires At(s, i, T.RUNNING)
    ensures LeavesLease(Txn.FailTask(k, token, retryable, delayMs, now), i, s.tasks[i],
                        Fail(s, k, token, retryable, delayMs, now).tasks[i])
  {
  }

  lemma DecisionLeaves(s: Run, k: nat, decision: Decision, now: int, i: nat)
    requires At(s, i, T.RUNNING)
    ensures LeavesLease(Txn.ResolveApproval(k, decision, now), i, s.tasks[i], Resolve(s, k, decision, now).tasks[i])
  {
  }

  // ---------------------------------------------------------------- step by step

  lemma CommitKeepsLease(defs: seq<TaskDef>, s: Sys, w: nat, tx: Txn, base: Run, holder: Option<Ticket>, t: Ticket, deadline: int)
    requires Evolves(base, s.run) && t.task < |s.run.tasks| && TaskKept(s.run.tasks[t.task], t.token, deadline)
    requires Evolves(s.run, Committed(s, w, tx, base, holder).run)
    ensures Kept(Committed(s, w, tx, base, holder), t, deadline)
  {
    var after := Apply(tx, base);
    var i := t.task;
    hide Apply;
    if CanCommit(base, s.run, after) && after.tasks[i] != base.tasks[i] {
      assert s.run.tasks[i] == base.tasks[i];
      LeasesOnlyShrink(tx, base);
      var s' := Committed(s, w, tx, base, holder);
      assert s'.run.tasks[i] == after.tasks[i];
      if base.tasks[i].status == T.RUNNING {
        RunningIsLeftAlone(tx, base, i);
        if TicketOf(tx) == Some(t) {
          assert s'.applied == s.applied + [t];
        }
      } else {
        assert TaskEvolves(s.run.tasks[i], s'.run.tasks[i]);
      }
    }
  }

  /** Without the clock passing the deadline, no claim, heartbeat or dispatch takes the lease away. */
  lemma SingleStepKeepsLease(s: Sys, t: Ticket, deadline: int, leaseMs: nat)
    requires t.task < |s.run.tasks| && TaskKept(s.run.tasks[t.task], t.token, deadline)
    requires s.clock <= deadline && LeasesOk(s, leaseMs)
    ensures forall k :: TaskKept(Dispatch(s.run, k, s.clock).tasks[t.task], t.token, deadline)
    ensures forall k :: TaskKept(Claim(s.run, k, s.clock, leaseMs).tasks[t.task], t.token, deadline)
    ensures forall k, token :: TaskKept(Renew(s.run, k, token, s.clock, leaseMs).tasks[t.task], t.token, deadline)
  {
  }

  lemma StepKeepsLease(defs: seq<TaskDef>, step: Step, s: Sys, t: Ticket, deadline: int, leaseMs: nat)
    requires SysInv(defs, s, leaseMs) && Kept(s, t, deadline) && Do(step, s, leaseMs).clock <= deadline
    ensures Kept(Do(step, s, leaseMs), t, deadline)
  {
    hide Inv, HandoutsOk, ReportsOk, Evolves, TaskKept, Apply, Merge, CanCommit, Claim, Dispatch, Renew, ParentOutputs,
      Claimable, DistinctKeys, LeasesOk, MayBegin, Committed;
    StepOk(defs, step, s, leaseMs);
    var s' := Do(step, s, leaseMs);
    assert |s'.run.tasks| == |s.run.tasks| by {
      EvolvesLengths(s.run, s'.run);
    }
    match step
    case Commit(w) =>
      var a := ActorOf(s, w);
      if a.InTransaction? {
        assert ActorOk(defs, s.run, a);
        AppliedGrows(s, w, a.tx, a.base, a.holder);
        if t !in s.applied {
          CommitKeepsLease(defs, s, w, a.tx, a.base, a.holder, t, deadline);
        }
      }
    case _ =>
      if t !in s.applied {
        SingleStepKeepsLease(s, t, deadline, leaseMs);
      }
  }

  lemma EvolvesLengths(a: Run, b: Run)
    requires Evolves(a, b)
    ensures |a.tasks| == |b.tasks|
  {
  }

  lemma AppliedGrows(s: Sys, w: nat, tx: Txn, base: Run, holder: Option<Ticket>)
    ensures s.applied <= Committed(s, w, tx, base, holder).applied
  {
    hide Apply, CanCommit, Merge;
  }

  lemma {:induction false} RunKeepsLease(defs: seq<TaskDef>, steps: seq<Step>, s: Sys, t: Ticket, deadline: int, leaseMs: nat)
    requires SysInv(defs, s, leaseMs) && Kept(s, t, deadline) && Exec(steps, s, leaseMs).clock <= deadline
    ensures Kept(Exec(steps, s, leaseMs), t, deadline)
    decreases |steps|
  {
    hide SysInv, Kept, Do;
    if steps != [] {
      var n := |steps| - 1;
      var mid := Exec(steps[..n], s, leaseMs);
      ExecOk(defs, steps[..n], s, leaseMs);
      StepOk(defs, steps[n], mid, leaseMs);
      RunKeepsLease(defs, steps[..n], s, t, deadline, leaseMs);
      StepKeepsLease(defs, steps[n], mid, t, deadline, leaseMs);
    }
  }

  /**
   * A RUNNING task is not claimed again before its deadline: as long as the clock
   * has not passed it, the token is still the same, unless its holder reported.
   */
  lemma LeaseExclusion(defs: seq<TaskDef>, a: Sys, b: Sys, leaseMs: nat, k: nat)
    requires Reachable(defs, a, leaseMs) && Later(a, b, leaseMs) && At(a.run, k, T.RUNNING)
    requires a.run.tasks[k].leaseExpiresAt.Some? && b.clock <= a.run.tasks[k].leaseExpiresAt.value
    ensures |b.run.tasks| == |a.run.tasks|
    ensures b.run.tasks[k].leaseToken == a.run.tasks[k].leaseToken || Ticket(k, a.run.tasks[k].leaseToken) in b.applied
  {
    hide SysInv, Evolves;
    LaterInv(defs, a, b, leaseMs);
    EvolvesLengths(a.run, b.run);
    var steps :| Exec(steps, a, leaseMs) == b;
    RunKeepsLease(defs, steps, a, Ticket(k, a.run.tasks[k].leaseToken), a.run.tasks[k].leaseExpiresAt.value, leaseMs);
  }
}
