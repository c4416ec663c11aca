/**
 * Runs come to an end. A RUNNING run that waits for no human can always be served once its
 * waits and leases have run out; each service changes a task for good; and only so many
 * changes fit into a run (src/workflow/engine.js).
 */
module Termination {
  import opened Graphs
  import opened States
  import opened Options
  import opened Documents
  import opened Transactions
  import opened Invariant
  import opened System
  import opened SystemInvariant
  import opened RunTheorems
  import opened Progress
  import opened Recovery
  import opened SortedSets
  import Calls
  import Q = QueueScripts
  import QueueTheorems

  ghost predicate WaitsForHuman(run: Run) {
    exists k :: 0 <= k < |run.tasks| && run.tasks[k].status == T.WAITING_FOR_APPROVAL
  }

  /** A run that nothing but the engine's own steps can move on. */
  ghost predicate GoesOn(run: Run) {
    run.exec.status == E.RUNNING && !WaitsForHuman(run)
  }

  /** The step dispatches a READY task, or a free worker starts a task that can be claimed. */
  predicate Serves(step: Step, s: Sys) {
    match step
    case DispatchTask(k) => At(s.run, k, T.READY)
    case ClaimTask(w, k) => ActorOf(s, w).Idle? && Claimable(s.run, k, s.clock)
    case _ => false
  }

  /** No lease of the run lasts any more. */
  ghost predicate LeasesOver(s: Sys) {
    forall k :: 0 <= k < |s.run.tasks| && s.run.tasks[k].leaseExpiresAt.Some? ==> s.run.tasks[k].leaseExpiresAt.value < s.clock
  }

  lemma {:induction false} AboveAll(xs: set<nat>) returns (w: nat)
    ensures w !in xs && forall x :: x in xs ==> x < w
    decreases xs
  {
    if xs == {} {
      w := 0;
    } else {
      var x :| x in xs;
      var b := AboveAll(xs - {x});
      w := if x >= b then x + 1 else b;
      forall y | y in xs ensures y < w {
        assert y == x || y in xs - {x};
      }
    }
  }

  /** An active task can be served by any free worker once its lease is over, unless it waits for a human. */
  lemma ActiveIsServed(s: Sys, k: nat, w: nat) returns (step: Step)
    requires k < |s.run.tasks| && Active(s.run.tasks[k].status) && s.run.tasks[k].status != T.WAITING_FOR_APPROVAL
    requires LeasesOver(s) && ActorOf(s, w).Idle?
    ensures Serves(step, s)
  {
    step := if s.run.tasks[k].status == T.READY then Step.DispatchTask(k) else Step.ClaimTask(w, k);
  }

  /** Once the leases are over, a run that goes on can be served. */
  lemma CanBeServed(defs: seq<TaskDef>, s: Sys, leaseMs: nat) returns (step: Step)
    requires ValidGraph(defs) && SysInv(defs, s, leaseMs) && GoesOn(s.run) && LeasesOver(s)
    ensures Serves(step, s)
  {
    hide Inv, Acyclic, Structural, HandoutsOk, ReportsOk, ActorsOk, LeasesOk;
    var k := SomethingIsActive(defs, s.run);
    var w := AboveAll(s.actors.Keys);
    step := ActiveIsServed(s, k, w);
  }

  /** A service changes the status or the attempts of a task. */
  lemma ServiceIsEffective(defs: seq<TaskDef>, step: Step, s: Sys, leaseMs: nat)
    requires SysInv(defs, s, leaseMs) && Serves(step, s)
    ensures Effective(s.run, Prompt(step, s, leaseMs).run)
  {
    match step
    case DispatchTask(k) =>
      assert !SameProgress(s.run.tasks[k], Dispatch(s.run, k, s.clock).tasks[k]);
    case ClaimTask(w, k) => ClaimIsEffective(defs, s, w, k, leaseMs);
    case _ =>
  }

  lemma ClaimIsEffective(defs: seq<TaskDef>, s: Sys, w: nat, k: nat, leaseMs: nat)
    requires SysInv(defs, s, leaseMs) && ActorOf(s, w).Idle? && Claimable(s.run, k, s.clock)
    ensures Effective(s.run, Prompt(Step.ClaimTask(w, k), s, leaseMs).run)
  {
    var step := Step.ClaimTask(w, k);
    var s1 := Do(step, s, leaseMs);
    StepOk(defs, step, s, leaseMs);
    assert s1.run.tasks[k].attempt == s.run.tasks[k].attempt + 1;
    var t := ClaimTicket(s1, k);
    if Exhausted(s1, t) {
      hide SysInv, Do;
      GuardKeepsAttempt(defs, s1, w, k, leaseMs);
    }
  }

  /** Failing the exhausted claim at once does not take its attempt back. */
  lemma GuardKeepsAttempt(defs: seq<TaskDef>, s: Sys, w: nat, k: nat, leaseMs: nat)
    requires SysInv(defs, s, leaseMs) && k < |s.run.tasks|
    ensures var g := Guarded(s, w, ClaimTicket(s, k), leaseMs);
      |g.run.tasks| == |s.run.tasks| && g.run.tasks[k].attempt >= s.run.tasks[k].attempt
  {
    hide SysInv, Do, Evolves;
    var begin := Begin(w, Txn.FailTask(k, ClaimTicket(s, k).token, true, 0, s.clock));
    var open := Do(begin, s, leaseMs);
    StepOk(defs, begin, s, leaseMs);
    StepOk(defs, Commit(w), open, leaseMs);
    AttemptsGrow(defs, s, open, leaseMs, k);
    AttemptsGrow(defs, open, Do(Commit(w), open, leaseMs), leaseMs, k);
  }

  lemma AttemptsGrow(defs: seq<TaskDef>, a: Sys, b: Sys, leaseMs: nat, k: nat)
    requires SysInv(defs, a, leaseMs) && SysInv(defs, b, leaseMs) && Evolves(a.run, b.run) && k < |a.run.tasks|
    ensures |b.run.tasks| == |a.run.tasks| && b.run.tasks[k].attempt >= a.run.tasks[k].attempt
  {
    hide HandoutsOk, ReportsOk, ActorsOk, LeasesOk;
    assert TaskEvolves(a.run.tasks[k], b.run.tasks[k]) && FieldsAgree(a.run.tasks[k]) && FieldsAgree(b.run.tasks[k]);
  }

  // ---------------------------------------------------------------- whole runs

  /** How many of the steps served the run. */
  ghost function Services(steps: seq<Step>, s: Sys, leaseMs: nat): nat
    decreases |steps|
  {
    if steps == [] then 0
    else
      var before := PromptExec(steps[..|steps| - 1], s, leaseMs);
      Services(steps[..|steps| - 1], s, leaseMs) + (if Serves(steps[|steps| - 1], before) then 1 else 0)
  }

  lemma {:induction false} ServicesAreEffective(defs: seq<TaskDef>, steps: seq<Step>, s: Sys, leaseMs: nat)
    requires SysInv(defs, s, leaseMs)
    ensures SysInv(defs, PromptExec(steps, s, leaseMs), leaseMs)
    ensures Services(steps, s, leaseMs) <= EffectiveSteps(steps, s, leaseMs)
    decreases |steps|
  {
    hide SysInv, Prompt, Serves, Effective;
    if steps != [] {
      var n := |steps| - 1;
      ServicesAreEffective(defs, steps[..n], s, leaseMs);
      var mid := PromptExec(steps[..n], s, leaseMs);
      PromptOk(defs, steps[n], mid, leaseMs);
      if Serves(steps[n], mid) {
        ServiceIsEffective(defs, steps[n], mid, leaseMs);
      }
    }
  }

  /** Some time later all leases are over, and nothing else has changed. */
  lemma LeasesEnd(defs: seq<TaskDef>, s: Sys, leaseMs: nat) returns (later: Sys)
    requires SysInv(defs, s, leaseMs)
    ensures later == Prompt(Tick(leaseMs + 1), s, leaseMs) && later.run == s.run && LeasesOver(later)
    ensures SysInv(defs, later, leaseMs)
  {
    later := Prompt(Tick(leaseMs + 1), s, leaseMs);
    StepOk(defs, Tick(leaseMs + 1), s, leaseMs);
  }

  lemma InitialOk(defs: seq<TaskDef>, now: int, leaseMs: nat)
    requires ValidGraph(defs) && defs != []
    ensures SysInv(defs, Initial(defs, now), leaseMs)
  {
    hide SysInv;
    ReachableOk(defs, now, [], leaseMs);
    assert Exec([], Initial(defs, now), leaseMs) == Initial(defs, now);
  }

  /** Whatever happened, a run that goes on can be served one lease later. */
  lemma RunCanBeServed(defs: seq<TaskDef>, now: int, steps: seq<Step>, leaseMs: nat) returns (step: Step)
    requires ValidGraph(defs) && defs != [] && GoesOn(PromptExec(steps, Initial(defs, now), leaseMs).run)
    ensures Serves(step, Prompt(Tick(leaseMs + 1), PromptExec(steps, Initial(defs, now), leaseMs), leaseMs))
  {
    hide SysInv, ValidGraph, GoesOn, PromptExec, Prompt, LeasesOver;
    InitialOk(defs, now, leaseMs);
    ServicesAreEffective(defs, steps, Initial(defs, now), leaseMs);
    var later := LeasesEnd(defs, PromptExec(steps, Initial(defs, now), leaseMs), leaseMs);
    step := CanBeServed(defs, later, leaseMs);
  }

  /**
   * A run served as often as its definition allows attempts and changes has ended: it is
   * COMPLETED, FAILED or CANCELLED, or it is PAUSED or waits for a human. So every run
   * that is served again and again while it goes on comes to an end.
   */
  lemma ServedRunsEnd(defs: seq<TaskDef>, now: int, steps: seq<Step>, leaseMs: nat)
    requires ValidGraph(defs) && defs != [] && forall d :: d in defs ==> d.maxAttempts >= 1
    ensures Services(steps, Initial(defs, now), leaseMs) <= Budget(defs)
    ensures Services(steps, Initial(defs, now), leaseMs) == Budget(defs) ==>
      !GoesOn(PromptExec(steps, Initial(defs, now), leaseMs).run)
  {
    hide SysInv, ValidGraph, GoesOn, Services, EffectiveSteps, PromptExec, Prompt, Budget, Initial;
    var s := Initial(defs, now);
    InitialOk(defs, now, leaseMs);
    ServicesAreEffective(defs, steps, s, leaseMs);
    RunsAreBounded(defs, now, steps, leaseMs);
    if GoesOn(PromptExec(steps, s, leaseMs).run) {
      var step := RunCanBeServed(defs, now, steps, leaseMs);
      var longer := steps + [Tick(leaseMs + 1), step];
      OneMoreService(steps, s, leaseMs, Tick(leaseMs + 1), step);
      ServicesAreEffective(defs, longer, s, leaseMs);
      RunsAreBounded(defs, now, longer, leaseMs);
    }
  }

  lemma OneMoreService(steps: seq<Step>, s: Sys, leaseMs: nat, tick: Step, step: Step)
    requires Serves(step, Prompt(tick, PromptExec(steps, s, leaseMs), leaseMs))
    ensures Services(steps + [tick, step], s, leaseMs) >= Services(steps, s, leaseMs) + 1
  {
    hide Serves, Prompt;
    var waited, served := steps + [tick], steps + [tick, step];
    assert waited[..|waited| - 1] == steps && served[..|served| - 1] == waited;
  }

  // ---------------------------------------------------------------- with the queue

  /** What one undisturbed reconcile establishes: every task in need is a queue member. */
  ghost predicate Reconciled(s: Sys, cutoff: int, ids: seq<Id>, q: Q.Redis) {
    forall k: nat :: Calls.NeedsQueue(s.run, k, cutoff, s.clock) ==> k < |ids| && ids[k] in q.members
  }

  /**
   * After a reconcile of a run that goes on and whose waits have run out, either a READY
   * task is there to be dispatched, or the queue hands some worker a task it can claim, by
   * runs of the reaper and the promoter with any positive limit, and claims.
   */
  lemma QueueServes(defs: seq<TaskDef>, s: Sys, leaseMs: nat, cutoff: int, ids: seq<Id>, q: Q.Redis,
                    limit: int, queueLeaseMs: int)
    returns (k: nat, calls: seq<QueueTheorems.Call>)
    requires Reachable(defs, s, leaseMs) && GoesOn(s.run)
    requires forall i :: 0 <= i < |s.run.tasks| ==> Lapsed(s.run.tasks[i], cutoff, s.clock)
    requires Q.Valid(q) && Reconciled(s, cutoff, ids, q) && limit > 0
    ensures k < |ids| && calls != []
    ensures forall c :: c in calls ==>
      c.script in {QueueTheorems.RequeueExpired(limit), QueueTheorems.PromoteDue(limit), QueueTheorems.Claim(queueLeaseMs)}
    ensures QueueTheorems.Claimed(calls[|calls| - 1], QueueTheorems.Before(calls, |calls| - 1, q)) == Some(ids[k])
    ensures At(s.run, k, T.READY) || Claimable(s.run, k, s.clock)
  {
    NoRunIsLost(defs, s, leaseMs, cutoff);
    ReachableInv(defs, s, leaseMs);
    k := NeedyTask(defs, s.run, cutoff, s.clock);
    hide Inv, Reachable, Q.Valid, QueueTheorems.Exec, QueueTheorems.Before;
    var t;
    calls, t := QueueTheorems.EveryMemberIsDelivered(q, ids[k], limit, s.clock, queueLeaseMs);
  }

  lemma NeedyTask(defs: seq<TaskDef>, run: Run, cutoff: int, now: int) returns (k: nat)
    requires Inv(defs, run) && GoesOn(run)
    requires exists k: nat ::
      (Calls.NeedsQueue(run, k, cutoff, now) || (k < |run.approvals| && run.approvals[k].REQUESTED?))
    ensures Calls.NeedsQueue(run, k, cutoff, now) && (At(run, k, T.READY) || Claimable(run, k, now))
  {
    k :| Calls.NeedsQueue(run, k, cutoff, now) || (k < |run.approvals| && run.approvals[k].REQUESTED?);
    assert k < |run.tasks| && Paired(run.tasks[k].status, run.approvals[k]);
    assert run.tasks[k].status != T.WAITING_FOR_APPROVAL;
  }
}
