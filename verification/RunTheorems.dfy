/** What a run guarantees in every reachable state, under snapshot isolation and any crashes. */
module RunTheorems {
  import opened Graphs
  import opened States
  import opened Options
  import opened Documents
  import opened Sums
  import opened Transactions
  import opened Invariant
  import opened SnapshotIsolation
  import opened System
  import opened SystemInvariant
  import Preserves

  /** A state that any steps of any actors can lead a run of an accepted definition to. */
  ghost predicate Reachable(defs: seq<TaskDef>, s: Sys, leaseMs: nat) {
    ValidGraph(defs) && defs != [] && exists now, steps :: Exec(steps, Initial(defs, now), leaseMs) == s
  }

  /** A state that further steps lead to. */
  ghost predicate Later(a: Sys, b: Sys, leaseMs: nat) {
    exists steps :: Exec(steps, a, leaseMs) == b
  }

  lemma ReachableInv(defs: seq<TaskDef>, s: Sys, leaseMs: nat)
    requires Reachable(defs, s, leaseMs)
    ensures SysInv(defs, s, leaseMs) && ValidGraph(defs)
  {
    hide SysInv;
    var now, steps :| Exec(steps, Initial(defs, now), leaseMs) == s;
    ReachableOk(defs, now, steps, leaseMs);
  }

  lemma LaterInv(defs: seq<TaskDef>, a: Sys, b: Sys, leaseMs: nat)
    requires Reachable(defs, a, leaseMs) && Later(a, b, leaseMs)
    ensures SysInv(defs, a, leaseMs) && SysInv(defs, b, leaseMs) && Evolves(a.run, b.run)
  {
    hide SysInv, Evolves;
    ReachableInv(defs, a, leaseMs);
    var steps :| Exec(steps, a, leaseMs) == b;
    ExecOk(defs, steps, a, leaseMs);
  }

  /** A call that nobody interferes with is its function on the documents: single calls are runs, too. */
  lemma RunAlone(defs: seq<TaskDef>, s: Sys, leaseMs: nat, w: nat, tx: Txn)
    requires Reachable(defs, s, leaseMs) && ActorOf(s, w).Idle?
    ensures Do(Commit(w), Do(Begin(w, tx), s, leaseMs), leaseMs).run == Apply(tx, s.run)
  {
    hide SysInv, Reachable, Do, Committed;
    ReachableInv(defs, s, leaseMs);
    BeginsOnNow(s, leaseMs, w, tx);
    CommitsAlone(defs, s, leaseMs, Do(Begin(w, tx), s, leaseMs), w, tx);
  }

  lemma BeginsOnNow(s: Sys, leaseMs: nat, w: nat, tx: Txn)
    requires ActorOf(s, w).Idle?
    ensures Do(Begin(w, tx), s, leaseMs).run == s.run
    ensures ActorOf(Do(Begin(w, tx), s, leaseMs), w) == InTransaction(tx, s.run, None)
  {
  }

  lemma CommitsAlone(defs: seq<TaskDef>, s: Sys, leaseMs: nat, open: Sys, w: nat, tx: Txn)
    requires SysInv(defs, s, leaseMs) && open.run == s.run && ActorOf(open, w) == InTransaction(tx, s.run, None)
    ensures Do(Commit(w), open, leaseMs).run == Apply(tx, s.run)
  {
    AloneCommits(defs, s.run, tx);
    hide Inv, HandoutsOk, ReportsOk, ActorsOk, LeasesOk, Apply, CanCommit, Merge, Evolves,
      Claim, Claimable, Dispatch, Renew, ParentOutputs, DistinctKeys, TicketOf;
  }

  lemma AloneCommits(defs: seq<TaskDef>, run: Run, tx: Txn)
    requires Inv(defs, run)
    ensures CanCommit(run, run, Apply(tx, run)) && Merge(run, run, Apply(tx, run)) == Apply(tx, run)
  {
    hide Inv, Apply;
    Preserves.TransactionKeeps(defs, tx, run);
    AtomicIsSpecial(run, Apply(tx, run));
  }

  // ---------------------------------------------------------------- the pending counter

  function UnfinishedTasks(tasks: seq<Task>): set<int> {
    set i | 0 <= i < |tasks| && !Finished(tasks[i].status)
  }

  lemma {:induction false} UnfinishedCount(tasks: seq<Task>)
    ensures Sum(UnfinishedWeight(), tasks) == |UnfinishedTasks(tasks)|
  {
    if tasks == [] {
      assert UnfinishedTasks(tasks) == {};
    } else {
      var n := |tasks| - 1;
      UnfinishedCount(tasks[..n]);
      if Finished(tasks[n].status) {
        assert UnfinishedTasks(tasks) == UnfinishedTasks(tasks[..n]);
      } else {
        assert UnfinishedTasks(tasks) == UnfinishedTasks(tasks[..n]) + {n};
      }
    }
  }

  /**
   * In every committed state the counter equals the number of unfinished tasks, and
   * a RUNNING run has some left: however the last completions interleave, one of
   * them sees zero and completes the run.
   */
  lemma PendingCounterExact(defs: seq<TaskDef>, s: Sys, leaseMs: nat)
    requires Reachable(defs, s, leaseMs)
    ensures s.run.exec.pendingTasks == |UnfinishedTasks(s.run.tasks)|
    ensures s.run.exec.status == E.RUNNING ==> UnfinishedTasks(s.run.tasks) != {}
    ensures s.run.exec.status == E.COMPLETED ==> UnfinishedTasks(s.run.tasks) == {}
  {
    ReachableInv(defs, s, leaseMs);
    UnfinishedCount(s.run.tasks);
  }

  // ---------------------------------------------------------------- deadlock freedom

  predicate Active(t: T) {
    t in {T.READY, T.QUEUED, T.RUNNING, T.RETRYING, T.WAITING_FOR_APPROVAL}
  }

  /**
   * A RUNNING run of an acyclic definition is never stuck: among its unfinished
   * tasks there is one that waits for none of the others, so all its parents are
   * COMPLETED and it has left PENDING.
   */
  lemma SomethingIsActive(defs: seq<TaskDef>, run: Run) returns (i: nat)
    requires ValidGraph(defs) && Inv(defs, run) && run.exec.status == E.RUNNING
    ensures i < |run.tasks| && Active(run.tasks[i].status)
  {
    var open := set j | j in UnfinishedTasks(run.tasks) :: run.tasks[j].def.key;
    OpenTasks(defs, run, open);
    hide Inv, Edge, Acyclic, Structural;
    var key := SomeSource(defs, open);
    var at :| at in UnfinishedTasks(run.tasks) && run.tasks[at].def.key == key;
    i := at;
    NoMissingParents(defs, run, i, open);
  }

  lemma OpenTasks(defs: seq<TaskDef>, run: Run, open: set<Key>)
    requires Inv(defs, run) && run.exec.status == E.RUNNING
    requires open == set j | j in UnfinishedTasks(run.tasks) :: run.tasks[j].def.key
    ensures open != {} && open <= Keys(defs)
  {
    hide DepsExact, ParentsDone, PendingWaits, OutcomeAgrees, ApprovalsAgree, TasksAgree, LogAgrees, Structural;
    UnfinishedCount(run.tasks);
    var some :| some in UnfinishedTasks(run.tasks);
    assert run.tasks[some].def.key in open;
  }

  lemma NoMissingParents(defs: seq<TaskDef>, run: Run, i: nat, open: set<Key>)
    requires Inv(defs, run) && run.exec.status == E.RUNNING && i < |run.tasks| && !Finished(run.tasks[i].status)
    requires open == set j | j in UnfinishedTasks(run.tasks) :: run.tasks[j].def.key
    requires forall d :: d in open ==> !Edge(defs, d, run.tasks[i].def.key)
    ensures run.tasks[i].status != T.PENDING
  {
    var deps := run.tasks[i].def.dependsOn;
    forall p | 0 <= p < |run.tasks| && run.tasks[p].def.key in deps ensures run.tasks[p].status == T.COMPLETED {
      assert defs[i] in defs;
      assert Edge(defs, run.tasks[p].def.key, run.tasks[i].def.key);
      assert p !in UnfinishedTasks(run.tasks);
    }
    MissingZero(deps, run.tasks);
    assert run.tasks[i].remainingDeps == Missing(deps, run.tasks);
  }

  /** Deadlock freedom, whatever was paused, resumed, retried, taken over or lost on the way. */
  lemma DeadlockFree(defs: seq<TaskDef>, s: Sys, leaseMs: nat)
    requires Reachable(defs, s, leaseMs) && s.run.exec.status == E.RUNNING
    ensures s.run.exec.pendingTasks > 0
    ensures exists i :: 0 <= i < |s.run.tasks| && Active(s.run.tasks[i].status)
  {
    ReachableInv(defs, s, leaseMs);
    var i := SomethingIsActive(defs, s.run);
  }

  // ---------------------------------------------------------------- dependency safety

  /** The dependency counters are exact while they matter, and no task starts before its parents are COMPLETED. */
  lemma DependencySafety(defs: seq<TaskDef>, s: Sys, leaseMs: nat)
    requires Reachable(defs, s, leaseMs)
    ensures s.run.exec.status in {E.RUNNING, E.PAUSED, E.COMPLETED} ==>
      forall i :: 0 <= i < |s.run.tasks| ==>
        s.run.tasks[i].remainingDeps == Missing(s.run.tasks[i].def.dependsOn, s.run.tasks)
    ensures forall i, p :: 0 <= i < |s.run.tasks| && 0 <= p < |s.run.tasks| && IsParent(s.run, p, i) ==>
      s.run.tasks[i].status in {T.PENDING, T.CANCELLED} || s.run.tasks[p].status == T.COMPLETED
  {
    ReachableInv(defs, s, leaseMs);
  }

  /** Every handler ever started was given the outputs its parents have, and these never change again. */
  lemma HandlersSeeFinalOutputs(defs: seq<TaskDef>, s: Sys, leaseMs: nat, i: nat, p: nat)
    requires Reachable(defs, s, leaseMs) && i < |s.handed| && p < |s.run.tasks|
    requires s.handed[i].ticket.task < |s.run.tasks| && IsParent(s.run, p, s.handed[i].ticket.task)
    ensures s.run.tasks[p].status == T.COMPLETED && s.run.tasks[p].output.Some?
    ensures s.run.tasks[p].def.key in s.handed[i].inputs
    ensures s.handed[i].inputs[s.run.tasks[p].def.key] == s.run.tasks[p].output
    ensures forall key :: key in s.handed[i].inputs ==> key in s.run.tasks[s.handed[i].ticket.task].def.dependsOn
  {
    ReachableInv(defs, s, leaseMs);
    assert InputsAreFinal(s.run, s.handed[i]) && FieldsAgree(s.run.tasks[p]);
  }

  // ---------------------------------------------------------------- outcomes

  /** What a finished run says about its tasks. */
  lemma TerminalOutcomes(defs: seq<TaskDef>, s: Sys, leaseMs: nat)
    requires Reachable(defs, s, leaseMs)
    ensures s.run.exec.status == E.COMPLETED ==> forall i :: 0 <= i < |s.run.tasks| ==> s.run.tasks[i].status == T.COMPLETED
    ensures s.run.exec.status == E.FAILED ==>
      && (exists i :: 0 <= i < |s.run.tasks| && s.run.tasks[i].status in {T.FAILED, T.DEAD_LETTER})
      && (forall i :: 0 <= i < |s.run.tasks| ==> s.run.tasks[i].status !in {T.PENDING, T.READY, T.QUEUED})
    ensures s.run.exec.status == E.CANCELLED ==>
      && s.run.exec.pendingTasks == 0
      && forall i :: 0 <= i < |s.run.tasks| ==> s.run.tasks[i].status in {T.COMPLETED, T.CANCELLED}
  {
    ReachableInv(defs, s, leaseMs);
    OutcomeOf(s.run);
  }

  lemma OutcomeOf(run: Run)
    requires PendingExact(run) && StatusAgrees(run) && OutcomeAgrees(run)
    ensures run.exec.status == E.COMPLETED ==> forall i :: 0 <= i < |run.tasks| ==> run.tasks[i].status == T.COMPLETED
    ensures run.exec.status == E.CANCELLED ==> run.exec.pendingTasks == 0
  {
    UnfinishedCount(run.tasks);
    if run.exec.status == E.COMPLETED {
      forall i | 0 <= i < |run.tasks| ensures run.tasks[i].status == T.COMPLETED {
        assert i !in UnfinishedTasks(run.tasks);
      }
    }
    if run.exec.status == E.CANCELLED {
      assert UnfinishedTasks(run.tasks) == {};
    }
  }

  /** Finished statuses and outputs never change again, and every task only moves along the transition table. */
  lemma HistoryIsOneWay(defs: seq<TaskDef>, a: Sys, b: Sys, leaseMs: nat)
    requires Reachable(defs, a, leaseMs) && Later(a, b, leaseMs)
    ensures |b.run.tasks| == |a.run.tasks| && a.run.outbox <= b.run.outbox
    ensures a.run.exec.status in {E.COMPLETED, E.FAILED, E.CANCELLED} ==> b.run.exec.status == a.run.exec.status
    ensures forall i :: 0 <= i < |a.run.tasks| ==>
      && TaskReaches(a.run.tasks[i].status, b.run.tasks[i].status)
      && (Finished(a.run.tasks[i].status) ==>
        b.run.tasks[i].status == a.run.tasks[i].status && b.run.tasks[i].output == a.run.tasks[i].output)
  {
    hide SysInv;
    LaterInv(defs, a, b, leaseMs);
    forall i | 0 <= i < |a.run.tasks| ensures TaskEvolves(a.run.tasks[i], b.run.tasks[i]) {
    }
  }

  // ---------------------------------------------------------------- fencing

  /** The token counts the attempts and only grows, and a task has a lease deadline exactly while RUNNING. */
  lemma TokensCountAttempts(defs: seq<TaskDef>, a: Sys, b: Sys, leaseMs: nat, i: nat)
    requires Reachable(defs, a, leaseMs) && Later(a, b, leaseMs) && i < |a.run.tasks|
    ensures |b.run.tasks| == |a.run.tasks|
    ensures a.run.tasks[i].attempt == a.run.tasks[i].leaseToken <= b.run.tasks[i].leaseToken == b.run.tasks[i].attempt
    ensures a.run.tasks[i].status == T.RUNNING <==> a.run.tasks[i].leaseExpiresAt.Some?
  {
    LaterInv(defs, a, b, leaseMs);
    assert TaskEvolves(a.run.tasks[i], b.run.tasks[i]) && FieldsAgree(a.run.tasks[i]) && FieldsAgree(b.run.tasks[i]);
  }

  /** At most one report per task and token is ever applied. */
  lemma OneReportPerToken(defs: seq<TaskDef>, s: Sys, leaseMs: nat)
    requires Reachable(defs, s, leaseMs)
    ensures Distinct(s.applied)
  {
    ReachableInv(defs, s, leaseMs);
  }

  /** A report with a token that is no longer the current one changes nothing, on whatever snapshot it was computed. */
  lemma StaleReportIsFenced(defs: seq<TaskDef>, s: Sys, leaseMs: nat, w: nat, tx: Txn, base: Run, holder: Option<Ticket>, t: Ticket)
    requires Reachable(defs, s, leaseMs)
    requires ActorOf(s, w) == InTransaction(tx, base, holder) && TicketOf(tx) == Some(t)
    requires t.task < |s.run.tasks| && t.token < s.run.tasks[t.task].leaseToken
    ensures Do(Commit(w), s, leaseMs).run == s.run && Do(Commit(w), s, leaseMs).applied == s.applied
  {
    hide Inv, Evolves, Committed, Reachable, HandoutsOk, ReportsOk, LeasesOk, Apply, Merge, CanCommit,
      Claim, Claimable, Dispatch, Renew, ParentOutputs, DistinctKeys, MayBegin, Holds;
    ReachableInv(defs, s, leaseMs);
    assert ActorOk(defs, s.run, ActorOf(s, w));
    StaleCommit(defs, s, w, tx, base, holder, t);
  }

  lemma StaleCommit(defs: seq<TaskDef>, s: Sys, w: nat, tx: Txn, base: Run, holder: Option<Ticket>, t: Ticket)
    requires Inv(defs, base) && Evolves(base, s.run) && TicketOf(tx) == Some(t)
    requires t.task < |s.run.tasks| && t.token < s.run.tasks[t.task].leaseToken
    ensures Committed(s, w, tx, base, holder).run == s.run && Committed(s, w, tx, base, holder).applied == s.applied
  {
    hide Inv, Evolves, Apply, CanCommit, Merge;
    if CanCommit(base, s.run, Apply(tx, base)) {
      ReportSettles(defs, tx, base, s.run, t);
      assert Settled(s.run, t);
    }
  }

  /** A worker reaches its ack only when its ticket is settled, and settled it stays. */
  lemma AckComesLast(defs: seq<TaskDef>, a: Sys, b: Sys, leaseMs: nat, w: nat)
    requires Reachable(defs, a, leaseMs) && Later(a, b, leaseMs) && ActorOf(a, w).Reported?
    ensures var t := ActorOf(a, w).ticket; !Holds(a.run, t.task, t.token) && !Holds(b.run, t.task, t.token)
  {
    LaterInv(defs, a, b, leaseMs);
    assert ActorOk(defs, a.run, ActorOf(a, w));
    hide Inv, Evolves, HandoutsOk, ReportsOk, ActorsOk, LeasesOk;
    SettledStays(a.run, b.run, ActorOf(a, w).ticket);
  }

  // ---------------------------------------------------------------- handouts

  /** The tokens with which task `k` was handed to a handler. */
  function HandedTokens(handed: seq<Handout>, k: nat): seq<int> {
    if handed == [] then []
    else
      var h := handed[|handed| - 1];
      HandedTokens(handed[..|handed| - 1], k) + (if h.ticket.task == k then [h.ticket.token] else [])
  }

  lemma {:induction false} TokensAreHanded(handed: seq<Handout>, k: nat)
    ensures forall x :: x in HandedTokens(handed, k) <==> exists i :: 0 <= i < |handed| && handed[i].ticket == Ticket(k, x)
    ensures (forall i, j :: 0 <= i < j < |handed| ==> handed[i].ticket != handed[j].ticket) ==> Distinct(HandedTokens(handed, k))
  {
    if handed != [] {
      var n := |handed| - 1;
      TokensAreHanded(handed[..n], k);
      forall x ensures x in HandedTokens(handed, k) <==> exists i :: 0 <= i < |handed| && handed[i].ticket == Ticket(k, x) {
        if x in HandedTokens(handed[..n], k) {
          var i :| 0 <= i < n && handed[..n][i].ticket == Ticket(k, x);
          assert handed[i].ticket == Ticket(k, x);
        }
        if exists i :: 0 <= i < |handed| && handed[i].ticket == Ticket(k, x) {
          var i :| 0 <= i < |handed| && handed[i].ticket == Ticket(k, x);
          if i < n {
            assert handed[..n][i].ticket == Ticket(k, x);
          }
        }
      }
      if handed[n].ticket.task == k && handed[n].ticket.token in HandedTokens(handed[..n], k) {
        var i :| 0 <= i < n && handed[..n][i].ticket == Ticket(k, handed[n].ticket.token);
        assert handed[i].ticket == handed[n].ticket;
      }
    }
  }

  function UpTo(m: nat): set<int> {
    if m == 0 then {} else UpTo(m - 1) + {m}
  }

  lemma {:induction false} UpToSize(m: nat)
    ensures |UpTo(m)| == m
    ensures forall x :: x in UpTo(m) <==> 1 <= x <= m
  {
    if m > 0 {
      UpToSize(m - 1);
    }
  }

  /** However many workers die, a task is handed to a handler at most `maxAttempts` times. */
  lemma HandoutsBounded(defs: seq<TaskDef>, s: Sys, leaseMs: nat, k: nat)
    requires Reachable(defs, s, leaseMs) && k < |defs| && defs[k].maxAttempts >= 0
    ensures |HandedTokens(s.handed, k)| <= defs[k].maxAttempts
  {
    ReachableInv(defs, s, leaseMs);
    var tokens, most := HandedTokens(s.handed, k), defs[k].maxAttempts;
    TokensAreHanded(s.handed, k);
    UpToSize(most);
    forall x | x in tokens ensures x in UpTo(most) {
      var i :| 0 <= i < |s.handed| && s.handed[i].ticket == Ticket(k, x);
      assert Issued(s.run, s.handed[i].ticket);
    }
    DistinctWithin(tokens, UpTo(most));
  }

  // ---------------------------------------------------------------- approvals

  /** A task waits exactly when it has a pending request, is suspended at most once, and decided at most once. */
  lemma ApprovalsAreConsistent(defs: seq<TaskDef>, s: Sys, leaseMs: nat, k: nat)
    requires Reachable(defs, s, leaseMs) && k < |defs|
    ensures |s.run.tasks| == |s.run.approvals| == |defs|
    ensures s.run.tasks[k].status == T.WAITING_FOR_APPROVAL <==> s.run.approvals[k].REQUESTED?
    ensures Count(s.run.outbox, ApprovalRequested(k)) <= 1
    ensures Count(s.run.outbox, ApprovalDecided(k, APPROVED)) + Count(s.run.outbox, ApprovalDecided(k, REJECTED))
      + Count(s.run.outbox, ApprovalDecided(k, EXPIRED)) <= 1
  {
    ReachableInv(defs, s, leaseMs);
    NoConflict(defs, s.run, k);
    OneRowEach(s.run, k);
  }

  /**
   * No open call can meet a pending request whose task no longer waits, nor ask for a
   * second request: neither the conflict nor the duplicate key is ever thrown.
   */
  lemma ApprovalsNeverConflict(defs: seq<TaskDef>, s: Sys, leaseMs: nat, w: nat, k: nat, token: int)
    requires Reachable(defs, s, leaseMs) && ActorOf(s, w).InTransaction? && k < |defs|
    ensures !NotActionable(ActorOf(s, w).base, k) && !DuplicateRequest(ActorOf(s, w).base, k, token)
  {
    ReachableInv(defs, s, leaseMs);
    assert ActorOk(defs, s.run, ActorOf(s, w));
    hide Inv, Evolves, HandoutsOk, ReportsOk, ActorsOk, LeasesOk, NotActionable, DuplicateRequest;
    NoConflict(defs, ActorOf(s, w).base, k);
  }

  lemma NoConflict(defs: seq<TaskDef>, run: Run, k: nat)
    requires Inv(defs, run) && k < |defs|
    ensures |run.tasks| == |run.approvals| == |defs|
    ensures run.tasks[k].status == T.WAITING_FOR_APPROVAL <==> run.approvals[k].REQUESTED?
    ensures !NotActionable(run, k) && forall token: int :: !DuplicateRequest(run, k, token)
  {
    assert Paired(run.tasks[k].status, run.approvals[k]);
  }

  lemma OneRowEach(run: Run, k: nat)
    requires LogAgrees(run) && k < |run.approvals|
    ensures Count(run.outbox, ApprovalRequested(k)) <= 1
    ensures Count(run.outbox, ApprovalDecided(k, APPROVED)) + Count(run.outbox, ApprovalDecided(k, REJECTED))
      + Count(run.outbox, ApprovalDecided(k, EXPIRED)) <= 1
  {
    assert Count(run.outbox, ApprovalRequested(k)) == Expected(run, ApprovalRequested(k));
    assert Count(run.outbox, ApprovalDecided(k, APPROVED)) == Expected(run, ApprovalDecided(k, APPROVED));
    assert Count(run.outbox, ApprovalDecided(k, REJECTED)) == Expected(run, ApprovalDecided(k, REJECTED));
    assert Count(run.outbox, ApprovalDecided(k, EXPIRED)) == Expected(run, ApprovalDecided(k, EXPIRED));
  }

  // ---------------------------------------------------------------- the event log

  /** One terminal row per task in that status. */
  ghost predicate TaskRows(run: Run) {
    forall k :: 0 <= k < |run.tasks| ==>
      && Count(run.outbox, TaskCompleted(k)) == (if run.tasks[k].status == T.COMPLETED then 1 else 0)
      && Count(run.outbox, TaskFailed(k)) == (if run.tasks[k].status == T.FAILED then 1 else 0)
      && Count(run.outbox, TaskDeadLettered(k)) == (if run.tasks[k].status == T.DEAD_LETTER then 1 else 0)
  }

  /** One row per request, and one per decision. */
  ghost predicate ApprovalRows(run: Run) {
    forall k :: 0 <= k < |run.approvals| ==>
      && Count(run.outbox, ApprovalRequested(k)) == (if run.approvals[k] != NONE then 1 else 0)
      && forall d :: Count(run.outbox, ApprovalDecided(k, d)) == (if run.approvals[k] == DECIDED(d) then 1 else 0)
  }

  /** One row for the start and one for the end of the run, and pauses matched by resumes. */
  ghost predicate RunRows(run: Run) {
    && Count(run.outbox, ExecutionStarted) == 1
    && Count(run.outbox, ExecutionCompleted) == (if run.exec.status == E.COMPLETED then 1 else 0)
    && Count(run.outbox, ExecutionFailed) == (if run.exec.status == E.FAILED then 1 else 0)
    && Count(run.outbox, ExecutionCancelled) == (if run.exec.status == E.CANCELLED then 1 else 0)
    && (run.exec.status in {E.RUNNING, E.COMPLETED} ==>
      Count(run.outbox, ExecutionPaused) == Count(run.outbox, ExecutionResumed))
    && (run.exec.status == E.PAUSED ==>
      Count(run.outbox, ExecutionPaused) == Count(run.outbox, ExecutionResumed) + 1)
  }

  lemma TaskRowsTell(run: Run)
    requires LogAgrees(run)
    ensures TaskRows(run)
  {
    forall k | 0 <= k < |run.tasks|
      ensures Count(run.outbox, TaskCompleted(k)) == (if run.tasks[k].status == T.COMPLETED then 1 else 0)
      ensures Count(run.outbox, TaskFailed(k)) == (if run.tasks[k].status == T.FAILED then 1 else 0)
      ensures Count(run.outbox, TaskDeadLettered(k)) == (if run.tasks[k].status == T.DEAD_LETTER then 1 else 0)
    {
      assert Count(run.outbox, TaskCompleted(k)) == Expected(run, TaskCompleted(k));
      assert Count(run.outbox, TaskFailed(k)) == Expected(run, TaskFailed(k));
      assert Count(run.outbox, TaskDeadLettered(k)) == Expected(run, TaskDeadLettered(k));
    }
  }

  lemma ApprovalRowsTell(run: Run)
    requires LogAgrees(run)
    ensures ApprovalRows(run)
  {
    forall k, d | 0 <= k < |run.approvals|
      ensures Count(run.outbox, ApprovalRequested(k)) == (if run.approvals[k] != NONE then 1 else 0)
      ensures Count(run.outbox, ApprovalDecided(k, d)) == (if run.approvals[k] == DECIDED(d) then 1 else 0)
    {
      assert Count(run.outbox, ApprovalRequested(k)) == Expected(run, ApprovalRequested(k));
      assert Count(run.outbox, ApprovalDecided(k, d)) == Expected(run, ApprovalDecided(k, d));
    }
  }

  lemma RunRowsTell(run: Run)
    requires LogAgrees(run)
    ensures RunRows(run)
  {
    forall e | e in {ExecutionStarted, ExecutionCompleted, ExecutionFailed, ExecutionCancelled}
      ensures Count(run.outbox, e) == Expected(run, e)
    {
    }
  }

  /** The event log says of tasks, requests and the run exactly what their documents say. */
  lemma EventLogAgrees(defs: seq<TaskDef>, s: Sys, leaseMs: nat)
    requires Reachable(defs, s, leaseMs)
    ensures TaskRows(s.run) && ApprovalRows(s.run) && RunRows(s.run)
  {
    ReachableInv(defs, s, leaseMs);
    hide Count, Expected, Recorded, TaskRows, ApprovalRows, RunRows;
    TaskRowsTell(s.run);
    ApprovalRowsTell(s.run);
    RunRowsTell(s.run);
  }
}
