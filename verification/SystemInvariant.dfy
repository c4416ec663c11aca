/** What holds of a run and all its actors, whatever they do and whoever dies. */
module SystemInvariant {
  import opened Graphs
  import opened States
  import opened Options
  import opened Documents
  import opened Transactions
  import opened Invariant
  import opened SnapshotIsolation
  import opened System
  import Preserves
  import Commits
  import Start

  /** The token has been issued, and its holder can no longer change the task: the report is in, or somebody else holds it. */
  ghost predicate Settled(run: Run, t: Ticket) {
    && t.task < |run.tasks| && t.token <= run.tasks[t.task].leaseToken
    && !Holds(run, t.task, t.token)
  }

  /** The token has been issued by a claim. */
  ghost predicate Issued(run: Run, t: Ticket) {
    t.task < |run.tasks| && 0 < t.token <= run.tasks[t.task].leaseToken
  }

  ghost predicate AllParentsCompleted(run: Run, k: nat)
    requires k < |run.tasks|
  {
    forall p :: 0 <= p < |run.tasks| && IsParent(run, p, k) ==> run.tasks[p].status == T.COMPLETED
  }

  /** What was read is what the parents' documents say, and they are COMPLETED. */
  ghost predicate InputsAreFinal(run: Run, h: Handout)
    requires h.ticket.task < |run.tasks|
  {
    && AllParentsCompleted(run, h.ticket.task)
    && (forall p :: 0 <= p < |run.tasks| && IsParent(run, p, h.ticket.task) ==>
      run.tasks[p].def.key in h.inputs && h.inputs[run.tasks[p].def.key] == run.tasks[p].output)
    && (forall key :: key in h.inputs ==> key in run.tasks[h.ticket.task].def.dependsOn)
  }

  ghost predicate ActorOk(defs: seq<TaskDef>, run: Run, a: Actor) {
    match a
    case Idle => true
    case Claimed(t) => Issued(run, t) && AllParentsCompleted(run, t.task)
    case Handling(t) => Issued(run, t)
    case InTransaction(tx, base, holder) =>
      && Inv(defs, base) && Evolves(base, run)
      && (holder.Some? ==> TicketOf(tx) == holder && Issued(base, holder.value))
    case Reported(t) => Issued(run, t) && Settled(run, t)
  }

  ghost predicate ActorsOk(defs: seq<TaskDef>, s: Sys) {
    forall w :: w in s.actors ==> ActorOk(defs, s.run, s.actors[w])
  }

  /** No ticket is handed out twice, nor past the last attempt. */
  ghost predicate HandoutsOk(s: Sys) {
    && (forall i, j :: 0 <= i < j < |s.handed| ==> s.handed[i].ticket != s.handed[j].ticket)
    && (forall i :: 0 <= i < |s.handed| ==>
      var t := s.handed[i].ticket;
      Issued(s.run, t) && t.token <= s.run.tasks[t.task].def.maxAttempts && InputsAreFinal(s.run, s.handed[i]))
    && (forall w, i :: w in s.actors && s.actors[w].Claimed? && 0 <= i < |s.handed| ==> s.handed[i].ticket != s.actors[w].ticket)
    && (forall w, v :: w in s.actors && v in s.actors && w != v && s.actors[w].Claimed? && s.actors[v].Claimed? ==>
      s.actors[w].ticket != s.actors[v].ticket)
  }

  /** No ticket's report is applied twice, and an applied one is settled. */
  ghost predicate ReportsOk(s: Sys) {
    && (forall i, j :: 0 <= i < j < |s.applied| ==> s.applied[i] != s.applied[j])
    && (forall i :: 0 <= i < |s.applied| ==> Settled(s.run, s.applied[i]))
  }

  /** Lease deadlines are at most one lease ahead of the clock. */
  ghost predicate LeasesOk(s: Sys, leaseMs: nat) {
    forall k :: 0 <= k < |s.run.tasks| && s.run.tasks[k].leaseExpiresAt.Some? ==>
      s.run.tasks[k].leaseExpiresAt.value <= s.clock + leaseMs
  }

  ghost predicate SysInv(defs: seq<TaskDef>, s: Sys, leaseMs: nat) {
    && Inv(defs, s.run) && ActorsOk(defs, s) && HandoutsOk(s) && ReportsOk(s) && LeasesOk(s, leaseMs)
  }

  // ---------------------------------------------------------------- stability

  /** Settled stays settled. */
  lemma SettledStays(a: Run, b: Run, t: Ticket)
    requires Evolves(a, b) && Settled(a, t)
    ensures Settled(b, t)
  {
    assert TaskEvolves(a.tasks[t.task], b.tasks[t.task]);
  }

  lemma IssuedStays(a: Run, b: Run, t: Ticket)
    requires Evolves(a, b) && Issued(a, t)
    ensures Issued(b, t)
  {
    assert TaskEvolves(a.tasks[t.task], b.tasks[t.task]);
  }

  lemma SameParents(a: Run, b: Run)
    requires Evolves(a, b)
    ensures forall p, k :: 0 <= p < |a.tasks| && 0 <= k < |a.tasks| ==> (IsParent(a, p, k) <==> IsParent(b, p, k))
  {
    forall i | 0 <= i < |a.tasks| ensures a.tasks[i].def == b.tasks[i].def {
      assert TaskEvolves(a.tasks[i], b.tasks[i]);
    }
  }

  lemma ParentsStayCompleted(a: Run, b: Run, k: nat)
    requires Evolves(a, b) && k < |a.tasks| && AllParentsCompleted(a, k)
    ensures AllParentsCompleted(b, k)
  {
    SameParents(a, b);
    forall p | 0 <= p < |b.tasks| && IsParent(b, p, k) ensures b.tasks[p].status == T.COMPLETED {
      assert TaskEvolves(a.tasks[p], b.tasks[p]) && IsParent(a, p, k);
    }
  }

  lemma InputsStayFinal(a: Run, b: Run, h: Handout)
    requires Evolves(a, b) && h.ticket.task < |a.tasks| && InputsAreFinal(a, h)
    ensures InputsAreFinal(b, h)
  {
    SameParents(a, b);
    ParentsStayCompleted(a, b, h.ticket.task);
    forall p | 0 <= p < |b.tasks| && IsParent(b, p, h.ticket.task)
      ensures b.tasks[p].def.key in h.inputs && h.inputs[b.tasks[p].def.key] == b.tasks[p].output
    {
      assert TaskEvolves(a.tasks[p], b.tasks[p]) && IsParent(a, p, h.ticket.task);
    }
    assert TaskEvolves(a.tasks[h.ticket.task], b.tasks[h.ticket.task]);
  }

  lemma ActorStaysOk(defs: seq<TaskDef>, a: Run, b: Run, actor: Actor)
    requires Evolves(a, b) && ActorOk(defs, a, actor)
    ensures ActorOk(defs, b, actor)
  {
    match actor
    case Idle =>
    case Claimed(t) => IssuedStays(a, b, t); ParentsStayCompleted(a, b, t.task);
    case Handling(t) => IssuedStays(a, b, t);
    case InTransaction(_, base, _) => EvolvesTransitive(base, a, b);
    case Reported(t) => IssuedStays(a, b, t); SettledStays(a, b, t);
  }

  /** When only the documents evolve, the actors and histories stay in order. */
  lemma RunEvolves(defs: seq<TaskDef>, s: Sys, run: Run)
    requires ActorsOk(defs, s) && HandoutsOk(s) && ReportsOk(s) && Evolves(s.run, run)
    ensures var s' := s.(run := run); ActorsOk(defs, s') && HandoutsOk(s') && ReportsOk(s')
  {
    var s' := s.(run := run);
    forall w | w in s.actors ensures ActorOk(defs, run, s.actors[w]) {
      ActorStaysOk(defs, s.run, run, s.actors[w]);
    }
    forall i | 0 <= i < |s.handed| ensures
      var t := s.handed[i].ticket;
      Issued(run, t) && t.token <= run.tasks[t.task].def.maxAttempts && InputsAreFinal(run, s.handed[i])
    {
      var t := s.handed[i].ticket;
      IssuedStays(s.run, run, t);
      InputsStayFinal(s.run, run, s.handed[i]);
      assert TaskEvolves(s.run.tasks[t.task], run.tasks[t.task]);
    }
    forall i | 0 <= i < |s.applied| ensures Settled(run, s.applied[i]) {
      SettledStays(s.run, run, s.applied[i]);
    }
  }

  /** An actor may change into anything that is in order and is no fresh claim. */
  lemma ActorChanges(defs: seq<TaskDef>, s: Sys, w: nat, a: Actor)
    requires ActorsOk(defs, s) && HandoutsOk(s) && ReportsOk(s) && ActorOk(defs, s.run, a) && !a.Claimed?
    ensures var s' := Become(s, w, a); ActorsOk(defs, s') && HandoutsOk(s') && ReportsOk(s')
  {
  }

  // ---------------------------------------------------------------- claiming and handing out

  lemma ClaimOk(defs: seq<TaskDef>, s: Sys, w: nat, k: nat, leaseMs: nat)
    requires SysInv(defs, s, leaseMs) && ActorOf(s, w).Idle? && Claimable(s.run, k, s.clock)
    ensures SysInv(defs, Do(Step.ClaimTask(w, k), s, leaseMs), leaseMs)
    ensures Evolves(s.run, Do(Step.ClaimTask(w, k), s, leaseMs).run)
  {
    hide Inv, ActorsOk, HandoutsOk, ReportsOk, Evolves, AllParentsCompleted;
    var run := Claim(s.run, k, s.clock, leaseMs);
    var t := Ticket(k, run.tasks[k].leaseToken);
    Preserves.ClaimKeeps(defs, s.run, k, s.clock, leaseMs);
    var s1 := s.(run := run);
    RunEvolves(defs, s, run);
    RunningParents(defs, run, k);
    FreshTicket(defs, s, t);
    NewClaimOk(defs, s1, w, t);
  }

  lemma RunningParents(defs: seq<TaskDef>, run: Run, k: nat)
    requires Inv(defs, run) && At(run, k, T.RUNNING)
    ensures AllParentsCompleted(run, k) && run.tasks[k].leaseToken > 0
  {
    assert FieldsAgree(run.tasks[k]);
  }

  /** A token beyond the current one is in nobody's hands and in no history. */
  lemma FreshTicket(defs: seq<TaskDef>, s: Sys, t: Ticket)
    requires ActorsOk(defs, s) && HandoutsOk(s) && t.task < |s.run.tasks| && t.token > s.run.tasks[t.task].leaseToken
    ensures forall v :: v in s.actors && s.actors[v].Claimed? ==> s.actors[v].ticket != t
    ensures forall i :: 0 <= i < |s.handed| ==> s.handed[i].ticket != t
  {
    forall v | v in s.actors && s.actors[v].Claimed? ensures s.actors[v].ticket != t {
      assert ActorOk(defs, s.run, s.actors[v]);
    }
  }

  lemma NewClaimOk(defs: seq<TaskDef>, s: Sys, w: nat, t: Ticket)
    requires ActorsOk(defs, s) && HandoutsOk(s) && ReportsOk(s) && ActorOk(defs, s.run, Claimed(t))
    requires forall v :: v in s.actors && s.actors[v].Claimed? ==> s.actors[v].ticket != t
    requires forall i :: 0 <= i < |s.handed| ==> s.handed[i].ticket != t
    ensures var s' := Become(s, w, Claimed(t)); ActorsOk(defs, s') && HandoutsOk(s') && ReportsOk(s')
  {
  }

  lemma FollowsKeys(defs: seq<TaskDef>, run: Run)
    requires Structural(defs) && Follows(defs, run)
    ensures DistinctKeys(run)
  {
  }

  lemma OutputsRead(defs: seq<TaskDef>, run: Run, t: Ticket)
    requires Structural(defs) && Follows(defs, run) && t.task < |run.tasks| && AllParentsCompleted(run, t.task) && DistinctKeys(run)
    ensures InputsAreFinal(run, Handout(t, ParentOutputs(run, t.task)))
  {
  }

  lemma HandOutOk(defs: seq<TaskDef>, s: Sys, w: nat, leaseMs: nat)
    requires SysInv(defs, s, leaseMs)
    ensures SysInv(defs, Do(HandOut(w), s, leaseMs), leaseMs)
    ensures Do(HandOut(w), s, leaseMs).run == s.run
  {
    var a := ActorOf(s, w);
    FollowsKeys(defs, s.run);
    hide Inv;
    if a.Claimed? && !Exhausted(s, a.ticket) {
      assert ActorOk(defs, s.run, a);
      OutputsRead(defs, s.run, a.ticket);
      HandedOk(defs, s, w, Handout(a.ticket, ParentOutputs(s.run, a.ticket.task)));
    }
  }

  lemma HandedOk(defs: seq<TaskDef>, s: Sys, w: nat, h: Handout)
    requires ActorsOk(defs, s) && HandoutsOk(s) && ReportsOk(s)
    requires ActorOf(s, w) == Claimed(h.ticket) && Issued(s.run, h.ticket)
    requires h.ticket.token <= s.run.tasks[h.ticket.task].def.maxAttempts && InputsAreFinal(s.run, h)
    ensures var s' := Become(s, w, Handling(h.ticket)).(handed := s.handed + [h]);
      ActorsOk(defs, s') && HandoutsOk(s') && ReportsOk(s')
  {
    var s' := Become(s, w, Handling(h.ticket)).(handed := s.handed + [h]);
    assert w in s.actors;
    forall v, i | v in s'.actors && s'.actors[v].Claimed? && 0 <= i < |s'.handed| ensures s'.handed[i].ticket != s'.actors[v].ticket {
      assert v != w && v in s.actors && s.actors[v] == s'.actors[v];
    }
  }

  // ---------------------------------------------------------------- reports

  /** An applied report takes the task out of its holder's hands. */
  lemma ReportLeaves(tx: Txn, s: Run, t: Ticket)
    requires TicketOf(tx) == Some(t) && Holds(s, t.task, t.token)
    requires t.task < |s.approvals| && s.approvals[t.task] == NONE
    requires s.tasks[t.task].def.key !in s.tasks[t.task].dependents
    ensures var a := Apply(tx, s);
      && |a.tasks| == |s.tasks| && a.tasks[t.task].status != T.RUNNING && a.tasks[t.task].leaseToken == t.token
      && a.tasks[t.task] != s.tasks[t.task]
  {
  }

  /** Without the matching token a report changes nothing. */
  lemma ReportNeedsToken(tx: Txn, s: Run, t: Ticket)
    requires TicketOf(tx) == Some(t) && !Holds(s, t.task, t.token)
    ensures Apply(tx, s) == s
  {
  }

  lemma UnchangedCommit(base: Run, cur: Run)
    requires SameShape(base, cur)
    ensures CanCommit(base, cur, base) && Merge(base, cur, base) == cur
  {
    var m := Merge(base, cur, base);
    assert m.tasks == cur.tasks && m.approvals == cur.approvals;
    assert base.outbox[|base.outbox|..] == [];
  }

  lemma HeldReportSettles(defs: seq<TaskDef>, tx: Txn, base: Run, cur: Run, t: Ticket)
    requires Inv(defs, base) && TicketOf(tx) == Some(t) && Holds(base, t.task, t.token)
    requires CanCommit(base, cur, Apply(tx, base)) && |cur.tasks| == |base.tasks|
    ensures Settled(Merge(base, cur, Apply(tx, base)), t) && !Settled(cur, t) && Issued(base, t) && Apply(tx, base) != base
  {
    var after := Apply(tx, base);
    assert Paired(base.tasks[t.task].status, base.approvals[t.task]) && FieldsAgree(base.tasks[t.task]);
    ChildIffListed(defs, base, t.task, t.task);
    ReportLeaves(tx, base, t);
    hide Apply, Inv;
    assert after.tasks[t.task] != base.tasks[t.task];
    assert cur.tasks[t.task] == base.tasks[t.task];
  }

  /**
   * Once a report's transaction has committed, or found nothing to do, its ticket is
   * settled; and if it did change the documents, it was not settled before.
   */
  lemma ReportSettles(defs: seq<TaskDef>, tx: Txn, base: Run, cur: Run, t: Ticket)
    requires Inv(defs, base) && Evolves(base, cur) && TicketOf(tx) == Some(t)
    requires CanCommit(base, cur, Apply(tx, base))
    ensures Issued(base, t) ==> Settled(Merge(base, cur, Apply(tx, base)), t)
    ensures Apply(tx, base) != base ==> Settled(Merge(base, cur, Apply(tx, base)), t) && !Settled(cur, t) && Issued(base, t)
    ensures Apply(tx, base) == base ==> Merge(base, cur, Apply(tx, base)) == cur
  {
    hide Apply, Inv, CanCommit, Merge;
    assert SameShape(base, cur);
    if Holds(base, t.task, t.token) {
      HeldReportSettles(defs, tx, base, cur, t);
    } else {
      ReportNeedsToken(tx, base, t);
      UnchangedCommit(base, cur);
      if Issued(base, t) {
        SettledStays(base, cur, t);
      }
    }
  }

  /** The same tokens, and lease deadlines that were there before, or none. */
  ghost predicate NoNewLeases(s: Run, a: Run) {
    |a.tasks| == |s.tasks| && forall i :: 0 <= i < |s.tasks| ==>
      && a.tasks[i].leaseToken == s.tasks[i].leaseToken
      && (a.tasks[i].leaseExpiresAt.None? || a.tasks[i].leaseExpiresAt == s.tasks[i].leaseExpiresAt)
  }

  /** No transaction issues a token or prolongs a lease. */
  lemma LeasesOnlyShrink(tx: Txn, s: Run)
    ensures NoNewLeases(s, Apply(tx, s))
  {
    match tx
    case CompleteTask(k, token, output, now) => CompletionLeases(s, k, token, output, now);
    case FailTask(k, token, retryable, delayMs, now) => FailureLeases(s, k, token, retryable, delayMs, now);
    case SuspendForApproval(_, _, _, _) =>
    case ResolveApproval(k, decision, now) => DecisionLeases(s, k, decision, now);
    case PauseExecution =>
    case ResumeExecution(_) =>
    case CancelExecution =>
  }

  lemma SuccessLeases(s: Run, k: nat, now: int)
    requires k < |s.tasks|
    ensures NoNewLeases(s, AfterTaskSucceeded(s, k, now))
  {
  }

  lemma FailFastLeases(s: Run, k: nat, dead: bool)
    ensures NoNewLeases(s, AfterTaskFailedForGood(s, k, dead))
  {
  }

  lemma LeasesCompose(a: Run, b: Run, c: Run)
    requires NoNewLeases(a, b) && NoNewLeases(b, c)
    ensures NoNewLeases(a, c)
  {
  }

  lemma CompletionLeases(s: Run, k: nat, token: int, output: Output, now: int)
    ensures NoNewLeases(s, Complete(s, k, token, output, now))
  {
    if Holds(s, k, token) {
      var done := Put(s, k, s.tasks[k].(status := T.COMPLETED, output := Some(output), leaseExpiresAt := None));
      assert NoNewLeases(s, done);
      hide AfterTaskSucceeded, NoNewLeases;
      SuccessLeases(done, k, now);
      LeasesCompose(s, done, AfterTaskSucceeded(done, k, now));
    }
  }

  lemma FailureLeases(s: Run, k: nat, token: int, retryable: bool, delayMs: int, now: int)
    ensures NoNewLeases(s, Fail(s, k, token, retryable, delayMs, now))
  {
    if Holds(s, k, token) && !WillRetry(s, k, retryable) {
      var t := s.tasks[k];
      var dead := retryable && t.attempt >= t.def.maxAttempts;
      var failed := Put(s, k, t.(status := if dead then T.DEAD_LETTER else T.FAILED, leaseExpiresAt := None));
      assert NoNewLeases(s, failed);
      hide AfterTaskFailedForGood, NoNewLeases;
      FailFastLeases(failed, k, dead);
      LeasesCompose(s, failed, AfterTaskFailedForGood(failed, k, dead));
    }
  }

  lemma DecisionLeases(s: Run, k: nat, decision: Decision, now: int)
    ensures NoNewLeases(s, Resolve(s, k, decision, now))
  {
    if k < |s.approvals| && s.approvals[k].REQUESTED? && !NotActionable(s, k) {
      var s1 := s.(approvals := s.approvals[k := DECIDED(decision)]);
      var t := s1.tasks[k];
      var decided := Put(s1, k, if decision == APPROVED then t.(status := T.COMPLETED, output := Some("approved")) else t.(status := T.FAILED));
      var followed := if decision == APPROVED then AfterTaskSucceeded(decided, k, now) else AfterTaskFailedForGood(decided, k, false);
      assert NoNewLeases(s, decided) && NoNewLeases(followed, Emit(followed, ApprovalDecided(k, decision)));
      assert Resolve(s, k, decision, now) == Emit(followed, ApprovalDecided(k, decision));
      hide AfterTaskSucceeded, AfterTaskFailedForGood, NoNewLeases, Resolve;
      SuccessLeases(decided, k, now);
      FailFastLeases(decided, k, false);
      LeasesCompose(s, decided, followed);
      LeasesCompose(s, followed, Emit(followed, ApprovalDecided(k, decision)));
    }
  }

  lemma MergedLeases(s: Sys, base: Run, after: Run, leaseMs: nat)
    requires LeasesOk(s, leaseMs) && CanCommit(base, s.run, after) && NoNewLeases(base, after)
    ensures LeasesOk(s.(run := Merge(base, s.run, after)), leaseMs)
  {
  }

  /** The step of an actor whose transaction commits. */
  lemma CommitOk(defs: seq<TaskDef>, s: Sys, w: nat, tx: Txn, base: Run, holder: Option<Ticket>, leaseMs: nat)
    requires SysInv(defs, s, leaseMs) && ActorOf(s, w) == InTransaction(tx, base, holder)
    ensures SysInv(defs, Committed(s, w, tx, base, holder), leaseMs)
    ensures Evolves(s.run, Committed(s, w, tx, base, holder).run)
    ensures Committed(s, w, tx, base, holder).clock == s.clock
  {
    var after := Apply(tx, base);
    assert ActorOk(defs, s.run, ActorOf(s, w));
    hide Apply, Inv, CanCommit, Merge, Evolves, LeasesOk;
    EvolvesReflexive(s.run);
    if CanCommit(base, s.run, after) {
      CommittedEvolves(defs, s, w, tx, base, holder);
      CommittedOk(defs, s, w, tx, base, holder);
      LeasesOnlyShrink(tx, base);
      MergedLeases(s, base, after, leaseMs);
      LeasesOfRun(s, Merge(base, s.run, after), Committed(s, w, tx, base, holder), leaseMs);
    }
  }

  lemma LeasesOfRun(s: Sys, run: Run, s': Sys, leaseMs: nat)
    requires LeasesOk(s.(run := run), leaseMs) && s'.run == run && s'.clock == s.clock
    ensures LeasesOk(s', leaseMs)
  {
  }

  lemma CommittedEvolves(defs: seq<TaskDef>, s: Sys, w: nat, tx: Txn, base: Run, holder: Option<Ticket>)
    requires Inv(defs, s.run) && Inv(defs, base) && Evolves(base, s.run) && CanCommit(base, s.run, Apply(tx, base))
    ensures var run := Committed(s, w, tx, base, holder).run;
      run == Merge(base, s.run, Apply(tx, base)) && Inv(defs, run) && Evolves(s.run, run)
  {
    hide Apply, Inv, CanCommit, Merge, Evolves;
    Commits.CommitKeeps(defs, tx, base, s.run);
  }

  lemma CommittedOk(defs: seq<TaskDef>, s: Sys, w: nat, tx: Txn, base: Run, holder: Option<Ticket>)
    requires Inv(defs, s.run) && ActorsOk(defs, s) && HandoutsOk(s) && ReportsOk(s)
    requires ActorOf(s, w) == InTransaction(tx, base, holder) && ActorOk(defs, s.run, ActorOf(s, w))
    requires CanCommit(base, s.run, Apply(tx, base))
    ensures var s' := Committed(s, w, tx, base, holder); ActorsOk(defs, s') && HandoutsOk(s') && ReportsOk(s')
  {
    hide Apply, Inv, Evolves, HandoutsOk, ActorsOk, Merge;
    var run := Merge(base, s.run, Apply(tx, base));
    hide CanCommit;
    CommittedEvolves(defs, s, w, tx, base, holder);
    RunEvolves(defs, s, run);
    if TicketOf(tx).Some? {
      ReportSettles(defs, tx, base, s.run, TicketOf(tx).value);
    }
    if holder.Some? {
      IssuedStays(base, s.run, holder.value);
      IssuedStays(s.run, run, holder.value);
    }
    var s1 := s.(run := run);
    var done := if holder.Some? then Reported(holder.value) else Idle;
    ActorChanges(defs, s1, w, done);
    var applied := if Apply(tx, base) != base && TicketOf(tx).Some? then [TicketOf(tx).value] else [];
    if applied != [] {
      NotAppliedYet(s, TicketOf(tx).value);
    }
    HistoryGrows(defs, Become(s1, w, done), applied);
  }

  lemma HistoryGrows(defs: seq<TaskDef>, s: Sys, applied: seq<Ticket>)
    requires ActorsOk(defs, s) && HandoutsOk(s) && ReportsOk(s) && |applied| <= 1
    requires forall t :: t in applied ==> t !in s.applied && Settled(s.run, t)
    ensures var s' := s.(applied := s.applied + applied); ActorsOk(defs, s') && HandoutsOk(s') && ReportsOk(s')
  {
  }

  lemma NotAppliedYet(s: Sys, t: Ticket)
    requires ReportsOk(s) && !Settled(s.run, t)
    ensures t !in s.applied
  {
  }

  // ---------------------------------------------------------------- every step, every run

  lemma StepOk(defs: seq<TaskDef>, step: Step, s: Sys, leaseMs: nat)
    requires SysInv(defs, s, leaseMs)
    ensures SysInv(defs, Do(step, s, leaseMs), leaseMs) && Evolves(s.run, Do(step, s, leaseMs).run)
    ensures s.clock <= Do(step, s, leaseMs).clock
  {
    hide Inv, ActorsOk, HandoutsOk, ReportsOk, LeasesOk, Evolves, Committed, Claim, Claimable, Dispatch, Renew, MayBegin;
    EvolvesReflexive(s.run);
    match step
    case Tick(elapsed) => TickOk(defs, s, elapsed, leaseMs);
    case DispatchTask(k) => DispatchOk(defs, s, k, leaseMs);
    case ClaimTask(w, k) =>
      if ActorOf(s, w).Idle? && Claimable(s.run, k, s.clock) {
        ClaimOk(defs, s, w, k, leaseMs);
      }
    case HandOut(w) => HandOutOk(defs, s, w, leaseMs);
    case Heartbeat(w) => HeartbeatOk(defs, s, w, leaseMs);
    case Begin(w, tx) => BeginOk(defs, s, w, tx, leaseMs);
    case StartOver(w) => StartOverOk(defs, s, w, leaseMs);
    case Commit(w) =>
      var a := ActorOf(s, w);
      if a.InTransaction? {
        CommitOk(defs, s, w, a.tx, a.base, a.holder, leaseMs);
      }
    case Ack(w) => BecomesIdle(defs, s, w, leaseMs);
    case Crash(w) => BecomesIdle(defs, s, w, leaseMs);
  }

  lemma TickOk(defs: seq<TaskDef>, s: Sys, elapsed: nat, leaseMs: nat)
    requires SysInv(defs, s, leaseMs)
    ensures SysInv(defs, s.(clock := s.clock + elapsed), leaseMs)
  {
    hide Inv;
  }

  lemma DispatchOk(defs: seq<TaskDef>, s: Sys, k: nat, leaseMs: nat)
    requires SysInv(defs, s, leaseMs)
    ensures SysInv(defs, s.(run := Dispatch(s.run, k, s.clock)), leaseMs) && Evolves(s.run, Dispatch(s.run, k, s.clock))
  {
    hide Inv, ActorsOk, HandoutsOk, ReportsOk, Evolves;
    Preserves.DispatchKeeps(defs, s.run, k, s.clock);
    RunEvolves(defs, s, Dispatch(s.run, k, s.clock));
  }

  lemma ActorIsOk(defs: seq<TaskDef>, s: Sys, w: nat)
    requires ActorsOk(defs, s)
    ensures ActorOk(defs, s.run, ActorOf(s, w))
  {
    hide ActorOk;
    assert ActorOk(defs, s.run, Idle) by {
      IdleIsOk(defs, s.run);
    }
  }

  lemma IdleIsOk(defs: seq<TaskDef>, run: Run)
    ensures ActorOk(defs, run, Idle)
  {
  }

  /** An actor that changes into anything in order, and no fresh claim, keeps the invariant of the system. */
  lemma ActorChangeOk(defs: seq<TaskDef>, s: Sys, w: nat, a: Actor, leaseMs: nat)
    requires SysInv(defs, s, leaseMs) && ActorOk(defs, s.run, a) && !a.Claimed?
    ensures SysInv(defs, Become(s, w, a), leaseMs)
  {
    hide Inv, ActorsOk, ActorOk, HandoutsOk, ReportsOk, LeasesOk;
    ActorChanges(defs, s, w, a);
    LeasesOfRun(s, s.run, Become(s, w, a), leaseMs);
  }

  lemma BecomesIdle(defs: seq<TaskDef>, s: Sys, w: nat, leaseMs: nat)
    requires SysInv(defs, s, leaseMs)
    ensures SysInv(defs, Become(s, w, Idle), leaseMs)
  {
    hide SysInv, ActorOk;
    IdleIsOk(defs, s.run);
    ActorChangeOk(defs, s, w, Idle, leaseMs);
  }

  lemma HeartbeatOk(defs: seq<TaskDef>, s: Sys, w: nat, leaseMs: nat)
    requires SysInv(defs, s, leaseMs)
    ensures SysInv(defs, Do(Heartbeat(w), s, leaseMs), leaseMs) && Evolves(s.run, Do(Heartbeat(w), s, leaseMs).run)
  {
    hide Inv, ActorsOk, HandoutsOk, ReportsOk, Evolves;
    EvolvesReflexive(s.run);
    var a := ActorOf(s, w);
    if a.Handling? {
      Preserves.RenewKeeps(defs, s.run, a.ticket.task, a.ticket.token, s.clock, leaseMs);
      RunEvolves(defs, s, Renew(s.run, a.ticket.task, a.ticket.token, s.clock, leaseMs));
    }
  }

  /** Opening a transaction on the current documents is in order for whoever may open it. */
  lemma OpenedOk(defs: seq<TaskDef>, s: Sys, a: Actor, tx: Txn)
    requires Inv(defs, s.run) && ActorOk(defs, s.run, a) && MayBegin(s, a, tx)
    ensures ActorOk(defs, s.run, InTransaction(tx, s.run, HeldTicket(a)))
  {
    hide Inv, Evolves;
    EvolvesReflexive(s.run);
  }

  lemma BeginOk(defs: seq<TaskDef>, s: Sys, w: nat, tx: Txn, leaseMs: nat)
    requires SysInv(defs, s, leaseMs)
    ensures SysInv(defs, Do(Begin(w, tx), s, leaseMs), leaseMs)
  {
    hide Inv, ActorsOk, ActorOk, HandoutsOk, ReportsOk, LeasesOk;
    ActorIsOk(defs, s, w);
    var a := ActorOf(s, w);
    if MayBegin(s, a, tx) {
      OpenedOk(defs, s, a, tx);
      ActorChangeOk(defs, s, w, InTransaction(tx, s.run, HeldTicket(a)), leaseMs);
    }
  }

  /** And so is opening it again on later documents. */
  lemma ReopenedOk(defs: seq<TaskDef>, run: Run, a: Actor)
    requires Inv(defs, run) && a.InTransaction? && ActorOk(defs, run, a)
    ensures ActorOk(defs, run, InTransaction(a.tx, run, a.holder))
  {
    hide Inv, Evolves, Issued;
    EvolvesReflexive(run);
    if a.holder.Some? {
      IssuedStays(a.base, run, a.holder.value);
    }
  }

  lemma StartOverOk(defs: seq<TaskDef>, s: Sys, w: nat, leaseMs: nat)
    requires SysInv(defs, s, leaseMs)
    ensures SysInv(defs, Do(StartOver(w), s, leaseMs), leaseMs)
  {
    hide Inv, ActorsOk, ActorOk, HandoutsOk, ReportsOk, LeasesOk;
    ActorIsOk(defs, s, w);
    var a := ActorOf(s, w);
    if a.InTransaction? {
      ReopenedOk(defs, s.run, a);
      ActorChangeOk(defs, s, w, InTransaction(a.tx, s.run, a.holder), leaseMs);
    }
  }

  lemma {:induction false} ExecOk(defs: seq<TaskDef>, steps: seq<Step>, s: Sys, leaseMs: nat)
    requires SysInv(defs, s, leaseMs)
    ensures SysInv(defs, Exec(steps, s, leaseMs), leaseMs) && Evolves(s.run, Exec(steps, s, leaseMs).run)
    ensures s.clock <= Exec(steps, s, leaseMs).clock
    decreases |steps|
  {
    if steps == [] {
      EvolvesReflexive(s.run);
    } else {
      var mid := Exec(steps[..|steps| - 1], s, leaseMs);
      ExecOk(defs, steps[..|steps| - 1], s, leaseMs);
      StepOk(defs, steps[|steps| - 1], mid, leaseMs);
      EvolvesTransitive(s.run, mid.run, Exec(steps, s, leaseMs).run);
    }
  }

  /** Every state any actors can bring a run of a well-formed definition to. */
  lemma ReachableOk(defs: seq<TaskDef>, now: int, steps: seq<Step>, leaseMs: nat)
    requires Structural(defs) && defs != []
    ensures SysInv(defs, Exec(steps, Initial(defs, now), leaseMs), leaseMs)
  {
    Start.StartedKeeps(defs, now);
    ExecOk(defs, steps, Initial(defs, now), leaseMs);
  }
}
