/** A worker that processes one queue entry (src/workers/queueWorker.js, src/workers/runTask.js). */
module Worker {
  import opened Graphs
  import opened States
  import opened Options
  import opened Documents
  import opened Invariant
  import opened SortedSets
  import opened Engine
  import Tx = Transactions
  import Calls
  import Effects
  import Preserves
  import Q = QueueScripts

  /** How a handler ends: a result, an error (a missing handler is a permanent one), or a request for approval. */
  datatype Outcome = Returned(output: Output) | Threw(retryable: bool) | AwaitApproval(timeoutMs: int)

  /** Where the worker dies, if it does. */
  datatype Death = Survives | AfterClaim | BeforeReport | BeforeAck

  class QueueWorker {
    const engine: Engine
    var completedSinceLastBeat: nat

    constructor (engine: Engine)
      ensures this.engine == engine && completedSinceLastBeat == 0
    {
      this.engine, completedSinceLastBeat := engine, 0;
    }

    /** The handler threw: a retry, a failure, or the dead letter. */
    method ReportFailure(k: nat, token: int, retryable: bool, delayMs: int, now: int) returns (retrying: bool)
      requires engine.Valid()
      modifies engine.db, engine.queue
      ensures engine.Valid() && Evolves(old(engine.db.Snapshot()), engine.db.Snapshot())
      ensures ReportIn(old(engine.db.Snapshot()), engine.db.Snapshot(), k, token, Threw(retryable), now, retrying)
      ensures QueueTold(old(engine.queue.Contents()), engine.queue.Contents(), engine.ids, k, engine.redisUp,
                        Held(old(engine.db.tasks), k, token), retrying)
    {
      hide Inv, Evolves, Q.Valid, Q.Delayed, QueueTold, Tx.Fail, Tx.Holds, Held, Has, ReportIn, Calls.FailOutcome,
        Effects.FailureReported;
      ghost var was := engine.db.Snapshot();
      HeldOrNot(engine.defs, was, k, token);
      ghost var queueWas := engine.queue.Contents();
      var result := engine.FailTask(k, token, retryable, delayMs, now);
      retrying := result == Some(T.RETRYING);
      FailureIn(was, engine.db.Snapshot(), k, token, retryable, now + delayMs, now, result);
      RetryQueued(queueWas, engine.queue.Contents(), engine.ids, k, now + (if delayMs < 0 then 0 else delayMs), engine.redisUp,
                  result.Some?, retrying);
    }

    /** The handler asked for a human's approval. */
    method ReportSuspension(k: nat, token: int, timeoutMs: int, now: int)
      requires engine.Valid()
      modifies engine.db, engine.queue
      ensures engine.Valid() && Evolves(old(engine.db.Snapshot()), engine.db.Snapshot())
      ensures ReportIn(old(engine.db.Snapshot()), engine.db.Snapshot(), k, token, AwaitApproval(timeoutMs), now, false)
      ensures QueueTold(old(engine.queue.Contents()), engine.queue.Contents(), engine.ids, k, engine.redisUp,
                        Held(old(engine.db.tasks), k, token), false)
    {
      hide Inv, Evolves, Q.Valid, Tx.Suspend, Tx.Holds, ReportIn;
      ghost var was := engine.db.Snapshot();
      HeldOrNot(engine.defs, was, k, token);
      var applied := engine.SuspendForApproval(k, token, timeoutMs, now);
      SuspensionIn(was, engine.db.Snapshot(), k, token, timeoutMs, now, applied);
    }

    /** The handler returned. */
    method ReportCompletion(k: nat, token: int, output: Output, now: int)
      requires engine.Valid()
      modifies engine.db, engine.queue
      ensures engine.Valid() && Evolves(old(engine.db.Snapshot()), engine.db.Snapshot())
      ensures ReportIn(old(engine.db.Snapshot()), engine.db.Snapshot(), k, token, Returned(output), now, false)
      ensures QueueTold(old(engine.queue.Contents()), engine.queue.Contents(), engine.ids, k, engine.redisUp,
                        Held(old(engine.db.tasks), k, token), false)
    {
      hide Inv, Evolves, Q.Valid, Tx.Complete, Tx.Holds, ReportIn, Calls.DispatchReady, Effects.Succeeded, Effects.NewlyQueued;
      ghost var was := engine.db.Snapshot();
      HeldOrNot(engine.defs, was, k, token);
      var applied := engine.CompleteTask(k, token, output, now);
      CompletionIn(was, engine.db.Snapshot(), k, token, output, now, applied);
    }

    /**
     * One report, of what the handler did. If the task is held under the token, its document
     * says how the handler ended; otherwise nothing changes. Afterwards it is not held under
     * that token any more.
     */
    method RunTask(k: nat, work: Calls.Work, outcome: Outcome, delayMs: int, now: int) returns (retrying: bool)
      requires engine.Valid()
      modifies engine.db, engine.queue
      ensures engine.Valid() && Evolves(old(engine.db.Snapshot()), engine.db.Snapshot())
      ensures ReportIn(old(engine.db.Snapshot()), engine.db.Snapshot(), k, work.token, outcome, now, retrying)
      ensures QueueTold(old(engine.queue.Contents()), engine.queue.Contents(), engine.ids, k, engine.redisUp,
                        Held(old(engine.db.tasks), k, work.token), retrying)
    {
      hide Inv, Evolves, Q.Valid, Held, ReportIn, QueueTold;
      retrying := false;
      match outcome
      case Threw(retryable) =>
        retrying := ReportFailure(k, work.token, retryable, delayMs, now);
      case AwaitApproval(timeoutMs) =>
        ReportSuspension(k, work.token, timeoutMs, now);
      case Returned(output) =>
        ReportCompletion(k, work.token, output, now);
    }

    /** The renewal timer fires: both leases are pushed out, unless the task is no longer ours. */
    method Beat(k: nat, work: Calls.Work, now: int) returns (ours: bool)
      requires engine.Valid() && k < |engine.ids|
      modifies engine.db`tasks, engine.queue
      ensures engine.Valid() && Evolves(old(engine.db.Snapshot()), engine.db.Snapshot())
      ensures ours == Held(old(engine.db.tasks), k, work.token)
      ensures engine.db.tasks ==
        if ours then old(engine.db.tasks)[k := old(engine.db.tasks)[k].(leaseExpiresAt := Some(now + engine.leaseMs))]
        else old(engine.db.tasks)
      ensures engine.queue.ready == old(engine.queue.ready) && engine.queue.delayed == old(engine.queue.delayed)
      ensures engine.queue.members == old(engine.queue.members)
      ensures forall id :: Has(engine.queue.leases, id) <==> Has(old(engine.queue.leases), id)
      ensures ours && engine.redisUp && Has(old(engine.queue.leases), engine.ids[k]) ==>
        Entry(engine.ids[k], now + engine.leaseMs) in engine.queue.leases
      ensures !ours || !engine.redisUp ==> engine.queue.leases == old(engine.queue.leases)
    {
      hide Inv, Evolves, Q.Valid, Tx.Renew;
      ours := engine.RenewLease(k, work.token, now);
      if ours {
        var extended := ExtendLease(k, now);
      }
    }

    /**
     * The handler runs, and the timer fires at these times; true if the lease was never lost.
     * Each beat moves both deadlines, so in the end they are one lease after the last one.
     */
    method RunHandler(k: nat, work: Calls.Work, beats: seq<int>) returns (ours: bool)
      requires engine.Valid() && k < |engine.ids| && Held(engine.db.tasks, k, work.token)
      modifies engine.db`tasks, engine.queue
      ensures engine.Valid() && Evolves(old(engine.db.Snapshot()), engine.db.Snapshot())
      ensures ours && Held(engine.db.tasks, k, work.token)
      ensures k < |old(engine.db.tasks)|
      ensures engine.db.tasks ==
        if beats == [] then old(engine.db.tasks)
        else old(engine.db.tasks)[k := old(engine.db.tasks)[k].(leaseExpiresAt := Some(beats[|beats| - 1] + engine.leaseMs))]
      ensures engine.queue.ready == old(engine.queue.ready) && engine.queue.delayed == old(engine.queue.delayed)
      ensures engine.queue.members == old(engine.queue.members)
      ensures Has(engine.queue.leases, engine.ids[k]) <==> Has(old(engine.queue.leases), engine.ids[k])
      ensures beats != [] && engine.redisUp && Has(old(engine.queue.leases), engine.ids[k]) ==>
        Entry(engine.ids[k], beats[|beats| - 1] + engine.leaseMs) in engine.queue.leases
    {
      hide Inv, Evolves, Q.Valid, Has;
      ours := true;
      EvolvesReflexive(engine.db.Snapshot());
      for i := 0 to |beats|
        invariant engine.Valid() && ours && Held(engine.db.tasks, k, work.token)
        invariant Evolves(old(engine.db.Snapshot()), engine.db.Snapshot())
        invariant engine.db.tasks ==
          if i == 0 then old(engine.db.tasks)
          else old(engine.db.tasks)[k := old(engine.db.tasks)[k].(leaseExpiresAt := Some(beats[i - 1] + engine.leaseMs))]
        invariant engine.queue.ready == old(engine.queue.ready) && engine.queue.delayed == old(engine.queue.delayed)
        invariant engine.queue.members == old(engine.queue.members)
        invariant Has(engine.queue.leases, engine.ids[k]) <==> Has(old(engine.queue.leases), engine.ids[k])
        invariant i > 0 && engine.redisUp && Has(old(engine.queue.leases), engine.ids[k]) ==>
          Entry(engine.ids[k], beats[i - 1] + engine.leaseMs) in engine.queue.leases
      {
        ghost var before := engine.db.Snapshot();
        ours := Beat(k, work, beats[i]);
        EvolvesTransitive(old(engine.db.Snapshot()), before, engine.db.Snapshot());
      }
    }

    /** Forgets the queue entry, if Redis can be reached. */
    method Ack(k: nat) returns (sent: bool)
      requires engine.queue.Valid() && k < |engine.ids|
      modifies engine.queue
      ensures engine.queue.Valid() && sent == engine.redisUp
      ensures engine.queue.Contents() ==
        if sent then Q.Ack(old(engine.queue.Contents()), engine.ids[k]) else old(engine.queue.Contents())
      ensures engine.queue.members == old(engine.queue.members) -
        (if sent && Has(old(engine.queue.leases), engine.ids[k]) then {engine.ids[k]} else {})
    {
      if !engine.redisUp {
        return false;
      }
      var removed := engine.queue.Ack(engine.ids[k]);
      return true;
    }

    /** The work between claim and ack, unless the worker dies: the handler runs under both leases, and its end is reported. */
    method Attempt(k: nat, work: Calls.Work, beats: seq<int>, outcome: Outcome, death: Death, delayMs: int, now: int, endedAt: int)
      returns (reported: bool, retrying: bool)
      requires engine.Valid() && k < |engine.ids| && Held(engine.db.tasks, k, work.token)
      modifies engine.db, engine.queue
      ensures engine.Valid() && Evolves(old(engine.db.Snapshot()), engine.db.Snapshot())
      ensures reported <==> engine.redisUp && (death == Survives || death == BeforeAck)
      ensures k < |old(engine.db.tasks)|
      ensures if reported then EndTold(old(engine.db.Snapshot()), engine.db.Snapshot(), k, outcome, endedAt, retrying) else !retrying
      ensures Held(engine.db.tasks, k, work.token) <==> !reported
      ensures old(engine.queue.members) <= engine.queue.members
      ensures retrying ==> engine.ids[k] in engine.queue.members && !Has(engine.queue.leases, engine.ids[k])
      ensures reported && !retrying ==> (Has(engine.queue.leases, engine.ids[k]) <==> Has(old(engine.queue.leases), engine.ids[k]))
    {
      hide Inv, Evolves, Q.Valid, Has, ReportIn, EndTold;
      EvolvesReflexive(engine.db.Snapshot());
      reported, retrying := false, false;
      if death == AfterClaim {
        return;
      }
      var extended := ExtendLease(k, now);
      if !extended {
        return;   // without Redis the call throws, and the handler never runs
      }
      ghost var was := engine.db.Snapshot();
      var ours := RunHandler(k, work, beats);
      if death == BeforeReport {
        return;
      }
      ghost var between := engine.db.Snapshot();
      retrying := RunTask(k, work, outcome, delayMs, endedAt);
      reported := true;
      EvolvesTransitive(was, between, engine.db.Snapshot());
      ReportOfAttempt(was, between, engine.db.Snapshot(), k, work.token, outcome, endedAt, retrying);
    }

    /**
     * Claim, run, report, and acknowledge last. The entry is forgotten only when this
     * worker's claim is settled in the database; a worker that dies leaves it in the
     * queue, and one that dies before its report also leaves the task held, for its lease
     * to run out. Once the report is in, the document tells how the handler ended. The ack
     * forgets the entry, unless a retry was scheduled, and no other.
     */
    method ProcessTask(k: nat, beats: seq<int>, outcome: Outcome, death: Death, delayMs: int, now: int, endedAt: int)
      returns (claimed: Option<Calls.Work>, retrying: bool, acked: bool)
      requires engine.Valid() && k < |engine.ids|
      modifies this, engine.db, engine.queue
      ensures engine.Valid() && Evolves(old(engine.db.Snapshot()), engine.db.Snapshot())
      ensures claimed.Some? <==> Calls.HandsOut(old(engine.db.Snapshot()), k, now)
      ensures acked <==> engine.redisUp && (claimed.None? || death == Survives)
      ensures !acked ==> old(engine.queue.members) <= engine.queue.members
      ensures claimed.Some? ==>
        (Held(engine.db.tasks, k, claimed.value.token) <==> death == AfterClaim || death == BeforeReport || !engine.redisUp)
      ensures claimed.Some? && engine.redisUp && (death == Survives || death == BeforeAck) ==>
        EndTold(Again(old(engine.db.Snapshot()), k), engine.db.Snapshot(), k, outcome, endedAt, retrying)
      ensures retrying ==> engine.ids[k] in engine.queue.members
      ensures acked && Has(old(engine.queue.leases), engine.ids[k]) ==> (engine.ids[k] in engine.queue.members <==> retrying)
      ensures old(engine.queue.members) - {engine.ids[k]} <= engine.queue.members
      ensures completedSinceLastBeat == old(completedSinceLastBeat) + (if claimed.Some? && acked then 1 else 0)
    {
      hide Inv, Evolves, Q.Valid, Calls.HandsOut, Calls.StartTask, Tx.Claimable, Tx.Holds, Has, IsParent, EndTold, Again,
        Effects.HandedOut;
      retrying, acked := false, false;
      ghost var was := engine.db.Snapshot();
      claimed := engine.StartTask(k, delayMs, now);
      if claimed == None {
        acked := Ack(k);
        return;
      }
      ghost var started := engine.db.Snapshot();
      var reported;
      HeldIs(started, k, claimed.value.token);
      reported, retrying := Attempt(k, claimed.value, beats, outcome, death, delayMs, now, endedAt);
      EvolvesTransitive(was, started, engine.db.Snapshot());
      if reported {
        EndOfAttempt(was, started, engine.db.Snapshot(), k, now + engine.leaseMs, outcome, endedAt, retrying);
      }
      if !reported || death == BeforeAck {
        return;
      }
      acked := Ack(k);
      if acked {
        completedSinceLastBeat := completedSinceLastBeat + 1;
      }
    }

    /** Pushes the queue's lease out, if Redis can be reached; nothing else in the queue changes. */
    method ExtendLease(k: nat, now: int) returns (sent: bool)
      requires engine.queue.Valid() && k < |engine.ids|
      modifies engine.queue
      ensures engine.queue.Valid() && sent == engine.redisUp
      ensures engine.queue.ready == old(engine.queue.ready) && engine.queue.delayed == old(engine.queue.delayed)
      ensures engine.queue.members == old(engine.queue.members)
      ensures forall id :: Has(engine.queue.leases, id) <==> Has(old(engine.queue.leases), id)
      ensures sent && Has(old(engine.queue.leases), engine.ids[k]) ==>
        Entry(engine.ids[k], now + engine.leaseMs) in engine.queue.leases
      ensures !sent || !Has(old(engine.queue.leases), engine.ids[k]) ==> engine.queue.leases == old(engine.queue.leases)
    {
      sent := engine.redisUp;
      if sent {
        Q.SetsSorted(engine.queue.Contents());
        Q.HasAfter(engine.queue.leases, engine.ids[k], now + engine.leaseMs);
        hide Q.Valid, Has;
        var extended := engine.queue.ExtendLease(engine.ids[k], engine.leaseMs, now);
      }
    }
  }

  /** The task is RUNNING under this very token. */
  predicate Held(tasks: seq<Task>, k: nat, token: int) {
    k < |tasks| && tasks[k].status == T.RUNNING && tasks[k].leaseToken == token
  }

  /** The task's document and its approval request tell how its handler ended. */
  predicate Tells(outcome: Outcome, before: Task, run: E, after: Task, request: Approval, now: int) {
    match outcome
    case Returned(output) => after.status == T.COMPLETED && after.output == Some(output)
    case AwaitApproval(timeoutMs) => after.status == T.WAITING_FOR_APPROVAL && request == REQUESTED(now + timeoutMs)
    case Threw(retryable) =>
      if retryable && before.attempt >= before.def.maxAttempts then after.status == T.DEAD_LETTER
      else if retryable && run in {E.RUNNING, E.PAUSED} then after.status == T.RETRYING
      else after.status == T.FAILED
  }

  lemma HeldOrNot(defs: seq<TaskDef>, s: Run, k: nat, token: int)
    requires Inv(defs, s)
    ensures Tx.Holds(s, k, token) <==> Held(s.tasks, k, token)
    ensures |s.approvals| == |s.tasks|
  {
  }

  /** A report under `token` is in: it tells how the handler ended if the task was held, and changed nothing otherwise. */
  ghost predicate ReportIn(a: Run, b: Run, k: nat, token: int, outcome: Outcome, now: int, retrying: bool) {
    && !Held(b.tasks, k, token)
    && if Held(a.tasks, k, token) then
         && k < |b.tasks| == |b.approvals|
         && Tells(outcome, a.tasks[k], a.exec.status, b.tasks[k], b.approvals[k], now)
         && (retrying <==> b.tasks[k].status == T.RETRYING)
       else b == a && !retrying
  }

  /** Without the claim a report does not touch the queue; with it ids are only added, leases stay, and a retry waits unleased. */
  ghost predicate QueueTold(a: Q.Redis, b: Q.Redis, ids: seq<Id>, k: nat, up: bool, held: bool, retrying: bool) {
    && a.members <= b.members && (!held ==> b == a) && (!retrying ==> b.leases == a.leases)
    && (retrying && up ==> k < |ids| && ids[k] in b.members && !Has(b.leases, ids[k]))
  }

  lemma RetryQueued(a: Q.Redis, b: Q.Redis, ids: seq<Id>, k: nat, due: int, up: bool, held: bool, retrying: bool)
    requires (held ==> k < |ids|) && (retrying ==> held)
    requires if retrying && up then Q.Delayed(a, b, ids[k], due) else b == a
    ensures QueueTold(a, b, ids, k, up, held, retrying)
  {
  }

  lemma FailureIn(a: Run, b: Run, k: nat, token: int, retryable: bool, retryAt: int, now: int, result: Option<T>)
    requires |a.approvals| == |a.tasks| && (result.Some? <==> Held(a.tasks, k, token))
    requires result.Some? ==> Effects.FailureReported(a, b, k, retryable, retryAt) && b.tasks[k].status == result.value
    requires result.None? ==> b == a
    ensures ReportIn(a, b, k, token, Threw(retryable), now, result == Some(T.RETRYING))
  {
  }

  lemma SuspensionIn(a: Run, b: Run, k: nat, token: int, timeoutMs: int, now: int, applied: bool)
    requires |a.approvals| == |a.tasks| && (applied <==> Held(a.tasks, k, token))
    requires applied ==>
      && b.tasks == a.tasks[k := a.tasks[k].(status := T.WAITING_FOR_APPROVAL, leaseExpiresAt := None)]
      && b.approvals == a.approvals[k := REQUESTED(now + timeoutMs)]
    requires !applied ==> b == a
    ensures ReportIn(a, b, k, token, AwaitApproval(timeoutMs), now, false)
  {
  }

  lemma CompletionIn(a: Run, b: Run, k: nat, token: int, output: Output, now: int, applied: bool)
    requires |a.approvals| == |a.tasks| && (applied <==> Held(a.tasks, k, token))
    requires applied ==>
      && |b.tasks| == |a.tasks| && b.approvals == a.approvals
      && b.tasks[k] == a.tasks[k].(status := T.COMPLETED, output := Some(output), leaseExpiresAt := None)
    requires !applied ==> b == a
    ensures ReportIn(a, b, k, token, Returned(output), now, false)
  {
  }

  /** The attempt on task `k` that was going on in `a` is over, and the documents tell how. */
  ghost predicate EndTold(a: Run, b: Run, k: nat, outcome: Outcome, now: int, retrying: bool) {
    && k < |a.tasks| && k < |b.tasks| == |b.approvals|
    && Tells(outcome, a.tasks[k], a.exec.status, b.tasks[k], b.approvals[k], now)
    && (retrying <==> b.tasks[k].status == T.RETRYING)
  }

  /** The documents with one more attempt on task `k`. */
  function Again(s: Run, k: nat): Run {
    if k < |s.tasks| then s.(tasks := s.tasks[k := s.tasks[k].(attempt := s.tasks[k].attempt + 1)]) else s
  }

  lemma HeldIs(s: Run, k: nat, token: int)
    ensures Tx.Holds(s, k, token) <==> Held(s.tasks, k, token)
  {
  }

  /** Only the definition and the number of the attempt matter of the document that was held. */
  lemma ReportOfAttempt(was: Run, between: Run, b: Run, k: nat, token: int, outcome: Outcome, now: int, retrying: bool)
    requires between.exec == was.exec && |between.tasks| == |was.tasks|
    requires Held(between.tasks, k, token) && ReportIn(between, b, k, token, outcome, now, retrying)
    requires between.tasks[k].def == was.tasks[k].def && between.tasks[k].attempt == was.tasks[k].attempt
    ensures EndTold(was, b, k, outcome, now, retrying) && !Held(b.tasks, k, token)
  {
  }

  lemma EndOfAttempt(a: Run, started: Run, b: Run, k: nat, deadline: int, outcome: Outcome, now: int, retrying: bool)
    requires Effects.HandedOut(a, started, k, deadline) && EndTold(started, b, k, outcome, now, retrying)
    ensures EndTold(Again(a, k), b, k, outcome, now, retrying)
  {
  }
}
