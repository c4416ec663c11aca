/**
 * One run with any number of workers and API callers around it. Each call of the
 * engine is a sequence of steps: a transaction begins on a snapshot and commits or
 * starts over later; single-document updates are one step; an actor may die between
 * any two steps, and any task id may be tried at any time, whatever the queue lost
 * or duplicated (src/workflow/engine.js, src/workers/queueWorker.js, src/workers/runTask.js).
 */
module System {
  import opened Graphs
  import opened States
  import opened Options
  import opened Documents
  import opened Transactions
  import opened Invariant
  import opened SnapshotIsolation

  /** A claim a worker holds: the task and the token it must report with. */
  datatype Ticket = Ticket(task: nat, token: int)

  datatype Actor =
    | Idle
    | Claimed(ticket: Ticket)                                     // claimed in MongoDB, guard not yet checked
    | Handling(ticket: Ticket)                                    // the handler runs
    | InTransaction(tx: Txn, base: Run, holder: Option<Ticket>)   // a transaction is open on a snapshot
    | Reported(ticket: Ticket)                                    // the report returned: next is the ack

  /** A handler was started, with its parents' outputs as they were read. */
  datatype Handout = Handout(ticket: Ticket, inputs: map<Key, Option<Output>>)

  datatype Sys = Sys(
    run: Run,
    clock: int,                // the database server's clock
    actors: map<nat, Actor>,   // Idle when absent
    handed: seq<Handout>,      // history of handlers started
    applied: seq<Ticket>       // history of reports that changed the documents
  )

  function ActorOf(s: Sys, w: nat): Actor {
    if w in s.actors then s.actors[w] else Idle
  }

  function Become(s: Sys, w: nat, a: Actor): Sys {
    s.(actors := s.actors[w := a])
  }

  datatype Step =
    | Tick(elapsed: nat)
    | DispatchTask(task: nat)
    | ClaimTask(w: nat, task: nat)
    | HandOut(w: nat)
    | Heartbeat(w: nat)
    | Begin(w: nat, tx: Txn)
    | StartOver(w: nat)
    | Commit(w: nat)
    | Ack(w: nat)
    | Crash(w: nat)

  /** The ticket a report presents. */
  function TicketOf(tx: Txn): Option<Ticket> {
    match tx
    case CompleteTask(k, token, _, _) => Some(Ticket(k, token))
    case FailTask(k, token, _, _, _) => Some(Ticket(k, token))
    case SuspendForApproval(k, token, _, _) => Some(Ticket(k, token))
    case ResolveApproval(_, _, _) => None
    case PauseExecution => None
    case ResumeExecution(_) => None
    case CancelExecution => None
  }

  /** Past its last attempt a claim is not handed out but failed. */
  predicate Exhausted(s: Sys, t: Ticket) {
    t.task < |s.run.tasks| && t.token > s.run.tasks[t.task].def.maxAttempts
  }

  /**
   * Who may open which transaction: a worker reports on its own ticket (or fails an
   * exhausted one); anybody else may make any call at all, stale and duplicate
   * reports included.
   */
  predicate MayBegin(s: Sys, a: Actor, tx: Txn) {
    match a
    case Idle => true
    case Claimed(t) => tx.FailTask? && tx.retryable && TicketOf(tx) == Some(t) && Exhausted(s, t)
    case Handling(t) => TicketOf(tx) == Some(t)
    case InTransaction(_, _, _) => false
    case Reported(_) => false
  }

  function HeldTicket(a: Actor): Option<Ticket> {
    match a
    case Idle => None
    case Claimed(t) => Some(t)
    case Handling(t) => Some(t)
    case InTransaction(_, _, t) => t
    case Reported(t) => Some(t)
  }

  /** What `Task.find({ key: { $in: dependsOn } })` reads. */
  function ParentOutputs(run: Run, k: nat): map<Key, Option<Output>>
    requires k < |run.tasks|
    requires forall i, j :: 0 <= i < j < |run.tasks| ==> run.tasks[i].def.key != run.tasks[j].def.key
  {
    map p | 0 <= p < |run.tasks| && IsParent(run, p, k) :: run.tasks[p].def.key := run.tasks[p].output
  }

  ghost predicate DistinctKeys(run: Run) {
    forall i, j :: 0 <= i < j < |run.tasks| ==> run.tasks[i].def.key != run.tasks[j].def.key
  }

  ghost function Committed(s: Sys, w: nat, tx: Txn, base: Run, ticket: Option<Ticket>): Sys {
    var after := Apply(tx, base);
    if !CanCommit(base, s.run, after) then s
    else
      Become(s, w, if ticket.Some? then Reported(ticket.value) else Idle)
        .(run := Merge(base, s.run, after),
          applied := s.applied + (if after != base && TicketOf(tx).Some? then [TicketOf(tx).value] else []))
  }

  /** A step that is not enabled changes nothing. */
  ghost function Do(step: Step, s: Sys, leaseMs: nat): Sys {
    match step
    case Tick(elapsed) => s.(clock := s.clock + elapsed)
    case DispatchTask(k) => s.(run := Dispatch(s.run, k, s.clock))
    case ClaimTask(w, k) =>
      if ActorOf(s, w).Idle? && Claimable(s.run, k, s.clock) then
        var run := Claim(s.run, k, s.clock, leaseMs);
        Become(s, w, Claimed(Ticket(k, run.tasks[k].leaseToken))).(run := run)
      else s
    case HandOut(w) =>
      var a := ActorOf(s, w);
      if a.Claimed? && a.ticket.task < |s.run.tasks| && !Exhausted(s, a.ticket) && DistinctKeys(s.run) then
        Become(s, w, Handling(a.ticket))
          .(handed := s.handed + [Handout(a.ticket, ParentOutputs(s.run, a.ticket.task))])
      else s
    case Heartbeat(w) =>
      var a := ActorOf(s, w);
      if a.Handling? then s.(run := Renew(s.run, a.ticket.task, a.ticket.token, s.clock, leaseMs)) else s
    case Begin(w, tx) =>
      var a := ActorOf(s, w);
      if MayBegin(s, a, tx) then Become(s, w, InTransaction(tx, s.run, HeldTicket(a))) else s
    case StartOver(w) =>
      var a := ActorOf(s, w);
      if a.InTransaction? then Become(s, w, InTransaction(a.tx, s.run, a.holder)) else s
    case Commit(w) =>
      var a := ActorOf(s, w);
      if a.InTransaction? then Committed(s, w, a.tx, a.base, a.holder) else s
    case Ack(w) => if ActorOf(s, w).Reported? then Become(s, w, Idle) else s
    case Crash(w) => Become(s, w, Idle)
  }

  ghost function Exec(steps: seq<Step>, s: Sys, leaseMs: nat): Sys
    decreases |steps|
  {
    if steps == [] then s else Do(steps[|steps| - 1], Exec(steps[..|steps| - 1], s, leaseMs), leaseMs)
  }

  function Initial(defs: seq<TaskDef>, now: int): Sys {
    Sys(Started(defs, now), now, map[], [], [])
  }
}
