/** What every sequence of queue scripts guarantees (src/queues/taskQueue.js). */
module QueueTheorems {
  import opened Graphs
  import opened Options
  import opened SortedSets
  import Q = QueueScripts

  datatype Script =
    | Enqueue(id: Id)
    | EnqueueDelayed(id: Id, delayMs: int)
    | Claim(leaseMs: int)
    | ExtendLease(id: Id, leaseMs: int)
    | Ack(id: Id)
    | RequeueExpired(limit: int)
    | PromoteDue(limit: int)

  /** A script and the server time at which it ran. */
  datatype Call = Call(script: Script, now: int)

  function Do(c: Call, q: Q.Redis): Q.Redis {
    match c.script
    case Enqueue(id) => Q.Enqueue(q, id)
    case EnqueueDelayed(id, delayMs) => Q.EnqueueDelayed(q, id, delayMs, c.now)
    case Claim(leaseMs) => Q.Claim(q, leaseMs, c.now)
    case ExtendLease(id, leaseMs) => Q.ExtendLease(q, id, leaseMs, c.now)
    case Ack(id) => Q.Ack(q, id)
    case RequeueExpired(limit) => Q.RequeueExpired(q, limit, c.now)
    case PromoteDue(limit) => Q.PromoteDue(q, limit, c.now)
  }

  function Exec(calls: seq<Call>, q: Q.Redis): Q.Redis {
    if calls == [] then q else Do(calls[|calls| - 1], Exec(calls[..|calls| - 1], q))
  }

  /** The state in which call `i` runs. */
  function Before(calls: seq<Call>, i: nat, q: Q.Redis): Q.Redis
    requires i <= |calls|
  {
    Exec(calls[..i], q)
  }

  function Empty(): Q.Redis {
    Q.Redis([], [], [], {})
  }

  lemma ExecStep(calls: seq<Call>, i: nat, q: Q.Redis)
    requires i < |calls|
    ensures Before(calls, i + 1, q) == Do(calls[i], Before(calls, i, q))
  {
    assert calls[..i + 1][..i] == calls[..i];
  }

  lemma DoKeeps(c: Call, q: Q.Redis)
    requires Q.Valid(q)
    ensures Q.Valid(Do(c, q))
  {
    hide Q.Valid;
    match c.script
    case Enqueue(id) => Q.EnqueueKeeps(q, id);
    case EnqueueDelayed(id, delayMs) => Q.EnqueueDelayedKeeps(q, id, delayMs, c.now);
    case Claim(leaseMs) => Q.ClaimKeeps(q, leaseMs, c.now);
    case ExtendLease(id, leaseMs) => Q.ExtendKeeps(q, id, leaseMs, c.now);
    case Ack(id) => Q.AckKeeps(q, id);
    case RequeueExpired(limit) => Q.RequeueKeeps(q, limit, c.now);
    case PromoteDue(limit) => Q.PromoteKeeps(q, limit, c.now);
  }

  /** Whatever is called in whatever order: nothing twice, nothing in two places, `members` exact. */
  lemma {:induction false} AlwaysValid(calls: seq<Call>, q: Q.Redis)
    requires Q.Valid(q)
    ensures Q.Valid(Exec(calls, q))
  {
    hide Q.Valid, Do;
    if calls != [] {
      AlwaysValid(calls[..|calls| - 1], q);
      DoKeeps(calls[|calls| - 1], Exec(calls[..|calls| - 1], q));
    }
  }

  // ---------------------------------------------------------------- conservation

  /** An enqueue that answers true for an id that is not leased. */
  predicate Adds(c: Call, q: Q.Redis) {
    match c.script
    case Enqueue(id) => id !in q.members
    case EnqueueDelayed(id, _) => id !in q.members && !Has(q.leases, id)
    case _ => false
  }

  /** An ack that answers true. */
  predicate Removes(c: Call, q: Q.Redis) {
    c.script.Ack? && Has(q.leases, c.script.id)
  }

  function Additions(calls: seq<Call>, q: Q.Redis): nat {
    if calls == [] then 0
    else
      var n := |calls| - 1;
      Additions(calls[..n], q) + (if Adds(calls[n], Exec(calls[..n], q)) then 1 else 0)
  }

  function Removals(calls: seq<Call>, q: Q.Redis): nat {
    if calls == [] then 0
    else
      var n := |calls| - 1;
      Removals(calls[..n], q) + (if Removes(calls[n], Exec(calls[..n], q)) then 1 else 0)
  }

  lemma StepConserves(c: Call, q: Q.Redis)
    requires Q.Valid(q)
    ensures |Do(c, q).members| == |q.members| + (if Adds(c, q) then 1 else 0) - (if Removes(c, q) then 1 else 0)
    ensures forall id :: id in q.members && id !in Do(c, q).members ==> c.script == Ack(id) && Removes(c, q)
  {
    match c.script
    case EnqueueDelayed(id, _) =>
      if id in q.members {
        assert q.members + {id} == q.members;
      }
    case _ =>
  }

  /** Ids are neither made up nor lost: what was added and not yet acknowledged is there. */
  lemma {:induction false} Conservation(calls: seq<Call>, q: Q.Redis)
    requires Q.Valid(q)
    ensures |Exec(calls, q).members| == |q.members| + Additions(calls, q) - Removals(calls, q)
  {
    hide Q.Valid, Do, Adds, Removes;
    if calls != [] {
      var n := |calls| - 1;
      Conservation(calls[..n], q);
      AlwaysValid(calls[..n], q);
      StepConserves(calls[n], Exec(calls[..n], q));
    }
  }

  /** An id leaves the queue only by an ack that found it leased. */
  lemma {:induction false} LeavesOnlyByAck(calls: seq<Call>, q: Q.Redis, id: Id) returns (i: nat)
    requires Q.Valid(q) && id in q.members && id !in Exec(calls, q).members
    ensures i < |calls| && calls[i].script == Ack(id) && Has(Before(calls, i, q).leases, id)
  {
    hide Q.Valid, Do;
    assert calls != [];
    var n := |calls| - 1;
    AlwaysValid(calls[..n], q);
    StepConserves(calls[n], Exec(calls[..n], q));
    if id in Exec(calls[..n], q).members {
      i := n;
    } else {
      i := LeavesOnlyByAck(calls[..n], q, id);
      assert calls[..n][..i] == calls[..i];
    }
  }

  // ---------------------------------------------------------------- delays

  /** The server's clock does not run backwards. */
  ghost predicate Timed(calls: seq<Call>) {
    forall i, j :: 0 <= i <= j < |calls| ==> calls[i].now <= calls[j].now
  }

  /** The id that a call hands to a worker. */
  function Claimed(c: Call, q: Q.Redis): (id: Option<Id>)
    ensures id.Some? ==> c.script.Claim?
  {
    if c.script.Claim? && q.ready != [] then Some(q.ready[0]) else None
  }

  lemma RescheduleKeeps(q: Q.Redis, id: Id, delayMs: int, now: int, e: Entry)
    requires Q.Valid(q) && e in q.delayed
    ensures e in Q.EnqueueDelayed(q, id, delayMs, now).delayed
  {
    HasEntry(q.delayed, e.member);
    AddKeeps(q.delayed, id, now + Q.Delay(delayMs));
  }

  lemma PromoteKeepsLater(q: Q.Redis, limit: int, now: int, e: Entry)
    requires Q.Valid(q) && e in q.delayed
    ensures e in Q.PromoteDue(q, limit, now).delayed || e.score <= now
  {
    var n := CountDue(q.delayed, now, limit);
    DueAreEarliest(q.delayed, now, limit);
    SplitSorted(q.delayed, n);
  }

  /** A delayed id keeps its due time until a promotion at or after that time. */
  lemma DelayedStays(c: Call, q: Q.Redis, e: Entry)
    requires Q.Valid(q) && e in q.delayed
    ensures e in Do(c, q).delayed || (c.script.PromoteDue? && e.score <= c.now)
    ensures Claimed(c, q) != Some(e.member)
  {
    HasEntry(q.delayed, e.member);
    match c.script
    case EnqueueDelayed(id, delayMs) =>
      hide Q.EnqueueDelayed;
      RescheduleKeeps(q, id, delayMs, c.now, e);
    case PromoteDue(limit) =>
      hide Q.PromoteDue;
      PromoteKeepsLater(q, limit, c.now, e);
    case _ =>
  }

  lemma {:induction false} DelayedOrDue(calls: seq<Call>, i: nat, j: nat, q: Q.Redis, e: Entry)
    requires Q.Valid(q) && i < j <= |calls| && e in Before(calls, i + 1, q).delayed
    ensures e in Before(calls, j, q).delayed || exists k :: i < k < j && calls[k].now >= e.score
    decreases j
  {
    hide Q.Valid, Do;
    if j > i + 1 {
      DelayedOrDue(calls, i, j - 1, q, e);
      ExecStep(calls, j - 1, q);
      AlwaysValid(calls[..j - 1], q);
      if e in Before(calls, j - 1, q).delayed {
        DelayedStays(calls[j - 1], Before(calls, j - 1, q), e);
      }
    }
  }

  /** An id accepted with a delay is handed to no worker before it is due, whatever else is called meanwhile. */
  lemma NotBeforeDue(calls: seq<Call>, i: nat, j: nat, q: Q.Redis, id: Id, delayMs: int)
    requires Q.Valid(q) && Timed(calls) && i < j < |calls|
    requires calls[i].script == EnqueueDelayed(id, delayMs)
    requires Has(Before(calls, i, q).leases, id) || id !in Before(calls, i, q).members
    requires Claimed(calls[j], Before(calls, j, q)) == Some(id)
    ensures calls[j].now >= calls[i].now + Q.Delay(delayMs)
  {
    var e := Entry(id, calls[i].now + Q.Delay(delayMs));
    AlwaysValid(calls[..i], q);
    ExecStep(calls, i, q);
    Q.HasAfter(Before(calls, i, q).delayed, id, e.score);
    assert e in Before(calls, i + 1, q).delayed;
    hide Q.Valid, Do, Claimed;
    DelayedOrDue(calls, i, j, q, e);
    AlwaysValid(calls[..j], q);
    if e in Before(calls, j, q).delayed {
      DelayedStays(calls[j], Before(calls, j, q), e);
    }
  }

  // ---------------------------------------------------------------- order

  function Claims(calls: seq<Call>): nat {
    if calls == [] then 0
    else Claims(calls[..|calls| - 1]) + (if calls[|calls| - 1].script.Claim? then 1 else 0)
  }

  /** First in, first out: the id at position `p` is what the claim after exactly `p` others takes. */
  lemma {:induction false} FirstInFirstOut(calls: seq<Call>, q: Q.Redis, p: nat)
    requires p < |q.ready| && Claims(calls) <= p
    ensures p - Claims(calls) < |Exec(calls, q).ready|
    ensures Exec(calls, q).ready[p - Claims(calls)] == q.ready[p]
    ensures forall c: Call :: c.script.Claim? && Claims(calls) == p ==> Claimed(c, Exec(calls, q)) == Some(q.ready[p])
  {
    if calls != [] {
      FirstInFirstOut(calls[..|calls| - 1], q, p);
    }
  }

  // ---------------------------------------------------------------- leases

  /** The call ends the lease of `id`: acknowledged, moved to the delayed set, or past its deadline and reaped. */
  ghost predicate Releases(c: Call, q: Q.Redis, id: Id) {
    && Has(q.leases, id)
    && match c.script
       case Ack(x) => x == id
       case EnqueueDelayed(x, _) => x == id
       case RequeueExpired(limit) =>
         exists e :: e in q.leases[..CountDue(q.leases, c.now, limit)] && e.member == id && e.score <= c.now
       case _ => false
  }

  lemma LeaseStep(c: Call, q: Q.Redis, id: Id)
    requires Q.Valid(q)
    ensures Has(Do(c, q).leases, id) <==>
      Claimed(c, q) == Some(id) || (Has(q.leases, id) && !Releases(c, q, id))
    ensures Claimed(c, q) == Some(id) ==> !Has(q.leases, id)
  {
    match c.script
    case EnqueueDelayed(x, _) => Q.HasAfter(q.leases, x, 0);
    case Claim(leaseMs) => if q.ready != [] { Q.HasAfter(q.leases, q.ready[0], c.now + leaseMs); }
    case ExtendLease(x, leaseMs) => Q.HasAfter(q.leases, x, c.now + leaseMs);
    case Ack(x) => Q.HasAfter(q.leases, x, 0);
    case RequeueExpired(limit) => ReapedLease(c, q, id);
    case _ =>
  }

  lemma ReapedLease(c: Call, q: Q.Redis, id: Id)
    requires Q.Valid(q) && c.script.RequeueExpired?
    ensures Has(Do(c, q).leases, id) <==> Has(q.leases, id) && !Releases(c, q, id)
  {
    var n := CountDue(q.leases, c.now, c.script.limit);
    DueAreEarliest(q.leases, c.now, c.script.limit);
    SplitSorted(q.leases, n);
    HasEntry(q.leases, id);
    HasEntry(q.leases[n..], id);
    if exists e :: e in q.leases[..n] && e.member == id {
      var e :| e in q.leases[..n] && e.member == id;
      assert e.score <= c.now;
    }
  }

  /** No call strictly between `i` and `j` released `id`. */
  ghost predicate Unreleased(calls: seq<Call>, i: nat, j: nat, q: Q.Redis, id: Id)
    requires j <= |calls|
  {
    forall k: nat :: i < k < j ==> !Releases(calls[k], Before(calls, k, q), id)
  }

  /** No call strictly between `i` and `j` handed `id` out. */
  ghost predicate Unclaimed(calls: seq<Call>, i: nat, j: nat, q: Q.Redis, id: Id)
    requires j <= |calls|
  {
    forall k: nat :: i < k < j ==> Claimed(calls[k], Before(calls, k, q)) != Some(id)
  }

  /**
   * The lease found at `j` is the one given at `i` exactly if nothing released it in
   * between. In particular nobody else is given the id before it is acknowledged,
   * rescheduled, or past its deadline.
   */
  lemma {:induction false} OwnLease(calls: seq<Call>, i: nat, j: nat, q: Q.Redis, id: Id)
    requires Q.Valid(q) && i < j <= |calls| && Claimed(calls[i], Before(calls, i, q)) == Some(id)
    ensures Unreleased(calls, i, j, q, id) <==>
      Has(Before(calls, j, q).leases, id) && Unclaimed(calls, i, j, q, id)
    ensures Unclaimed(calls, i, j, q, id) && !Unreleased(calls, i, j, q, id) ==> !Has(Before(calls, j, q).leases, id)
    decreases j
  {
    hide Q.Valid, Do, Claimed, Releases;
    AlwaysValid(calls[..j - 1], q);
    ExecStep(calls, j - 1, q);
    LeaseStep(calls[j - 1], Before(calls, j - 1, q), id);
    if j > i + 1 {
      OwnLease(calls, i, j - 1, q, id);
    }
  }

  // ---------------------------------------------------------------- delivery

  lemma {:induction false} ExecConcat(a: seq<Call>, b: seq<Call>, q: Q.Redis)
    ensures Exec(a + b, q) == Exec(b, Exec(a, q))
  {
    if b == [] {
      assert a + b == a;
    } else {
      assert (a + b)[..|a + b| - 1] == a + b[..|b| - 1];
      ExecConcat(a, b[..|b| - 1], q);
    }
  }

  lemma {:induction false} AfterAllScores(z: SortedSet, from: int) returns (t: int)
    ensures t >= from && forall e :: e in z ==> e.score <= t
  {
    if z == [] {
      t := from;
    } else {
      t := AfterAllScores(z[1..], from);
      assert z == [z[0]] + z[1..];
      if z[0].score > t {
        t := z[0].score;
      }
    }
  }

  /** Every lease and every delay is over at `t`. */
  ghost predicate AllDue(q: Q.Redis, t: int) {
    (forall e :: e in q.leases ==> e.score <= t) && (forall e :: e in q.delayed ==> e.score <= t)
  }

  /** One run of the reaper and one of the promoter, each with this limit. */
  function Sweep(limit: int, t: int): seq<Call> {
    [Call(RequeueExpired(limit), t)] + [Call(PromoteDue(limit), t)]
  }

  function Sweeps(n: nat, limit: int, t: int): (calls: seq<Call>)
    ensures forall c :: c in calls ==> c.now == t && c.script in {RequeueExpired(limit), PromoteDue(limit)}
  {
    if n == 0 then [] else Sweep(limit, t) + Sweeps(n - 1, limit, t)
  }

  lemma ExecOne(c: Call, q: Q.Redis)
    ensures Exec([c], q) == Do(c, q)
  {
    assert [c][..0] == [];
  }

  lemma SweepIs(q: Q.Redis, limit: int, t: int)
    ensures Exec(Sweep(limit, t), q) == Q.PromoteDue(Q.RequeueExpired(q, limit, t), limit, t)
  {
    var reap, promote := Call(RequeueExpired(limit), t), Call(PromoteDue(limit), t);
    ExecOne(reap, q);
    ExecOne(promote, Do(reap, q));
    hide Exec, Q.RequeueExpired, Q.PromoteDue;
    ExecConcat([reap], [promote], q);
  }

  function Waiting(q: Q.Redis): nat {
    |q.leases| + |q.delayed|
  }

  /** When everything is due, a sweep makes headway whatever its limit is, if only it is positive. */
  lemma SweepHelps(q: Q.Redis, limit: int, t: int)
    requires Q.Valid(q) && AllDue(q, t) && limit > 0
    ensures var after := Exec(Sweep(limit, t), q);
      && Q.Valid(after) && AllDue(after, t) && after.members == q.members
      && (Waiting(after) < Waiting(q) || Waiting(after) == 0)
  {
    SweepIs(q, limit, t);
    var reaped := Q.RequeueExpired(q, limit, t);
    AllUpTo(q.leases, t);
    AllUpTo(q.delayed, t);
    Q.RequeueKeeps(q, limit, t);
    Q.PromoteKeeps(reaped, limit, t);
  }

  lemma NothingWaiting(q: Q.Redis)
    requires Q.Valid(q) && Waiting(q) == 0
    ensures forall id :: id in q.members ==> id in q.ready
  {
  }

  /** As many sweeps as there are ids leased or delayed leave every member ready. */
  lemma {:induction false} AllReady(n: nat, q: Q.Redis, limit: int, t: int)
    requires Q.Valid(q) && AllDue(q, t) && limit > 0 && n >= Waiting(q)
    ensures var after := Exec(Sweeps(n, limit, t), q);
      Q.Valid(after) && after.members == q.members && forall id :: id in q.members ==> id in after.ready
    decreases n
  {
    hide Exec, Q.Valid, AllDue, Sweep;
    if n == 0 {
      NothingWaiting(q);
      ExecNothing(q);
    } else {
      SweepHelps(q, limit, t);
      var rest := Exec(Sweep(limit, t), q);
      hide Waiting;
      AllReady(n - 1, rest, limit, t);
      ExecConcat(Sweep(limit, t), Sweeps(n - 1, limit, t), q);
    }
  }

  function ManyClaims(n: nat, leaseMs: int, t: int): seq<Call> {
    if n == 0 then [] else ManyClaims(n - 1, leaseMs, t) + [Call(Claim(leaseMs), t)]
  }

  lemma {:induction false} CountManyClaims(n: nat, leaseMs: int, t: int)
    ensures |ManyClaims(n, leaseMs, t)| == n && Claims(ManyClaims(n, leaseMs, t)) == n
    ensures forall c :: c in ManyClaims(n, leaseMs, t) ==> c == Call(Claim(leaseMs), t)
  {
    if n > 0 {
      CountManyClaims(n - 1, leaseMs, t);
      assert ManyClaims(n, leaseMs, t)[..n - 1] == ManyClaims(n - 1, leaseMs, t);
    }
  }

  /** A ready id is handed out after the claims before its turn. */
  lemma ReadyIsDelivered(q: Q.Redis, id: Id, t: int, leaseMs: int) returns (claims: seq<Call>)
    requires id in q.ready
    ensures (forall c :: c in claims ==> c == Call(Claim(leaseMs), t))
    ensures Claimed(Call(Claim(leaseMs), t), Exec(claims, q)) == Some(id)
  {
    var p :| 0 <= p < |q.ready| && q.ready[p] == id;
    claims := ManyClaims(p, leaseMs, t);
    CountManyClaims(p, leaseMs, t);
    hide Exec, Claimed, ManyClaims, Claims;
    FirstInFirstOut(claims, q, p);
  }

  /**
   * No member is stuck: from any state, after some time, runs of the reaper and the
   * promoter with any positive limit and enough claims hand any id of the queue to a worker.
   */
  lemma EveryMemberIsDelivered(q: Q.Redis, id: Id, limit: int, from: int, leaseMs: int) returns (calls: seq<Call>, t: int)
    requires Q.Valid(q) && id in q.members && limit > 0
    ensures t >= from && calls != []
    ensures forall c :: c in calls ==> c.now == t && c.script in {RequeueExpired(limit), PromoteDue(limit), Claim(leaseMs)}
    ensures Claimed(calls[|calls| - 1], Before(calls, |calls| - 1, q)) == Some(id)
  {
    hide Exec, Q.RequeueExpired, Q.PromoteDue, Q.Valid, Claimed, Do;
    t := AfterAllScores(q.leases, from);
    t := AfterAllScores(q.delayed, t);
    var sweeps := Sweeps(Waiting(q), limit, t);
    AllReady(Waiting(q), q, limit, t);
    var claims := ReadyIsDelivered(Exec(sweeps, q), id, t, leaseMs);
    calls := sweeps + claims + [Call(Claim(leaseMs), t)];
    ExecConcat(sweeps, claims, q);
    assert calls[..|calls| - 1] == sweeps + claims;
  }

  // ---------------------------------------------------------------- what an ack does

  /** The last call before `j` that handed `id` out. */
  lemma {:induction false} LastClaim(calls: seq<Call>, i: nat, j: nat, q: Q.Redis, id: Id) returns (m: nat)
    requires i < j <= |calls| && Claimed(calls[i], Before(calls, i, q)) == Some(id)
    ensures i <= m < j && Claimed(calls[m], Before(calls, m, q)) == Some(id) && Unclaimed(calls, m, j, q, id)
    decreases j
  {
    hide Claimed;
    if Claimed(calls[j - 1], Before(calls, j - 1, q)) == Some(id) {
      m := j - 1;
    } else {
      m := LastClaim(calls, i, j - 1, q, id);
    }
  }

  /** The call at `m` handed `id` out, and that lease was never released before `j`. */
  ghost predicate Holder(calls: seq<Call>, m: nat, j: nat, q: Q.Redis, id: Id)
    requires m < j <= |calls|
  {
    Claimed(calls[m], Before(calls, m, q)) == Some(id) && Unreleased(calls, m, j, q, id)
  }

  /**
   * An ack by the worker that claimed at `i`. It removes a lease exactly if somebody holds
   * one; the worker's own exactly if its claim was never released; another's exactly if
   * the claim that was never released is a later one. Otherwise it removes nothing.
   */
  lemma AckRemovesExactly(calls: seq<Call>, i: nat, j: nat, q: Q.Redis, id: Id)
    requires Q.Valid(q) && i < j < |calls| && calls[j].script == Ack(id)
    requires Claimed(calls[i], Before(calls, i, q)) == Some(id)
    ensures var before, after := Before(calls, j, q), Before(calls, j + 1, q);
      && (Has(before.leases, id) <==> exists m: nat :: m < j && Holder(calls, m, j, q, id))
      && (Has(before.leases, id) && Unclaimed(calls, i, j, q, id) <==> Holder(calls, i, j, q, id))
      && (Has(before.leases, id) && !Unclaimed(calls, i, j, q, id) <==>
          exists m: nat :: i < m < j && Holder(calls, m, j, q, id))
      && (if Has(before.leases, id)
          then after == before.(leases := Without(before.leases, id), members := before.members - {id})
          else after == before)
  {
    ExecStep(calls, j, q);
    OwnLease(calls, i, j, q, id);
    hide Q.Valid, Claimed, Releases, Exec, Unreleased;
    forall m: nat | m < j && Holder(calls, m, j, q, id)
      ensures Has(Before(calls, j, q).leases, id) && Unclaimed(calls, m, j, q, id)
    {
      OwnLease(calls, m, j, q, id);
    }
    if Has(Before(calls, j, q).leases, id) {
      var m := LastClaim(calls, i, j, q, id);
      OwnLease(calls, m, j, q, id);
      assert Holder(calls, m, j, q, id);
    }
  }

  /** The deadline that the claim at `i`, or the last extension since, has set. */
  function Deadline(calls: seq<Call>, i: nat, j: nat, id: Id): int
    requires i < j <= |calls| && calls[i].script.Claim?
  {
    if j == i + 1 then calls[i].now + calls[i].script.leaseMs
    else
      match calls[j - 1].script
      case ExtendLease(x, leaseMs) => if x == id then calls[j - 1].now + leaseMs else Deadline(calls, i, j - 1, id)
      case _ => Deadline(calls, i, j - 1, id)
  }

  /** Since the claim at `i` nobody acknowledged or rescheduled `id`, and the deadline never passed. */
  ghost predicate InTime(calls: seq<Call>, i: nat, j: nat, id: Id)
    requires i < j <= |calls| && calls[i].script.Claim?
  {
    forall k :: i < k < j ==>
      && calls[k].now < Deadline(calls, i, k, id)
      && calls[k].script != Ack(id) && !(calls[k].script.EnqueueDelayed? && calls[k].script.id == id)
  }

  /** A lease in time keeps its holder: what one more call does to it. */
  lemma LeaseStaysInTime(c: Call, q: Q.Redis, id: Id, deadline: int)
    requires Q.Valid(q) && Entry(id, deadline) in q.leases && c.now < deadline
    requires c.script != Ack(id) && !(c.script.EnqueueDelayed? && c.script.id == id)
    ensures Claimed(c, q) != Some(id) && !Releases(c, q, id)
    ensures (match c.script
             case ExtendLease(x, leaseMs) => Entry(id, if x == id then c.now + leaseMs else deadline) in Do(c, q).leases
             case _ => Entry(id, deadline) in Do(c, q).leases)
  {
    HasEntry(q.leases, id);
    match c.script
    case EnqueueDelayed(x, _) => WithoutKeeps(q.leases, x);
    case Claim(leaseMs) => if q.ready != [] { AddKeeps(q.leases, q.ready[0], c.now + leaseMs); }
    case ExtendLease(x, leaseMs) => AddKeeps(q.leases, x, c.now + leaseMs);
    case Ack(x) => WithoutKeeps(q.leases, x);
    case RequeueExpired(limit) => LateOnlyReaped(q, limit, c.now, id, deadline);
    case _ =>
  }

  lemma LateOnlyReaped(q: Q.Redis, limit: int, now: int, id: Id, deadline: int)
    requires Q.Valid(q) && Entry(id, deadline) in q.leases && now < deadline
    ensures Entry(id, deadline) in q.leases[CountDue(q.leases, now, limit)..]
    ensures forall e :: e in q.leases[..CountDue(q.leases, now, limit)] ==> e.member != id
  {
    var n := CountDue(q.leases, now, limit);
    DueAreEarliest(q.leases, now, limit);
    SplitSorted(q.leases, n);
  }

  lemma OneMoreInTime(calls: seq<Call>, i: nat, j: nat, q: Q.Redis, id: Id)
    requires Q.Valid(q) && i + 1 < j <= |calls| && calls[i].script.Claim? && InTime(calls, i, j, id)
    requires Entry(id, Deadline(calls, i, j - 1, id)) in Before(calls, j - 1, q).leases
    ensures Entry(id, Deadline(calls, i, j, id)) in Before(calls, j, q).leases
    ensures Claimed(calls[j - 1], Before(calls, j - 1, q)) != Some(id)
    ensures !Releases(calls[j - 1], Before(calls, j - 1, q), id)
  {
    hide Q.Valid, Do, Claimed, Releases, Exec;
    AlwaysValid(calls[..j - 1], q);
    ExecStep(calls, j - 1, q);
    LeaseStaysInTime(calls[j - 1], Before(calls, j - 1, q), id, Deadline(calls, i, j - 1, id));
  }

  /**
   * The lease of a worker that is in time is its own, with the deadline last set, and
   * nobody else is given the id: only time, an ack or a reschedule can take it away.
   */
  lemma {:induction false} InTimeKeepsTheLease(calls: seq<Call>, i: nat, j: nat, q: Q.Redis, id: Id)
    requires Q.Valid(q) && i < j <= |calls| && Claimed(calls[i], Before(calls, i, q)) == Some(id)
    requires InTime(calls, i, j, id)
    ensures Entry(id, Deadline(calls, i, j, id)) in Before(calls, j, q).leases
    ensures Unclaimed(calls, i, j, q, id) && Holder(calls, i, j, q, id)
    decreases j
  {
    hide Q.Valid, Do, Claimed, Releases, Before;
    if j == i + 1 {
      AlwaysValidBefore(calls, i, q);
      ExecStep(calls, i, q);
      NewLease(calls[i], Before(calls, i, q), id);
    } else {
      assert InTime(calls, i, j - 1, id);
      InTimeKeepsTheLease(calls, i, j - 1, q, id);
      hide Deadline;
      OneMoreInTime(calls, i, j, q, id);
    }
  }

  lemma AlwaysValidBefore(calls: seq<Call>, i: nat, q: Q.Redis)
    requires Q.Valid(q) && i <= |calls|
    ensures Q.Valid(Before(calls, i, q))
  {
    AlwaysValid(calls[..i], q);
  }

  lemma NewLease(c: Call, q: Q.Redis, id: Id)
    requires Q.Valid(q) && Claimed(c, q) == Some(id)
    ensures Entry(id, c.now + c.script.leaseMs) in Do(c, q).leases
  {
    Q.ClaimKeeps(q, c.script.leaseMs, c.now);
  }

  /** So an ack in time removes the caller's own lease, and forgets the id. */
  lemma AckInTime(calls: seq<Call>, i: nat, j: nat, q: Q.Redis, id: Id)
    requires Q.Valid(q) && i < j < |calls| && calls[j].script == Ack(id)
    requires Claimed(calls[i], Before(calls, i, q)) == Some(id) && InTime(calls, i, j, id)
    ensures Holder(calls, i, j, q, id) && Has(Before(calls, j, q).leases, id)
    ensures id !in Before(calls, j + 1, q).members
  {
    hide Q.Valid, Claimed, InTime, Deadline, Exec, Do, Releases;
    InTimeKeepsTheLease(calls, i, j, q, id);
    AckRemovesExactly(calls, i, j, q, id);
  }

  /** A worker takes an id, its lease is reaped, another takes the id over, and then the first one acks. */
  function LateAck(id: Id): seq<Call> {
    [Call(Enqueue(id), 0), Call(Claim(10), 0), Call(RequeueExpired(100), 10), Call(Claim(10), 10), Call(Ack(id), 11)]
  }

  lemma LateAckSteps(id: Id)
    ensures var ready, first, second :=
        Q.Redis([id], [], [], {id}), Q.Redis([], [Entry(id, 10)], [], {id}), Q.Redis([], [Entry(id, 20)], [], {id});
      && Do(LateAck(id)[0], Empty()) == ready
      && Do(LateAck(id)[1], ready) == first
      && Do(LateAck(id)[2], first) == ready
      && Do(LateAck(id)[3], ready) == second
      && Do(LateAck(id)[4], second) == Empty()
  {
    assert Members([Entry(id, 10)])[0] == id && Members([Entry(id, 20)])[0] == id;
    assert CountUpTo([Entry(id, 10)], 10) == 1;
  }

  /** An ack carries no holder: the late one removes the other worker's lease, which has not run out. */
  lemma AckMayTakeAnothersLease(id: Id)
    ensures var calls := LateAck(id);
      && Timed(calls)
      && Claimed(calls[1], Before(calls, 1, Empty())) == Some(id)
      && Claimed(calls[3], Before(calls, 3, Empty())) == Some(id)
      && Before(calls, 4, Empty()).leases == [Entry(id, 20)] && calls[4].now < 20
      && Before(calls, 5, Empty()) == Empty()
  {
    LateAckSteps(id);
    hide Do, Exec;
    assert Before(LateAck(id), 0, Empty()) == Empty() by {
      assert LateAck(id)[..0] == [];
      ExecNothing(Empty());
    }
    ExecStep(LateAck(id), 0, Empty());
    ExecStep(LateAck(id), 1, Empty());
    ExecStep(LateAck(id), 2, Empty());
    ExecStep(LateAck(id), 3, Empty());
    ExecStep(LateAck(id), 4, Empty());
  }

  lemma ExecNothing(q: Q.Redis)
    ensures Exec([], q) == q
  {
  }
}
