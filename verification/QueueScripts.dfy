/**
 * The Redis task queue (src/queues/taskQueue.js): each script is one atomic step on a
 * list, two sorted sets and a set. `now` is the Redis server's clock in milliseconds.
 */
module QueueScripts {
  import opened Graphs
  import opened SortedSets

  datatype Redis = Redis(ready: seq<Id>, leases: SortedSet, delayed: SortedSet, members: set<Id>)

  function Delay(delayMs: int): nat {
    if delayMs < 0 then 0 else delayMs
  }

  // ---------------------------------------------------------------- what each script does

  function Enqueue(q: Redis, id: Id): Redis {
    if id in q.members then q else q.(members := q.members + {id}, ready := q.ready + [id])
  }

  function EnqueueDelayed(q: Redis, id: Id, delayMs: int, now: int): Redis {
    if Has(q.leases, id) || id !in q.members then
      q.(leases := Without(q.leases, id), members := q.members + {id},
         delayed := Add(q.delayed, id, now + Delay(delayMs)))
    else q
  }

  function Claim(q: Redis, leaseMs: int, now: int): Redis {
    if q.ready == [] then q
    else q.(ready := q.ready[1..], leases := Add(q.leases, q.ready[0], now + leaseMs))
  }

  function ExtendLease(q: Redis, id: Id, leaseMs: int, now: int): Redis {
    if Has(q.leases, id) then q.(leases := Add(q.leases, id, now + leaseMs)) else q
  }

  function Ack(q: Redis, id: Id): Redis {
    if Has(q.leases, id) then q.(leases := Without(q.leases, id), members := q.members - {id}) else q
  }

  function RequeueExpired(q: Redis, limit: int, now: int): Redis {
    var n := CountDue(q.leases, now, limit);
    q.(leases := q.leases[n..], ready := q.ready + Members(q.leases[..n]))
  }

  function PromoteDue(q: Redis, limit: int, now: int): Redis {
    var n := CountDue(q.delayed, now, limit);
    q.(delayed := q.delayed[n..], ready := q.ready + Members(q.delayed[..n]))
  }

  /**
   * The queue's invariant: no id twice, no id in two places, and `members` is exactly
   * the ids that are somewhere.
   */
  ghost predicate Valid(q: Redis) {
    && Distinct(q.ready) && Sorted(q.leases) && Sorted(q.delayed)
    && (forall id :: id in q.ready ==> !Has(q.leases, id) && !Has(q.delayed, id))
    && (forall id :: Has(q.leases, id) ==> !Has(q.delayed, id))
    && (forall id :: id in q.members <==> id in q.ready || Has(q.leases, id) || Has(q.delayed, id))
  }

  // ---------------------------------------------------------------- each script keeps the invariant

  lemma AbsentStays(z: SortedSet, id: Id)
    ensures !Has(z, id) ==> Without(z, id) == z
  {
    HasEntry(z, id);
    if !Has(z, id) {
      WithoutAbsent(z, id);
    }
  }

  /** Membership after ZADD and ZREM. */
  lemma HasAfter(z: SortedSet, id: Id, score: int)
    requires Sorted(z)
    ensures forall m :: Has(Add(z, id, score), m) <==> m == id || Has(z, m)
    ensures forall m :: Has(Without(z, id), m) <==> m != id && Has(z, m)
    ensures Sorted(Add(z, id, score)) && Sorted(Without(z, id))
    ensures Entry(id, score) in Add(z, id, score)
  {
    WithoutKeeps(z, id);
    AddKeeps(z, id, score);
    forall m
      ensures Has(Add(z, id, score), m) <==> m == id || Has(z, m)
      ensures Has(Without(z, id), m) <==> m != id && Has(z, m)
    {
      HasEntry(z, m);
      HasEntry(Add(z, id, score), m);
      HasEntry(Without(z, id), m);
      assert m == id ==> Entry(id, score) in Add(z, id, score);
    }
  }

  lemma EnqueueKeeps(q: Redis, id: Id)
    requires Valid(q)
    ensures Valid(Enqueue(q, id))
  {
    if id !in q.members {
      DistinctAppend(q.ready, id);
    }
  }

  lemma EnqueueDelayedKeeps(q: Redis, id: Id, delayMs: int, now: int)
    requires Valid(q)
    ensures Valid(EnqueueDelayed(q, id, delayMs, now))
    ensures id in EnqueueDelayed(q, id, delayMs, now).members && !Has(EnqueueDelayed(q, id, delayMs, now).leases, id)
  {
    HasAfter(q.leases, id, 0);
    HasAfter(q.delayed, id, now + Delay(delayMs));
  }

  lemma ClaimKeeps(q: Redis, leaseMs: int, now: int)
    requires Valid(q)
    ensures Valid(Claim(q, leaseMs, now))
    ensures q.ready != [] ==>
      && Entry(q.ready[0], now + leaseMs) in Claim(q, leaseMs, now).leases
      && q.ready[0] !in q.ready[1..] && q.ready[0] in q.members
  {
    if q.ready != [] {
      HasAfter(q.leases, q.ready[0], now + leaseMs);
      assert q.ready == [q.ready[0]] + q.ready[1..];
      forall i | 0 <= i < |q.ready[1..]| ensures q.ready[1..][i] != q.ready[0] {
        assert q.ready[1..][i] == q.ready[i + 1];
      }
    }
  }

  lemma ExtendKeeps(q: Redis, id: Id, leaseMs: int, now: int)
    requires Valid(q)
    ensures Valid(ExtendLease(q, id, leaseMs, now))
  {
    HasAfter(q.leases, id, now + leaseMs);
  }

  lemma AckKeeps(q: Redis, id: Id)
    requires Valid(q)
    ensures Valid(Ack(q, id))
  {
    HasAfter(q.leases, id, 0);
  }

  /** Moving the first entries of a sorted set to the end of a list that holds none of them. */
  lemma Moved(ready: seq<Id>, z: SortedSet, n: nat)
    requires Distinct(ready) && Sorted(z) && n <= |z|
    requires forall id :: id in ready ==> !Has(z, id)
    ensures Distinct(ready + Members(z[..n])) && Sorted(z[n..])
    ensures forall id :: id in Members(z[..n]) ==> id !in ready && !Has(z[n..], id)
    ensures forall id :: Has(z, id) <==> id in Members(z[..n]) || Has(z[n..], id)
  {
    SplitSorted(z, n);
    var moved := Members(z[..n]);
    forall id
      ensures Has(z, id) <==> id in moved || Has(z[n..], id)
      ensures id in moved ==> !Has(z[n..], id)
    {
      HasEntry(z, id);
      HasEntry(z[..n], id);
      HasEntry(z[n..], id);
    }
    DistinctConcat(ready, moved);
  }

  lemma RequeueKeeps(q: Redis, limit: int, now: int)
    requires Valid(q)
    ensures Valid(RequeueExpired(q, limit, now))
  {
    Moved(q.ready, q.leases, CountDue(q.leases, now, limit));
  }

  lemma PromoteKeeps(q: Redis, limit: int, now: int)
    requires Valid(q)
    ensures Valid(PromoteDue(q, limit, now))
  {
    Moved(q.ready, q.delayed, CountDue(q.delayed, now, limit));
  }

  // ---------------------------------------------------------------- what the reaper and the promoter move

  /** As many entries as are due, but no more than a limit that is not negative. */
  function Taken(z: SortedSet, limit: int, now: int): nat {
    if 0 <= limit < |Due(z, now)| then limit else |Due(z, now)|
  }

  /** The first `n` entries went, in order, from the sorted set to the end of the list: all due, and before all others. */
  ghost predicate Moves(z: SortedSet, ready: seq<Id>, z': SortedSet, ready': seq<Id>, n: nat, now: int) {
    && n <= |z| && z' == z[n..] && ready' == ready + Members(z[..n])
    && (forall e :: e in z[..n] ==> e.score <= now)
    && (forall e, f :: e in z[..n] && f in z[n..] ==> Precedes(e, f))
  }

  lemma TakenIs(z: SortedSet, ready: seq<Id>, limit: int, now: int)
    requires Sorted(z)
    ensures var n := Taken(z, limit, now);
      && CountDue(z, now, limit) == n <= |z|
      && Moves(z, ready, z[n..], ready + Members(z[..n]), n, now)
  {
    CountUpToDue(z, now);
    DueAreEarliest(z, now, limit);
  }

  /** The promoter moves the earliest due entries, as many as the limit allows, and nothing else. */
  lemma PromotesEarliest(q: Redis, limit: int, now: int)
    requires Valid(q)
    ensures var after := PromoteDue(q, limit, now);
      && Moves(q.delayed, q.ready, after.delayed, after.ready, Taken(q.delayed, limit, now), now)
      && after.leases == q.leases && after.members == q.members
  {
    TakenIs(q.delayed, q.ready, limit, now);
  }

  /** And so does the reaper with the leases. */
  lemma RequeuesEarliest(q: Redis, limit: int, now: int)
    requires Valid(q)
    ensures var after := RequeueExpired(q, limit, now);
      && Moves(q.leases, q.ready, after.leases, after.ready, Taken(q.leases, limit, now), now)
      && after.delayed == q.delayed && after.members == q.members
  {
    TakenIs(q.leases, q.ready, limit, now);
  }

  lemma SetsSorted(q: Redis)
    requires Valid(q)
    ensures Sorted(q.leases) && Sorted(q.delayed)
  {
  }

  // ---------------------------------------------------------------- what enqueues add

  /** From `a` to `b` these ids were enqueued: new ones at the end of the list, and nothing else changed. */
  ghost predicate Added(a: Redis, b: Redis, ids: set<Id>) {
    b.members == a.members + ids && a.ready <= b.ready && b.leases == a.leases && b.delayed == a.delayed
  }

  /**
   * From `a` to `b` the id was put off until `due`. It is a member, and not leased; and if
   * it was leased before, or not there at all, it waits in the delayed set and nothing else
   * has changed. An id that is ready or delayed already stays as it is.
   */
  ghost predicate Delayed(a: Redis, b: Redis, id: Id, due: int) {
    && b.members == a.members + {id} && b.ready == a.ready && !Has(b.leases, id)
    && (forall x :: x != id ==> (Has(a.leases, x) <==> Has(b.leases, x)))
    && (if Has(a.leases, id) || id !in a.members
        then forall e :: e in b.delayed <==> e == Entry(id, due) || (e in a.delayed && e.member != id)
        else b == a)
  }

  lemma OneDelayed(q: Redis, id: Id, delayMs: int, now: int)
    requires Valid(q)
    ensures Delayed(q, EnqueueDelayed(q, id, delayMs, now), id, now + (if delayMs < 0 then 0 else delayMs))
  {
    HasAfter(q.leases, id, 0);
    AddKeeps(q.delayed, id, now + Delay(delayMs));
    hide Has, Add, Without;
    if !Has(q.leases, id) && id in q.members {
      assert q.members + {id} == q.members;
    }
  }

  lemma NothingAdded(q: Redis)
    ensures Added(q, q, {})
  {
  }

  lemma OneAdded(q: Redis, id: Id)
    ensures Added(q, Enqueue(q, id), {id})
  {
  }

  lemma AddedIf(up: bool, a: Redis, b: Redis, c: Redis, x: set<Id>, y: set<Id>)
    requires Added(a, b, if up then x else {}) && Added(b, c, if up then y else {})
    ensures Added(a, c, if up then x + y else {})
  {
  }
}
