/** The queue as its callers use it: the Redis keys updated in place, script by script (src/queues/taskQueue.js). */
module TaskQueue {
  import opened Options
  import opened SortedSets
  import opened QueueScripts
  import Q = QueueScripts

  class Queue {
    var ready: seq<Id>
    var leases: SortedSet
    var delayed: SortedSet
    var members: set<Id>

    constructor ()
      ensures Contents() == Redis([], [], [], {}) && Valid()
    {
      ready, leases, delayed, members := [], [], [], {};
    }

    ghost predicate Valid() reads this {
      Q.Valid(Contents())
    }

    function Contents(): Redis reads this {
      Redis(ready, leases, delayed, members)
    }

    method Enqueue(id: Id) returns (added: bool)
      requires Valid()
      modifies this
      ensures Valid() && Contents() == Q.Enqueue(old(Contents()), id)
      ensures added == (id !in old(members)) && id in members
    {
      EnqueueKeeps(Contents(), id);
      var isNew := id !in members;
      members := members + {id};
      if isNew {
        ready := ready + [id];
        return true;
      }
      assert members == old(members);
      return false;
    }

    method EnqueueDelayed(id: Id, delayMs: int, now: int) returns (added: bool)
      requires Valid()
      modifies this
      ensures Valid() && Contents() == Q.EnqueueDelayed(old(Contents()), id, delayMs, now)
      ensures added == (Has(old(leases), id) || id !in old(members)) && id in members && !Has(leases, id)
      ensures added ==> Entry(id, now + Delay(delayMs)) in delayed
    {
      EnqueueDelayedKeeps(Contents(), id, delayMs, now);
      AddKeeps(delayed, id, now + Delay(delayMs));
      AbsentStays(leases, id);
      var delay := Delay(delayMs);
      var wasLeased := Has(leases, id);
      leases := Without(leases, id);
      var isNew := id !in members;
      members := members + {id};
      if wasLeased || isNew {
        delayed := Add(delayed, id, now + delay);
        return true;
      }
      assert members == old(members);
      return false;
    }

    method Claim(leaseMs: int, now: int) returns (id: Option<Id>)
      requires Valid()
      modifies this
      ensures Valid() && Contents() == Q.Claim(old(Contents()), leaseMs, now)
      ensures id == if old(ready) == [] then None else Some(old(ready)[0])
      ensures id.Some? ==> Entry(id.value, now + leaseMs) in leases && id.value !in ready && id.value in members
    {
      ClaimKeeps(Contents(), leaseMs, now);
      if ready == [] {
        return None;
      }
      id := Some(ready[0]);
      ready := ready[1..];
      leases := Add(leases, id.value, now + leaseMs);
    }

    method ExtendLease(id: Id, leaseMs: int, now: int) returns (extended: bool)
      requires Valid()
      modifies this
      ensures Valid() && Contents() == Q.ExtendLease(old(Contents()), id, leaseMs, now)
      ensures extended == Has(old(leases), id)
      ensures extended ==> Entry(id, now + leaseMs) in leases
    {
      ExtendKeeps(Contents(), id, leaseMs, now);
      AddKeeps(leases, id, now + leaseMs);
      if Has(leases, id) {
        leases := Add(leases, id, now + leaseMs);
        return true;
      }
      return false;
    }

    method Ack(id: Id) returns (removed: bool)
      requires Valid()
      modifies this
      ensures Valid() && Contents() == Q.Ack(old(Contents()), id)
      ensures removed == Has(old(leases), id) && (removed ==> id !in members)
    {
      AckKeeps(Contents(), id);
      AbsentStays(leases, id);
      var found := Has(leases, id);
      leases := Without(leases, id);
      if found {
        members := members - {id};
        return true;
      }
      return false;
    }

    method RequeueExpired(limit: int, now: int) returns (ids: seq<Id>)
      requires Valid()
      modifies this
      ensures Valid() && Contents() == Q.RequeueExpired(old(Contents()), limit, now)
      ensures |ids| == if 0 <= limit < |Due(old(leases), now)| then limit else |Due(old(leases), now)|
      ensures |ids| <= |old(leases)| && ids == Members(old(leases)[..|ids|]) && leases == old(leases)[|ids|..]
      ensures forall e :: e in old(leases)[..|ids|] ==> e.score <= now
      ensures ready == old(ready) + ids && delayed == old(delayed) && members == old(members)
    {
      hide Q.Valid, Sorted, Has, Without, CountDue, Precedes, Due;
      RequeueKeeps(Contents(), limit, now);
      SetsSorted(Contents());
      TakenIs(leases, ready, limit, now);
      var n := CountDue(leases, now, limit);
      ids := Members(leases[..n]);
      ghost var all := leases;
      for i := 0 to |ids|
        invariant leases == all[i..] && Sorted(leases)
        invariant ready == old(ready) + ids[..i]
        invariant unchanged(`delayed) && unchanged(`members)
      {
        FirstGoes(leases);
        assert ids[i] == leases[0].member && ids[..i + 1] == ids[..i] + [ids[i]];
        var removed := Has(leases, ids[i]);
        leases := Without(leases, ids[i]);
        if removed {
          ready := ready + [ids[i]];
        }
      }
      assert ids[..|ids|] == ids;
    }

    method PromoteDue(limit: int, now: int) returns (ids: seq<Id>)
      requires Valid()
      modifies this
      ensures Valid() && Contents() == Q.PromoteDue(old(Contents()), limit, now)
      ensures |ids| == if 0 <= limit < |Due(old(delayed), now)| then limit else |Due(old(delayed), now)|
      ensures |ids| <= |old(delayed)| && ids == Members(old(delayed)[..|ids|]) && delayed == old(delayed)[|ids|..]
      ensures forall e :: e in old(delayed)[..|ids|] ==> e.score <= now
      ensures ready == old(ready) + ids && leases == old(leases) && members == old(members)
    {
      hide Q.Valid, Sorted, Has, Without, CountDue, Precedes, Due;
      PromoteKeeps(Contents(), limit, now);
      SetsSorted(Contents());
      TakenIs(delayed, ready, limit, now);
      var n := CountDue(delayed, now, limit);
      ids := Members(delayed[..n]);
      ghost var all := delayed;
      for i := 0 to |ids|
        invariant delayed == all[i..] && Sorted(delayed)
        invariant ready == old(ready) + ids[..i]
        invariant unchanged(`leases) && unchanged(`members)
      {
        FirstGoes(delayed);
        assert ids[i] == delayed[0].member && ids[..i + 1] == ids[..i] + [ids[i]];
        var removed := Has(delayed, ids[i]);
        delayed := Without(delayed, ids[i]);
        if removed {
          ready := ready + [ids[i]];
        }
      }
      assert ids[..|ids|] == ids;
    }
  }
}
