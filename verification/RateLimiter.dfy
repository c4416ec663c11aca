/**
 * The sliding-window rate limiter (src/middleware/rateLimit.js): one atomic script on a
 * sorted set with an expiry. `now` is the Redis server's clock; the tag is what the caller
 * adds to make the member unique.
 */
module RateLimiter {
  import opened Options
  import opened SortedSets

  type Tag = seq<int>

  datatype Request = Request(tag: Tag, now: int)

  datatype Answer = Answer(allowed: bool, remaining: int, retryAfterMs: int)

  /** One Redis key: its entries, and when Redis drops it as a whole. */
  datatype Log = Log(entries: SortedSet, expiresAt: Option<int>)

  /** The member is the time and the tag. */
  function EntryOf(r: Request): Entry {
    Entry([r.now] + r.tag, r.now)
  }

  // ---------------------------------------------------------------- what the script does

  /** What is left of the key when the script runs: nothing once it has expired. */
  function Current(k: Log, now: int): SortedSet {
    if k.expiresAt.Some? && now >= k.expiresAt.value then [] else k.entries
  }

  function Trimmed(k: Log, windowMs: int, now: int): SortedSet {
    var z := Current(k, now);
    z[CountUpTo(z, now - windowMs)..]
  }

  function Answered(k: Log, windowMs: int, limit: nat, now: int): Answer
    requires limit >= 1
  {
    var z := Trimmed(k, windowMs, now);
    if |z| < limit then Answer(true, limit - |z| - 1, 0) else Answer(false, 0, z[0].score + windowMs - now)
  }

  function Stored(k: Log, windowMs: int, limit: nat, r: Request): Log {
    var z := Trimmed(k, windowMs, r.now);
    if |z| < limit then Log(Add(z, [r.now] + r.tag, r.now), Some(r.now + windowMs))
    else Log(z, k.expiresAt)
  }

  /** What the middleware does with a request. */
  datatype Verdict = Proceed | TooManyRequests(retryAfterSeconds: int) | Unavailable

  class Limiter {
    const windowMs: int
    const limit: nat
    const failClosed: bool
    const pid: int
    var entries: SortedSet
    var expiresAt: Option<int>
    var seqNo: nat

    constructor (windowMs: int, limit: nat, failClosed: bool, pid: int)
      ensures this.windowMs == windowMs && this.limit == limit && this.failClosed == failClosed && this.pid == pid
      ensures Contents() == Log([], None) && seqNo == 0
    {
      this.windowMs, this.limit, this.failClosed, this.pid := windowMs, limit, failClosed, pid;
      entries, expiresAt, seqNo := [], None, 0;
    }

    function Contents(): Log reads this {
      Log(entries, expiresAt)
    }

    method SlidingWindow(tag: Tag, now: int) returns (a: Answer)
      requires limit >= 1
      modifies `entries, `expiresAt
      ensures a == Answered(old(Contents()), windowMs, limit, now)
      ensures Contents() == Stored(old(Contents()), windowMs, limit, Request(tag, now))
    {
      if expiresAt.Some? && now >= expiresAt.value {
        entries, expiresAt := [], None;
      }
      entries := entries[CountUpTo(entries, now - windowMs)..];
      var count := |entries|;
      if count < limit {
        entries := Add(entries, [now] + tag, now);
        expiresAt := Some(now + windowMs);
        return Answer(true, limit - count - 1, 0);
      }
      var oldest := entries[0];
      return Answer(false, 0, oldest.score + windowMs - now);
    }

    /**
     * The middleware for one caller. Every caller learns how many requests are left, and a
     * refused one in whole seconds when to come back.
     */
    method Check(redisUp: bool, now: int) returns (v: Verdict, remaining: Option<int>)
      requires limit >= 1
      modifies this
      ensures seqNo == old(seqNo) + 1
      ensures !redisUp ==>
        Contents() == old(Contents()) && remaining == None && v == if failClosed then Unavailable else Proceed
      ensures redisUp ==>
        && Contents() == Stored(old(Contents()), windowMs, limit, Request([pid, seqNo], now))
        && var a := Answered(old(Contents()), windowMs, limit, now);
          && (v == Proceed <==> a.allowed) && v != Unavailable && remaining == Some(a.remaining)
          && (v.TooManyRequests? ==> remaining == Some(0))
          && (v.TooManyRequests? ==>
            && a.retryAfterMs <= v.retryAfterSeconds * 1000
            && (v.retryAfterSeconds == 1 || (v.retryAfterSeconds > 1 && (v.retryAfterSeconds - 1) * 1000 < a.retryAfterMs)))
    {
      seqNo := seqNo + 1;
      if !redisUp {
        return if failClosed then Unavailable else Proceed, None;
      }
      var a := SlidingWindow([pid, seqNo], now);
      if !a.allowed {
        var ceiling := (a.retryAfterMs + 999) / 1000;
        return TooManyRequests(if ceiling < 1 then 1 else ceiling), Some(a.remaining);
      }
      return Proceed, Some(a.remaining);
    }
  }

  // ---------------------------------------------------------------- what every log satisfies

  /** The state after a script at time `last`: full windows only, and no entry outlives the key. */
  ghost predicate Valid(k: Log, windowMs: int, limit: nat, last: int) {
    && Sorted(k.entries) && |k.entries| <= limit
    && (forall e :: e in k.entries ==> last - windowMs < e.score <= last && e.member != [] && e.member[0] == e.score)
    && (k.entries != [] ==> k.expiresAt.Some? && forall e :: e in k.entries ==> e.score + windowMs <= k.expiresAt.value)
  }

  /** The expiry forgets nothing that still counts: trimming alone would have removed it all. */
  lemma ExpiryIsHarmless(k: Log, windowMs: int, limit: nat, last: int, now: int)
    requires Valid(k, windowMs, limit, last)
    ensures Trimmed(k, windowMs, now) == k.entries[CountUpTo(k.entries, now - windowMs)..]
  {
    if Current(k, now) != k.entries {
      AllUpTo(k.entries, now - windowMs);
    }
  }

  /** Trimming keeps exactly the entries younger than the window. */
  lemma TrimKeepsYoung(k: Log, windowMs: int, limit: nat, last: int, now: int)
    requires Valid(k, windowMs, limit, last)
    ensures Sorted(Trimmed(k, windowMs, now)) && |Trimmed(k, windowMs, now)| <= |k.entries|
    ensures forall e :: e in Trimmed(k, windowMs, now) <==> e in k.entries && e.score > now - windowMs
  {
    var z, max := k.entries, now - windowMs;
    ExpiryIsHarmless(k, windowMs, limit, last, now);
    var n := CountUpTo(z, max);
    DropUpTo(z, max);
    assert Trimmed(k, windowMs, now) == z[n..];
    forall e ensures e in z[n..] <==> e in z && e.score > max {
    }
  }

  lemma {:induction false} InsertLength(z: SortedSet, e: Entry)
    ensures |Insert(z, e)| == |z| + 1
  {
    if z != [] && !Precedes(e, z[0]) {
      InsertLength(z[1..], e);
    }
  }

  lemma {:induction false} WithoutLength(z: SortedSet, m: Id)
    ensures |Without(z, m)| <= |z|
  {
    if z != [] {
      WithoutLength(z[1..], m);
    }
  }

  lemma ScriptKeeps(k: Log, windowMs: int, limit: nat, last: int, r: Request)
    requires windowMs >= 1 && Valid(k, windowMs, limit, last) && last <= r.now
    ensures Valid(Stored(k, windowMs, limit, r), windowMs, limit, r.now)
    ensures forall e :: e in Stored(k, windowMs, limit, r).entries <==>
      || (e in k.entries && e.score > r.now - windowMs)
      || (|Trimmed(k, windowMs, r.now)| < limit && e == EntryOf(r))
  {
    TrimKeepsYoung(k, windowMs, limit, last, r.now);
    var z := Trimmed(k, windowMs, r.now);
    var m := [r.now] + r.tag;
    AddKeeps(z, m, r.now);
    assert forall e :: e in z && e.member == m ==> e == EntryOf(r);
    WithoutLength(z, m);
    InsertLength(Without(z, m), Entry(m, r.now));
  }
}
