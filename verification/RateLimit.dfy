/**
 * Token buckets (framework/rate_limit.py): a reference limiter that keeps every bucket
 * forever, the in-process limiter that evicts idle buckets, and the Redis script.
 * Time and tokens are reals; max(1.0, window) and `burst or limit` are as in the source.
 */
module TokenBuckets {

  datatype Option<+T> = None | Some(value: T)

  /** limit and burst come from configuration fields that are at least 1 (config.py:154-157). */
  datatype Params = Params(limit: nat, window: int, burst: Option<nat>)

  predicate Usable(p: Params)
  {
    p.limit >= 1
  }

  /** What the arithmetic needs of a policy. */
  datatype Rate = Rate(capacity: real, refill: real)

  predicate Sane(q: Rate)
  {
    q.capacity >= 1.0 && q.refill > 0.0
  }

  function RateOf(p: Params): (q: Rate)
    requires Usable(p)
    ensures Sane(q)
  {
    Rate(
      (if p.burst.Some? && p.burst.value != 0 then p.burst.value else p.limit) as real,
      p.limit as real / (if p.window as real > 1.0 then p.window as real else 1.0))
  }

  /** Tokens earned in a stretch of time. */
  function Earned(elapsed: real, refill: real): real
  {
    elapsed * refill
  }

  function Min(a: real, b: real): real { if a <= b then a else b }

  function Max(a: real, b: real): real { if a >= b then a else b }

  /** math.ceil */
  function Ceil(x: real): (n: int)
    ensures n as real - 1.0 < x <= n as real
  {
    -((-x).Floor)
  }

  datatype Outcome = Accepted | Rejected(retryAfter: int)

  datatype Level = Level(tokens: real, updated: real)

  type Reference = map<string, Level>

  /** Tokens at time now of an identity last seen as l. */
  function Refilled(q: Rate, l: Level, now: real): real
  {
    Min(q.capacity, l.tokens + Earned(now - l.updated, q.refill))
  }

  function RefTokens(ref: Reference, id: string, q: Rate, now: real): real
  {
    if id in ref then Refilled(q, ref[id], now) else q.capacity
  }

  function Verdict(q: Rate, tokens: real): Outcome
    requires Sane(q)
  {
    if tokens < 1.0 then
      var wait := Ceil((1.0 - tokens) / q.refill);
      Rejected(if wait > 1 then wait else 1)
    else Accepted
  }

  function Left(tokens: real): real
  {
    if tokens < 1.0 then tokens else tokens - 1.0
  }

  /** The limiter that never forgets. */
  function RefCheck(ref: Reference, id: string, q: Rate, now: real): (Reference, Outcome)
    requires Sane(q)
  {
    var tokens := RefTokens(ref, id, q, now);
    (ref[id := Level(Left(tokens), now)], Verdict(q, tokens))
  }

  // ---------------------------------------------------------------- in-process limiter

  datatype Bucket = Bucket(tokens: real, updated: real, lastSeen: real, safeExpireAt: real)

  /** Overflow buckets are shared by policy (its hash, in the source), or by everybody. */
  datatype OverflowKey = Policy(limit: nat, window: int, burst: nat) | Shared

  datatype Memory = Memory(
    maxBuckets: nat, idleTtl: real, cleanupInterval: real,
    buckets: map<string, Bucket>, overflow: map<OverflowKey, Bucket>, nextCleanup: real)

  function Live(buckets: map<string, Bucket>, now: real): map<string, Bucket>
  {
    map k | k in buckets && buckets[k].safeExpireAt > now :: buckets[k]
  }

  function Cleaned(m: Memory, now: real): Memory
  {
    if now < m.nextCleanup && |m.buckets| <= m.maxBuckets then m
    else m.(buckets := Live(m.buckets, now), nextCleanup := now + m.cleanupInterval)
  }

  /** No room for a new identity. */
  predicate Full(m: Memory, id: string)
  {
    id !in m.buckets && |m.buckets| >= m.maxBuckets
  }

  function SafeIdle(m: Memory, q: Rate): real
    requires Sane(q)
  {
    Max(m.idleTtl, q.capacity / q.refill)
  }

  /** The overflow bucket a policy falls into once the table is full. */
  function OverflowKeyFor(m: Memory, p: Params): OverflowKey
  {
    var key := Policy(p.limit, p.window, if p.burst.Some? then p.burst.value else 0);
    if key !in m.overflow && |m.overflow| >= 128 then Shared else key
  }

  function Charge(b: Bucket, m: Memory, q: Rate, now: real): (Bucket, Outcome)
    requires Sane(q)
  {
    var tokens := Refilled(q, Level(b.tokens, b.updated), now);
    (Bucket(Left(tokens), now, now, now + SafeIdle(m, q)), Verdict(q, tokens))
  }

  function NewBucket(m: Memory, q: Rate, now: real): Bucket
    requires Sane(q)
  {
    Bucket(q.capacity, now, now, now + SafeIdle(m, q))
  }

  function MemCheck(m0: Memory, id: string, p: Params, now: real): (Memory, Outcome)
    requires Usable(p)
  {
    var m, q := Cleaned(m0, now), RateOf(p);
    if Full(m, id) then
      var key := OverflowKeyFor(m, p);
      var (b, outcome) := Charge(if key in m.overflow then m.overflow[key] else NewBucket(m, q, now), m, q, now);
      (m.(overflow := m.overflow[key := b]), outcome)
    else
      var (b, outcome) := Charge(if id in m.buckets then m.buckets[id] else NewBucket(m, q, now), m, q, now);
      (m.(buckets := m.buckets[id := b]), outcome)
  }

  class MemoryRateLimiter {
    const maxBuckets: nat
    const idleTtl: real
    const cleanupInterval: real
    var buckets: map<string, Bucket>
    var overflow: map<OverflowKey, Bucket>
    var nextCleanup: real

    ghost function State(): Memory
      reads this
    {
      Memory(maxBuckets, idleTtl, cleanupInterval, buckets, overflow, nextCleanup)
    }

    constructor (maxBuckets: int, idleTtlSeconds: int, cleanupIntervalSeconds: int, now: real)
      ensures buckets == map[] && overflow == map[]
      ensures this.maxBuckets >= 100 && idleTtl >= 10.0 && cleanupInterval >= 1.0
      ensures nextCleanup == now + cleanupInterval
    {
      this.maxBuckets := if maxBuckets > 100 then maxBuckets else 100;
      idleTtl := (if idleTtlSeconds > 10 then idleTtlSeconds else 10) as real;
      var interval := (if cleanupIntervalSeconds > 1 then cleanupIntervalSeconds else 1) as real;
      cleanupInterval := interval;
      buckets, overflow := map[], map[];
      nextCleanup := now + interval;
    }

    method Cleanup(now: real)
      modifies this
      ensures State() == old(Cleaned(State(), now))
      ensures overflow == old(overflow)
      ensures if old(now >= nextCleanup || |buckets| > maxBuckets)
              then nextCleanup == now + cleanupInterval
                   && (forall k :: k in buckets <==> k in old(buckets) && old(buckets)[k].safeExpireAt > now)
                   && (forall k :: k in buckets ==> buckets[k] == old(buckets)[k])
              else nextCleanup == old(nextCleanup) && buckets == old(buckets)
    {
      if now < nextCleanup && |buckets| <= maxBuckets { return; }
      var expired := set k | k in buckets && buckets[k].safeExpireAt <= now;
      while expired != {}
        invariant expired <= buckets.Keys && overflow == old(overflow) && nextCleanup == old(nextCleanup)
        invariant forall k :: k in buckets ==> k in old(buckets) && buckets[k] == old(buckets)[k]
        invariant forall k :: k in old(buckets) && (k in expired || old(buckets)[k].safeExpireAt > now) ==> k in buckets
        invariant forall k :: k in buckets && buckets[k].safeExpireAt <= now ==> k in expired
      {
        var k :| k in expired;
        expired := expired - {k};
        buckets := buckets - {k};
      }
      assert buckets == Live(old(buckets), now);
      nextCleanup := now + cleanupInterval;
    }

    method Check(identity: string, p: Params, now: real) returns (outcome: Outcome)
      requires Usable(p)
      modifies this
      ensures (State(), outcome) == old(MemCheck(State(), identity, p, now))
    {
      var q := RateOf(p);
      var capacity, refill := q.capacity, q.refill;
      var safeIdle := Max(idleTtl, capacity / refill);
      Cleanup(now);
      var isOverflow := identity !in buckets && |buckets| >= maxBuckets;
      var key := OverflowKeyFor(Memory(maxBuckets, idleTtl, cleanupInterval, buckets, overflow, nextCleanup), p);
      var bucket := Bucket(capacity, now, now, now + safeIdle);
      if isOverflow {
        if key in overflow { bucket := overflow[key]; }
      } else {
        if identity in buckets { bucket := buckets[identity]; }
      }
      ghost var was := bucket;
      var tokens := Min(capacity, bucket.tokens + Earned(now - bucket.updated, refill));
      bucket := Bucket(tokens, now, now, now + safeIdle);
      ghost var m := Cleaned(old(State()), now);
      assert m == State() && isOverflow == Full(m, identity) && safeIdle == SafeIdle(m, q);
      assert tokens == Refilled(q, Level(was.tokens, was.updated), now);
      if tokens < 1.0 {
        var wait := Ceil((1.0 - tokens) / refill);
        outcome := Rejected(if wait > 1 then wait else 1);
      } else {
        bucket := bucket.(tokens := tokens - 1.0);
        outcome := Accepted;
      }
      if isOverflow { overflow := overflow[key := bucket]; } else { buckets := buckets[identity := bucket]; }
    }
  }

  // ---------------------------------------------------------------- Redis script

  /** A hash with its fields tokens and ts, and the time at which EXPIRE removes it. */
  datatype Stored = Stored(tokens: real, ts: real, expireAt: real)

  function Ttl(p: Params): int
    requires Usable(p)
  {
    var ttl := Ceil(RateOf(p).capacity / RateOf(p).refill) + (if p.window > 1 then p.window else 1);
    if ttl > 2 then ttl else 2
  }

  class RedisRateLimiter {
    var store: map<string, Stored>

    constructor ()
      ensures store == map[]
    {
      store := map[];
    }

    /** The script and the reading of its reply; keys past their expiry are absent. */
    method Check(identity: string, p: Params, now: real) returns (outcome: Outcome)
      requires Usable(p)
      modifies this
      ensures (store, outcome) == old(RedisCheck(store, identity, p, now))
    {
      var q := RateOf(p);
      var present := identity in store && now < store[identity].expireAt;
      var tokens, ts := q.capacity, now;
      if present { tokens, ts := store[identity].tokens, store[identity].ts; }
      if now < ts { ts := now; }
      tokens := Min(q.capacity, tokens + Earned(now - ts, q.refill));
      assert tokens == RedisTokens(store, identity, q, now);
      var allowed := tokens >= 1.0;
      if allowed { tokens := tokens - 1.0; }
      store := store[identity := Stored(tokens, now, now + Ttl(p) as real)];
      if !allowed {
        var wait := Ceil((1.0 - tokens) / q.refill);
        return Rejected(if wait > 1 then wait else 1);
      }
      outcome := Accepted;
    }
  }

  function RedisTokens(store: map<string, Stored>, id: string, q: Rate, now: real): real
  {
    if id in store && now < store[id].expireAt then
      Refilled(q, Level(store[id].tokens, Min(store[id].ts, now)), now)
    else q.capacity
  }

  function RedisCheck(store: map<string, Stored>, id: string, p: Params, now: real): (map<string, Stored>, Outcome)
    requires Usable(p)
  {
    var tokens := RedisTokens(store, id, RateOf(p), now);
    (store[id := Stored(Left(tokens), now, now + Ttl(p) as real)], Verdict(RateOf(p), tokens))
  }
}
