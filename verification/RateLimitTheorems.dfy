/** Eviction is unobservable, the bucket bounds accepted calls, and Retry-After is least. */
module TokenBucketTheorems {
  import opened TokenBuckets

  datatype Call = Call(id: string, p: Params, time: real)

  /** A call as the reference limiter sees it. */
  datatype RefCall = RefCall(id: string, q: Rate, time: real)

  /** The clock does not run backwards. */
  ghost predicate InOrder(calls: seq<RefCall>, from: real)
    decreases |calls|
  {
    calls == [] || (from <= calls[0].time && InOrder(calls[1..], calls[0].time))
  }

  function Plain(calls: seq<Call>): (plain: seq<RefCall>)
    requires forall c :: c in calls ==> Usable(c.p)
    ensures |plain| == |calls|
    ensures forall i :: 0 <= i < |calls| ==> plain[i] == RefCall(calls[i].id, RateOf(calls[i].p), calls[i].time)
  {
    seq(|calls|, i requires 0 <= i < |calls| => RefCall(calls[i].id, RateOf(calls[i].p), calls[i].time))
  }

  /** Every identity always comes with the same policy. */
  ghost predicate FixedRates(calls: seq<RefCall>, rate: string -> Rate)
  {
    forall c :: c in calls ==> c.q == rate(c.id) && Sane(c.q)
  }

  ghost predicate FixedPolicies(calls: seq<Call>, policy: string -> Params)
  {
    forall c :: c in calls ==> c.p == policy(c.id) && Usable(c.p)
  }

  function RefRun(ref: Reference, calls: seq<RefCall>): (outcomes: seq<Outcome>)
    requires forall c :: c in calls ==> Sane(c.q)
    decreases |calls|
  {
    if calls == [] then []
    else
      var (ref', outcome) := RefCheck(ref, calls[0].id, calls[0].q, calls[0].time);
      [outcome] + RefRun(ref', calls[1..])
  }

  function MemRun(m: Memory, calls: seq<Call>): (outcomes: seq<Outcome>)
    requires forall c :: c in calls ==> Usable(c.p)
    decreases |calls|
  {
    if calls == [] then []
    else
      var (m', outcome) := MemCheck(m, calls[0].id, calls[0].p, calls[0].time);
      [outcome] + MemRun(m', calls[1..])
  }

  function RedisRun(store: map<string, Stored>, calls: seq<Call>): (outcomes: seq<Outcome>)
    requires forall c :: c in calls ==> Usable(c.p)
    decreases |calls|
  {
    if calls == [] then []
    else
      var (store', outcome) := RedisCheck(store, calls[0].id, calls[0].p, calls[0].time);
      [outcome] + RedisRun(store', calls[1..])
  }

  // ---------------------------------------------------------------- arithmetic

  lemma EarnedMono(a: real, b: real, r: real)
    requires a <= b && r >= 0.0
    ensures Earned(a, r) <= Earned(b, r)
  {
  }

  lemma EarnedStrict(a: real, b: real, r: real)
    requires a < b && r > 0.0
    ensures Earned(a, r) < Earned(b, r)
  {
  }

  lemma EarnedNothing(r: real)
    ensures Earned(0.0, r) == 0.0
  {
  }

  lemma EarnedSum(a: real, b: real, r: real)
    ensures Earned(a + b, r) == Earned(a, r) + Earned(b, r)
  {
  }

  lemma EarnedQuotient(c: real, r: real)
    requires r > 0.0
    ensures Earned(c / r, r) == c
  {
  }

  // ---------------------------------------------------------------- eviction is invisible

  ghost predicate LevelOk(q: Rate, l: Level, now: real)
  {
    l.updated <= now && 0.0 <= l.tokens <= q.capacity
  }

  /** What a limiter that forgot an identity must know: its bucket is full again. */
  ghost predicate FullAgain(q: Rate, l: Level, now: real)
  {
    Refilled(q, l, now) == q.capacity
  }

  /** Being idle from updated to expireAt earns a whole capacity. */
  ghost predicate EarnsAll(q: Rate, updated: real, expireAt: real)
  {
    Earned(expireAt - updated, q.refill) >= q.capacity
  }

  /** An idle bucket that may be evicted is full. */
  lemma ExpiredIsFull(q: Rate, l: Level, expireAt: real, now: real)
    requires Sane(q) && 0.0 <= l.tokens && EarnsAll(q, l.updated, expireAt) && expireAt <= now
    ensures FullAgain(q, l, now)
  {
    hide Earned;
    EarnedMono(expireAt - l.updated, now - l.updated, q.refill);
  }

  lemma FullStaysFull(q: Rate, l: Level, a: real, b: real)
    requires Sane(q) && a <= b && FullAgain(q, l, a)
    ensures FullAgain(q, l, b)
  {
    hide Earned;
    EarnedMono(a - l.updated, b - l.updated, q.refill);
  }

  /** Tokens never leave the range from zero to capacity. */
  lemma TokensInRange(ref: Reference, id: string, q: Rate, from: real, now: real)
    requires Sane(q) && from <= now && (id in ref ==> LevelOk(q, ref[id], from))
    ensures 0.0 <= RefTokens(ref, id, q, now) <= q.capacity
  {
    hide Earned;
    if id in ref {
      EarnedNothing(q.refill);
      EarnedMono(0.0, now - ref[id].updated, q.refill);
    }
  }

  /** A lifetime of at least capacity / refill is long enough. */
  lemma LongEnough(q: Rate, now: real, idle: real)
    requires Sane(q) && idle >= q.capacity / q.refill
    ensures EarnsAll(q, now, now + idle)
  {
  }

  ghost predicate Agrees(m: Memory, ref: Reference, q: Rate, id: string, now: real)
  {
    && Sane(q)
    && (id in m.buckets ==>
          && id in ref
          && ref[id] == Level(m.buckets[id].tokens, m.buckets[id].updated)
          && EarnsAll(q, ref[id].updated, m.buckets[id].safeExpireAt))
    && (id in ref ==> LevelOk(q, ref[id], now))
    && (id in ref && id !in m.buckets ==> FullAgain(q, ref[id], now))
  }

  ghost predicate Simulates(m: Memory, ref: Reference, rate: string -> Rate, now: real)
  {
    forall id :: id in ref || id in m.buckets ==> Agrees(m, ref, rate(id), id, now)
  }

  lemma CleanedSimulates(m: Memory, ref: Reference, rate: string -> Rate, from: real, now: real)
    requires Simulates(m, ref, rate, from) && from <= now
    ensures Simulates(Cleaned(m, now), ref, rate, now)
  {
    var m' := Cleaned(m, now);
    forall id | id in ref || id in m'.buckets ensures Agrees(m', ref, rate(id), id, now) {
      assert Agrees(m, ref, rate(id), id, from);
      if id in ref && id !in m'.buckets {
        if id in m.buckets {
          ExpiredIsFull(rate(id), ref[id], m.buckets[id].safeExpireAt, now);
        } else {
          FullStaysFull(rate(id), ref[id], from, now);
        }
      }
    }
  }

  predicate Overflows(m: Memory, c: Call)
  {
    Full(Cleaned(m, c.time), c.id)
  }

  /** The two limiters charge the same tokens. */
  lemma SameTokens(m: Memory, ref: Reference, q: Rate, id: string, now: real, b: Bucket)
    requires Sane(q) && (id in ref || id in m.buckets ==> Agrees(m, ref, q, id, now))
    requires b == if id in m.buckets then m.buckets[id] else NewBucket(m, q, now)
    ensures Refilled(q, Level(b.tokens, b.updated), now) == RefTokens(ref, id, q, now)
    ensures 0.0 <= RefTokens(ref, id, q, now) <= q.capacity
  {
  }

  lemma ChargeKeepsSimulation(
    m: Memory, ref: Reference, rate: string -> Rate, id: string, now: real, tokens: real, b: Bucket)
    requires Simulates(m, ref, rate, now) && Sane(rate(id)) && 0.0 <= tokens <= rate(id).capacity
    requires b.tokens == Left(tokens) && b.updated == now && b.safeExpireAt == now + SafeIdle(m, rate(id))
    ensures Simulates(m.(buckets := m.buckets[id := b]), ref[id := Level(Left(tokens), now)], rate, now)
  {
  }

  lemma StepSimulates(m: Memory, ref: Reference, rate: string -> Rate, from: real, c: Call)
    requires Simulates(m, ref, rate, from) && from <= c.time
    requires Usable(c.p) && RateOf(c.p) == rate(c.id) && !Overflows(m, c)
    ensures MemCheck(m, c.id, c.p, c.time).1 == RefCheck(ref, c.id, rate(c.id), c.time).1
    ensures Simulates(MemCheck(m, c.id, c.p, c.time).0, RefCheck(ref, c.id, rate(c.id), c.time).0, rate, c.time)
  {
    hide Earned;
    var m1, q := Cleaned(m, c.time), rate(c.id);
    CleanedSimulates(m, ref, rate, from, c.time);
    var b := if c.id in m1.buckets then m1.buckets[c.id] else NewBucket(m1, q, c.time);
    SameTokens(m1, ref, q, c.id, c.time, b);
    ChargeKeepsSimulation(
      m1, ref, rate, c.id, c.time, RefTokens(ref, c.id, q, c.time), Charge(b, m1, q, c.time).0);
  }

  /** No call of the run finds the table full. */
  ghost predicate Fits(m: Memory, calls: seq<Call>)
    requires forall c :: c in calls ==> Usable(c.p)
    decreases |calls|
  {
    calls == [] ||
    (!Overflows(m, calls[0])
     && Fits(MemCheck(m, calls[0].id, calls[0].p, calls[0].time).0, calls[1..]))
  }

  lemma {:induction false} EvictionUnobservable(
    m: Memory, ref: Reference, calls: seq<Call>, rate: string -> Rate, from: real)
    requires forall c :: c in calls ==> Usable(c.p)
    requires Simulates(m, ref, rate, from) && FixedRates(Plain(calls), rate)
    requires InOrder(Plain(calls), from) && Fits(m, calls)
    ensures MemRun(m, calls) == RefRun(ref, Plain(calls))
    decreases |calls|
  {
    if calls != [] {
      var c := calls[0];
      assert Plain(calls)[0] in Plain(calls);
      StepSimulates(m, ref, rate, from, c);
      assert Plain(calls)[1..] == Plain(calls[1..]);
      EvictionUnobservable(
        MemCheck(m, c.id, c.p, c.time).0, RefCheck(ref, c.id, rate(c.id), c.time).0, calls[1..], rate, c.time);
    }
  }

  function Identities(calls: seq<Call>): (ids: set<string>)
  {
    set c | c in calls :: c.id
  }

  /** Room for every identity of the run is enough. */
  lemma {:induction false} FewIdentitiesFit(m: Memory, calls: seq<Call>, ids: set<string>)
    requires forall c :: c in calls ==> Usable(c.p) && c.id in ids
    requires m.buckets.Keys <= ids && |ids| <= m.maxBuckets
    ensures Fits(m, calls)
    decreases |calls|
  {
    if calls != [] {
      var c := calls[0];
      var m1 := Cleaned(m, c.time);
      assert m1.buckets.Keys <= m.buckets.Keys;
      if c.id !in m1.buckets {
        SmallerSet(m1.buckets.Keys, ids - {c.id});
      }
      var m2 := MemCheck(m, c.id, c.p, c.time).0;
      assert m2.buckets.Keys <= ids && m2.maxBuckets == m.maxBuckets;
      FewIdentitiesFit(m2, calls[1..], ids);
    }
  }

  lemma {:induction false} SmallerSet<T>(a: set<T>, b: set<T>)
    requires a <= b
    ensures |a| <= |b|
  {
    if a != {} {
      var x :| x in a;
      SmallerSet(a - {x}, b - {x});
    }
  }

  ghost function RatesOf(policy: string -> Params): string -> Rate
  {
    id => if Usable(policy(id)) then RateOf(policy(id)) else Rate(0.0, 0.0)
  }

  /** A fresh limiter with room for every identity answers like one that never evicts. */
  lemma MemoryAgreesWithReference(m: Memory, calls: seq<Call>, policy: string -> Params, start: real)
    requires m.buckets == map[] && FixedPolicies(calls, policy)
    requires InOrder(Plain(calls), start) && |Identities(calls)| <= m.maxBuckets
    ensures MemRun(m, calls) == RefRun(map[], Plain(calls))
    ensures FixedRates(Plain(calls), RatesOf(policy))
  {
    FewIdentitiesFit(m, calls, Identities(calls));
    PlainRates(calls, policy);
    EvictionUnobservable(m, map[], calls, RatesOf(policy), start);
  }

  lemma PlainRates(calls: seq<Call>, policy: string -> Params)
    requires FixedPolicies(calls, policy)
    ensures FixedRates(Plain(calls), RatesOf(policy))
  {
  }

  // ---------------------------------------------------------------- the overflow buckets

  /** Every call of the run finds the table full. */
  ghost predicate AllOverflow(m: Memory, calls: seq<Call>)
    requires forall c :: c in calls ==> Usable(c.p)
    decreases |calls|
  {
    calls == [] ||
    (Overflows(m, calls[0])
     && AllOverflow(MemCheck(m, calls[0].id, calls[0].p, calls[0].time).0, calls[1..]))
  }

  /** The calls, as if by one identity. */
  function AsOne(calls: seq<Call>): (plain: seq<RefCall>)
    requires forall c :: c in calls ==> Usable(c.p)
    ensures |plain| == |calls|
    ensures forall i :: 0 <= i < |calls| ==> plain[i] == RefCall("", RateOf(calls[i].p), calls[i].time)
  {
    seq(|calls|, i requires 0 <= i < |calls| => RefCall("", RateOf(calls[i].p), calls[i].time))
  }

  /** What is known of an overflow bucket, as of one identity. */
  function Shares(m: Memory, key: OverflowKey): Reference
  {
    if key in m.overflow then map["" := Level(m.overflow[key].tokens, m.overflow[key].updated)] else map[]
  }

  lemma OverflowCharges(m: Memory, key: OverflowKey, q: Rate, now: real, b: Bucket)
    requires Sane(q) && b == if key in m.overflow then m.overflow[key] else NewBucket(m, q, now)
    ensures Charge(b, m, q, now).1 == RefCheck(Shares(m, key), "", q, now).1
    ensures Shares(m.(overflow := m.overflow[key := Charge(b, m, q, now).0]), key) == RefCheck(Shares(m, key), "", q, now).0
  {
  }

  /** The policy stays with its bucket. */
  lemma SameOverflowKey(m: Memory, p: Params, b: Bucket)
    ensures var key := OverflowKeyFor(m, p); OverflowKeyFor(m.(overflow := m.overflow[key := b]), p) == key
  {
    var key := OverflowKeyFor(m, p);
    assert m.overflow.Keys <= m.overflow[key := b].Keys;
    SmallerSet(m.overflow.Keys, m.overflow[key := b].Keys);
    assert |m.overflow| == |m.overflow.Keys| && |m.overflow[key := b]| == |m.overflow[key := b].Keys|;
  }

  lemma OverflowStep(m: Memory, c: Call)
    requires Usable(c.p) && Overflows(m, c)
    ensures var key, m2 := OverflowKeyFor(m, c.p), MemCheck(m, c.id, c.p, c.time).0;
            && OverflowKeyFor(m2, c.p) == key
            && MemCheck(m, c.id, c.p, c.time).1 == RefCheck(Shares(m, key), "", RateOf(c.p), c.time).1
            && Shares(m2, key) == RefCheck(Shares(m, key), "", RateOf(c.p), c.time).0
  {
    var m1, q := Cleaned(m, c.time), RateOf(c.p);
    var key := OverflowKeyFor(m1, c.p);
    var b := if key in m1.overflow then m1.overflow[key] else NewBucket(m1, q, c.time);
    OverflowCharges(m1, key, q, c.time, b);
    SameOverflowKey(m1, c.p, Charge(b, m1, q, c.time).0);
  }

  predicate SamePolicy(p: Params, q: Params)
  {
    p.limit == q.limit && p.window == q.window
    && (if p.burst.Some? then p.burst.value else 0) == (if q.burst.Some? then q.burst.value else 0)
  }

  /**
   * Different policies overflow into different buckets as long as there is room for them; one for which
   * there is none shares the last bucket. A call leaves the overflow buckets of all others alone.
   */
  lemma OverflowByPolicy(m: Memory, p: Params, q: Params, id: string, now: real)
    requires Usable(p)
    ensures var a, b := OverflowKeyFor(m, p), OverflowKeyFor(m, q); a != Shared && b != Shared ==> (a == b <==> SamePolicy(p, q))
    ensures OverflowKeyFor(m, p) == Shared <==>
            |m.overflow| >= 128 && forall key :: key in m.overflow && key.Policy? ==> !SamePolicy(p, Params(key.limit, key.window, Some(key.burst)))
    ensures forall key :: key != OverflowKeyFor(m, p) ==>
              (key in MemCheck(m, id, p, now).0.overflow <==> key in m.overflow)
              && (key in m.overflow ==> MemCheck(m, id, p, now).0.overflow[key] == m.overflow[key])
  {
    hide RateOf;
    hide Charge;
    assert Cleaned(m, now).overflow == m.overflow;
    hide Cleaned;
    var mine := Policy(p.limit, p.window, if p.burst.Some? then p.burst.value else 0);
    forall key | key in m.overflow && key.Policy?
      ensures SamePolicy(p, Params(key.limit, key.window, Some(key.burst))) <==> key == mine {}
  }

  /**
   * While the table is full, all new identities under one policy share one bucket: they are answered
   * as if they were one identity of the limiter that never forgets.
   */
  lemma {:induction false} OverflowIsShared(m: Memory, calls: seq<Call>, p: Params)
    requires Usable(p) && (forall c :: c in calls ==> c.p == p) && AllOverflow(m, calls)
    ensures MemRun(m, calls) == RefRun(Shares(m, OverflowKeyFor(m, p)), AsOne(calls))
    decreases |calls|
  {
    if calls != [] {
      var c := calls[0];
      OverflowStep(m, c);
      assert AsOne(calls)[1..] == AsOne(calls[1..]);
      OverflowIsShared(MemCheck(m, c.id, c.p, c.time).0, calls[1..], p);
    }
  }

  // ---------------------------------------------------------------- bounded tables

  ghost predicate Bounded(m: Memory)
  {
    && |m.buckets| <= m.maxBuckets
    && (|m.overflow| <= 128 || (|m.overflow| == 129 && Shared in m.overflow))
  }

  /**
   * Hostile identities cannot grow the tables: at most maxBuckets, plus 128 policies and
   * one shared bucket.  And no bucket is dropped before its safe expiry.
   */
  lemma TablesStayBounded(m: Memory, id: string, p: Params, now: real)
    requires Usable(p) && Bounded(m)
    ensures Bounded(MemCheck(m, id, p, now).0)
    ensures forall k :: k in m.buckets && m.buckets[k].safeExpireAt > now ==> k in MemCheck(m, id, p, now).0.buckets
  {
    var m1 := Cleaned(m, now);
    CheckedKeys(m1, m, id, p, now);
    CleanedKeys(m, now);
    BoundedByKeys(m, m1, MemCheck(m, id, p, now).0, id, OverflowKeyFor(m1, p));
    hide *;
    forall k | k in m.buckets && m.buckets[k].safeExpireAt > now ensures k in MemCheck(m, id, p, now).0.buckets {
      assert k in m1.buckets.Keys && k in MemCheck(m, id, p, now).0.buckets.Keys;
    }
  }

  /**
   * A check at which cleanup is due forgets every other identity whose bucket is past its safe expiry,
   * and the bucket that was charged expires when it must be full again, or later.
   */
  lemma DueCheckForgets(m: Memory, id: string, p: Params, now: real)
    requires Usable(p) && (now >= m.nextCleanup || |m.buckets| > m.maxBuckets)
    ensures var m2 := MemCheck(m, id, p, now).0;
            && m2.nextCleanup == now + m.cleanupInterval
            && (forall k :: k in m2.buckets && k != id ==> k in m.buckets && m.buckets[k].safeExpireAt > now && m2.buckets[k] == m.buckets[k])
            && (id in m2.buckets ==>
                  m2.buckets[id].updated == now
                  && m2.buckets[id].safeExpireAt == now + Max(m.idleTtl, RateOf(p).capacity / RateOf(p).refill))
  {
    hide Refilled;
    hide RateOf;
  }

  lemma CleanedKeys(m: Memory, now: real)
    ensures var m1 := Cleaned(m, now);
            && m1.maxBuckets == m.maxBuckets && m1.overflow == m.overflow && m1.buckets.Keys <= m.buckets.Keys
            && forall k :: k in m.buckets && m.buckets[k].safeExpireAt > now ==> k in m1.buckets.Keys
  {
  }

  lemma BoundedByKeys(m: Memory, m1: Memory, m2: Memory, id: string, key: OverflowKey)
    requires Bounded(m) && m1.maxBuckets == m2.maxBuckets == m.maxBuckets && m1.overflow == m.overflow
    requires m1.buckets.Keys <= m.buckets.Keys && (key !in m.overflow && |m.overflow| >= 128 ==> key == Shared)
    requires m2.buckets.Keys == if Full(m1, id) then m1.buckets.Keys else m1.buckets.Keys + {id}
    requires m2.overflow.Keys == if Full(m1, id) then m.overflow.Keys + {key} else m.overflow.Keys
    ensures Bounded(m2)
  {
    BucketsFit(m, m1, id);
    OneMore(m.overflow.Keys, key);
    assert |m2.buckets| == |m2.buckets.Keys| && |m2.overflow| == |m2.overflow.Keys| && |m.overflow| == |m.overflow.Keys|;
    assert Shared in m2.overflow <==> Shared in m2.overflow.Keys;
  }

  lemma OneMore<T>(s: set<T>, x: T)
    ensures |s + {x}| == if x in s then |s| else |s| + 1
  {
    if x in s { assert s + {x} == s; }
  }

  lemma BucketsFit(m: Memory, m1: Memory, id: string)
    requires |m.buckets| <= m.maxBuckets && m1.buckets.Keys <= m.buckets.Keys && m1.maxBuckets == m.maxBuckets
    ensures |m1.buckets.Keys| <= m.maxBuckets
    ensures !Full(m1, id) ==> |m1.buckets.Keys + {id}| <= m.maxBuckets
  {
    SmallerSet(m1.buckets.Keys, m.buckets.Keys);
    OneMore(m1.buckets.Keys, id);
    assert |m1.buckets| == |m1.buckets.Keys| && |m.buckets| == |m.buckets.Keys|;
  }

  /** Which keys one check adds. */
  lemma CheckedKeys(m1: Memory, m: Memory, id: string, p: Params, now: real)
    requires Usable(p) && m1 == Cleaned(m, now)
    ensures var m2 := MemCheck(m, id, p, now).0;
            && m2.maxBuckets == m.maxBuckets
            && m2.buckets.Keys == (if Full(m1, id) then m1.buckets.Keys else m1.buckets.Keys + {id})
            && m2.overflow.Keys == (if Full(m1, id) then m.overflow.Keys + {OverflowKeyFor(m1, p)} else m.overflow.Keys)
  {
    var q := RateOf(p);
    if Full(m1, id) {
      var key := OverflowKeyFor(m1, p);
      var b := if key in m1.overflow then m1.overflow[key] else NewBucket(m1, q, now);
      AddedKey(m1.overflow, key, Charge(b, m1, q, now).0);
    } else {
      var b := if id in m1.buckets then m1.buckets[id] else NewBucket(m1, q, now);
      AddedKey(m1.buckets, id, Charge(b, m1, q, now).0);
    }
  }

  lemma AddedKey<K, V>(m: map<K, V>, k: K, v: V)
    ensures m[k := v].Keys == m.Keys + {k}
  {
  }

  // ---------------------------------------------------------------- Redis

  ghost predicate RedisAgrees(store: map<string, Stored>, ref: Reference, q: Rate, id: string, now: real)
  {
    && Sane(q)
    && (id in store <==> id in ref)
    && (id in ref ==>
          && LevelOk(q, ref[id], now)
          && ref[id] == Level(store[id].tokens, store[id].ts)
          && EarnsAll(q, ref[id].updated, store[id].expireAt))
  }

  ghost predicate RedisSimulates(store: map<string, Stored>, ref: Reference, rate: string -> Rate, now: real)
  {
    forall id :: id in ref || id in store ==> RedisAgrees(store, ref, rate(id), id, now)
  }

  lemma TtlIsLongEnough(p: Params)
    requires Usable(p)
    ensures Ttl(p) as real >= RateOf(p).capacity / RateOf(p).refill
  {
  }

  /** The expiry: the time to refill a whole bucket, rounded up, and the window; at least two seconds. */
  lemma TtlIs(p: Params)
    requires Usable(p)
    ensures var seconds := RateOf(p).capacity / RateOf(p).refill + (if p.window > 1 then p.window else 1) as real;
            Ttl(p) >= 2 && Ttl(p) as real >= seconds && (Ttl(p) == 2 || (Ttl(p) - 1) as real < seconds)
  {
  }

  lemma SameRedisTokens(store: map<string, Stored>, ref: Reference, q: Rate, id: string, from: real, now: real)
    requires Sane(q) && from <= now && (id in ref || id in store ==> RedisAgrees(store, ref, q, id, from))
    ensures RedisTokens(store, id, q, now) == RefTokens(ref, id, q, now)
    ensures 0.0 <= RefTokens(ref, id, q, now) <= q.capacity
  {
  }

  lemma RedisStepSimulates(store: map<string, Stored>, ref: Reference, rate: string -> Rate, from: real, c: Call)
    requires RedisSimulates(store, ref, rate, from) && from <= c.time && Usable(c.p) && RateOf(c.p) == rate(c.id)
    ensures RedisCheck(store, c.id, c.p, c.time).1 == RefCheck(ref, c.id, rate(c.id), c.time).1
    ensures RedisSimulates(RedisCheck(store, c.id, c.p, c.time).0, RefCheck(ref, c.id, rate(c.id), c.time).0, rate, c.time)
  {
    hide Earned;
    SameRedisTokens(store, ref, rate(c.id), c.id, from, c.time);
    TtlIsLongEnough(c.p);
    LongEnough(rate(c.id), c.time, Ttl(c.p) as real);
    var store2, ref2 := RedisCheck(store, c.id, c.p, c.time).0, RefCheck(ref, c.id, rate(c.id), c.time).0;
    forall id | id in ref2 || id in store2 ensures RedisAgrees(store2, ref2, rate(id), id, c.time) {
      if id != c.id {
        assert id in ref || id in store;
        assert RedisAgrees(store, ref, rate(id), id, from);
      }
    }
  }

  /** With a server clock that does not run backwards, key expiry is unobservable too. */
  lemma {:induction false} RedisAgreesWithReference(
    store: map<string, Stored>, ref: Reference, calls: seq<Call>, rate: string -> Rate, from: real)
    requires forall c :: c in calls ==> Usable(c.p)
    requires RedisSimulates(store, ref, rate, from) && FixedRates(Plain(calls), rate)
    requires InOrder(Plain(calls), from)
    ensures RedisRun(store, calls) == RefRun(ref, Plain(calls))
    decreases |calls|
  {
    if calls != [] {
      var c := calls[0];
      assert Plain(calls)[0] in Plain(calls);
      RedisStepSimulates(store, ref, rate, from, c);
      assert Plain(calls)[1..] == Plain(calls[1..]);
      RedisAgreesWithReference(
        RedisCheck(store, c.id, c.p, c.time).0, RefCheck(ref, c.id, rate(c.id), c.time).0, calls[1..], rate, c.time);
    }
  }

  // ---------------------------------------------------------------- the bound

  /** How many calls of identity id with a time in [s, t] are accepted. */
  function AcceptedIn(calls: seq<RefCall>, outcomes: seq<Outcome>, id: string, s: real, t: real): (n: nat)
    requires |outcomes| == |calls|
  {
    if calls == [] then 0
    else (if calls[0].id == id && s <= calls[0].time <= t && outcomes[0].Accepted? then 1 else 0)
         + AcceptedIn(calls[1..], outcomes[1..], id, s, t)
  }

  lemma {:induction false} RunLength(ref: Reference, calls: seq<RefCall>)
    requires forall c :: c in calls ==> Sane(c.q)
    ensures |RefRun(ref, calls)| == |calls|
    decreases |calls|
  {
    if calls != [] {
      RunLength(RefCheck(ref, calls[0].id, calls[0].q, calls[0].time).0, calls[1..]);
    }
  }

  function After(ref: Reference, c: RefCall): Reference
  {
    ref[c.id := Level(Left(RefTokens(ref, c.id, c.q, c.time)), c.time)]
  }

  /** One if the call is by id, in [s, t], and finds a whole token. */
  function Hit(ref: Reference, c: RefCall, id: string, s: real, t: real): (n: nat)
    ensures n <= 1
  {
    if c.id == id && s <= c.time <= t && RefTokens(ref, c.id, c.q, c.time) >= 1.0 then 1 else 0
  }

  /** The calls of identity id in [s, t] that find a whole token. */
  function Taken(ref: Reference, calls: seq<RefCall>, id: string, s: real, t: real): (n: nat)
    decreases |calls|
  {
    if calls == [] then 0
    else Hit(ref, calls[0], id, s, t) + Taken(After(ref, calls[0]), calls[1..], id, s, t)
  }

  lemma {:induction false} TakenIsAccepted(ref: Reference, calls: seq<RefCall>, id: string, s: real, t: real)
    requires forall c :: c in calls ==> Sane(c.q)
    ensures |RefRun(ref, calls)| == |calls| && AcceptedIn(calls, RefRun(ref, calls), id, s, t) == Taken(ref, calls, id, s, t)
    decreases |calls|
  {
    RunLength(ref, calls);
    if calls != [] {
      var c := calls[0];
      assert RefCheck(ref, c.id, c.q, c.time).0 == After(ref, c);
      TakenIsAccepted(After(ref, c), calls[1..], id, s, t);
      assert RefRun(ref, calls)[1..] == RefRun(After(ref, c), calls[1..]);
    }
  }

  /** Calls past t do not count. */
  lemma {:induction false} NoneAfter(ref: Reference, calls: seq<RefCall>, id: string, s: real, t: real, from: real)
    requires InOrder(calls, from) && t < from
    ensures Taken(ref, calls, id, s, t) == 0
    decreases |calls|
  {
    if calls != [] { NoneAfter(After(ref, calls[0]), calls[1..], id, s, t, calls[0].time); }
  }

  /** What the bucket of id can still pay for until t, seen at time now. */
  function Budget(ref: Reference, q: Rate, id: string, now: real, t: real): real
  {
    RefTokens(ref, id, q, now) + Earned(t - now, q.refill)
  }

  /** Waiting adds nothing to the budget. */
  lemma BudgetShrinks(ref: Reference, q: Rate, id: string, a: real, b: real, t: real)
    requires Sane(q) && a <= b
    ensures Budget(ref, q, id, b, t) <= Budget(ref, q, id, a, t)
  {
    hide Earned;
    EarnedNothing(q.refill);
    EarnedMono(0.0, b - a, q.refill);
    EarnedSum(b - a, t - b, q.refill);
    assert (b - a) + (t - b) == t - a;
    if id in ref {
      EarnedSum(a - ref[id].updated, b - a, q.refill);
      assert (a - ref[id].updated) + (b - a) == b - ref[id].updated;
    }
  }

  /** A counted call takes one token out of it. */
  lemma BudgetSpent(ref: Reference, c: RefCall, q: Rate, id: string, s: real, t: real, from: real)
    requires Sane(q) && (c.id == id ==> c.q == q) && from <= c.time && (id in ref ==> LevelOk(q, ref[id], from))
    ensures Hit(ref, c, id, s, t) as real + Budget(After(ref, c), q, id, c.time, t) <= Budget(ref, q, id, c.time, t)
  {
  }

  lemma BudgetNonNeg(ref: Reference, q: Rate, id: string, from: real, t: real)
    requires Sane(q) && from <= t && (id in ref ==> LevelOk(q, ref[id], from))
    ensures 0.0 <= Budget(ref, q, id, from, t) <= q.capacity + Earned(t - from, q.refill)
  {
    hide Earned;
    TokensInRange(ref, id, q, from, from);
    EarnedNothing(q.refill);
    EarnedMono(0.0, t - from, q.refill);
  }

  /** The identity id always comes with rate q. */
  ghost predicate FixedRate(calls: seq<RefCall>, id: string, q: Rate)
  {
    forall c :: c in calls && c.id == id ==> c.q == q
  }

  lemma LevelAfter(ref: Reference, c: RefCall, q: Rate, id: string, from: real)
    requires Sane(q) && (c.id == id ==> c.q == q) && from <= c.time && (id in ref ==> LevelOk(q, ref[id], from))
    ensures id in After(ref, c) ==> LevelOk(q, After(ref, c)[id], c.time)
  {
    TokensInRange(ref, id, q, from, c.time);
  }

  /** From any point inside the interval: what is in the bucket plus what is refilled. */
  lemma {:induction false} BoundFrom(
    ref: Reference, calls: seq<RefCall>, q: Rate, id: string, s: real, t: real, from: real)
    requires Sane(q) && FixedRate(calls, id, q) && InOrder(calls, from) && s <= from <= t
    requires id in ref ==> LevelOk(q, ref[id], from)
    ensures Taken(ref, calls, id, s, t) as real <= Budget(ref, q, id, from, t)
    decreases |calls|
  {
    hide Earned;
    BudgetNonNeg(ref, q, id, from, t);
    if calls != [] {
      var c := calls[0];
      assert c in calls;
      if c.time > t {
        NoneAfter(ref, calls, id, s, t, c.time);
      } else {
        LevelAfter(ref, c, q, id, from);
        BoundFrom(After(ref, c), calls[1..], q, id, s, t, c.time);
        BudgetSpent(ref, c, q, id, s, t, from);
        BudgetShrinks(ref, q, id, from, c.time, t);
      }
    }
  }

  lemma {:induction false} TakenBound(
    ref: Reference, calls: seq<RefCall>, q: Rate, id: string, s: real, t: real, from: real)
    requires Sane(q) && FixedRate(calls, id, q) && InOrder(calls, from) && s <= t
    requires id in ref ==> LevelOk(q, ref[id], from)
    ensures Taken(ref, calls, id, s, t) as real <= q.capacity + Earned(t - s, q.refill)
    decreases |calls|
  {
    hide Earned;
    EarnedNothing(q.refill);
    EarnedMono(0.0, t - s, q.refill);
    if calls != [] {
      var c := calls[0];
      assert c in calls;
      if t < from {
        NoneAfter(ref, calls, id, s, t, from);
      } else if s <= c.time {
        var mid := if s <= from then from else s;
        BoundFrom(ref, calls, q, id, s, t, mid);
        BudgetNonNeg(ref, q, id, mid, t);
        EarnedMono(t - mid, t - s, q.refill);
      } else {
        LevelAfter(ref, c, q, id, from);
        TakenBound(After(ref, c), calls[1..], q, id, s, t, c.time);
      }
    }
  }

  /** In any run and any interval, accepted calls number at most capacity + refill * length. */
  lemma AcceptedBound(
    ref: Reference, calls: seq<RefCall>, q: Rate, id: string, s: real, t: real, from: real)
    requires Sane(q) && FixedRate(calls, id, q) && InOrder(calls, from) && s <= t
    requires (forall c :: c in calls ==> Sane(c.q)) && (id in ref ==> LevelOk(q, ref[id], from))
    ensures |RefRun(ref, calls)| == |calls|
    ensures AcceptedIn(calls, RefRun(ref, calls), id, s, t) as real <= q.capacity + Earned(t - s, q.refill)
  {
    TakenIsAccepted(ref, calls, id, s, t);
    TakenBound(ref, calls, q, id, s, t, from);
  }

  lemma PlainFixed(calls: seq<Call>, policy: string -> Params, id: string)
    requires FixedPolicies(calls, policy) && Usable(policy(id))
    ensures FixedRate(Plain(calls), id, RateOf(policy(id)))
  {
  }

  /** The bound for the limiter that is deployed; q is the rate of the identity's policy. */
  lemma MemoryBound(
    m: Memory, calls: seq<Call>, policy: string -> Params, id: string, q: Rate, s: real, t: real, start: real)
    requires m.buckets == map[] && FixedPolicies(calls, policy)
    requires InOrder(Plain(calls), start) && Fits(m, calls)
    requires Usable(policy(id)) && q == RateOf(policy(id)) && s <= t
    ensures |MemRun(m, calls)| == |calls|
    ensures AcceptedIn(Plain(calls), MemRun(m, calls), id, s, t) as real <= q.capacity + Earned(t - s, q.refill)
  {
    var plain := Plain(calls);
    PlainRates(calls, policy);
    EvictionUnobservable(m, map[], calls, RatesOf(policy), start);
    PlainFixed(calls, policy, id);
    assert forall c :: c in plain ==> Sane(c.q);
    AcceptedBound(map[], plain, q, id, s, t, start);
  }

  // ---------------------------------------------------------------- the exact law

  function RefAfter(ref: Reference, calls: seq<RefCall>): Reference
    decreases |calls|
  {
    if calls == [] then ref else RefAfter(After(ref, calls[0]), calls[1..])
  }

  /** The first k answers depend on the first k calls only, and the next one on what they left. */
  lemma {:induction false} RunPrefix(ref: Reference, calls: seq<RefCall>, k: nat)
    requires (forall c :: c in calls ==> Sane(c.q)) && k < |calls|
    ensures |RefRun(ref, calls)| == |calls| && RefRun(ref, calls)[..k] == RefRun(ref, calls[..k])
    ensures RefRun(ref, calls)[k].Accepted? <==> RefTokens(RefAfter(ref, calls[..k]), calls[k].id, calls[k].q, calls[k].time) >= 1.0
    decreases k
  {
    RunLength(ref, calls);
    var c := calls[0];
    assert RefCheck(ref, c.id, c.q, c.time).0 == After(ref, c);
    if k > 0 {
      RunPrefix(After(ref, c), calls[1..], k - 1);
      assert calls[..k][1..] == calls[1..][..k - 1];
      assert RefRun(ref, calls) == [RefRun(ref, calls)[0]] + RefRun(After(ref, c), calls[1..]);
      assert RefRun(ref, calls)[..k] == [RefRun(ref, calls)[0]] + RefRun(After(ref, c), calls[1..])[..k - 1];
    }
  }

  lemma {:induction false} TakenWider(ref: Reference, calls: seq<RefCall>, id: string, a: real, b: real, t: real)
    requires a <= b
    ensures Taken(ref, calls, id, b, t) <= Taken(ref, calls, id, a, t)
    decreases |calls|
  {
    if calls != [] { TakenWider(After(ref, calls[0]), calls[1..], id, a, b, t); }
  }

  ghost predicate UntilNow(calls: seq<RefCall>, now: real)
  {
    forall c :: c in calls ==> c.time <= now
  }

  /** An idle bucket fills up, or keeps all that it earns. */
  lemma FillsOrEarns(ref: Reference, q: Rate, id: string, from: real, now: real)
    requires Sane(q) && from <= now
    ensures var tokens := RefTokens(ref, id, q, now);
            tokens == q.capacity || tokens >= RefTokens(ref, id, q, from) + Earned(now - from, q.refill)
  {
    hide Earned;
    if id in ref {
      EarnedSum(from - ref[id].updated, now - from, q.refill);
      assert (from - ref[id].updated) + (now - from) == now - ref[id].updated;
    }
  }

  /** What a call takes is what it is counted for. */
  lemma TakesItsHit(ref: Reference, c: RefCall, q: Rate, id: string, s: real, t: real)
    requires Sane(q) && (c.id == id ==> c.q == q) && s <= c.time <= t && RefTokens(ref, id, q, c.time) <= q.capacity
    ensures RefTokens(After(ref, c), id, q, c.time) == RefTokens(ref, id, q, c.time) - Hit(ref, c, id, s, t) as real
  {
  }

  lemma AtMostFull(ref: Reference, q: Rate, id: string, now: real)
    ensures RefTokens(ref, id, q, now) <= q.capacity
  {
  }

  /** Since the moment the bucket was last full, or since `from`, nothing that it earned was lost. */
  lemma {:induction false} LastFull(ref: Reference, calls: seq<RefCall>, q: Rate, id: string, from: real, now: real)
    returns (u: real)
    requires Sane(q) && FixedRate(calls, id, q) && InOrder(calls, from) && UntilNow(calls, now) && from <= now
    ensures from <= u <= now
    ensures var start := if u == from then RefTokens(ref, id, q, from) else q.capacity;
            RefTokens(RefAfter(ref, calls), id, q, now) >= start + Earned(now - u, q.refill) - Taken(ref, calls, id, u, now) as real
    decreases |calls|
  {
    hide Earned;
    EarnedNothing(q.refill);
    if calls == [] {
      FillsOrEarns(ref, q, id, from, now);
      AtMostFull(ref, q, id, from);
      u := if RefTokens(ref, id, q, now) == q.capacity then now else from;
    } else {
      var c := calls[0];
      assert c in calls;
      var later := LastFull(After(ref, c), calls[1..], q, id, c.time, now);
      if later != c.time {
        u := later;
      } else {
        AtMostFull(ref, q, id, c.time);
        AtMostFull(ref, q, id, from);
        FillsOrEarns(ref, q, id, from, c.time);
        u := if RefTokens(ref, id, q, c.time) == q.capacity then c.time else from;
        TakesItsHit(ref, c, q, id, u, now);
        TakenWider(After(ref, c), calls[1..], id, u, c.time, now);
        EarnedSum(c.time - from, now - c.time, q.refill);
        assert (c.time - from) + (now - c.time) == now - from;
      }
    }
  }

  /**
   * With one call more, the calls of id accepted since some moment up to now would be more than a
   * full bucket and what it earns in that time.
   */
  ghost predicate UsedUp(
    calls: seq<RefCall>, outcomes: seq<Outcome>, id: string, capacity: real, perSecond: real, now: real)
    requires |outcomes| == |calls|
  {
    exists u: real :: u <= now && AcceptedIn(calls, outcomes, id, u, now) as real + 1.0 > capacity + (now - u) * perSecond
  }

  lemma {:induction false} AcceptedSnoc(
    calls: seq<RefCall>, outcomes: seq<Outcome>, id: string, s: real, t: real, k: nat)
    requires |outcomes| == |calls| && k < |calls|
    ensures AcceptedIn(calls[..k + 1], outcomes[..k + 1], id, s, t)
            == AcceptedIn(calls[..k], outcomes[..k], id, s, t)
               + if calls[k].id == id && s <= calls[k].time <= t && outcomes[k].Accepted? then 1 else 0
    decreases k
  {
    if k == 0 {
      assert calls[..1][1..] == [] && outcomes[..1][1..] == [];
    } else {
      AcceptedSnoc(calls[1..], outcomes[1..], id, s, t, k - 1);
      assert calls[..k + 1][1..] == calls[1..][..k] && outcomes[..k + 1][1..] == outcomes[1..][..k];
      assert calls[..k][1..] == calls[1..][..k - 1] && outcomes[..k][1..] == outcomes[1..][..k - 1];
    }
  }

  lemma {:induction false} PrefixInOrder(calls: seq<RefCall>, from: real, k: nat)
    requires InOrder(calls, from) && k < |calls|
    ensures InOrder(calls[..k + 1], from) && InOrder(calls[..k], from) && UntilNow(calls[..k + 1], calls[k].time) && from <= calls[k].time
    decreases k
  {
    if k > 0 {
      PrefixInOrder(calls[1..], calls[0].time, k - 1);
      assert calls[..k + 1] == [calls[0]] + calls[1..][..k] && calls[..k] == [calls[0]] + calls[1..][..k - 1];
      assert calls[..k + 1][1..] == calls[1..][..k] && calls[..k][1..] == calls[1..][..k - 1];
    } else {
      assert calls[..1][1..] == [];
    }
  }

  lemma UsedUpSince(calls: seq<RefCall>, outcomes: seq<Outcome>, id: string, q: Rate, u: real, now: real)
    requires |outcomes| == |calls| && u <= now
    requires AcceptedIn(calls, outcomes, id, u, now) as real + 1.0 > q.capacity + Earned(now - u, q.refill)
    ensures UsedUp(calls, outcomes, id, q.capacity, q.refill, now)
  {
    hide AcceptedIn;
  }

  lemma NewIsFull(ref: Reference, q: Rate, id: string, now: real)
    requires id !in ref
    ensures RefTokens(ref, id, q, now) == q.capacity
  {
  }

  /** No call is refused needlessly. */
  lemma RefusedOnlyIfUsedUp(ref: Reference, calls: seq<RefCall>, q: Rate, id: string, from: real, k: nat)
    requires Sane(q) && FixedRate(calls, id, q) && InOrder(calls, from) && (forall c :: c in calls ==> Sane(c.q))
    requires id !in ref && k < |calls| && calls[k].id == id
    ensures |RefRun(ref, calls)| == |calls|
    ensures RefRun(ref, calls)[k].Rejected? ==>
              UsedUp(calls[..k], RefRun(ref, calls)[..k], id, q.capacity, q.refill, calls[k].time)
  {
    var now, before := calls[k].time, calls[..k];
    assert calls[k] in calls;
    RunPrefix(ref, calls, k);
    PrefixInOrder(calls, from, k);
    assert forall c :: c in before ==> c in calls && c in calls[..k + 1];
    assert FixedRate(before, id, q) && UntilNow(before, now) && calls[k].q == q;
    hide *;
    var u := LastFull(ref, before, q, id, from, now);
    TakenIsAccepted(ref, before, id, u, now);
    NewIsFull(ref, q, id, from);
    if RefRun(ref, calls)[k].Rejected? {
      UsedUpSince(before, RefRun(ref, calls)[..k], id, q, u, now);
    }
  }

  lemma TakePrefix(ref: Reference, calls: seq<RefCall>, k: nat)
    requires (forall c :: c in calls ==> Sane(c.q)) && k <= |calls|
    ensures |RefRun(ref, calls)| == |calls| && RefRun(ref, calls)[..k] == RefRun(ref, calls[..k])
  {
    RunLength(ref, calls);
    if k < |calls| { RunPrefix(ref, calls, k); } else { assert calls[..k] == calls; }
    hide RefRun;
  }

  lemma PrefixFixed(calls: seq<RefCall>, id: string, q: Rate, k: nat)
    requires FixedRate(calls, id, q) && (forall c :: c in calls ==> Sane(c.q)) && k <= |calls|
    ensures FixedRate(calls[..k], id, q) && forall c :: c in calls[..k] ==> Sane(c.q)
  {
    assert forall c :: c in calls[..k] ==> c in calls;
  }

  /** An accepted call and those before it are within the bound of every stretch that ends with it. */
  lemma AcceptedFits(ref: Reference, calls: seq<RefCall>, q: Rate, id: string, from: real, k: nat, u: real)
    requires Sane(q) && FixedRate(calls, id, q) && InOrder(calls, from) && (forall c :: c in calls ==> Sane(c.q))
    requires id !in ref && k < |calls| && calls[k].id == id && u <= calls[k].time
    requires |RefRun(ref, calls)| == |calls| && RefRun(ref, calls)[k].Accepted?
    ensures AcceptedIn(calls[..k], RefRun(ref, calls)[..k], id, u, calls[k].time) as real + 1.0
            <= q.capacity + Earned(calls[k].time - u, q.refill)
  {
    hide *;
    TakePrefix(ref, calls, k + 1);
    PrefixInOrder(calls, from, k);
    PrefixFixed(calls, id, q, k + 1);
    AcceptedSnoc(calls, RefRun(ref, calls), id, u, calls[k].time, k);
    AcceptedBound(ref, calls[..k + 1], q, id, u, calls[k].time, from);
  }

  lemma NotUsedUp(calls: seq<RefCall>, outcomes: seq<Outcome>, id: string, q: Rate, now: real)
    requires |outcomes| == |calls|
    requires forall u: real {:trigger AcceptedIn(calls, outcomes, id, u, now)} :: u <= now ==>
               AcceptedIn(calls, outcomes, id, u, now) as real + 1.0 <= q.capacity + Earned(now - u, q.refill)
    ensures !UsedUp(calls, outcomes, id, q.capacity, q.refill, now)
  {
    hide AcceptedIn;
  }

  /** And whatever would exceed the bound is refused. */
  lemma UsedUpIsRefused(ref: Reference, calls: seq<RefCall>, q: Rate, id: string, from: real, k: nat)
    requires Sane(q) && FixedRate(calls, id, q) && InOrder(calls, from) && (forall c :: c in calls ==> Sane(c.q))
    requires id !in ref && k < |calls| && calls[k].id == id
    ensures |RefRun(ref, calls)| == |calls|
    ensures RefRun(ref, calls)[k].Accepted? ==>
              !UsedUp(calls[..k], RefRun(ref, calls)[..k], id, q.capacity, q.refill, calls[k].time)
  {
    RunLength(ref, calls);
    hide *;
    if RefRun(ref, calls)[k].Accepted? {
      forall u: real {:trigger AcceptedIn(calls[..k], RefRun(ref, calls)[..k], id, u, calls[k].time)} | u <= calls[k].time
        ensures AcceptedIn(calls[..k], RefRun(ref, calls)[..k], id, u, calls[k].time) as real + 1.0
                <= q.capacity + Earned(calls[k].time - u, q.refill)
      {
        AcceptedFits(ref, calls, q, id, from, k, u);
      }
      NotUsedUp(calls[..k], RefRun(ref, calls)[..k], id, q, calls[k].time);
    }
  }

  /** The reference limiter, exactly: it refuses a call if and only if the bucket is used up. */
  lemma RefusedIffUsedUp(ref: Reference, calls: seq<RefCall>, q: Rate, id: string, from: real, k: nat)
    requires Sane(q) && FixedRate(calls, id, q) && InOrder(calls, from) && (forall c :: c in calls ==> Sane(c.q))
    requires id !in ref && k < |calls| && calls[k].id == id
    ensures |RefRun(ref, calls)| == |calls|
    ensures RefRun(ref, calls)[k].Rejected? <==>
              UsedUp(calls[..k], RefRun(ref, calls)[..k], id, q.capacity, q.refill, calls[k].time)
  {
    RefusedOnlyIfUsedUp(ref, calls, q, id, from, k);
    UsedUpIsRefused(ref, calls, q, id, from, k);
  }

  /**
   * The in-process limiter, exactly: without overflow, call k of a run is refused if and only if the
   * calls of its identity accepted since some moment, and it, are more than burst (or limit) and
   * limit per window for the time passed.
   */
  lemma MemoryExact(m: Memory, calls: seq<Call>, policy: string -> Params, start: real, k: nat)
    requires m.buckets == map[] && FixedPolicies(calls, policy)
    requires InOrder(Plain(calls), start) && Fits(m, calls) && k < |calls|
    ensures |MemRun(m, calls)| == |calls|
    ensures var p := calls[k].p;
            MemRun(m, calls)[k].Rejected? <==>
              UsedUp(Plain(calls)[..k], MemRun(m, calls)[..k], calls[k].id,
                     (if p.burst.Some? && p.burst.value > 0 then p.burst.value else p.limit) as real,
                     p.limit as real / (if p.window >= 1 then p.window else 1) as real, calls[k].time)
  {
    var id := calls[k].id;
    PlainRates(calls, policy);
    EvictionUnobservable(m, map[], calls, RatesOf(policy), start);
    assert calls[k] in calls;
    PlainFixed(calls, policy, id);
    RefusedIffUsedUp(map[], Plain(calls), RateOf(policy(id)), id, start, k);
  }

  /** The Redis limiter, exactly, with a server clock that does not run backwards. */
  lemma RedisExact(calls: seq<Call>, policy: string -> Params, start: real, k: nat)
    requires FixedPolicies(calls, policy) && InOrder(Plain(calls), start) && k < |calls|
    ensures |RedisRun(map[], calls)| == |calls|
    ensures var p := calls[k].p;
            RedisRun(map[], calls)[k].Rejected? <==>
              UsedUp(Plain(calls)[..k], RedisRun(map[], calls)[..k], calls[k].id,
                     (if p.burst.Some? && p.burst.value > 0 then p.burst.value else p.limit) as real,
                     p.limit as real / (if p.window >= 1 then p.window else 1) as real, calls[k].time)
  {
    var id := calls[k].id;
    PlainRates(calls, policy);
    RedisAgreesWithReference(map[], map[], calls, RatesOf(policy), start);
    assert calls[k] in calls;
    PlainFixed(calls, policy, id);
    RefusedIffUsedUp(map[], Plain(calls), RateOf(policy(id)), id, start, k);
  }

  // ---------------------------------------------------------------- Retry-After

  /** k whole seconds bring tokens to one exactly if k reaches the rounded-up need. */
  lemma WholeSeconds(tokens: real, r: real, k: int)
    requires r > 0.0
    ensures tokens + Earned(k as real, r) >= 1.0 <==> k >= Ceil((1.0 - tokens) / r)
  {
    hide Earned;
    var need, x := (1.0 - tokens) / r, k as real;
    EarnedQuotient(1.0 - tokens, r);
    if need <= x {
      EarnedMono(need, x, r);
    } else {
      EarnedStrict(x, need, r);
    }
  }

  /**
   * After a rejection, an identity that stays idle is accepted after k whole seconds
   * exactly if k has reached the announced Retry-After.
   */
  lemma RetryAfterIsLeast(ref: Reference, id: string, q: Rate, now: real, k: nat)
    requires Sane(q) && RefCheck(ref, id, q, now).1.Rejected?
    ensures RefCheck(RefCheck(ref, id, q, now).0, id, q, now + k as real).1.Accepted?
       <==> k >= RefCheck(ref, id, q, now).1.retryAfter
  {
    hide Earned;
    var tokens := RefTokens(ref, id, q, now);
    WholeSeconds(tokens, q.refill, k);
    WholeSeconds(tokens, q.refill, 0);
    EarnedNothing(q.refill);
    assert (now + k as real) - now == k as real;
  }
}
