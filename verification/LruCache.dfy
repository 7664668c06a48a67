/**
 * MemoryTTLCache (framework/cache.py:14-59): a map with expiry times under a
 * least-recently-used bound.  The promises are stated against the history of what callers
 * did, which knows nothing of the ordered dictionary.
 */
module LruCaches {

  datatype Option<+T> = None | Some(value: T)

  datatype Entry<V> = Entry(key: string, expires: real, value: V)

  /** What callers did, as far as it matters: writes, hits and removals. */
  datatype Event<V> = Put(key: string, expires: real, value: V) | Hit(key: string) | Drop(key: string) | DropAll

  /** The last value written under key and not removed since, with its expiry. */
  ghost function LastPut<V>(history: seq<Event<V>>, key: string): Option<(real, V)>
  {
    if history == [] then None
    else
      var n := |history| - 1;
      match history[n]
      case Put(k, expires, v) => if k == key then Some((expires, v)) else LastPut(history[..n], key)
      case Drop(k) => if k == key then None else LastPut(history[..n], key)
      case DropAll => None
      case Hit(_) => LastPut(history[..n], key)
  }

  function TouchedKey<V>(e: Event<V>): (keys: set<string>)
  {
    match e
    case Put(k, _, _) => {k}
    case Hit(k) => {k}
    case _ => {}
  }

  /** The other keys that were written or hit since key was last written or hit. */
  ghost function TouchedSince<V>(history: seq<Event<V>>, key: string): (keys: set<string>)
  {
    if history == [] then {}
    else
      var n := |history| - 1;
      if key in TouchedKey(history[n]) then {}
      else TouchedSince(history[..n], key) + TouchedKey(history[n])
  }

  lemma LastPutSnoc<V>(history: seq<Event<V>>, e: Event<V>, key: string)
    ensures LastPut(history + [e], key) ==
            match e
            case Put(k, expires, v) => if k == key then Some((expires, v)) else LastPut(history, key)
            case Drop(k) => if k == key then None else LastPut(history, key)
            case DropAll => None
            case Hit(_) => LastPut(history, key)
  {
  }

  lemma TouchedSnoc<V>(history: seq<Event<V>>, e: Event<V>, key: string)
    ensures TouchedSince(history + [e], key)
         == if key in TouchedKey(e) then {} else TouchedSince(history, key) + TouchedKey(e)
  {
  }

  predicate Writes<V(==)>(e: Event<V>, key: string, expires: real, value: V)
  {
    e == Put(key, expires, value)
  }

  /** Events that decide what is under key. */
  predicate Concerns<V>(e: Event<V>, key: string)
  {
    (e.Put? && e.key == key) || (e.Drop? && e.key == key) || e.DropAll?
  }

  predicate Touches<V>(e: Event<V>, key: string)
  {
    (e.Put? && e.key == key) || (e.Hit? && e.key == key)
  }

  /** A value is the last one under key if it was written there and nothing since has replaced or removed it. */
  lemma {:induction false} LastPutIs<V>(history: seq<Event<V>>, key: string, expires: real, value: V)
    ensures LastPut(history, key) == Some((expires, value)) <==>
            exists i :: 0 <= i < |history| && Writes(history[i], key, expires, value)
                        && forall j :: i < j < |history| ==> !Concerns(history[j], key)
    decreases |history|
  {
    if history != [] {
      var n := |history| - 1;
      LastPutIs(history[..n], key, expires, value);
      assert forall i :: 0 <= i < n ==> history[..n][i] == history[i];
      if Concerns(history[n], key) {
        assert Writes(history[n], key, expires, value) <==> LastPut(history, key) == Some((expires, value));
      } else {
        assert !Writes(history[n], key, expires, value);
      }
    }
  }

  /** Another key was touched since if one of its touches comes after all touches of key. */
  lemma {:induction false} TouchedSinceIs<V>(history: seq<Event<V>>, key: string, other: string)
    ensures other in TouchedSince(history, key) <==>
            exists i :: 0 <= i < |history| && Touches(history[i], other)
                        && forall j :: i <= j < |history| ==> !Touches(history[j], key)
    decreases |history|
  {
    if history != [] {
      var n := |history| - 1;
      TouchedSinceIs(history[..n], key, other);
      assert forall i :: 0 <= i < n ==> history[..n][i] == history[i];
      assert other in TouchedKey(history[n]) <==> Touches(history[n], other);
      assert key in TouchedKey(history[n]) <==> Touches(history[n], key);
      assert !Touches(history[n], key) ==> forall j :: n <= j < |history| ==> !Touches(history[j], key);
    }
  }

  // ---------------------------------------------------------------- the ordered dictionary

  /** Position of key, or the length. */
  function Find<V>(data: seq<Entry<V>>, key: string): (i: nat)
    ensures i <= |data| && (i < |data| ==> data[i].key == key)
    ensures forall j :: 0 <= j < i ==> data[j].key != key
  {
    if data == [] || data[0].key == key then 0 else 1 + Find(data[1..], key)
  }

  function Without<V>(data: seq<Entry<V>>, key: string): (rest: seq<Entry<V>>)
  {
    var i := Find(data, key);
    if i == |data| then data else data[..i] + data[i + 1..]
  }

  ghost predicate DistinctKeys<V>(data: seq<Entry<V>>)
  {
    forall i, j :: 0 <= i < j < |data| ==> data[i].key != data[j].key
  }

  lemma WithoutFacts<V>(data: seq<Entry<V>>, key: string)
    requires DistinctKeys(data)
    ensures DistinctKeys(Without(data, key))
    ensures forall e :: e in Without(data, key) <==> e in data && e.key != key
    ensures |Without(data, key)| == if Find(data, key) < |data| then |data| - 1 else |data|
  {
  }

  // ---------------------------------------------------------------- the invariant

  /** Later entries were touched after earlier ones. */
  ghost predicate Recency<V>(data: seq<Entry<V>>, history: seq<Event<V>>)
  {
    forall i, j :: 0 <= i < j < |data| ==> data[j].key in TouchedSince(history, data[i].key)
  }

  /** What is kept is what was last written. */
  ghost predicate Accurate<V>(data: seq<Entry<V>>, history: seq<Event<V>>)
  {
    forall e :: e in data ==> LastPut(history, e.key) == Some((e.expires, e.value))
  }

  /** What is missing has expired, or was pushed out by as many other keys as fit. */
  ghost predicate Excused<V>(data: seq<Entry<V>>, history: seq<Event<V>>, max: nat, clock: real)
  {
    forall k :: LastPut(history, k).Some? && Find(data, k) == |data| ==>
      LastPut(history, k).value.0 <= clock || |TouchedSince(history, k)| >= max
  }

  ghost predicate Inv<V>(data: seq<Entry<V>>, history: seq<Event<V>>, max: nat, clock: real)
  {
    && DistinctKeys(data) && |data| <= max
    && Recency(data, history) && Accurate(data, history) && Excused(data, history, max, clock)
  }

  lemma FindMember<V>(data: seq<Entry<V>>, key: string)
    ensures Find(data, key) < |data| <==> exists e :: e in data && e.key == key
  {
  }

  /** Taking an entry out keeps the order of the others. */
  lemma WithoutRecency<V>(data: seq<Entry<V>>, history: seq<Event<V>>, key: string)
    requires DistinctKeys(data) && Recency(data, history)
    ensures Recency(Without(data, key), history)
  {
  }

  /** Moving key to the end, with a fresh touch of it, keeps the order by recency. */
  lemma TouchRecency<V>(data: seq<Entry<V>>, history: seq<Event<V>>, e: Entry<V>, event: Event<V>)
    requires DistinctKeys(data) && Recency(data, history) && TouchedKey(event) == {e.key}
    ensures Recency(Without(data, e.key) + [e], history + [event])
  {
    WithoutFacts(data, e.key);
    WithoutRecency(data, history, e.key);
    AppendRecency(Without(data, e.key), history, e, event);
  }

  lemma AppendRecency<V>(rest: seq<Entry<V>>, history: seq<Event<V>>, e: Entry<V>, event: Event<V>)
    requires Recency(rest, history) && TouchedKey(event) == {e.key} && forall x :: x in rest ==> x.key != e.key
    ensures Recency(rest + [e], history + [event])
  {
  }

  lemma {:induction false} KeysOf<V>(data: seq<Entry<V>>, keys: set<string>)
    requires DistinctKeys(data) && forall i :: 0 <= i < |data| ==> data[i].key in keys
    ensures |data| <= |keys|
  {
    if data != [] {
      KeysOf(data[1..], keys - {data[0].key});
    }
  }

  /** The entry at the front of an over-full dictionary was followed by max other keys. */
  lemma FrontIsOldest<V>(data: seq<Entry<V>>, history: seq<Event<V>>, max: nat)
    requires DistinctKeys(data) && Recency(data, history) && |data| == max + 1
    ensures |TouchedSince(history, data[0].key)| >= max
  {
    KeysOf(data[1..], TouchedSince(history, data[0].key));
  }

  // ---------------------------------------------------------------- steps

  lemma WithoutFits<V>(data: seq<Entry<V>>, history: seq<Event<V>>, max: nat, clock: real, key: string)
    requires Inv(data, history, max, clock)
    ensures |Without(data, key)| <= max
  {
  }

  function Trim<V>(data: seq<Entry<V>>, max: nat): (kept: seq<Entry<V>>)
  {
    if |data| > max then data[1..] else data
  }

  lemma PutAccurate<V>(data: seq<Entry<V>>, history: seq<Event<V>>, e: Entry<V>)
    requires DistinctKeys(data) && Accurate(data, history)
    ensures var all := Without(data, e.key) + [e];
            && DistinctKeys(all) && Accurate(all, history + [Put(e.key, e.expires, e.value)])
            && forall x :: x in all <==> x == e || (x in data && x.key != e.key)
  {
    WithoutFacts(data, e.key);
    hide Without;
    hide LastPut;
    var event := Put(e.key, e.expires, e.value);
    forall x | x in Without(data, e.key) + [e] ensures LastPut(history + [event], x.key) == Some((x.expires, x.value)) {
      LastPutSnoc(history, event, x.key);
    }
  }

  lemma TrimKeeps<V>(all: seq<Entry<V>>, history: seq<Event<V>>, max: nat)
    requires DistinctKeys(all) && Recency(all, history) && Accurate(all, history) && |all| <= max + 1
    ensures var after := Trim(all, max);
            DistinctKeys(after) && Recency(after, history) && Accurate(after, history) && |after| <= max
  {
    hide TouchedSince;
    hide LastPut;
  }

  lemma PutStep<V>(
    data: seq<Entry<V>>, history: seq<Event<V>>, max: nat, clock: real, now: real, e: Entry<V>, after: seq<Entry<V>>)
    requires Inv(data, history, max, clock) && clock <= now
    requires after == Trim(Without(data, e.key) + [e], max)
    ensures Inv(after, history + [Put(e.key, e.expires, e.value)], max, now)
  {
    var event := Put(e.key, e.expires, e.value);
    var all, h := Without(data, e.key) + [e], history + [event];
    WithoutFits(data, history, max, clock, e.key);
    PutAccurate(data, history, e);
    TouchRecency(data, history, e, event);
    TrimKeeps(all, h, max);
    hide DistinctKeys;
    hide Recency;
    hide Accurate;
    hide LastPut;
    hide TouchedSince;
    hide Trim;
    hide Without;
    forall k | LastPut(h, k).Some? && Find(after, k) == |after|
      ensures LastPut(h, k).value.0 <= now || |TouchedSince(h, k)| >= max
    {
      PutExcuses(data, history, max, clock, now, e, all, k);
    }
  }

  /** A key that is missing after a write was missing before, or has just been pushed out. */
  lemma PutExcuses<V>(
    data: seq<Entry<V>>, history: seq<Event<V>>, max: nat, clock: real, now: real, e: Entry<V>, all: seq<Entry<V>>, k: string)
    requires Excused(data, history, max, clock) && clock <= now && |all| <= max + 1
    requires DistinctKeys(all) && Recency(all, history + [Put(e.key, e.expires, e.value)])
    requires forall x :: x in all <==> x == e || (x in data && x.key != e.key)
    requires LastPut(history + [Put(e.key, e.expires, e.value)], k).Some? && Find(Trim(all, max), k) == |Trim(all, max)|
    ensures var h := history + [Put(e.key, e.expires, e.value)];
            LastPut(h, k).value.0 <= now || |TouchedSince(h, k)| >= max
  {
    var event := Put(e.key, e.expires, e.value);
    LastPutSnoc(history, event, k);
    TouchedSnoc(history, event, k);
    hide LastPut;
    hide TouchedSince;
    FindMember(Trim(all, max), k);
    FindMember(data, k);
    if |all| > max && all[0].key == k {
      FrontIsOldest(all, history + [event], max);
    } else {
      assert forall x :: x in all ==> x == all[0] || x in all[1..];
      assert Find(data, k) == |data| && k != e.key;
      GrowingSet(TouchedSince(history, k), {e.key});
    }
  }

  lemma GrowingSet<T>(a: set<T>, b: set<T>)
    ensures |a + b| >= |a|
  {
    assert a + b == a + (b - a);
  }

  lemma HitStep<V>(
    data: seq<Entry<V>>, history: seq<Event<V>>, max: nat, clock: real, now: real, e: Entry<V>)
    requires Inv(data, history, max, clock) && clock <= now && e in data
    ensures Inv(Without(data, e.key) + [e], history + [Hit(e.key)], max, now)
  {
    var event: Event<V> := Hit(e.key);
    var all, h := Without(data, e.key) + [e], history + [event];
    FindMember(data, e.key);
    WithoutFacts(data, e.key);
    TouchRecency(data, history, e, event);
    forall x | x in all ensures LastPut(h, x.key) == Some((x.expires, x.value)) {
      LastPutSnoc(history, event, x.key);
    }
    forall k | LastPut(h, k).Some? && Find(all, k) == |all|
      ensures LastPut(h, k).value.0 <= now || |TouchedSince(h, k)| >= max
    {
      LastPutSnoc(history, event, k);
      TouchedSnoc(history, event, k);
      FindMember(all, k);
      FindMember(data, k);
      GrowingSet(TouchedSince(history, k), {e.key});
    }
  }

  lemma DropStep<V>(data: seq<Entry<V>>, history: seq<Event<V>>, max: nat, clock: real, now: real, key: string)
    requires Inv(data, history, max, clock) && clock <= now
    ensures Inv(Without(data, key), history + [Drop(key)], max, now)
  {
    var event: Event<V> := Drop(key);
    var rest, h := Without(data, key), history + [event];
    WithoutFacts(data, key);
    WithoutRecency(data, history, key);
    forall i, j | 0 <= i < j < |rest| ensures rest[j].key in TouchedSince(h, rest[i].key) {
      TouchedSnoc(history, event, rest[i].key);
    }
    forall x | x in rest ensures LastPut(h, x.key) == Some((x.expires, x.value)) {
      LastPutSnoc(history, event, x.key);
    }
    forall k | LastPut(h, k).Some? && Find(rest, k) == |rest|
      ensures LastPut(h, k).value.0 <= now || |TouchedSince(h, k)| >= max
    {
      LastPutSnoc(history, event, k);
      TouchedSnoc(history, event, k);
      FindMember(rest, k);
      FindMember(data, k);
    }
  }

  lemma ExpireStep<V>(data: seq<Entry<V>>, history: seq<Event<V>>, max: nat, clock: real, now: real, e: Entry<V>)
    requires Inv(data, history, max, clock) && clock <= now && e in data && e.expires <= now
    ensures Inv(Without(data, e.key), history, max, now)
  {
    WithoutFacts(data, e.key);
    WithoutRecency(data, history, e.key);
    forall k | LastPut(history, k).Some? && Find(Without(data, e.key), k) == |Without(data, e.key)|
      ensures LastPut(history, k).value.0 <= now || |TouchedSince(history, k)| >= max
    {
      FindMember(Without(data, e.key), k);
      FindMember(data, k);
    }
  }

  // ---------------------------------------------------------------- the class

  class MemoryTTLCache<V> {
    const maxEntries: nat
    var data: seq<Entry<V>>           // OrderedDict, oldest first
    var generations: map<string, nat>
    ghost var history: seq<Event<V>>
    ghost var clock: real
    ghost var installed: set<(string, nat)>   // every generation ever installed

    ghost predicate Valid()
      reads this
    {
      && Inv(data, history, maxEntries, clock)
      && forall namespace, g :: (namespace, g) in installed ==> g <= CurrentGeneration(namespace)
    }

    /** The entry a caller that remembers everything would find. */
    ghost predicate IsLive(key: string, now: real)
      reads this
    {
      LastPut(history, key).Some? && LastPut(history, key).value.0 > now
    }

    constructor (maxEntries: nat, now: real)
      ensures Valid() && this.maxEntries == maxEntries && history == [] && clock == now && installed == {}
      ensures forall namespace :: CurrentGeneration(namespace) == 0
    {
      this.maxEntries := maxEntries;
      data, generations, history, clock, installed := [], map[], [], now, {};
    }

    /**
     * A hit is the last value written, unexpired and not removed; a live key is missed only
     * after maxEntries other keys were touched since its own last touch.
     */
    method Get(key: string, now: real) returns (r: Option<V>)
      requires Valid() && clock <= now
      modifies this`data, this`history, this`clock
      ensures Valid() && clock == now
      ensures r.Some? ==> old(IsLive(key, now)) && r.value == old(LastPut(history, key)).value.1
      ensures r.Some? ==> history == old(history) + [Hit(key)]
      ensures r.None? ==> history == old(history)
                          && (old(IsLive(key, now)) ==> |TouchedSince(history, key)| >= maxEntries)
    {
      var i := Find(data, key);
      if i == |data| {
        clock := now;
        return None;
      }
      var e := data[i];
      assert e in data;
      if e.expires <= now {
        ExpireStep(data, history, maxEntries, clock, now, e);
        data, clock := Without(data, key), now;
        return None;
      }
      HitStep(data, history, maxEntries, clock, now, e);
      data, clock, history := Without(data, key) + [e], now, history + [Hit(key)];
      r := Some(e.value);
    }

    /** cache.py:38-39 */
    static method EvictOldest(all: seq<Entry<V>>, max: nat) returns (kept: seq<Entry<V>>)
      requires |all| <= max + 1
      ensures kept == Trim(all, max)
    {
      kept := all;
      while |kept| > max
        invariant kept == all || (|all| == max + 1 && kept == all[1..])
      {
        kept := kept[1..];
      }
    }

    method Set(key: string, value: V, ttl: int, now: real)
      requires Valid() && clock <= now
      modifies this`data, this`history, this`clock
      ensures Valid() && clock == now
      ensures history == old(history) + [Put(key, now + (if ttl > 1 then ttl else 1) as real, value)]
    {
      var e := Entry(key, now + (if ttl > 1 then ttl else 1) as real, value);
      WithoutFits(data, history, maxEntries, clock, key);
      var kept := EvictOldest(Without(data, key) + [e], maxEntries);
      PutStep(data, history, maxEntries, clock, now, e, kept);
      data, clock, history := kept, now, history + [Put(key, e.expires, value)];
    }

    method Delete(key: string, now: real)
      requires Valid() && clock <= now
      modifies this`data, this`history, this`clock
      ensures Valid() && clock == now && history == old(history) + [Drop(key)]
    {
      DropStep(data, history, maxEntries, clock, now, key);
      data, clock, history := Without(data, key), now, history + [Drop(key)];
    }

    method Close()
      requires Valid()
      modifies this`data, this`history
      ensures Valid() && data == [] && history == old(history) + [DropAll]
    {
      data := [];
      forall k ensures LastPut(history + [DropAll], k).None? { LastPutSnoc(history, DropAll, k); }
      history := history + [DropAll];
    }

    ghost function CurrentGeneration(namespace: string): nat
      reads this
    {
      if namespace in generations then generations[namespace] else 0
    }

    method Generation(namespace: string) returns (g: nat)
      requires Valid()
      ensures g == CurrentGeneration(namespace)
      ensures forall used :: (namespace, used) in installed ==> used <= g
    {
      g := if namespace in generations then generations[namespace] else 0;
    }

    /**
     * Installs a generation above every one that was ever installed or current in its namespace,
     * so no key made before names it; other namespaces keep theirs.
     */
    method BumpGeneration(namespace: string) returns (g: nat)
      requires Valid()
      modifies this`generations, this`installed
      ensures Valid() && installed == old(installed) + {(namespace, g)}
      ensures g > old(CurrentGeneration(namespace)) && forall used :: (namespace, used) in old(installed) ==> used < g
      ensures forall other :: CurrentGeneration(other) == if other == namespace then g else old(CurrentGeneration(other))
    {
      g := (if namespace in generations then generations[namespace] else 0) + 1;
      generations := generations[namespace := g];
      installed := installed + {(namespace, g)};
    }
  }
}
