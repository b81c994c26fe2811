/** A cache with expiring items, whose lookups cannot tell when expired items are dropped. */
module MemoryCache {
  import opened Words
  import opened Wrappers

  datatype Policy = AbsoluteExpiration(duration: U64) | NoExpiration

  datatype Item<V> = Item(value: V, policy: Policy, created: U64)

  datatype Addition<K, V> = Addition(key: K, item: Item<V>)

  /** The sum wraps around. */
  predicate IsValid<V>(item: Item<V>, now: U64) {
    match item.policy
    case NoExpiration => true
    case AbsoluteExpiration(duration) => (item.created + duration) % TWO_TO_THE_64 > now
  }

  /** An item expires for good. */
  lemma ExpiresForGood<V>(item: Item<V>, now: U64, later: U64)
    requires now <= later && !IsValid(item, now)
    ensures !IsValid(item, later)
  {
  }

  lemma StillValid<V>(item: Item<V>, now: U64, later: U64)
    requires now <= later && IsValid(item, later)
    ensures IsValid(item, now)
  {
  }

  /** It is valid for exactly its duration, unless the sum wraps around: then it never is. */
  lemma ValidExactly<V>(item: Item<V>, now: U64)
    requires item.created <= now && item.policy.AbsoluteExpiration?
    ensures IsValid(item, now) <==>
              now - item.created < item.policy.duration && item.created + item.policy.duration < TWO_TO_THE_64
  {
    var sum := item.created + item.policy.duration;
    if sum >= TWO_TO_THE_64 {
      assert sum % TWO_TO_THE_64 == sum - TWO_TO_THE_64;
    }
  }

  /** An item meant to last as long as can be said is never found. */
  lemma LongestNeverValid<V>(value: V, now: U64)
    ensures !IsValid(Item(value, AbsoluteExpiration(TWO_TO_THE_64 - 1), 1), now)
  {
  }

  /** The latest item added under a key. */
  function Latest<K(==), V>(log: seq<Addition<K, V>>, key: K): Option<Item<V>> {
    if log == [] then None
    else if log[|log| - 1].key == key then Some(log[|log| - 1].item)
    else Latest(log[..|log| - 1], key)
  }

  /** What a lookup is to find: the latest value, if it is still valid. */
  function Lookup<K(==), V>(log: seq<Addition<K, V>>, key: K, now: U64): Option<V> {
    var latest := Latest(log, key);
    if latest.Some? && IsValid(latest.value, now) then Some(latest.value.value) else None
  }

  /** Until the key is added again, a value that is gone stays gone, and a later lookup finds nothing else. */
  lemma LookupOnlyExpires<K, V>(log: seq<Addition<K, V>>, key: K, now: U64, later: U64)
    requires now <= later
    ensures Lookup(log, key, later) in {None, Lookup(log, key, now)}
  {
    var latest := Latest(log, key);
    if latest.Some? && !IsValid(latest.value, now) {
      ExpiresForGood(latest.value, now, later);
    }
  }

  lemma {:induction false} LatestOfOthers<K, V>(log: seq<Addition<K, V>>, more: seq<Addition<K, V>>, key: K)
    requires forall i :: 0 <= i < |more| ==> more[i].key != key
    ensures Latest(log + more, key) == Latest(log, key)
    decreases more
  {
    if more == [] {
      assert log + more == log;
    } else {
      assert (log + more)[..|log + more| - 1] == log + more[..|more| - 1];
      LatestOfOthers(log, more[..|more| - 1], key);
    }
  }

  /** The latest item is the one that was added under the key and not replaced since. */
  lemma {:induction false} LatestExactly<K, V>(log: seq<Addition<K, V>>, key: K)
    ensures Latest(log, key).Some? ==> exists i :: IsLast(log, key, i) && log[i].item == Latest(log, key).value
    ensures Latest(log, key).None? ==> forall i :: 0 <= i < |log| ==> log[i].key != key
  {
    if log != [] {
      var init := log[..|log| - 1];
      if log[|log| - 1].key == key {
        assert IsLast(log, key, |log| - 1);
      } else {
        LatestExactly(init, key);
        if Latest(init, key).Some? {
          var i :| IsLast(init, key, i) && init[i].item == Latest(init, key).value;
          assert IsLast(log, key, i) && log[i] == init[i];
        }
      }
    }
  }

  /** The last addition under the key is there. */
  ghost predicate IsLast<K, V>(log: seq<Addition<K, V>>, key: K, i: int) {
    0 <= i < |log| && log[i].key == key && forall j :: i < j < |log| ==> log[j].key != key
  }

  /** A clock that does not run backward. */
  class Clock {
    var time: U64

    constructor (time: U64)
      ensures this.time == time
    {
      this.time := time;
    }

    method Now() returns (now: U64)
      modifies this
      ensures old(time) <= now == time
    {
      now :| time <= now;
      time := now;
    }
  }

  class MemoryCache<K(==,!new), V> {
    const clock: Clock
    var cache: map<K, Item<V>>
    ghost var log: seq<Addition<K, V>>

    /** What is cached is the latest; what is not has expired or was never added. */
    ghost predicate Valid()
      reads this, clock
    {
      Represents(cache, log, clock.time)
    }

    constructor (clock: Clock)
      ensures Valid() && log == [] && this.clock == clock
    {
      this.clock := clock;
      cache, log := map[], [];
    }

    /** A cache of some initial items, each created at its own reading of the clock. */
    constructor FromIter(items: seq<(K, V, Policy)>, clock: Clock)
      modifies clock
      ensures Valid() && this.clock == clock && old(clock.time) <= clock.time
      ensures |log| == |items|
      ensures forall i :: 0 <= i < |items| ==> log[i].key == items[i].0
      ensures forall i :: 0 <= i < |items| ==> log[i].item.value == items[i].1 && log[i].item.policy == items[i].2
      ensures forall i :: 0 <= i < |items| ==> old(clock.time) <= log[i].item.created <= clock.time
    {
      this.clock := clock;
      cache, log := map[], [];
      new;
      for i := 0 to |items|
        invariant this.clock == clock && old(clock.time) <= clock.time && |log| == i
        invariant forall j :: 0 <= j < i ==> log[j].key == items[j].0
        invariant forall j :: 0 <= j < i ==> log[j].item.value == items[j].1 && log[j].item.policy == items[j].2
        invariant forall j :: 0 <= j < i ==> old(clock.time) <= log[j].item.created <= clock.time
        invariant Represents(cache, log, clock.time)
      {
        var before := clock.time;
        var now := clock.Now();
        var item := Item(items[i].1, items[i].2, now);
        LaterCaches(cache, log, before, now);
        InsertCaches(cache, log, items[i].0, item, now);
        cache := cache[items[i].0 := item];
        log := log + [Addition(items[i].0, item)];
      }
    }

    method Add(key: K, value: V, policy: Policy)
      requires Valid()
      modifies this, clock
      ensures Valid() && old(clock.time) <= clock.time
      ensures exists created :: old(clock.time) <= created <= clock.time &&
                log == old(log) + [Addition(key, Item(value, policy, created))]
      ensures forall other :: other in cache ==> IsValid(cache[other], old(clock.time))
    {
      var before := clock.time;
      var now := clock.Now();
      var item := Item(value, policy, now);
      LaterCaches(cache, log, before, now);
      InsertCaches(cache, log, key, item, now);
      cache := cache[key := item];
      log := log + [Addition(key, item)];
      DropExpired();
      forall other | other in cache
        ensures IsValid(cache[other], before)
      {
        StillValid(cache[other], before, now);
      }
    }

    /** Finds the latest value that has not expired at a reading of the clock. */
    method Get(key: K) returns (r: Option<V>)
      requires Valid()
      modifies this, clock
      ensures Valid() && log == old(log) && old(clock.time) <= clock.time
      ensures r == Lookup(log, key, clock.time)
      ensures cache == if r.Some? then old(cache) else old(cache) - {key}
    {
      var before := clock.time;
      LaterCaches(cache, log, before, before);
      if key in cache {
        var now := clock.Now();
        LaterCaches(cache, log, before, now);
        DropCaches(cache, log, key, now);
        if !IsValid(cache[key], now) {
          cache := cache - {key};
        }
      }
      assert Cached(cache, log, key, clock.time);
      r := if key in cache then Some(cache[key].value) else None;
    }

    /** Drops items one by one, each if it has expired at a reading of the clock; what had expired before is gone. */
    method DropExpired()
      requires Valid()
      modifies this`cache, clock
      ensures Valid() && old(clock.time) <= clock.time
      ensures forall key :: key in cache ==>
                key in old(cache) && cache[key] == old(cache)[key] && IsValid(cache[key], old(clock.time))
    {
      var rest := cache.Keys;
      while rest != {}
        invariant rest <= cache.Keys && old(clock.time) <= clock.time && Valid()
        invariant forall key :: key in cache ==> key in old(cache) && cache[key] == old(cache)[key]
        invariant forall key :: key in cache && key !in rest ==> IsValid(cache[key], old(clock.time))
        decreases rest
      {
        var key :| key in rest;
        var before := clock.time;
        var now := clock.Now();
        LaterCaches(cache, log, before, now);
        DropCaches(cache, log, key, now);
        if !IsValid(cache[key], now) {
          cache := cache - {key};
        }
        rest := rest - {key};
      }
    }
  }

  /** The cache holds the latest item of the key, or that item has expired. */
  ghost predicate Cached<K(!new), V>(cache: map<K, Item<V>>, log: seq<Addition<K, V>>, key: K, now: U64) {
    if key in cache then Latest(log, key) == Some(cache[key])
    else Latest(log, key) == None || !IsValid(Latest(log, key).value, now)
  }

  ghost predicate Represents<K(!new), V>(cache: map<K, Item<V>>, log: seq<Addition<K, V>>, now: U64) {
    forall key :: Cached(cache, log, key, now)
  }

  lemma LaterCaches<K(!new), V>(cache: map<K, Item<V>>, log: seq<Addition<K, V>>, now: U64, later: U64)
    requires now <= later && Represents(cache, log, now)
    ensures Represents(cache, log, later)
  {
    forall key
      ensures Cached(cache, log, key, later)
    {
      assert Cached(cache, log, key, now);
      if key !in cache && Latest(log, key).Some? {
        ExpiresForGood(Latest(log, key).value, now, later);
      }
    }
  }

  lemma InsertCaches<K(!new), V>(cache: map<K, Item<V>>, log: seq<Addition<K, V>>, key: K, item: Item<V>, now: U64)
    requires Represents(cache, log, now)
    ensures Represents(cache[key := item], log + [Addition(key, item)], now)
  {
    var cache', log' := cache[key := item], log + [Addition(key, item)];
    assert log'[..|log|] == log;
    forall k
      ensures Cached(cache', log', k, now)
    {
      assert Cached(cache, log, k, now);
    }
  }

  lemma DropCaches<K(!new), V>(cache: map<K, Item<V>>, log: seq<Addition<K, V>>, key: K, now: U64)
    requires key in cache && Represents(cache, log, now)
    ensures !IsValid(cache[key], now) ==> Represents(cache - {key}, log, now)
  {
    if !IsValid(cache[key], now) {
      var less := cache - {key};
      assert Cached(cache, log, key, now);
      forall k
        ensures Cached(less, log, k, now)
      {
        assert Cached(cache, log, k, now);
      }
    }
  }

  // ---- lookups overlapping with other calls ----

  /** The single accesses to the concurrent map of which calls are made; a lookup is a drop and then a read. */
  datatype Access<K, V> = Insert(key: K, value: V, policy: Policy, now: U64) | DropIfExpired(key: K, now: U64)

  datatype State<K, V> = State(cache: map<K, Item<V>>, log: seq<Addition<K, V>>, now: U64)

  function Next<K(==), V>(s: State<K, V>, access: Access<K, V>): State<K, V> {
    match access
    case Insert(key, value, policy, now) =>
      var item := Item(value, policy, now);
      State(s.cache[key := item], s.log + [Addition(key, item)], now)
    case DropIfExpired(key, now) =>
      State(if key in s.cache && !IsValid(s.cache[key], now) then s.cache - {key} else s.cache, s.log, now)
  }

  /** Readings of the clock do not decrease. */
  predicate Timely<K(==), V>(s: State<K, V>, accesses: seq<Access<K, V>>)
    decreases accesses
  {
    accesses == [] || (s.now <= accesses[0].now && Timely(Next(s, accesses[0]), accesses[1..]))
  }

  function Run<K(==), V>(s: State<K, V>, accesses: seq<Access<K, V>>): State<K, V>
    decreases accesses
  {
    if accesses == [] then s else Run(Next(s, accesses[0]), accesses[1..])
  }

  lemma NextRepresents<K(!new), V>(s: State<K, V>, access: Access<K, V>)
    requires Represents(s.cache, s.log, s.now) && s.now <= access.now
    ensures Represents(Next(s, access).cache, Next(s, access).log, access.now)
  {
    LaterCaches(s.cache, s.log, s.now, access.now);
    match access
    case Insert(key, value, policy, now) => InsertCaches(s.cache, s.log, key, Item(value, policy, now), now);
    case DropIfExpired(key, now) =>
      if key in s.cache {
        DropCaches(s.cache, s.log, key, now);
      }
  }

  lemma {:induction false} RunRepresents<K(!new), V>(s: State<K, V>, accesses: seq<Access<K, V>>)
    requires Represents(s.cache, s.log, s.now) && Timely(s, accesses)
    ensures var t := Run(s, accesses);
            Represents(t.cache, t.log, t.now) && s.now <= t.now && s.log <= t.log
    decreases accesses
  {
    OnlyGrows(s, accesses);
    if accesses != [] {
      NextRepresents(s, accesses[0]);
      RunRepresents(Next(s, accesses[0]), accesses[1..]);
    }
  }

  /** The key has been added since the log was that long. */
  ghost predicate IsAdded<K, V>(log: seq<Addition<K, V>>, since: nat, key: K) {
    exists i :: since <= i < |log| && log[i].key == key
  }

  /** A key is in the cache only if it was before or has been added since. */
  lemma {:induction false} OnlyAdded<K(!new), V>(s: State<K, V>, accesses: seq<Access<K, V>>, key: K)
    requires key !in s.cache && key in Run(s, accesses).cache
    ensures IsAdded(Run(s, accesses).log, |s.log|, key) && s.log <= Run(s, accesses).log
    decreases accesses
  {
    var next := Next(s, accesses[0]);
    if key in next.cache {
      OnlyGrows(next, accesses[1..]);
      assert Run(s, accesses).log[|s.log|] == next.log[|s.log|];
    } else {
      OnlyAdded(next, accesses[1..], key);
    }
  }

  lemma {:induction false} OnlyGrows<K, V>(s: State<K, V>, accesses: seq<Access<K, V>>)
    ensures s.log <= Run(s, accesses).log
    decreases accesses
  {
    if accesses != [] {
      OnlyGrows(Next(s, accesses[0]), accesses[1..]);
    }
  }

  /**
   * A lookup with any accesses of others between its drop and its read finds the latest value as of the read,
   * valid at the drop or added since; it finds nothing only if that value has expired, or there is none.
   */
  lemma InterleavedLookup<K(!new), V>(s: State<K, V>, key: K, dropped: U64, others: seq<Access<K, V>>)
    requires Represents(s.cache, s.log, s.now) && s.now <= dropped
    requires Timely(Next(s, DropIfExpired(key, dropped)), others)
    ensures var t := Run(Next(s, DropIfExpired(key, dropped)), others);
            && s.log <= t.log
            && (key in t.cache ==> Latest(t.log, key) == Some(t.cache[key]))
            && (key in t.cache ==> IsValid(t.cache[key], dropped) || IsAdded(t.log, |s.log|, key))
            && (key !in t.cache ==> Lookup(t.log, key, t.now) == None)
  {
    var after := Next(s, DropIfExpired(key, dropped));
    NextRepresents(s, DropIfExpired(key, dropped));
    RunRepresents(after, others);
    var t := Run(after, others);
    assert Cached(t.cache, t.log, key, t.now) && Cached(after.cache, after.log, key, dropped);
    if key in t.cache && !IsAdded(t.log, |s.log|, key) {
      assert key in after.cache by {
        if key !in after.cache {
          OnlyAdded(after, others, key);
        }
      }
      assert t.log == s.log + t.log[|s.log|..];
      LatestOfOthers(s.log, t.log[|s.log|..], key);
    }
  }
}
