/** The bounded, expiring result caches of the split router
    (splitRuleResultCache and splitRouteResultCache, routing/split_bytecode.go). */
module ResultCache {
  import opened Basics

  const DEFAULT_TTL := 1_000_000_000
  const DEFAULT_MAX_ENTRIES := 4096

  datatype Entry<V> = Entry(value: V, expires: int)
  datatype LastEntry<K, V> = LastEntry(key: K, entry: Entry<V>)

  /** newSplitRuleResultCache: negative disables, zero selects the default. */
  function CacheConfig(ttl: int, maxEntries: int): (r: Option<(int, nat)>)
    ensures r.None? <==> ttl < 0 || maxEntries < 0
    ensures r.Some? ==> r.value.0 > 0 && r.value.1 > 0
    ensures r.Some? && ttl > 0 ==> r.value.0 == ttl
    ensures r.Some? && maxEntries > 0 ==> r.value.1 == maxEntries
    ensures r.Some? && ttl == 0 ==> r.value.0 == DEFAULT_TTL
    ensures r.Some? && maxEntries == 0 ==> r.value.1 == DEFAULT_MAX_ENTRIES
  {
    if ttl < 0 || maxEntries < 0 then None
    else Some((if ttl == 0 then DEFAULT_TTL else ttl,
               if maxEntries == 0 then DEFAULT_MAX_ENTRIES else maxEntries))
  }

  /** newSplitRouteResultCache: two zeros inherit the rule cache's settings. */
  function RouteCacheConfig(routeTTL: int, routeMax: int, ruleTTL: int, ruleMax: int): (r: Option<(int, nat)>)
    ensures routeTTL == 0 && routeMax == 0 ==> r == CacheConfig(ruleTTL, ruleMax)
    ensures routeTTL != 0 || routeMax != 0 ==> (r.None? <==> routeTTL < 0 || routeMax < 0)
    ensures r.Some? ==> r.value.0 > 0 && r.value.1 > 0
    ensures r.Some? && routeTTL > 0 ==> r.value.0 == routeTTL
    ensures r.Some? && routeMax > 0 ==> r.value.1 == routeMax
    ensures r.Some? && routeTTL == 0 && routeMax > 0 ==> r.value.0 == DEFAULT_TTL
    ensures r.Some? && routeTTL > 0 && routeMax == 0 ==> r.value.1 == DEFAULT_MAX_ENTRIES
  {
    if routeTTL == 0 && routeMax == 0 then CacheConfig(ruleTTL, ruleMax)
    else CacheConfig(routeTTL, routeMax)
  }

  class Cache<K(==), V> {
    const ttl: int
    const maxEntries: nat
    var entries: map<K, Entry<V>>
    var last: Option<LastEntry<K, V>>

    constructor (ttl: int, maxEntries: nat)
      requires maxEntries > 0
      ensures this.ttl == ttl && this.maxEntries == maxEntries
      ensures entries == map[] && last == None
    {
      this.ttl := ttl;
      this.maxEntries := maxEntries;
      entries := map[];
      last := None;
    }

    /** Every value held, also in the last-entry slot, was right for its key at the time it was
        stored, which is not after clock: right(k, t, v) says that v is right for k at time t. */
    ghost predicate Stamped(right: (K, int, V) -> bool, clock: int)
      reads this
    {
      && maxEntries > 0
      && |entries| <= maxEntries
      && Right(right, ttl, clock, entries)
      && (last.Some? ==> RightAt(right, ttl, clock, last.value.key, last.value.entry))
    }

    /** get: a value served at now was right at some moment less than ttl ago. */
    method Get(key: K, now: int, ghost right: (K, int, V) -> bool, ghost clock: int) returns (r: Option<V>)
      requires Stamped(right, clock)
      modifies this
      ensures Stamped(right, clock)
      ensures r.Some? ==> exists t: int :: now - ttl < t <= clock && right(key, t, r.value)
      ensures key in old(entries) && now < old(entries[key].expires) ==> r.Some?
      ensures old(last).Some? && old(last).value.key == key && now < old(last).value.entry.expires ==>
                r == Some(old(last).value.entry.value)
      ensures entries.Keys <= old(entries.Keys)
    {
      hide Right;
      if last.Some? && last.value.key == key && now < last.value.entry.expires {
        assert now - ttl < last.value.entry.expires - ttl;
        return Some(last.value.entry.value);
      }
      if key !in entries {
        return None;
      }
      var entry := entries[key];
      RightEntry(right, ttl, clock, entries, key);
      if now >= entry.expires {
        entries := entries - {key};
        SmallerMap(old(entries), entries);
        if last.Some? && last.value.key == key {
          last := None;
        }
        return None;
      }
      assert now - ttl < entry.expires - ttl;
      return Some(entry.value);
    }

    /** set: never more than maxEntries entries; the stored entry is the last entry even if
        pruning has dropped it from the map. */
    method Set(key: K, value: V, now: int, ghost right: (K, int, V) -> bool)
      requires Stamped(right, now) && right(key, now, value)
      modifies this
      ensures Stamped(right, now)
      ensures last == Some(LastEntry(key, Entry(value, now + ttl)))
      ensures forall k | k in entries :: (k == key || k in old(entries))
      ensures |old(entries)[key := Entry(value, now + ttl)]| <= maxEntries ==>
                entries == old(entries)[key := Entry(value, now + ttl)]
    {
      var entry := Entry(value, now + ttl);
      ghost var before := entries;
      Put(key, entry, now);
      StillRight(right, ttl, now, before, key, entry, entries);
      hide Right;
      last := Some(LastEntry(key, entry));
    }

    /** Time passes. */
    lemma StampedLater(right: (K, int, V) -> bool, clock: int, later: int)
      requires Stamped(right, clock) && clock <= later
      ensures Stamped(right, later)
    {
    }

    /** What is right in one sense is right in a weaker one. */
    lemma StampedWeaker(right: (K, int, V) -> bool, weaker: (K, int, V) -> bool, clock: int)
      requires Stamped(right, clock)
      requires forall k: K, t: int, v: V | right(k, t, v) :: weaker(k, t, v)
      ensures Stamped(weaker, clock)
    {
    }

    /** The map part of set. */
    method Put(key: K, entry: Entry<V>, now: int)
      requires maxEntries > 0
      modifies this`entries
      ensures |entries| <= maxEntries
      ensures forall k | k in entries :: k in old(entries)[key := entry] && entries[k] == old(entries)[key := entry][k]
      ensures |old(entries)[key := entry]| <= maxEntries ==> entries == old(entries)[key := entry]
    {
      entries := entries[key := entry];
      if |entries| > maxEntries {
        Prune(now);
      }
    }

    /** pruneLocked: expired entries go; if too many live ones remain, arbitrary ones go too, down to
        half capacity. */
    method Prune(now: int)
      requires maxEntries > 0
      modifies this`entries
      ensures |entries| <= maxEntries
      ensures forall k | k in entries :: k in Live(old(entries), now) && entries[k] == old(entries[k])
      ensures |Live(old(entries), now)| <= maxEntries ==> entries == Live(old(entries), now)
      ensures |Live(old(entries), now)| > maxEntries ==> |entries| == HalfCapacity(maxEntries)
    {
      DropExpired(now);
      if |entries| <= maxEntries {
        return;
      }
      var target := if maxEntries / 2 < 1 then maxEntries else maxEntries / 2;
      ghost var live := entries;
      while |entries| > target
        invariant |entries| >= target
        invariant forall k | k in entries :: k in live && entries[k] == live[k]
        decreases |entries|
      {
        assert entries.Keys != {};
        var k :| k in entries.Keys;
        ghost var before := entries;
        entries := entries - {k};
        assert entries.Keys == before.Keys - {k};
      }
    }

    /** The first loop of pruneLocked. */
    method DropExpired(now: int)
      modifies this`entries
      ensures entries == Live(old(entries), now)
    {
      var keys := entries.Keys;
      while keys != {}
        invariant keys <= entries.Keys
        invariant forall k | k in entries :: k in old(entries) && entries[k] == old(entries[k])
        invariant forall k | k in old(entries) && (k in keys || now < old(entries[k].expires)) :: k in entries
        invariant forall k | k in entries && k !in keys :: now < entries[k].expires
        decreases keys
      {
        var k :| k in keys;
        keys := keys - {k};
        if now >= entries[k].expires {
          entries := entries - {k};
        }
      }
    }

    /** clear. */
    method Clear()
      requires maxEntries > 0
      modifies this
      ensures entries == map[] && last == None
    {
      entries := map[];
      last := None;
    }
  }

  function Live<K, V>(entries: map<K, Entry<V>>, now: int): map<K, Entry<V>> {
    map k | k in entries && now < entries[k].expires :: entries[k]
  }

  function HalfCapacity(maxEntries: nat): nat {
    if maxEntries < 2 then maxEntries else maxEntries / 2
  }

  ghost predicate RightAt<K, V>(right: (K, int, V) -> bool, ttl: int, clock: int, key: K, entry: Entry<V>) {
    entry.expires - ttl <= clock && right(key, entry.expires - ttl, entry.value)
  }

  /** Each entry was right for its key at the time it was stored. */
  ghost predicate Right<K, V>(right: (K, int, V) -> bool, ttl: int, clock: int, entries: map<K, Entry<V>>) {
    forall k | k in entries :: RightAt(right, ttl, clock, k, entries[k])
  }

  lemma RightEntry<K, V>(right: (K, int, V) -> bool, ttl: int, clock: int, entries: map<K, Entry<V>>, key: K)
    requires Right(right, ttl, clock, entries) && key in entries
    ensures RightAt(right, ttl, clock, key, entries[key])
    ensures Right(right, ttl, clock, entries - {key})
  {
  }

  lemma StillRight<K, V>(right: (K, int, V) -> bool, ttl: int, clock: int, before: map<K, Entry<V>>, key: K, entry: Entry<V>,
                         after: map<K, Entry<V>>)
    requires Right(right, ttl, clock, before) && RightAt(right, ttl, clock, key, entry)
    requires forall k | k in after :: k in before[key := entry] && after[k] == before[key := entry][k]
    ensures Right(right, ttl, clock, after)
  {
  }

  lemma SmallerMap<K, V>(a: map<K, V>, b: map<K, V>)
    requires b.Keys <= a.Keys
    ensures |b| <= |a|
  {
    assert a.Keys == b.Keys + (a.Keys - b.Keys);
  }
}
