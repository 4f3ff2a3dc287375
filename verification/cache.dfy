/**
 The in-memory cache with a time-to-live per entry and least-recently-used
 eviction (app/storage/cache.py). Entries are kept oldest first; the clock
 reading `now` (whole seconds) is a parameter of every timed operation, and
 the lock that serialises the operations is left out.
 */
module TtlCache {
  import opened Base
  import opened OrderedMaps

  /** A cached value and the instant after which it is stale. */
  datatype Entry<V> = Entry(value: V, expiry: int)

  datatype Cache<V> = Cache(maxSize: nat, defaultTtl: int, entries: OrderedMap<Entry<V>>)

  /** The entries are a well-formed ordered map within the size limit. */
  ghost predicate Valid<V>(c: Cache<V>)
  {
    OrderedMaps.Valid(c.entries) && |c.entries.order| <= c.maxSize
  }

  /** An entry is stale once the clock is strictly past its expiry. */
  predicate Expired<V>(e: Entry<V>, now: int)
  {
    now > e.expiry
  }

  const EmbeddingCacheSize: nat := 500
  const EmbeddingCacheTtl: int := 3600
  const TemplateCacheSize: nat := 100
  const TemplateCacheTtl: int := 86400

  function NewCache<V>(maxSize: nat, defaultTtl: int): (c: Cache<V>)
    ensures Valid(c) && Size(c) == 0
    ensures c.maxSize == maxSize && c.defaultTtl == defaultTtl
  {
    Cache(maxSize, defaultTtl, OrderedMaps.Empty())
  }

  function Size<V>(c: Cache<V>): nat
  {
    |c.entries.order|
  }

  /**
   `get`: a missing key is a miss; a stale entry is deleted and is a miss;
   a fresh entry is returned and becomes the most recently used.
   */
  function Get<V>(c: Cache<V>, key: string, now: int): (r: (Cache<V>, Option<V>))
    requires Valid(c)
    ensures Valid(r.0) && r.0.maxSize == c.maxSize && r.0.defaultTtl == c.defaultTtl
    ensures r.1.Some? <==> key in c.entries.values && !Expired(c.entries.values[key], now)
    ensures r.1.Some? ==> r.1.value == c.entries.values[key].value
    ensures key !in c.entries.values ==> r.0 == c
    ensures key in c.entries.values && Expired(c.entries.values[key], now) ==>
      && r.0.entries.order == Without(c.entries.order, key)
      && r.0.entries.values == c.entries.values - {key}
    ensures r.1.Some? ==>
      && r.0.entries.order == Without(c.entries.order, key) + [key]
      && r.0.entries.values == c.entries.values
  {
    if key !in c.entries.values then (c, None)
    else
      var e := c.entries.values[key];
      if Expired(e, now) then
        (c.(entries := Delete(c.entries, key)), None)
      else
        WithoutShorter(c.entries.order, key);
        (c.(entries := MoveToEnd(c.entries, key)), Some(e.value))
  }

  /** Leaving out a key that is present shortens the sequence. */
  lemma WithoutShorter(s: seq<string>, k: string)
    requires Distinct(s) && k in s
    ensures |Without(s, k)| == |s| - 1
  {
    var i :| 0 <= i < |s| && s[i] == k;
    WithoutAt(s, i);
  }

  /** The expiry `set` gives an entry: the given ttl, or the default when none is given. */
  function ExpiryOf<V>(c: Cache<V>, ttl: Option<int>, now: int): int
  {
    now + ttl.GetOr(c.defaultTtl)
  }

  /**
   `set`: the entry is stored (replacing any earlier one) as the most
   recently used, then the oldest entries are evicted while the cache holds
   more than `maxSize` of them.
   */
  function Set<V>(c: Cache<V>, key: string, value: V, ttl: Option<int>, now: int): (r: Cache<V>)
    requires Valid(c)
    ensures Valid(r) && r.maxSize == c.maxSize && r.defaultTtl == c.defaultTtl
    ensures IsSuffix(r.entries.order, Without(c.entries.order, key) + [key])
    ensures |r.entries.order| == Min(|Without(c.entries.order, key)| + 1, c.maxSize)
    ensures c.maxSize >= 1 ==>
      && key in r.entries.values && r.entries.values[key] == Entry(value, ExpiryOf(c, ttl, now))
      && |r.entries.order| >= 1 && r.entries.order[|r.entries.order| - 1] == key
    ensures forall k :: k in r.entries.values && k != key ==> r.entries.values[k] == c.entries.values[k]
  {
    var moved := StoreAsRecent(c.entries, key, Entry(value, ExpiryOf(c, ttl, now)));
    var evicted := EvictOldest(moved, c.maxSize);
    EvictKeepsNewest(moved, c.maxSize, evicted.0, evicted.1);
    EvictedSuffix(moved.order, c.maxSize, evicted.0.order, evicted.1);
    c.(entries := evicted.0)
  }

  function Min(a: int, b: int): int
  {
    if a <= b then a else b
  }

  /** What eviction keeps of a key sequence: its last `cap` keys, or all of them. */
  lemma EvictedSuffix(order: seq<string>, cap: nat, kept: seq<string>, dropped: seq<string>)
    requires |dropped| == (if |order| <= cap then 0 else |order| - cap)
    requires kept == order[|dropped|..]
    ensures IsSuffix(kept, order) && |kept| == Min(|order|, cap)
  {
  }

  /** `d[k] = v; d.move_to_end(k)`: the key holds `v` and is the most recent one. */
  function StoreAsRecent<V>(m: OrderedMap<V>, key: string, v: V): (r: OrderedMap<V>)
    requires OrderedMaps.Valid(m)
    ensures OrderedMaps.Valid(r)
    ensures r.order == Without(m.order, key) + [key]
    ensures r.values == m.values[key := v]
  {
    var stored := Assign(m, key, v);
    if key !in m.values then
      KeepAppend(m.order, [key], {key});
      KeepNothing(m.order, {key});
      assert Keep([key], {key}) == Keep([], {key});
      MoveToEnd(stored, key)
    else
      MoveToEnd(stored, key)
  }

  /** `invalidate`: drop the key if present. */
  function Invalidate<V>(c: Cache<V>, key: string): (r: Cache<V>)
    requires Valid(c)
    ensures Valid(r) && r.maxSize == c.maxSize && r.defaultTtl == c.defaultTtl
    ensures r.entries.values == c.entries.values - {key}
    ensures r.entries.order == Without(c.entries.order, key)
  {
    c.(entries := Delete(c.entries, key))
  }

  /** `clear`. */
  function Clear<V>(c: Cache<V>): (r: Cache<V>)
    ensures Valid(r) && Size(r) == 0 && r.entries.values == map[]
    ensures r.maxSize == c.maxSize && r.defaultTtl == c.defaultTtl
  {
    c.(entries := OrderedMaps.Empty())
  }

  /** The keys whose entries are still fresh at `now`. */
  function FreshKeys<V>(values: map<string, Entry<V>>, now: int): set<string>
  {
    set k | k in values && !Expired(values[k], now)
  }

  /**
   `cleanup_expired`: every stale entry is deleted, every fresh one kept in
   its place, and the number of deleted entries is returned.
   */
  function CleanupExpired<V>(c: Cache<V>, now: int): (r: (Cache<V>, nat))
    requires Valid(c)
    ensures Valid(r.0) && r.0.maxSize == c.maxSize && r.0.defaultTtl == c.defaultTtl
    ensures forall k :: k in r.0.entries.values <==> k in c.entries.values && !Expired(c.entries.values[k], now)
    ensures forall k :: k in r.0.entries.values ==> r.0.entries.values[k] == c.entries.values[k]
    ensures r.0.entries.order == Keep(c.entries.order, set k | k in c.entries.values && Expired(c.entries.values[k], now))
    ensures r.1 + Size(r.0) == Size(c)
  {
    var expired := Keep(c.entries.order, FreshKeys(c.entries.values, now));
    var remaining := DeleteEach(c.entries, expired);
    KeepFacts(c.entries.order, FreshKeys(c.entries.values, now));
    assert (set k | k in expired) == set k | k in c.entries.values && Expired(c.entries.values[k], now);
    KeepPartition(c.entries.order, FreshKeys(c.entries.values, now), set k | k in expired);
    (c.(entries := remaining), |expired|)
  }

  /** With room for one entry, a fresh value is readable straight after it is set. */
  lemma SetThenGet<V>(c: Cache<V>, key: string, value: V, ttl: Option<int>, now: int)
    requires Valid(c) && c.maxSize >= 1 && ExpiryOf(c, ttl, now) >= now
    ensures Get(Set(c, key, value, ttl, now), key, now).1 == Some(value)
  {
  }

  /** Setting never leaves the cache over its limit, and a second set of the same key overwrites. */
  lemma SetOverwrites<V>(c: Cache<V>, key: string, v1: V, v2: V, ttl: Option<int>, now: int)
    requires Valid(c) && c.maxSize >= 1
    ensures
      var r := Set(Set(c, key, v1, ttl, now), key, v2, ttl, now);
      key in r.entries.values && r.entries.values[key].value == v2 && Size(r) <= c.maxSize
  {
  }

  /** After a cleanup nothing stale is left, so a second cleanup removes nothing. */
  lemma CleanupIdempotent<V>(c: Cache<V>, now: int)
    requires Valid(c)
    ensures CleanupExpired(CleanupExpired(c, now).0, now).1 == 0
  {
    var d := CleanupExpired(c, now).0;
    var live := FreshKeys(d.entries.values, now);
    forall k | k in d.entries.order
      ensures k in live
    {
      assert k in d.entries.values;
      assert d.entries.values[k] == c.entries.values[k];
    }
    KeepFacts(d.entries.order, live);
    NoMemberEmpty(Keep(d.entries.order, live));
  }

  /** A sequence without members is empty. */
  lemma NoMemberEmpty(s: seq<string>)
    ensures (forall k :: k !in s) ==> s == []
  {
    if |s| > 0 {
      assert s[0] in s;
    }
  }
}
