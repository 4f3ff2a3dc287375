/**
 Python's insertion-ordered dictionaries (`dict` and `collections.OrderedDict`)
 as a key sequence, oldest first, beside a map from key to value. Every
 dictionary of the modelled code is keyed by strings.
 */
module OrderedMaps {
  import opened Base
  import opened Seqs

  /** No key appears twice. */
  predicate Distinct(s: seq<string>)
  {
    forall i, j :: 0 <= i < j < |s| ==> s[i] != s[j]
  }

  /** `a` is a trailing part of `b`. */
  predicate IsSuffix(a: seq<string>, b: seq<string>)
  {
    |a| <= |b| && a == b[|b| - |a|..]
  }

  datatype OrderedMap<V> = OrderedMap(order: seq<string>, values: map<string, V>)

  /** The key sequence lists every key of the map exactly once. */
  ghost predicate Valid<V>(m: OrderedMap<V>)
  {
    && Distinct(m.order)
    && (forall k :: k in m.values <==> k in m.order)
  }

  function Empty<V>(): (m: OrderedMap<V>)
    ensures Valid(m) && |m.order| == 0 && m.values == map[]
  {
    OrderedMap([], map[])
  }

  function Size<V>(m: OrderedMap<V>): nat
  {
    |m.order|
  }

  /** `d.get(k)`. */
  function Get<V>(m: OrderedMap<V>, k: string): (r: Option<V>)
    ensures r.Some? <==> k in m.values
    ensures r.Some? ==> r.value == m.values[k]
  {
    if k in m.values then Some(m.values[k]) else None
  }

  /** `s` with every key of `drop` left out, the rest in order. */
  function Keep(s: seq<string>, drop: set<string>): seq<string>
    decreases |s|
  {
    if |s| == 0 then []
    else if s[0] in drop then Keep(s[1..], drop)
    else [s[0]] + Keep(s[1..], drop)
  }

  /** Filtering keeps exactly the keys not dropped, adds no repeats and never lengthens. */
  lemma {:induction false} KeepFacts(s: seq<string>, drop: set<string>)
    ensures forall x :: x in Keep(s, drop) <==> x in s && x !in drop
    ensures Distinct(s) ==> Distinct(Keep(s, drop))
    ensures |Keep(s, drop)| <= |s|
    decreases |s|
  {
    if |s| > 0 {
      KeepFacts(s[1..], drop);
      assert s == [s[0]] + s[1..];
      assert Distinct(s) ==> Distinct(s[1..]);
      if s[0] !in drop {
        KeepStepDistinct(s, Keep(s[1..], drop));
      }
    }
  }

  /** `s` with every occurrence of `k` left out, the rest in order. */
  function Without(s: seq<string>, k: string): (r: seq<string>)
    ensures forall x :: x in r <==> x in s && x != k
    ensures Distinct(s) ==> Distinct(r)
    ensures k !in s ==> r == s
    ensures |r| <= |s|
  {
    KeepFacts(s, {k});
    KeepNothing(s, {k});
    Keep(s, {k})
  }

  /** Dropping keys the sequence does not hold changes nothing. */
  lemma {:induction false} KeepNothing(s: seq<string>, drop: set<string>)
    ensures (forall x :: x in s ==> x !in drop) ==> Keep(s, drop) == s
    decreases |s|
  {
    if |s| > 0 {
      KeepNothing(s[1..], drop);
      assert s == [s[0]] + s[1..];
    }
  }

  /** Dropping one set of keys and then another is dropping both at once. */
  lemma {:induction false} KeepKeep(s: seq<string>, a: set<string>, b: set<string>)
    ensures Keep(Keep(s, a), b) == Keep(s, a + b)
    decreases |s|
  {
    if |s| > 0 {
      KeepKeep(s[1..], a, b);
      if s[0] !in a {
        assert Keep(s, a) == [s[0]] + Keep(s[1..], a);
        assert Keep(s, a)[1..] == Keep(s[1..], a);
      }
    }
  }

  /** Filtering distributes over concatenation. */
  lemma {:induction false} KeepAppend(a: seq<string>, b: seq<string>, drop: set<string>)
    ensures Keep(a + b, drop) == Keep(a, drop) + Keep(b, drop)
    decreases |a|
  {
    if |a| == 0 {
      assert a + b == b;
    } else {
      KeepAppend(a[1..], b, drop);
      assert (a + b)[1..] == a[1..] + b;
      assert (a + b)[0] == a[0];
      if a[0] !in drop {
        Assoc([a[0]], Keep(a[1..], drop), Keep(b, drop));
      }
    }
  }

  /** When every element is dropped by exactly one of two filters, their lengths add up. */
  lemma {:induction false} KeepPartition(s: seq<string>, a: set<string>, b: set<string>)
    requires forall x :: x in s ==> (x in a <==> x !in b)
    ensures |Keep(s, a)| + |Keep(s, b)| == |s|
    decreases |s|
  {
    if |s| > 0 {
      assert s[0] in s;
      KeepPartition(s[1..], a, b);
    }
  }

  /** Keeping the first key in front of a repeat-free selection from the rest. */
  lemma KeepStepDistinct(s: seq<string>, rest: seq<string>)
    requires |s| > 0 && forall x :: x in rest ==> x in s[1..]
    ensures Distinct(s) && Distinct(rest) ==> Distinct([s[0]] + rest)
  {
    if Distinct(s) && Distinct(rest) {
      assert s == [s[0]] + s[1..];
      DistinctCons(s[0], s[1..], rest);
    }
  }

  /** Putting in front a key the tail does not hold keeps it free of repeats. */
  lemma DistinctCons(x: string, tail: seq<string>, sub: seq<string>)
    requires Distinct([x] + tail)
    requires Distinct(sub) && forall y :: y in sub ==> y in tail
    ensures Distinct([x] + sub)
  {
    assert forall j :: 0 <= j < |tail| ==> ([x] + tail)[j + 1] == tail[j];
    assert forall j :: 0 <= j < |tail| ==> tail[j] != x by {
      assert ([x] + tail)[0] == x;
    }
    forall i, j | 0 <= i < j < |[x] + sub|
      ensures ([x] + sub)[i] != ([x] + sub)[j]
    {
      if i == 0 {
        assert ([x] + sub)[j] == sub[j - 1];
        assert sub[j - 1] in tail;
      } else {
        assert ([x] + sub)[i] == sub[i - 1] && ([x] + sub)[j] == sub[j - 1];
      }
    }
  }

  /** In a sequence without repeats, leaving out `s[i]` is cutting it out. */
  lemma {:induction false} WithoutAt(s: seq<string>, i: nat)
    requires Distinct(s) && i < |s|
    ensures Without(s, s[i]) == s[..i] + s[i + 1..]
    decreases |s|
  {
    if i == 0 {
      assert s[0] !in s[1..];
      KeepNothing(s[1..], {s[0]});
      assert s[..0] + s[1..] == s[1..];
    } else {
      assert s[i] in s[1..];
      WithoutAt(s[1..], i - 1);
      assert s[1..][i - 1] == s[i];
      assert s[..i] + s[i + 1..] == [s[0]] + (s[1..][..i - 1] + s[1..][i..]);
    }
  }

  /** `del d[k]` when present; no change otherwise. */
  function Delete<V>(m: OrderedMap<V>, k: string): (r: OrderedMap<V>)
    requires Valid(m)
    ensures Valid(r)
    ensures r.order == Without(m.order, k)
    ensures r.values.Keys == m.values.Keys - {k}
    ensures forall x :: x in r.values ==> r.values[x] == m.values[x]
    ensures k !in m.values ==> r == m
  {
    if k in m.values then OrderedMap(Without(m.order, k), m.values - {k}) else m
  }

  /** `d.move_to_end(k)`: the key becomes the most recent one. */
  function MoveToEnd<V>(m: OrderedMap<V>, k: string): (r: OrderedMap<V>)
    requires Valid(m) && k in m.values
    ensures Valid(r)
    ensures r.order == Without(m.order, k) + [k]
    ensures r.values == m.values
  {
    OrderedMap(Without(m.order, k) + [k], m.values)
  }

  /** `d[k] = v`: an existing key keeps its place, a new key goes last. */
  function Assign<V>(m: OrderedMap<V>, k: string, v: V): (r: OrderedMap<V>)
    requires Valid(m)
    ensures Valid(r)
    ensures r.values == m.values[k := v]
    ensures k in m.values ==> r.order == m.order
    ensures k !in m.values ==> r.order == m.order + [k]
  {
    if k in m.values then OrderedMap(m.order, m.values[k := v])
    else OrderedMap(m.order + [k], m.values[k := v])
  }

  /**
   `while len(d) > cap: del d[next(iter(d))]`: drop the oldest key until the
   capacity holds. Returns the new map and the dropped keys in drop order:
   exactly the oldest `len(d) - cap` keys when over capacity, none otherwise.
   */
  function EvictOldest<V>(m: OrderedMap<V>, cap: nat): (r: (OrderedMap<V>, seq<string>))
    requires Valid(m)
    ensures Valid(r.0)
    ensures |r.1| == if |m.order| <= cap then 0 else |m.order| - cap
    ensures r.1 == m.order[..|r.1|]
    ensures r.0.order == m.order[|r.1|..]
    ensures forall k :: k in r.0.values ==> k in m.values && r.0.values[k] == m.values[k]
    decreases |m.order|
  {
    if |m.order| <= cap then (m, [])
    else
      var rest := DeleteOldest(m);
      var next := EvictOldest(rest, cap);
      var dropped := [m.order[0]] + next.1;
      EvictStep(m.order, cap, next.1, next.0.order);
      (next.0, dropped)
  }

  /**
   What eviction leaves, stated on its result: at most `cap` keys and, with
   room for at least one, the newest key last with its value.
   */
  lemma EvictKeepsNewest<V>(m: OrderedMap<V>, cap: nat, kept: OrderedMap<V>, dropped: seq<string>)
    requires Valid(m) && Valid(kept)
    requires |dropped| == if |m.order| <= cap then 0 else |m.order| - cap
    requires kept.order == m.order[|dropped|..]
    requires forall k :: k in kept.values ==> k in m.values && kept.values[k] == m.values[k]
    ensures |kept.order| <= cap
    ensures cap >= 1 && |m.order| >= 1 ==>
      var newest := m.order[|m.order| - 1];
      && |kept.order| >= 1 && kept.order[|kept.order| - 1] == newest
      && newest in kept.values && kept.values[newest] == m.values[newest]
  {
    if cap >= 1 && |m.order| >= 1 {
      assert |dropped| < |m.order|;
      assert kept.order[|kept.order| - 1] == m.order[|m.order| - 1];
      assert kept.order[|kept.order| - 1] in kept.order;
    }
  }

  /** One more round of the eviction loop, on the key sequence alone. */
  lemma EvictStep(order: seq<string>, cap: nat, dropped: seq<string>, kept: seq<string>)
    requires |order| > cap
    requires |dropped| == if |order| - 1 <= cap then 0 else |order| - 1 - cap
    requires dropped == order[1..][..|dropped|] && kept == order[1..][|dropped|..]
    ensures |[order[0]] + dropped| == |order| - cap
    ensures [order[0]] + dropped == order[..|[order[0]] + dropped|]
    ensures kept == order[|[order[0]] + dropped|..]
  {
  }

  /** `del d[next(iter(d))]`: drop the oldest key. */
  function DeleteOldest<V>(m: OrderedMap<V>): (r: OrderedMap<V>)
    requires Valid(m) && |m.order| > 0
    ensures Valid(r)
    ensures r.order == m.order[1..]
    ensures forall k :: k in r.values ==> k in m.values && r.values[k] == m.values[k]
  {
    WithoutFirst(m.order);
    Delete(m, m.order[0])
  }

  /** In a sequence without repeats, leaving out the first element drops it. */
  lemma WithoutFirst(s: seq<string>)
    requires Distinct(s) && |s| > 0
    ensures Without(s, s[0]) == s[1..]
  {
    assert s[0] !in s[1..];
    KeepNothing(s[1..], {s[0]});
  }

  /** `for k in ks: del d[k]`, for keys that may or may not be present. */
  function DeleteEach<V>(m: OrderedMap<V>, ks: seq<string>): (r: OrderedMap<V>)
    requires Valid(m)
    ensures Valid(r)
    ensures r.order == Keep(m.order, set k | k in ks)
    ensures forall k :: k in r.values <==> k in m.values && k !in ks
    ensures forall k :: k in r.values ==> r.values[k] == m.values[k]
    decreases |ks|
  {
    if |ks| == 0 then
      assert (set k | k in ks) == {};
      KeepNothing(m.order, {});
      m
    else
      var first := Delete(m, ks[0]);
      KeepKeep(m.order, {ks[0]}, set k | k in ks[1..]);
      assert {ks[0]} + (set k | k in ks[1..]) == set k | k in ks;
      DeleteEach(first, ks[1..])
  }
}
