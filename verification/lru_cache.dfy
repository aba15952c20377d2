/** `LRUCache`: the bounded least-recently-used cache of parsed user
    agents. It wraps `lru.Cache` of hashicorp/golang-lru, whose behaviour is
    modelled here: `Add` of a present key refreshes and updates it, `Add` of
    a new key evicts the least recently used entry once the size is
    exceeded, and a successful `Get` refreshes the key. */
module LruCache {
  import opened Wrappers

  /** The error `lru.New` returns for a size that is not positive. */
  const NonPositiveSize: string := "must provide a positive size"

  /** `recency` lists the keys from least to most recently used. */
  datatype Cache<V> = Cache(size: int, entries: map<string, V>, recency: seq<string>)

  predicate Distinct(s: seq<string>) {
    forall i, j :: 0 <= i < j < |s| ==> s[i] != s[j]
  }

  /** The representation invariant: a positive size, at most `size` keys,
      each held once in `recency`, and `recency` naming exactly the stored
      keys. */
  predicate Valid<V>(c: Cache<V>) {
    && c.size > 0
    && |c.recency| <= c.size
    && Distinct(c.recency)
    && c.entries.Keys == (set key | key in c.recency)
  }

  /** `NewLRUCache(size)`. */
  function NewLRUCache<V>(size: int): (r: Result<Cache<V>, string>)
    ensures r.Failure? <==> size <= 0
    ensures r.Failure? ==> r.error == NonPositiveSize
    ensures r.Success? ==> Valid(r.value) && r.value.size == size && Len(r.value) == 0
  {
    if size <= 0 then Failure(NonPositiveSize) else Success(Cache(size, map[], []))
  }

  /** `s` without `key`, order otherwise kept. */
  function Without(s: seq<string>, key: string): (r: seq<string>)
    ensures key !in r
    ensures forall x :: x in r <==> x in s && x != key
    ensures Distinct(s) ==> Distinct(r)
    ensures Distinct(s) && key in s ==> |r| == |s| - 1
    ensures key !in s ==> r == s
  {
    if |s| == 0 then []
    else
      var rest := Without(s[1..], key);
      assert forall x :: x in s <==> x == s[0] || x in s[1..];
      if s[0] == key then
        assert Distinct(s) ==> key !in s[1..];
        rest
      else
        assert Distinct(s) ==> s[0] !in s[1..];
        [s[0]] + rest
  }

  /** Marks `key` as the most recently used. */
  function Touch(s: seq<string>, key: string): (r: seq<string>)
    ensures forall x :: x in r <==> x in s || x == key
    ensures |r| > 0 && r[|r| - 1] == key
    ensures Distinct(s) ==> Distinct(r)
    ensures Distinct(s) && key in s ==> |r| == |s|
  {
    Without(s, key) + [key]
  }

  /** `Set(key, value)`, that is `lru.Cache.Add`. */
  function Set<V>(c: Cache<V>, key: string, value: V): (r: Cache<V>)
    requires Valid(c)
    ensures Valid(r) && r.size == c.size
    ensures key in r.entries && r.entries[key] == value
    ensures key in c.entries ==> r.entries.Keys == c.entries.Keys
    ensures key !in c.entries && |c.recency| < c.size ==> r.entries.Keys == c.entries.Keys + {key}
    ensures key !in c.entries && |c.recency| == c.size ==>
      r.entries.Keys == c.entries.Keys - {c.recency[0]} + {key}
    ensures forall other :: other != key && other in r.entries ==> other in c.entries && r.entries[other] == c.entries[other]
    ensures r.recency[|r.recency| - 1] == key
    ensures key in c.entries ==> r.recency == Touch(c.recency, key)
    ensures key !in c.entries && |c.recency| < c.size ==> r.recency == c.recency + [key]
    ensures key !in c.entries && |c.recency| == c.size ==> r.recency == c.recency[1..] + [key]
  {
    if key in c.entries then Update(c, key, value) else Insert(c, key, value)
  }

  /** `Add` of a key already present: new value, now most recently used. */
  function Update<V>(c: Cache<V>, key: string, value: V): (r: Cache<V>)
    requires Valid(c) && key in c.entries
    ensures Valid(r) && r.size == c.size
    ensures r.entries == c.entries[key := value]
    ensures r.recency == Touch(c.recency, key)
  {
    var recency := Touch(c.recency, key);
    assert (set x | x in recency) == (set x | x in c.recency);
    Cache(c.size, c.entries[key := value], recency)
  }

  /** `Add` of a new key: appended as most recently used, then the least
      recently used key is evicted if the size is exceeded. */
  function Insert<V>(c: Cache<V>, key: string, value: V): (r: Cache<V>)
    requires Valid(c) && key !in c.entries
    ensures Valid(r) && r.size == c.size
    ensures |c.recency| < c.size ==> r.entries == c.entries[key := value]
    ensures |c.recency| == c.size ==>
      c.recency[0] != key && r.entries == c.entries[key := value] - {c.recency[0]}
    ensures |c.recency| < c.size ==> r.recency == c.recency + [key]
    ensures |c.recency| == c.size ==> r.recency == c.recency[1..] + [key]
  {
    var recency := c.recency + [key];
    var entries := c.entries[key := value];
    assert Distinct(recency);
    assert (set x | x in recency) == (set x | x in c.recency) + {key};
    if |recency| > c.size then
      var oldest := recency[0];
      assert oldest in c.recency;
      EvictFirst(recency);
      Cache(c.size, entries - {oldest}, recency[1..])
    else
      Cache(c.size, entries, recency)
  }

  lemma EvictFirst(s: seq<string>)
    requires Distinct(s) && |s| > 0
    ensures Distinct(s[1..])
    ensures (set x | x in s[1..]) == (set x | x in s) - {s[0]}
  {
    assert forall x :: x in s <==> x == s[0] || x in s[1..];
  }

  /** `Get(key)`: the stored value, if any; a hit refreshes the key. */
  function Get<V>(c: Cache<V>, key: string): (r: (Option<V>, Cache<V>))
    requires Valid(c)
    ensures r.0.Some? <==> key in c.entries
    ensures r.0.Some? ==> r.0.value == c.entries[key]
    ensures Valid(r.1) && r.1.size == c.size && r.1.entries == c.entries
    ensures key in c.entries ==> r.1.recency == Touch(c.recency, key)
    ensures key !in c.entries ==> r.1 == c
  {
    if key in c.entries then (Some(c.entries[key]), Cache(c.size, c.entries, Touch(c.recency, key)))
    else (None, c)
  }

  /** `Len()`: the number of stored entries. */
  function Len<V>(c: Cache<V>): (n: nat)
    requires Valid(c)
    ensures n == |c.entries.Keys| && n <= c.size
  {
    CardinalityOfKeys(c);
    |c.recency|
  }

  lemma CardinalityOfKeys<V>(c: Cache<V>)
    requires Valid(c)
    ensures |c.entries.Keys| == |c.recency|
  {
    DistinctCardinality(c.recency);
  }

  lemma {:induction false} DistinctCardinality(s: seq<string>)
    requires Distinct(s)
    ensures |(set x | x in s)| == |s|
  {
    if |s| > 0 {
      var tail := s[1..];
      assert Distinct(tail);
      DistinctCardinality(tail);
      assert (set x | x in s) == (set x | x in tail) + {s[0]};
      assert s[0] !in tail;
    }
  }

  /** The length grows by one per new key until it reaches the size, and
      then stays there. */
  lemma SetLength<V>(c: Cache<V>, key: string, value: V)
    requires Valid(c)
    ensures Len(Set(c, key, value)) ==
      if key in c.entries || Len(c) == c.size then Len(c) else Len(c) + 1
  {
    var r := Set(c, key, value);
    CardinalityOfKeys(c);
    CardinalityOfKeys(r);
    if key !in c.entries && Len(c) == c.size {
      assert c.recency[0] in c.entries.Keys;
    }
  }

  /** A `Get` right after `Set(key, value)` finds `value`. */
  lemma GetAfterSet<V>(c: Cache<V>, key: string, value: V)
    requires Valid(c)
    ensures Get(Set(c, key, value), key).0 == Some(value)
  {
  }

  /** Setting a key leaves every other surviving key's value alone, and
      only the least recently used key can be lost. */
  lemma SetKeepsOthers<V>(c: Cache<V>, key: string, value: V, other: string)
    requires Valid(c)
    requires other != key && other in c.entries
    requires key in c.entries || Len(c) < c.size || other != c.recency[0]
    ensures Get(Set(c, key, value), other).0 == Some(c.entries[other])
  {
  }

  /** Setting a new key into a full cache evicts the least recently used key. */
  lemma SetEvictsLeastRecent<V>(c: Cache<V>, key: string, value: V)
    requires Valid(c)
    requires key !in c.entries && Len(c) == c.size
    ensures Get(Set(c, key, value), c.recency[0]).0 == None
  {
    assert c.recency[0] != key;
  }

  /** The cache test: in a size-1 cache the second key evicts the first,
      and a key never set is a miss. */
  lemma SizeOneTrace<V>(values: V)
    ensures NewLRUCache<V>(1).Success?
    ensures var c0 := NewLRUCache<V>(1).value;
      var c1 := Set(c0, "test_key1", values);
      var (got1, c2) := Get(c1, "test_key1");
      var c3 := Set(c2, "test_key2", values);
      && got1 == Some(values)
      && Get(c3, "test_key1").0 == None
      && Get(c3, "nonexistent").0 == None
  {
    var c0 := NewLRUCache<V>(1).value;
    var c1 := Set(c0, "test_key1", values);
    assert c1.recency == ["test_key1"];
    var c2 := Get(c1, "test_key1").1;
    assert c2.recency == ["test_key1"] by { assert Without(["test_key1"], "test_key1") == []; }
    FullSingleSlot(c2, "test_key1", "test_key2", values);
  }

  /** In a full cache of size 1, a new key replaces the one stored. */
  lemma FullSingleSlot<V>(c: Cache<V>, stored: string, key: string, value: V)
    requires Valid(c) && c.size == 1 && c.recency == [stored] && key != stored
    ensures Set(c, key, value).entries.Keys == {key}
  {
    assert c.entries.Keys == {stored};
  }

  /** A hit protects a key from eviction: in a size-2 cache holding `a`
      and then `b`, reading `a` makes `b` the least recently used, so
      setting a third key evicts `b` and keeps `a`. */
  lemma GetRefreshesKey<V>(va: V, vb: V, vc: V)
    ensures NewLRUCache<V>(2).Success?
    ensures var c0 := NewLRUCache<V>(2).value;
      var c2 := Set(Set(c0, "a", va), "b", vb);
      var (got, c3) := Get(c2, "a");
      var c4 := Set(c3, "c", vc);
      && got == Some(va)
      && Get(c4, "b").0 == None
      && Get(c4, "a").0 == Some(va)
      && Get(c4, "c").0 == Some(vc)
  {
    var c0 := NewLRUCache<V>(2).value;
    var c1 := Set(c0, "a", va);
    assert c1.recency == ["a"];
    var c2 := Set(c1, "b", vb);
    assert c2.recency == ["a", "b"] && c2.entries["a"] == va;
    HitThenInsert(c2, "a", "b", "c", vc);
  }

  /** In a full size-2 cache used `x` then `y`, a hit on `x` makes `y` the
      least recently used, so a new key `z` evicts `y` and keeps `x`. */
  lemma HitThenInsert<V>(c: Cache<V>, x: string, y: string, z: string, vz: V)
    requires Valid(c) && c.size == 2 && c.recency == [x, y]
    requires z != x && z != y
    ensures var c4 := Set(Get(c, x).1, z, vz);
      && Get(c4, y).0 == None
      && Get(c4, x).0 == Some(c.entries[x])
      && Get(c4, z).0 == Some(vz)
  {
    var c3 := Get(c, x).1;
    assert x != y;
    assert Without([x, y], x) == [y] by {
      assert [x, y][1..] == [y];
      assert Without([y], x) == [y] by { assert [y][1..] == []; }
    }
    assert c3.recency == [y, x];
    assert z !in c3.entries && |c3.recency| == c3.size;
  }

  /** The length test: a size-2 cache reads 1, 2, 2 after three distinct sets. */
  lemma SizeTwoLengths<V>(v: V)
    ensures NewLRUCache<V>(2).Success?
    ensures var c0 := NewLRUCache<V>(2).value;
      var c1 := Set(c0, "key1", v);
      var c2 := Set(c1, "key2", v);
      var c3 := Set(c2, "key3", v);
      Len(c1) == 1 && Len(c2) == 2 && Len(c3) == 2
  {
  }
}
