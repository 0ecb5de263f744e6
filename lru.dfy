/**
 * asimc/cache.py: LRUCache, an OrderedDict kept in recency order (least
 * recently used first) with a capacity, and the lru_cache decorator built on
 * it. A miss, which the source reports as -1, is None here.
 */
module Lru {
  import opened Errors
  import opened OrderedDicts

  /** cache.get(key): a hit pops the key and re-inserts it at the end. */
  function Lookup<K(==), V>(d: Dict<K, V>, k: K): (r: (Option<V>, Dict<K, V>))
    ensures r.0 == OrderedDicts.Get(d, k)
    ensures r.0.None? ==> r.1 == d
  {
    if Contains(d, k) then (OrderedDicts.Get(d, k), Set(Remove(d, k), k, OrderedDicts.Get(d, k).value))
    else (None, d)
  }

  /** cache.put(key, value): an existing key is popped; otherwise a full cache
      first drops its first (least recently used) entry, which raises KeyError
      when there is none; then key is assigned, at the end. */
  function Insert<K(==), V>(d: Dict<K, V>, capacity: int, k: K, v: V): (r: Result<Dict<K, V>>)
    ensures r.Err? <==> !Contains(d, k) && d == [] && capacity <= 0
    ensures r.Err? ==> r.error == KeyError
  {
    if Contains(d, k) then Ok(Set(Remove(d, k), k, v))
    else if |d| >= capacity then
      if d == [] then Err(KeyError) else Ok(Set(d[1..], k, v))
    else Ok(Set(d, k, v))
  }

  /** Assigning a key that is absent appends it. */
  lemma SetAbsent<K, V>(d: Dict<K, V>, k: K, v: V)
    requires UniqueKeys(d) && !Contains(d, k)
    ensures Set(d, k, v) == d + [(k, v)]
    ensures UniqueKeys(d + [(k, v)])
  {
    assert forall i :: 0 <= i < |d| ==> d[i].0 != k;
  }

  /** popitem(last=False) removes exactly the first key. */
  lemma DropFirstGet<K, V>(d: Dict<K, V>)
    requires UniqueKeys(d) && d != []
    ensures UniqueKeys(d[1..]) && !Contains(d[1..], d[0].0)
    ensures forall k :: k != d[0].0 ==> OrderedDicts.Get(d[1..], k) == OrderedDicts.Get(d, k)
  {
    FindIs(d[1..], d[0].0, |d| - 1);
  }

  /** A miss changes nothing; a hit returns the stored value and makes the key the
      most recent, keeping the other entries, in their order, and every value. */
  lemma LookupHit<K, V>(d: Dict<K, V>, k: K)
    requires UniqueKeys(d) && Contains(d, k)
    ensures var (r, e) := Lookup(d, k);
      r == OrderedDicts.Get(d, k) && UniqueKeys(e) && |e| == |d| &&
      e == Remove(d, k) + [(k, r.value)] &&
      forall k' :: OrderedDicts.Get(e, k') == OrderedDicts.Get(d, k')
  {
    var v := OrderedDicts.Get(d, k).value;
    RemoveGet(d, k);
    SetAbsent(Remove(d, k), k, v);
    SetGet(Remove(d, k), k, v);
  }

  /** After put(k, v): the keys are still distinct, k maps to v and is the most
      recent entry, and every other key keeps its value unless it was the
      least recently used one, evicted to make room. */
  lemma InsertGet<K, V>(d: Dict<K, V>, capacity: int, k: K, v: V)
    requires UniqueKeys(d) && Insert(d, capacity, k, v).Ok?
    ensures var e := Insert(d, capacity, k, v).value;
      UniqueKeys(e) && OrderedDicts.Get(e, k) == Some(v) && e[|e| - 1] == (k, v)
    ensures var e := Insert(d, capacity, k, v).value;
      forall k' :: k' != k ==>
        (OrderedDicts.Get(e, k') == if Evicts(d, capacity, k) && k' == d[0].0 then None else OrderedDicts.Get(d, k'))
  {
    var e := Insert(d, capacity, k, v).value;
    if Contains(d, k) {
      RemoveGet(d, k);
      SetAbsent(Remove(d, k), k, v);
      SetGet(Remove(d, k), k, v);
    } else if |d| >= capacity {
      DropFirstGet(d);
      assert !Contains(d[1..], k);
      SetAbsent(d[1..], k, v);
      SetGet(d[1..], k, v);
    } else {
      SetAbsent(d, k, v);
      SetGet(d, k, v);
    }
  }

  /** put(k, v) evicts exactly when k is new and the cache is full. */
  predicate Evicts<K(==), V>(d: Dict<K, V>, capacity: int, k: K) {
    !Contains(d, k) && |d| >= capacity && d != []
  }

  /** With a capacity of at least one the size never exceeds it; replacing a
      key never changes the size. */
  lemma InsertBounded<K, V>(d: Dict<K, V>, capacity: int, k: K, v: V)
    requires UniqueKeys(d) && Insert(d, capacity, k, v).Ok?
    ensures var e := Insert(d, capacity, k, v).value;
      (Contains(d, k) ==> |e| == |d|) && (Evicts(d, capacity, k) ==> |e| == |d|) &&
      (1 <= capacity && |d| <= capacity ==> |e| <= capacity)
  {
    if Contains(d, k) {
      RemoveGet(d, k);
    } else if Evicts(d, capacity, k) {
      DropFirstGet(d);
      assert !Contains(d[1..], k);
    }
  }

  /** test_cache_overflow: with capacity 1, putting 1 then 2 evicts 1. */
  lemma OverflowEvictsOldest()
    ensures var d1 := Insert([], 1, 1, 1);
      d1.Ok? && var d2 := Insert(d1.value, 1, 2, 2);
      d2.Ok? && Lookup(d2.value, 1).0 == None && Lookup(d2.value, 2).0 == Some(2)
  {
    var d1 := Insert([], 1, 1, 1).value;
    assert d1 == [(1, 1)];
    var d2 := Insert(d1, 1, 2, 2).value;
    assert d2 == [(2, 2)];
  }

  class LRUCache<K(==), V> {
    var entries: Dict<K, V>
    const capacity: int

    predicate Valid()
      reads this
    {
      UniqueKeys(entries)
    }

    constructor (capacity: int)
      ensures Valid() && entries == [] && this.capacity == capacity
    {
      entries := [];
      this.capacity := capacity;
    }

    method Get(key: K) returns (r: Option<V>)
      requires Valid()
      modifies this
      ensures Valid()
      ensures (r, entries) == Lookup(old(entries), key)
    {
      if !Contains(entries, key) {
        return None;
      }
      LookupHit(entries, key);
      var value := OrderedDicts.Get(entries, key).value;
      entries := Remove(entries, key);
      entries := Set(entries, key, value);
      r := Some(value);
    }

    method Put(key: K, value: V) returns (r: Result<()>)
      requires Valid()
      modifies this
      ensures Valid()
      ensures Insert(old(entries), capacity, key, value).Ok? ==>
        r.Ok? && entries == Insert(old(entries), capacity, key, value).value
      ensures Insert(old(entries), capacity, key, value).Err? ==>
        r == Err(KeyError) && entries == old(entries)
    {
      if Insert(entries, capacity, key, value).Ok? {
        InsertGet(entries, capacity, key, value);
      }
      if Contains(entries, key) {
        entries := Remove(entries, key);
      } else if |entries| >= capacity {
        if entries == [] {
          return Err(KeyError);
        }
        entries := entries[1..];
      }
      entries := Set(entries, key, value);
      r := Ok(());
    }
  }

  /** One call of a function wrapped by lru_cache, keyed by show(x) (the text of
      its arguments): a stored result other than -1 is returned; otherwise f is
      called and its result put. */
  function CachedCall<A(!new), K(==)>(d: Dict<K, int>, capacity: int, f: A -> int, show: A -> K, x: A)
    : (r: Result<(int, Dict<K, int>)>)
    ensures r.Err? ==> r.error == KeyError
  {
    var (hit, d1) := Lookup(d, show(x));
    if hit.Some? && hit.value != -1 then Ok((hit.value, d1))
    else
      var d2 :- Insert(d1, capacity, show(x), f(x));
      Ok((f(x), d2))
  }

  /** Every stored entry is the result of f on arguments with that text. */
  ghost predicate Coherent<A(!new), K>(d: Dict<K, int>, f: A -> int, show: A -> K) {
    UniqueKeys(d) && forall y :: Contains(d, show(y)) ==> OrderedDicts.Get(d, show(y)) == Some(f(y))
  }

  /** f's result is determined by the text of its arguments. */
  ghost predicate Determined<A(!new), K>(f: A -> int, show: A -> K) {
    forall x, y :: show(x) == show(y) ==> f(x) == f(y)
  }

  /** When the argument text determines the result, the wrapper returns what f
      returns, and the cache stays coherent. */
  lemma CachedCallTransparent<A(!new), K>(d: Dict<K, int>, capacity: int, f: A -> int, show: A -> K, x: A)
    requires Coherent(d, f, show) && Determined(f, show)
    requires CachedCall(d, capacity, f, show, x).Ok?
    ensures CachedCall(d, capacity, f, show, x).value.0 == f(x)
    ensures Coherent(CachedCall(d, capacity, f, show, x).value.1, f, show)
  {
    var k := show(x);
    var (hit, d1) := Lookup(d, k);
    if Contains(d, k) {
      LookupHit(d, k);
    }
    assert Coherent(d1, f, show);
    if !(hit.Some? && hit.value != -1) {
      var d2 := Insert(d1, capacity, k, f(x)).value;
      InsertGet(d1, capacity, k, f(x));
      forall y | Contains(d2, show(y))
        ensures OrderedDicts.Get(d2, show(y)) == Some(f(y))
      {
        if show(y) != k {
          assert OrderedDicts.Get(d2, show(y)) == OrderedDicts.Get(d1, show(y));
        }
      }
    }
  }

  /** A result of -1 is never served from the cache: the next call with the same
      arguments calls f again. After any other result, with room for one entry,
      the next call is a hit. */
  lemma MinusOneRecomputed<A(!new), K>(d: Dict<K, int>, capacity: int, f: A -> int, show: A -> K, x: A)
    requires Coherent(d, f, show) && Determined(f, show) && 1 <= capacity
    requires CachedCall(d, capacity, f, show, x).Ok?
    ensures var (v, e) := CachedCall(d, capacity, f, show, x).value;
      var (hit, _) := Lookup(e, show(x));
      hit == Some(f(x)) && (hit.value != -1 <==> f(x) != -1)
  {
    CachedCallTransparent(d, capacity, f, show, x);
    var (v, e) := CachedCall(d, capacity, f, show, x).value;
    var k := show(x);
    var (hit, d1) := Lookup(d, k);
    if Contains(d, k) {
      LookupHit(d, k);
    }
    if !(hit.Some? && hit.value != -1) {
      InsertGet(d1, capacity, k, f(x));
    } else {
      assert OrderedDicts.Get(e, k) == OrderedDicts.Get(d, k);
    }
  }

  /** lru_cache(capacity)(f). */
  class Memoised<A(!new), K(==)> {
    const cache: LRUCache<K, int>
    const f: A -> int
    const show: A -> K

    constructor (capacity: int, f: A -> int, show: A -> K)
      ensures fresh(cache) && cache.Valid() && cache.entries == [] && cache.capacity == capacity
      ensures this.f == f && this.show == show
    {
      cache := new LRUCache(capacity);
      this.f := f;
      this.show := show;
    }

    /** wrapper(*args, **kwargs). */
    method Call(x: A) returns (r: Result<int>)
      requires cache.Valid()
      modifies cache
      ensures cache.Valid()
      ensures var c := CachedCall(old(cache.entries), cache.capacity, f, show, x);
        (c.Ok? ==> r == Ok(c.value.0) && cache.entries == c.value.1) &&
        (c.Err? ==> r == Err(c.error))
    {
      var key := show(x);
      var result := cache.Get(key);
      if result.Some? && result.value != -1 {
        return Ok(result.value);
      }
      var value := f(x);
      var put := cache.Put(key, value);
      if put.Err? {
        return Err(put.error);
      }
      r := Ok(value);
    }
  }
}
