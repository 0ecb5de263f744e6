/**
 * Python's insertion-ordered dict / collections.OrderedDict, as a list of
 * (key, value) entries with distinct keys. Assigning to an existing key keeps
 * its position; assigning a new key appends it.
 */
module OrderedDicts {
  import opened Errors

  type Dict<K, V> = seq<(K, V)>

  function Keys<K(==), V>(d: Dict<K, V>): (ks: seq<K>)
    ensures |ks| == |d| && forall i :: 0 <= i < |d| ==> ks[i] == d[i].0
  {
    if d == [] then [] else [d[0].0] + Keys(d[1..])
  }

  predicate UniqueKeys<K(==), V>(d: Dict<K, V>) {
    forall i, j :: 0 <= i < j < |d| ==> d[i].0 != d[j].0
  }

  /** The position of key k, or |d| when it is absent. */
  function Find<K(==), V>(d: Dict<K, V>, k: K): (i: nat)
    ensures i <= |d|
    ensures i < |d| ==> d[i].0 == k
    ensures forall j :: 0 <= j < i ==> d[j].0 != k
  {
    if d == [] then 0 else if d[0].0 == k then 0 else 1 + Find(d[1..], k)
  }

  predicate Contains<K(==), V>(d: Dict<K, V>, k: K) { Find(d, k) < |d| }

  /** Find is determined by its contract: the first position holding k. */
  lemma FindIs<K, V>(d: Dict<K, V>, k: K, i: nat)
    requires i <= |d| && (i < |d| ==> d[i].0 == k)
    requires forall j :: 0 <= j < i ==> d[j].0 != k
    ensures Find(d, k) == i
  {
    var f := Find(d, k);
    assert f >= i;
  }

  lemma ContainsKeys<K, V>(d: Dict<K, V>, k: K)
    ensures Contains(d, k) <==> k in Keys(d)
  {
    if k in Keys(d) {
      var i :| 0 <= i < |d| && Keys(d)[i] == k;
      assert d[i].0 == k;
    }
  }

  /** d.get(k). */
  function Get<K(==), V>(d: Dict<K, V>, k: K): (r: Option<V>)
    ensures r.Some? <==> Contains(d, k)
  {
    var i := Find(d, k);
    if i < |d| then Some(d[i].1) else None
  }

  /** d[k] = v. */
  function Set<K(==), V>(d: Dict<K, V>, k: K, v: V): (r: Dict<K, V>)
    ensures |r| == if Contains(d, k) then |d| else |d| + 1
  {
    var i := Find(d, k);
    if i < |d| then d[i := (k, v)] else d + [(k, v)]
  }

  /** After d[k] = v, k maps to v, every other key keeps its value, and keys stay distinct. */
  lemma SetGet<K, V>(d: Dict<K, V>, k: K, v: V)
    ensures UniqueKeys(d) ==> UniqueKeys(Set(d, k, v))
    ensures Get(Set(d, k, v), k) == Some(v)
    ensures forall k' :: k' != k ==> Get(Set(d, k, v), k') == Get(d, k')
  {
    var r := Set(d, k, v);
    var i := Find(d, k);
    FindIs(r, k, i);
    forall k' | k' != k ensures Get(r, k') == Get(d, k') {
      var j := Find(d, k');
      if j < |d| {
        FindIs(r, k', j);
      } else {
        FindIs(r, k', |r|);
      }
    }
  }

  /** d.pop(k): removes the entry of k, keeping the order of the others. */
  function Remove<K(==), V>(d: Dict<K, V>, k: K): (r: Dict<K, V>)
    requires Contains(d, k)
    ensures |r| == |d| - 1
  {
    var i := Find(d, k);
    d[..i] + d[i + 1..]
  }

  /** After d.pop(k), k is gone and every other key keeps its value. */
  lemma RemoveGet<K, V>(d: Dict<K, V>, k: K)
    requires Contains(d, k) && UniqueKeys(d)
    ensures UniqueKeys(Remove(d, k)) && !Contains(Remove(d, k), k)
    ensures forall k' :: k' != k ==> Get(Remove(d, k), k') == Get(d, k')
  {
    var i := Find(d, k);
    var r := Remove(d, k);
    forall k' | k' != k ensures Get(r, k') == Get(d, k') {
      var j := Find(d, k');
      if j < i {
        FindIs(r, k', j);
      } else if j < |d| {
        FindIs(r, k', j - 1);
      } else {
        FindIs(r, k', |r|);
      }
    }
    assert forall m :: 0 <= m < |r| ==> r[m].0 != k;
    FindIs(r, k, |r|);
  }

  /** d.update(e): assigns every entry of e in order. */
  function UpdateAll<K(==), V>(d: Dict<K, V>, e: Dict<K, V>): (r: Dict<K, V>)
    decreases |e|
  {
    if e == [] then d else UpdateAll(Set(d, e[0].0, e[0].1), e[1..])
  }

  lemma {:induction false} UpdateAllUnique<K, V>(d: Dict<K, V>, e: Dict<K, V>)
    requires UniqueKeys(d)
    ensures UniqueKeys(UpdateAll(d, e))
    decreases |e|
  {
    if e != [] {
      SetGet(d, e[0].0, e[0].1);
      UpdateAllUnique(Set(d, e[0].0, e[0].1), e[1..]);
    }
  }

  /** After d.update(e), a key of e maps to e's value and every other key keeps d's. */
  lemma {:induction false} UpdateAllGet<K, V>(d: Dict<K, V>, e: Dict<K, V>, k: K)
    requires UniqueKeys(e)
    ensures Get(UpdateAll(d, e), k) == if Contains(e, k) then Get(e, k) else Get(d, k)
    decreases |e|
  {
    if e != [] {
      UpdateAllGet(Set(d, e[0].0, e[0].1), e[1..], k);
      SetGet(d, e[0].0, e[0].1);
      if k != e[0].0 {
        assert Get(e[1..], k) == Get(e, k) by {
          assert Find(e, k) == 1 + Find(e[1..], k);
        }
      } else {
        assert !Contains(e[1..], k) by {
          assert forall m :: 0 <= m < |e| - 1 ==> e[1..][m].0 != k;
        }
      }
    }
  }

  /** Updating with a concatenation is updating twice. */
  lemma {:induction false} UpdateAllAppend<K, V>(d: Dict<K, V>, e1: Dict<K, V>, e2: Dict<K, V>)
    ensures UpdateAll(d, e1 + e2) == UpdateAll(UpdateAll(d, e1), e2)
    decreases |e1|
  {
    if e1 == [] {
      assert e1 + e2 == e2;
    } else {
      var d1 := Set(d, e1[0].0, e1[0].1);
      assert (e1 + e2)[0] == e1[0] && (e1 + e2)[1..] == e1[1..] + e2;
      calc {
        UpdateAll(d, e1 + e2);
        UpdateAll(d1, e1[1..] + e2);
        { UpdateAllAppend(d1, e1[1..], e2); }
        UpdateAll(UpdateAll(d1, e1[1..]), e2);
      }
    }
  }

  /** Building a dict from entries with distinct keys reproduces those entries in order. */
  lemma {:induction false} UpdateAllFresh<K, V>(d: Dict<K, V>, e: Dict<K, V>)
    requires UniqueKeys(d + e)
    ensures UpdateAll(d, e) == d + e
    decreases |e|
  {
    if e != [] {
      assert forall m :: 0 <= m < |d| ==> d[m].0 == (d + e)[m].0 != (d + e)[|d|].0 == e[0].0;
      assert Set(d, e[0].0, e[0].1) == d + [e[0]];
      assert d + e == (d + [e[0]]) + e[1..];
      UpdateAllFresh(d + [e[0]], e[1..]);
    }
  }

  /** Assigning distinct keys one by one into an empty dict rebuilds the same dict. */
  lemma UpdateAllEmpty<K, V>(e: Dict<K, V>)
    requires UniqueKeys(e)
    ensures UpdateAll([], e) == e
  {
    assert [] + e == e;
    UpdateAllFresh([], e);
  }

  /** Re-assigning a key that is already present commutes with assigning another key. */
  lemma SetCommutes<K, V>(d: Dict<K, V>, k: K, v: V, k2: K, v2: V)
    requires Contains(d, k) && k != k2
    ensures Set(Set(d, k2, v2), k, v) == Set(Set(d, k, v), k2, v2)
  {
    var i := Find(d, k);
    var j := Find(d, k2);
    FindIs(Set(d, k2, v2), k, i);
    if j < |d| {
      FindIs(Set(d, k, v), k2, j);
    } else {
      FindIs(Set(d, k, v), k2, |d|);
    }
  }

  lemma SetTwice<K, V>(d: Dict<K, V>, k: K, v0: V, v: V)
    ensures Set(Set(d, k, v0), k, v) == Set(d, k, v)
  {
    var i := Find(d, k);
    if i < |d| {
      FindIs(Set(d, k, v0), k, i);
    } else {
      FindIs(Set(d, k, v0), k, |d|);
    }
  }

  /** Re-assigning a present key after an update that does not touch it is the same as before it. */
  lemma {:induction false} SetAfterUpdate<K, V>(d: Dict<K, V>, w: Dict<K, V>, k: K, v: V)
    requires Contains(d, k) && !Contains(w, k)
    ensures Set(UpdateAll(d, w), k, v) == UpdateAll(Set(d, k, v), w)
    decreases |w|
  {
    if w != [] {
      var (k2, v2) := w[0];
      assert k != k2 && !Contains(w[1..], k);
      SetGet(d, k2, v2);
      assert Contains(Set(d, k2, v2), k) by {
        assert Get(Set(d, k2, v2), k) == Get(d, k);
      }
      SetAfterUpdate(Set(d, k2, v2), w[1..], k, v);
      SetCommutes(d, k, v, k2, v2);
    }
  }

  lemma UpdateAllSet<K, V>(a: Dict<K, V>, y: Dict<K, V>, k: K, v: V)
    requires UniqueKeys(y)
    ensures UpdateAll(a, Set(y, k, v)) == Set(UpdateAll(a, y), k, v)
  {
    var i := Find(y, k);
    if i == |y| {
      UpdateAllAppend(a, y, [(k, v)]);
    } else {
      SplitAround(y, i, k);
      SetAround(y, i, k, v);
      UpdateAllSetPresent(a, y[..i], y[i].1, y[i + 1..], k, v);
    }
  }

  lemma SplitAround<K, V>(y: Dict<K, V>, i: nat, k: K)
    requires i < |y| && y[i].0 == k
    ensures y == y[..i] + [(k, y[i].1)] + y[i + 1..]
  {
    assert y[i] == (k, y[i].1);
  }

  lemma SetAround<K, V>(y: Dict<K, V>, i: nat, k: K, v: V)
    requires i == Find(y, k) && i < |y|
    ensures Set(y, k, v) == y[..i] + [(k, v)] + y[i + 1..]
  {
    UpdateAround(y, i, (k, v));
  }

  /** Replacing the entry at i is cutting the list around it. */
  lemma UpdateAround<T>(y: seq<T>, i: nat, e: T)
    requires i < |y|
    ensures y[i := e] == y[..i] + [e] + y[i + 1..]
  {
    var r := y[i := e];
    var t := y[..i] + [e] + y[i + 1..];
    assert |t| == |r|;
    forall j | 0 <= j < |r| ensures r[j] == t[j] {
      if j < i {
        assert t[j] == y[j];
      } else if j > i {
        assert t[j] == y[i + 1..][j - i - 1];
      }
    }
  }

  lemma UpdateAllSetPresent<K, V>(a: Dict<K, V>, p: Dict<K, V>, v0: V, w: Dict<K, V>, k: K, v: V)
    requires UniqueKeys(p + [(k, v0)] + w)
    ensures UpdateAll(a, p + [(k, v)] + w) == Set(UpdateAll(a, p + [(k, v0)] + w), k, v)
  {
    var y := p + [(k, v0)] + w;
    assert !Contains(w, k) by {
      forall m | 0 <= m < |w| ensures w[m].0 != k {
        assert w[m] == y[|p| + 1 + m] && y[|p|].0 == k;
      }
    }
    var a1 := UpdateAll(a, p);
    UpdateAllAppend(a, p, [(k, v)]);
    UpdateAllAppend(a, p + [(k, v)], w);
    UpdateAllAppend(a, p, [(k, v0)]);
    UpdateAllAppend(a, p + [(k, v0)], w);
    assert UpdateAll(a1, [(k, v0)]) == Set(a1, k, v0);
    assert UpdateAll(a1, [(k, v)]) == Set(a1, k, v);
    SetGet(a1, k, v0);
    SetAfterUpdate(Set(a1, k, v0), w, k, v);
    SetTwice(a1, k, v0, v);
  }

  /** dict.update is associative on dicts with distinct keys:
      (a.update(b)).update(c) has the same entries, in the same order, as a.update(b.update(c)). */
  lemma {:induction false} UpdateAllAssociative<K, V>(a: Dict<K, V>, b: Dict<K, V>, c: Dict<K, V>)
    requires UniqueKeys(b)
    ensures UpdateAll(UpdateAll(a, b), c) == UpdateAll(a, UpdateAll(b, c))
    decreases |c|
  {
    if c == [] {
    } else {
      var c', last := c[..|c| - 1], c[|c| - 1];
      assert c == c' + [last];
      UpdateAllAppend(UpdateAll(a, b), c', [last]);
      UpdateAllAppend(b, c', [last]);
      UpdateAllAssociative(a, b, c');
      UpdateAllUnique(b, c');
      UpdateAllSet(a, UpdateAll(b, c'), last.0, last.1);
    }
  }
}
