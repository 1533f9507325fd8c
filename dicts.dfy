/**
 * Python dictionaries whose iteration order matters, as association lists:
 * a dict is the sequence of its (key, value) items in insertion order.
 */
module Dicts {
  import opened Wrappers

  type Dict<K, V> = seq<(K, V)>

  function Keys<K, V>(d: Dict<K, V>): set<K>
    decreases |d|
  {
    if d == [] then {} else {d[0].0} + Keys(d[1..])
  }

  /** Python dicts never repeat a key. */
  ghost predicate DistinctKeys<K, V>(d: Dict<K, V>) {
    forall i, j | 0 <= i < j < |d| :: d[i].0 != d[j].0
  }

  lemma {:induction false} KeysAt<K, V>(d: Dict<K, V>, i: int)
    requires 0 <= i < |d|
    ensures d[i].0 in Keys(d)
  {
    if i > 0 {
      KeysAt(d[1..], i - 1);
    }
  }

  /** `d.get(k)`: the value stored under `k`, if any. */
  function Get<K(==), V>(d: Dict<K, V>, k: K): (r: Option<V>)
    ensures r.Some? <==> k in Keys(d)
    decreases |d|
  {
    if d == [] then None
    else if d[0].0 == k then Some(d[0].1)
    else Get(d[1..], k)
  }

  /** `d[k] = v`: overwrite in place when `k` is present, append otherwise. */
  function Put<K(==), V>(d: Dict<K, V>, k: K, v: V): Dict<K, V>
    decreases |d|
  {
    if d == [] then [(k, v)]
    else if d[0].0 == k then [(k, v)] + d[1..]
    else [d[0]] + Put(d[1..], k, v)
  }

  /** `d[k] = v` adds `k` to the keys, and grows the dict exactly when `k` is new. */
  lemma {:induction false} PutKeys<K, V>(d: Dict<K, V>, k: K, v: V)
    ensures Keys(Put(d, k, v)) == Keys(d) + {k}
    ensures |Put(d, k, v)| == if k in Keys(d) then |d| else |d| + 1
    decreases |d|
  {
    if d == [] {
    } else if d[0].0 == k {
      assert Put(d, k, v)[1..] == d[1..];
    } else {
      PutKeys(d[1..], k, v);
      assert Put(d, k, v)[1..] == Put(d[1..], k, v);
    }
  }

  /** After `d[k] = v`, looking up `k` gives `v` and every other key is unchanged. */
  lemma {:induction false} GetPut<K, V>(d: Dict<K, V>, k: K, v: V, k': K)
    ensures Get(Put(d, k, v), k') == if k' == k then Some(v) else Get(d, k')
  {
    if d == [] {
    } else if d[0].0 == k {
      assert Put(d, k, v)[1..] == d[1..];
    } else {
      GetPut(d[1..], k, v, k');
      assert Put(d, k, v)[1..] == Put(d[1..], k, v);
    }
  }

  /** Writing a key keeps a dict free of repeated keys. */
  lemma {:induction false} PutDistinct<K, V>(d: Dict<K, V>, k: K, v: V)
    requires DistinctKeys(d)
    ensures DistinctKeys(Put(d, k, v))
  {
    if d == [] {
    } else if d[0].0 == k {
      var r := Put(d, k, v);
      assert forall i | 0 <= i < |r| :: r[i].0 == d[i].0;
    } else {
      PutDistinct(d[1..], k, v);
      PutKeys(d[1..], k, v);
      var t := Put(d[1..], k, v);
      assert Put(d, k, v) == [d[0]] + t;
      forall j | 0 <= j < |t| ensures t[j].0 != d[0].0 {
        KeysAt(t, j);
        if d[0].0 in Keys(d[1..]) {
          var i := KeyIndex(d[1..], d[0].0);
          assert false;
        }
      }
    }
  }

  /** A new key in front keeps a dict free of repeated keys. */
  lemma ConsDistinct<K, V>(h: (K, V), d: Dict<K, V>)
    requires DistinctKeys(d) && h.0 !in Keys(d)
    ensures DistinctKeys([h] + d)
  {
    var r := [h] + d;
    forall i, j | 0 <= i < j < |r| ensures r[i].0 != r[j].0 {
      assert r[j] == d[j - 1];
      KeysAt(d, j - 1);
      if i > 0 {
        assert r[i] == d[i - 1];
      }
    }
  }

  /** A key of `d` stands at some position of `d`. */
  lemma {:induction false} KeyIndex<K, V>(d: Dict<K, V>, k: K) returns (i: int)
    requires k in Keys(d)
    ensures 0 <= i < |d| && d[i].0 == k
    decreases |d|
  {
    if d[0].0 == k {
      i := 0;
    } else {
      var j := KeyIndex(d[1..], k);
      i := j + 1;
    }
  }

  /** `{k: v for ...}` built by writing the items in order: later writes win. */
  function PutAll<K(==), V>(d: Dict<K, V>, items: seq<(K, V)>): (r: Dict<K, V>)
    ensures Keys(r) == Keys(d) + Keys(items)
    decreases |items|
  {
    if items == [] then d
    else
      PutKeys(d, items[0].0, items[0].1);
      PutAll(Put(d, items[0].0, items[0].1), items[1..])
  }

  /** In a dict without repeated keys, each item is what its key looks up. */
  lemma {:induction false} GetAt<K, V>(d: Dict<K, V>, i: int)
    requires DistinctKeys(d) && 0 <= i < |d|
    ensures Get(d, d[i].0) == Some(d[i].1)
  {
    if i > 0 {
      assert d[0].0 != d[i].0;
      GetAt(d[1..], i - 1);
    }
  }
}
