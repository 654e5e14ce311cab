/**
  Python's `dict`, which remembers insertion order, as an association list:
  a sequence of (key, value) pairs. Its meaning as a finite map is `ToMap`;
  its key order is `KeyList`.
 */
module Dict {

  predicate UniqueKeys<K(==), V>(d: seq<(K, V)>) {
    forall i, j :: 0 <= i < j < |d| ==> d[i].0 != d[j].0
  }

  /** The keys in iteration order. */
  function KeyList<K, V>(d: seq<(K, V)>): (ks: seq<K>)
    ensures |ks| == |d|
    ensures forall i :: 0 <= i < |d| ==> ks[i] == d[i].0
  {
    if d == [] then [] else KeyList(d[..|d| - 1]) + [d[|d| - 1].0]
  }

  /** The finite map a dict stands for (a later pair wins over an earlier one). */
  function ToMap<K(==), V>(d: seq<(K, V)>): (m: map<K, V>)
    ensures forall i :: 0 <= i < |d| ==> d[i].0 in m
  {
    if d == [] then map[] else ToMap(d[..|d| - 1])[d[|d| - 1].0 := d[|d| - 1].1]
  }

  /** Every key of the map is the key of some pair. */
  lemma {:induction false} ToMapKeys<K, V>(d: seq<(K, V)>, k: K)
    requires k in ToMap(d)
    ensures exists i :: 0 <= i < |d| && d[i].0 == k
  {
    if d[|d| - 1].0 != k {
      ToMapKeys(d[..|d| - 1], k);
      var i :| 0 <= i < |d| - 1 && d[..|d| - 1][i].0 == k;
      assert d[i].0 == k;
    }
  }

  /** A key is in the map exactly when it is in the key list. */
  lemma ToMapKeyList<K, V>(d: seq<(K, V)>, k: K)
    ensures k in ToMap(d) <==> k in KeyList(d)
  {
    if k in ToMap(d) {
      ToMapKeys(d, k);
    }
  }

  /** A key that no pair has is not in the map. */
  lemma ToMapAbsent<K, V>(d: seq<(K, V)>, k: K)
    requires forall i :: 0 <= i < |d| ==> d[i].0 != k
    ensures k !in ToMap(d)
  {
    if k in ToMap(d) {
      ToMapKeys(d, k);
    }
  }

  /** With unique keys, each pair is found in the map. */
  lemma {:induction false} ToMapUnique<K, V>(d: seq<(K, V)>)
    requires UniqueKeys(d)
    ensures forall i :: 0 <= i < |d| ==> ToMap(d)[d[i].0] == d[i].1
  {
    if d != [] {
      var front := d[..|d| - 1];
      ToMapUnique(front);
      forall i | 0 <= i < |d| ensures ToMap(d)[d[i].0] == d[i].1 {
        if i < |d| - 1 {
          assert d[i] == front[i];
        }
      }
    }
  }

  /** Every pair of `d` but the ones whose key is `k`, whose value becomes `v`. */
  function Replace<K(==), V>(d: seq<(K, V)>, k: K, v: V): (r: seq<(K, V)>)
    ensures |r| == |d|
  {
    if d == [] then []
    else Replace(d[..|d| - 1], k, v) + [if d[|d| - 1].0 == k then (k, v) else d[|d| - 1]]
  }

  lemma {:induction false} ReplaceAbsent<K, V>(d: seq<(K, V)>, k: K, v: V)
    requires k !in ToMap(d)
    ensures Replace(d, k, v) == d
  {
    if d != [] {
      ReplaceAbsent(d[..|d| - 1], k, v);
      assert d == d[..|d| - 1] + [d[|d| - 1]];
    }
  }

  lemma {:induction false} ReplaceKeys<K, V>(d: seq<(K, V)>, k: K, v: V)
    ensures KeyList(Replace(d, k, v)) == KeyList(d)
  {
    if d != [] {
      var r := Replace(d, k, v);
      assert r[..|d| - 1] == Replace(d[..|d| - 1], k, v);
      ReplaceKeys(d[..|d| - 1], k, v);
    }
  }

  lemma {:induction false} ReplaceMeaning<K, V>(d: seq<(K, V)>, k: K, v: V)
    requires k in ToMap(d)
    ensures ToMap(Replace(d, k, v)) == ToMap(d)[k := v]
  {
    var n := |d|;
    var front, last := d[..n - 1], d[n - 1];
    var r := Replace(d, k, v);
    var rf := Replace(front, k, v);
    assert r[..n - 1] == rf;
    if last.0 == k {
      if k in ToMap(front) {
        ReplaceMeaning(front, k, v);
      } else {
        ReplaceAbsent(front, k, v);
      }
      assert ToMap(r) == ToMap(rf)[k := v];
    } else {
      ReplaceMeaning(front, k, v);
      assert ToMap(r) == ToMap(front)[k := v][last.0 := last.1];
      assert ToMap(d) == ToMap(front)[last.0 := last.1];
    }
  }

  /** Python's `d[k] = v`: an existing key keeps its place and takes the new value;
      a new key goes to the end. */
  function Put<K(==), V>(d: seq<(K, V)>, k: K, v: V): (r: seq<(K, V)>)
    ensures ToMap(r) == ToMap(d)[k := v]
    ensures KeyList(r) == if k in ToMap(d) then KeyList(d) else KeyList(d) + [k]
    ensures UniqueKeys(d) ==> UniqueKeys(r)
  {
    if k in ToMap(d) then
      ReplaceMeaning(d, k, v);
      ReplaceKeys(d, k, v);
      Replace(d, k, v)
    else
      d + [(k, v)]
  }
}
