/**
 A plain insertion-ordered map: a sequence of pairs with distinct keys. Putting a key that is
 already there moves it to the end.
 */
module OrderedMap {
  import opened Util

  datatype Pair<K, V> = Pair(key: K, value: V)

  ghost predicate DistinctKeys<K, V>(m: seq<Pair<K, V>>)
  {
    forall i, j :: 0 <= i < j < |m| ==> m[i].key != m[j].key
  }

  ghost predicate Absent<K, V>(m: seq<Pair<K, V>>, k: K)
  {
    forall i :: 0 <= i < |m| ==> m[i].key != k
  }

  /** The map without the pairs of key `k`, in the same order. */
  function Without<K(==), V>(m: seq<Pair<K, V>>, k: K): seq<Pair<K, V>>
  {
    if m == [] then []
    else if m[0].key == k then Without(m[1..], k)
    else [m[0]] + Without(m[1..], k)
  }

  function Put<K(==), V>(m: seq<Pair<K, V>>, k: K, v: V): seq<Pair<K, V>>
  {
    Without(m, k) + [Pair(k, v)]
  }

  function Get<K(==), V>(m: seq<Pair<K, V>>, k: K): Option<V>
  {
    if m == [] then None
    else if m[0].key == k then Some(m[0].value)
    else Get(m[1..], k)
  }

  lemma {:induction false} WithoutAbsent<K, V>(m: seq<Pair<K, V>>, k: K)
    requires Absent(m, k)
    ensures Without(m, k) == m
  {
    if m != [] {
      WithoutAbsent(m[1..], k);
    }
  }

  /** Removing the pair at the only index of its key. */
  lemma {:induction false} WithoutIsRemoveAt<K, V>(m: seq<Pair<K, V>>, i: nat)
    requires DistinctKeys(m) && i < |m|
    ensures Without(m, m[i].key) == m[..i] + m[i + 1..]
  {
    if i == 0 {
      WithoutAbsent(m[1..], m[0].key);
    } else {
      WithoutIsRemoveAt(m[1..], i - 1);
      assert m[i] == m[1..][i - 1];
      assert m[..i] + m[i + 1..] == [m[0]] + (m[1..][..i - 1] + m[1..][i..]);
    }
  }

  lemma {:induction false} GetAt<K, V>(m: seq<Pair<K, V>>, i: nat)
    requires DistinctKeys(m) && i < |m|
    ensures Get(m, m[i].key) == Some(m[i].value)
  {
    if i > 0 {
      assert m[i] == m[1..][i - 1];
      GetAt(m[1..], i - 1);
    }
  }

  lemma {:induction false} GetWithout<K, V>(m: seq<Pair<K, V>>, k: K, j: K)
    ensures Get(Without(m, k), j) == if j == k then None else Get(m, j)
  {
    if m != [] {
      GetWithout(m[1..], k, j);
    }
  }

  lemma {:induction false} GetAppend<K, V>(m: seq<Pair<K, V>>, k: K, v: V, j: K)
    ensures Get(m + [Pair(k, v)], j) == if Get(m, j).None? && j == k then Some(v) else Get(m, j)
  {
    if m == [] {
      assert m + [Pair(k, v)] == [Pair(k, v)];
      assert [Pair(k, v)][1..] == [];
    } else {
      assert (m + [Pair(k, v)])[1..] == m[1..] + [Pair(k, v)];
      GetAppend(m[1..], k, v, j);
    }
  }

  /** Of several values put under a key the last is the one that is found; other keys keep theirs. */
  lemma GetPut<K, V>(m: seq<Pair<K, V>>, k: K, v: V, j: K)
    ensures Get(Put(m, k, v), j) == if j == k then Some(v) else Get(m, j)
  {
    GetWithout(m, k, j);
    GetAppend(Without(m, k), k, v, j);
  }

  lemma {:induction false} GetAbsent<K, V>(m: seq<Pair<K, V>>, k: K)
    requires Absent(m, k)
    ensures Get(m, k) == None
  {
    if m != [] {
      GetAbsent(m[1..], k);
    }
  }
}
