/**
 The hash map of maps.c: every item is indexed twice, in a bucket sorted by key and in a
 keyset sorted by insertion number. Together they stand for an insertion-ordered map over
 the stored keys.
 */
module Maps {
  import opened Util
  import opened MapHash
  import A = Arrays
  import OM = OrderedMap

  /** A value is a pointer; None is NULL. */
  datatype Item<V> = Item(key: CStr, value: Option<V>, hash: bv32, order: int)

  type Bucket<V> = Option<seq<Item<V>>>

  function ByKey<V>(): (Item<V>, Item<V>) -> int
  {
    (a: Item<V>, b: Item<V>) => StrCmp(a.key, b.key)
  }

  function ByOrder<V>(): (Item<V>, Item<V>) -> int
  {
    (a: Item<V>, b: Item<V>) => a.order - b.order
  }

  lemma ByKeyIsOrder<V(!new)>()
    ensures A.IsOrder(ByKey<V>())
  {
    forall a: Item<V>, b: Item<V> ensures StrCmp(a.key, b.key) < 0 <==> StrCmp(b.key, a.key) > 0 {
      StrCmpFlips(a.key, b.key);
    }
    forall a: Item<V>, b: Item<V>, c: Item<V> | StrCmp(a.key, b.key) <= 0 && StrCmp(b.key, c.key) <= 0
      ensures StrCmp(a.key, c.key) <= 0
    {
      StrCmpTransitive(a.key, b.key, c.key);
    }
  }

  lemma ByOrderIsOrder<V(!new)>()
    ensures A.IsOrder(ByOrder<V>())
  {
  }

  // ----- the representation -----

  function Slot(h: bv32, n: nat): (i: nat)
    requires n > 0
    ensures i < n
  {
    Remainder(h as nat, n)
  }

  function Remainder(h: nat, n: nat): (i: nat)
    requires n > 0
    ensures i < n
  {
    h % n
  }

  function Chain<V>(b: Bucket<V>): seq<Item<V>>
  {
    if b.Some? then b.value else []
  }

  /** An item as PutBase makes it. */
  predicate Stored<V>(x: Item<V>, ucase: bool)
  {
    Norm(x.key, ucase) == x.key && x.hash == Hash(x.key, ucase)
  }

  ghost predicate Ordered<V>(keyset: seq<Item<V>>)
  {
    forall i, j :: 0 <= i < j < |keyset| ==> keyset[i].order < keyset[j].order
  }

  ghost predicate AllStored<V>(keyset: seq<Item<V>>, ucase: bool)
  {
    forall x :: x in keyset ==> Stored(x, ucase)
  }

  ghost predicate ChainsSorted<V>(buckets: seq<Bucket<V>>)
  {
    forall b :: 0 <= b < |buckets| ==> A.Sorted(Chain(buckets[b]), ByKey<V>())
  }

  /** The two indexes hold the same items: each bucket exactly those of its slot. */
  ghost predicate Indexed<V(!new)>(buckets: seq<Bucket<V>>, keyset: seq<Item<V>>)
    requires |buckets| > 0
  {
    forall b, x :: 0 <= b < |buckets| ==>
      (x in Chain(buckets[b]) <==> x in keyset && Slot(x.hash, |buckets|) == b)
  }

  ghost predicate Rep<V(!new)>(buckets: seq<Bucket<V>>, keyset: seq<Item<V>>, ucase: bool)
  {
    && |buckets| > 0
    && Ordered(keyset)
    && AllStored(keyset, ucase)
    && ChainsSorted(buckets)
    && Indexed(buckets, keyset)
  }

  /** The plain map the representation stands for. */
  function Pairs<V>(keyset: seq<Item<V>>): (m: seq<OM.Pair<CStr, Option<V>>>)
    ensures |m| == |keyset|
    ensures forall i :: 0 <= i < |m| ==> m[i] == OM.Pair(keyset[i].key, keyset[i].value)
  {
    seq(|keyset|, i requires 0 <= i < |keyset| => OM.Pair(keyset[i].key, keyset[i].value))
  }

  // ----- what the representation implies -----

  /** In a sorted bucket one key has one item. */
  lemma OnePerKey<V(!new)>(chain: seq<Item<V>>, x: Item<V>, y: Item<V>)
    requires A.Sorted(chain, ByKey<V>()) && x in chain && y in chain && x.key == y.key
    ensures x == y
  {
    var i :| 0 <= i < |chain| && chain[i] == x;
    var j :| 0 <= j < |chain| && chain[j] == y;
    StrCmpEqual(x.key, y.key);
  }

  lemma SameKeySameItem<V(!new)>(buckets: seq<Bucket<V>>, keyset: seq<Item<V>>, ucase: bool, x: Item<V>, y: Item<V>)
    requires Rep(buckets, keyset, ucase) && x in keyset && y in keyset && x.key == y.key
    ensures x == y
  {
    var b := Slot(x.hash, |buckets|);
    assert Stored(x, ucase) && Stored(y, ucase);
    assert x in Chain(buckets[b]) && y in Chain(buckets[b]);
    OnePerKey(Chain(buckets[b]), x, y);
  }

  /** The plain map has distinct keys although no part of the code looks at all of them. */
  lemma RepDistinct<V(!new)>(buckets: seq<Bucket<V>>, keyset: seq<Item<V>>, ucase: bool)
    requires Rep(buckets, keyset, ucase)
    ensures OM.DistinctKeys(Pairs(keyset))
  {
    forall i, j | 0 <= i < j < |keyset| ensures keyset[i].key != keyset[j].key {
      if keyset[i].key == keyset[j].key {
        SameKeySameItem(buckets, keyset, ucase, keyset[i], keyset[j]);
      }
    }
  }

  /** What a probe made from a key finds in the bucket the key hashes to. */
  lemma {:induction false} ProbeFinds<V(!new)>(buckets: seq<Bucket<V>>, keyset: seq<Item<V>>, ucase: bool,
                                               key: CStr, probe: Item<V>)
    requires Rep(buckets, keyset, ucase) && probe.key == Norm(key, ucase)
    ensures var chain := Chain(buckets[Slot(Hash(key, ucase), |buckets|)]);
            var r := A.Rank(chain, probe, ByKey<V>());
            if A.Holds(chain, probe, ByKey<V>())
            then r < |chain| && chain[r] in keyset && chain[r].key == probe.key
                 && OM.Get(Pairs(keyset), probe.key) == Some(chain[r].value)
            else OM.Absent(Pairs(keyset), probe.key)
  {
    hide OM.Get, A.IsOrder, A.Sorted;
    var b := Slot(Hash(key, ucase), |buckets|);
    var chain := Chain(buckets[b]);
    var r := A.Rank(chain, probe, ByKey<V>());
    ByKeyIsOrder<V>();
    assert A.Sorted(chain, ByKey<V>());
    A.HoldsIff(chain, probe, ByKey<V>());
    NormIdempotent(key, ucase);
    HashOfNorm(key, probe.key, ucase);
    if A.Holds(chain, probe, ByKey<V>()) {
      StrCmpEqual(probe.key, chain[r].key);
      assert chain[r] in chain;
      RepDistinct(buckets, keyset, ucase);
      var i :| 0 <= i < |keyset| && keyset[i] == chain[r];
      OM.GetAt(Pairs(keyset), i);
    } else {
      forall i | 0 <= i < |keyset| ensures keyset[i].key != probe.key {
        assert Stored(keyset[i], ucase);
        StrCmpEqual(probe.key, keyset[i].key);
      }
    }
  }

  // ----- the steps of the operations on the representation -----

  /** Adding an item with a new key and a higher number keeps the two indexes together. */
  lemma AddRep<V(!new)>(buckets: seq<Bucket<V>>, keyset: seq<Item<V>>, ucase: bool, item: Item<V>)
    requires Rep(buckets, keyset, ucase) && Stored(item, ucase) && OM.Absent(Pairs(keyset), item.key)
    requires forall x :: x in keyset ==> x.order < item.order
    ensures var b := Slot(item.hash, |buckets|);
            var chain := Chain(buckets[b]);
            !A.Holds(chain, item, ByKey<V>())
            && Rep(buckets[b := Some(A.Insert(chain, item, ByKey<V>()))], keyset + [item], ucase)
  {
    hide A.IsOrder, A.Sorted, A.Insert, A.Rank, A.Holds, Stored, Norm, Hash;
    var b := Slot(item.hash, |buckets|);
    var chain := Chain(buckets[b]);
    var cmp := ByKey<V>();
    ByKeyIsOrder<V>();
    assert A.Sorted(chain, cmp);
    A.HoldsIff(chain, item, cmp);
    forall i | 0 <= i < |chain| ensures cmp(item, chain[i]) != 0 {
      StrCmpEqual(item.key, chain[i].key);
      assert chain[i] in keyset;
      var k :| 0 <= k < |keyset| && keyset[k] == chain[i];
      assert Pairs(keyset)[k].key == chain[i].key;
    }
    A.InsertSorted(chain, item, cmp);
    forall y ensures y in A.Insert(chain, item, cmp) <==> y == item || y in chain {
      A.InsertHolds(chain, item, cmp, y);
    }
  }

  /** Taking an item out of both indexes keeps them together and removes its key from the map. */
  lemma RemoveRep<V(!new)>(buckets: seq<Bucket<V>>, keyset: seq<Item<V>>, ucase: bool, item: Item<V>, probe: Item<V>)
    requires Rep(buckets, keyset, ucase) && item in keyset && probe.key == item.key
    ensures var b := Slot(item.hash, |buckets|);
            var without := A.Delete(keyset, item, ByOrder<V>());
            Rep(buckets[b := Some(A.Delete(Chain(buckets[b]), probe, ByKey<V>()))], without, ucase)
  {
    hide A.Sorted, A.Delete, Ordered, Stored;
    var b := Slot(item.hash, |buckets|);
    var chain := Chain(buckets[b]);
    var without := A.Delete(keyset, item, ByOrder<V>());
    var shorter := A.Delete(chain, probe, ByKey<V>());
    assert A.Sorted(chain, ByKey<V>()) && item in chain;
    A.DeleteSorted(chain, probe, ByKey<V>());
    forall y ensures y in shorter <==> y in chain && y != item {
      DeletedFromChain(chain, item, probe, y);
    }
    forall y ensures y in without <==> y in keyset && y != item {
      DeletedFromKeyset(keyset, item, y);
    }
    var i :| 0 <= i < |keyset| && keyset[i] == item;
    DeleteFromKeyset(keyset, item, i);
  }

  lemma RemovePairs<V(!new)>(buckets: seq<Bucket<V>>, keyset: seq<Item<V>>, ucase: bool, item: Item<V>)
    requires Rep(buckets, keyset, ucase) && item in keyset
    ensures var without := A.Delete(keyset, item, ByOrder<V>());
            |without| == |keyset| - 1 && Pairs(without) == OM.Without(Pairs(keyset), item.key)
  {
    hide A.Delete, OM.Without;
    RepDistinct(buckets, keyset, ucase);
    var i :| 0 <= i < |keyset| && keyset[i] == item;
    hide Rep;
    DeleteFromKeyset(keyset, item, i);
    OM.WithoutIsRemoveAt(Pairs(keyset), i);
    assert Pairs(A.Delete(keyset, item, ByOrder<V>())) == Pairs(keyset)[..i] + Pairs(keyset)[i + 1..];
  }

  lemma OrderedIsSorted<V>(keyset: seq<Item<V>>)
    ensures Ordered(keyset) <==> A.Sorted(keyset, ByOrder<V>())
  {
    if Ordered(keyset) {
      assert A.Sorted(keyset, ByOrder<V>());
    }
    if A.Sorted(keyset, ByOrder<V>()) {
      forall i, j | 0 <= i < j < |keyset| ensures keyset[i].order < keyset[j].order {
        assert ByOrder<V>()(keyset[i], keyset[j]) < 0;
      }
    }
  }

  lemma OnePerOrder<V>(keyset: seq<Item<V>>, x: Item<V>, y: Item<V>)
    requires Ordered(keyset) && x in keyset && y in keyset && x.order == y.order
    ensures x == y
  {
    var i :| 0 <= i < |keyset| && keyset[i] == x;
    var j :| 0 <= j < |keyset| && keyset[j] == y;
    assert i == j;
  }

  /** The keyset is searched by insertion number. */
  lemma DeleteFromKeyset<V(!new)>(keyset: seq<Item<V>>, item: Item<V>, i: nat)
    requires Ordered(keyset) && i < |keyset| && keyset[i] == item
    ensures var without := A.Delete(keyset, item, ByOrder<V>());
            Ordered(without) && without == keyset[..i] + keyset[i + 1..]
  {
    hide A.IsOrder, A.Rank, A.Holds, A.Sorted, Ordered;
    var cmp := ByOrder<V>();
    ByOrderIsOrder<V>();
    OrderedIsSorted(keyset);
    A.HoldsIff(keyset, item, cmp);
    assert cmp(item, keyset[i]) == 0;
    A.DeleteSorted(keyset, item, cmp);
    OrderedIsSorted(A.Delete(keyset, item, cmp));
  }

  lemma DeletedFromKeyset<V(!new)>(keyset: seq<Item<V>>, item: Item<V>, y: Item<V>)
    requires Ordered(keyset) && item in keyset
    ensures y in A.Delete(keyset, item, ByOrder<V>()) <==> y in keyset && y != item
  {
    hide A.IsOrder, A.Rank, A.Holds, A.Sorted, A.Delete, Ordered;
    ByOrderIsOrder<V>();
    OrderedIsSorted(keyset);
    A.DeleteHolds(keyset, item, ByOrder<V>(), y);
    if y in keyset && y.order == item.order {
      OnePerOrder(keyset, y, item);
    }
  }

  /** A bucket is searched by key. */
  lemma DeletedFromChain<V(!new)>(chain: seq<Item<V>>, item: Item<V>, probe: Item<V>, y: Item<V>)
    requires A.Sorted(chain, ByKey<V>()) && item in chain && probe.key == item.key
    ensures y in A.Delete(chain, probe, ByKey<V>()) <==> y in chain && y != item
  {
    hide A.IsOrder, A.Rank, A.Holds, A.Sorted, A.Delete;
    ByKeyIsOrder<V>();
    A.DeleteHolds(chain, probe, ByKey<V>(), y);
    StrCmpEqual(probe.key, y.key);
    if y in chain && y.key == item.key {
      OnePerKey(chain, y, item);
    }
  }

  // ----- the number of buckets in use -----

  function Used<V>(buckets: seq<Bucket<V>>): int
  {
    Sum(buckets, IsUsed<V>())
  }

  function IsUsed<V>(): Bucket<V> -> int
  {
    (b: Bucket<V>) => if b.Some? then 1 else 0
  }

  /** A rebuild sends an old bucket to at most two new ones: i and i + n. */
  lemma HalfSlot(h: bv32, n: nat)
    requires n > 0
    ensures Slot(h, 2 * n) == Slot(h, n) || Slot(h, 2 * n) == Slot(h, n) + n
  {
    HalfRemainder(h as nat, n);
  }

  lemma HalfRemainder(v: nat, n: nat)
    requires n > 0
    ensures Remainder(v, 2 * n) == Remainder(v, n) || Remainder(v, 2 * n) == Remainder(v, n) + n
  {
    var q, r := v / (2 * n), v % (2 * n);
    assert v == 2 * n * q + r;
    var low := if r < n then r else r - n;
    var k := if r < n then 2 * q else 2 * q + 1;
    assert v == k * n + low;
    RemainderIs(v, n, k, low);
  }

  lemma RemainderIs(v: nat, n: nat, q: nat, r: nat)
    requires n > 0 && v == q * n + r && r < n
    ensures v % n == r
  {
    var d := v / n - q;
    assert d * n == r - v % n;
    MultipleOutside(d, n);
  }

  lemma MultipleOutside(d: int, n: nat)
    requires n > 0
    ensures d > 0 ==> d * n >= n
    ensures d < 0 ==> d * n + n <= 0
  {
  }

  lemma {:induction false} SumConcat<T>(s: seq<T>, t: seq<T>, f: T -> int)
    ensures Sum(s + t, f) == Sum(s, f) + Sum(t, f)
  {
    if s == [] {
      assert s + t == t;
    } else {
      assert (s + t)[1..] == s[1..] + t;
      SumConcat(s[1..], t, f);
    }
  }

  lemma {:induction false} SumMonotone<T>(s: seq<T>, t: seq<T>, f: T -> int)
    requires |s| == |t| && forall i :: 0 <= i < |s| ==> f(s[i]) <= f(t[i])
    ensures Sum(s, f) <= Sum(t, f)
  {
    if s != [] {
      SumMonotone(s[1..], t[1..], f);
    }
  }

  /** Buckets a rebuild fills hold an item, and that item was in the old bucket it came from. */
  lemma RebuiltUse<V(!new)>(before: seq<Bucket<V>>, after: seq<Bucket<V>>, keyset: seq<Item<V>>)
    requires |before| > 0 && |after| == 2 * |before|
    requires Indexed(before, keyset) && Indexed(after, keyset)
    requires forall b :: 0 <= b < |after| ==> after[b] != Some([])
    ensures Used(after) <= 2 * Used(before)
  {
    var n := |before|;
    forall b | 0 <= b < |after| && after[b].Some? ensures before[if b < n then b else b - n].Some? {
      var x := after[b].value[0];
      assert x in Chain(after[b]);
      HalfSlot(x.hash, n);
      assert x in Chain(before[Slot(x.hash, n)]);
    }
    SumMonotone(after[..n], before, IsUsed<V>());
    SumMonotone(after[n..], before, IsUsed<V>());
    SumConcat(after[..n], after[n..], IsUsed<V>());
    assert after == after[..n] + after[n..];
  }

  /** The bound on the fill: with `initial` buckets at first and `n` now, one more bucket in use
      than `used` is at most the load factor, plus one over the initial count, times `n`. */
  ghost predicate FillBounded(used: int, n: nat, initial: nat, load: real)
  {
    0 < initial <= n && (load >= 0.0 ==> (used + 1) as real <= (load + 1.0 / initial as real) * n as real)
  }

  lemma FillAtStart(n: nat, load: real)
    requires n > 0
    ensures FillBounded(0, n, n, load)
  {
    var r := n as real;
    assert (1.0 / r) * r == 1.0;
    assert load >= 0.0 ==> load * r >= 0.0;
    assert (load + 1.0 / r) * r == load * r + 1.0;
  }

  /** Taking an empty slot into use when the load check lets it pass. */
  lemma FillAfterCheck(used: int, n: nat, initial: nat, load: real)
    requires 0 < initial <= n && (used + 1) as real / n as real <= load
    ensures FillBounded(used + 1, n, initial, load)
  {
    var r, u, i := n as real, (used + 1) as real, initial as real;
    assert u == (u / r) * r <= load * r;
    assert (1.0 / i) * r >= (1.0 / i) * i == 1.0;
    assert (load + 1.0 / i) * r == load * r + (1.0 / i) * r;
  }

  /** Taking an empty slot into use after a rebuild, and the rebuild alone. */
  lemma FillAfterRebuild(used: int, rebuilt: int, n: nat, initial: nat, load: real)
    requires FillBounded(used, n, initial, load) && rebuilt <= 2 * used
    ensures FillBounded(rebuilt, 2 * n, initial, load) && FillBounded(rebuilt + 1, 2 * n, initial, load)
  {
    var c, r := load + 1.0 / initial as real, n as real;
    assert (2 * n) as real == 2.0 * r;
    assert c * (2.0 * r) == 2.0 * (c * r);
  }
}
