/** The map object of maps.c and its operations, proved against the insertion-ordered map. */
module HashMap {
  import opened Util
  import opened MapHash
  import opened Maps
  import A = Arrays
  import OM = OrderedMap

  type Model<V> = seq<OM.Pair<CStr, Option<V>>>

  /** A lookup yields NULL both for an absent key and for a stored NULL. */
  function ValueOf<V>(r: Option<Option<V>>): Option<V>
  {
    if r.Some? then r.value else None
  }

  /** Putting the pairs of another map one after the other. */
  function PutAllModel<V>(m: Model<V>, src: Model<V>, ucase: bool): Model<V>
  {
    if src == [] then m
    else OM.Put(PutAllModel(m, src[..|src| - 1], ucase), Norm(src[|src| - 1].key, ucase), src[|src| - 1].value)
  }

  lemma NothingPut<V>(m: Model<V>, src: Model<V>, ucase: bool)
    ensures PutAllModel(m, src[..0], ucase) == m && RotatedAll(m, 0) == m
  {
  }

  lemma PutAllStep<V>(m: Model<V>, src: Model<V>, i: nat, ucase: bool)
    requires i < |src|
    ensures PutAllModel(m, src[..i + 1], ucase)
            == OM.Put(PutAllModel(m, src[..i], ucase), Norm(src[i].key, ucase), src[i].value)
  {
    hide OM.Put, Norm;
    assert src[..i + 1][..i] == src[..i];
  }

  /** The pair at place `i` moved to the end. */
  function Rotated<T>(m: seq<T>, i: nat): (r: seq<T>)
    ensures |r| == |m| && multiset(r) == multiset(m)
  {
    if i < |m| then
      assert m == m[..i] + [m[i]] + m[i + 1..];
      m[..i] + m[i + 1..] + [m[i]]
    else m
  }

  /** After `n` rounds; no pair is lost or changed. */
  function RotatedAll<T>(m: seq<T>, n: nat): (r: seq<T>)
    ensures |r| == |m| && multiset(r) == multiset(m)
  {
    if n == 0 then m else Rotated(RotatedAll(m, n - 1), n - 1)
  }

  lemma RotateStep<T>(m: seq<T>, i: nat)
    ensures RotatedAll(m, i + 1) == Rotated(RotatedAll(m, i), i)
  {
  }

  /** Putting a pair that is already there moves it to the end. */
  lemma RePut<V(!new)>(buckets: seq<Bucket<V>>, keyset: seq<Item<V>>, ucase: bool, i: nat)
    requires Rep(buckets, keyset, ucase) && i < |keyset|
    ensures OM.Put(Pairs(keyset), Norm(keyset[i].key, ucase), keyset[i].value) == Rotated(Pairs(keyset), i)
  {
    hide Rep, OM.Without, OM.Get, Norm;
    PlaceOfKey(buckets, keyset, ucase, i);
  }

  lemma LoadIs(used: nat, n: nat, load: real)
    requires n > 0
    ensures used as real / n as real > load <==> used as real > load * n as real
  {
    var q := used as real / n as real;
    assert q * n as real == used as real;
    if q > load {
      assert q * n as real > load * n as real;
    } else {
      assert q * n as real <= load * n as real;
    }
  }

  /** A value that is put is found under every key that is the same for the map, and under no
      other. */
  lemma PutAnswers<V>(m: Model<V>, key: CStr, value: Option<V>, ucase: bool, k: CStr)
    ensures ValueOf(OM.Get(OM.Put(m, Norm(key, ucase), value), Norm(k, ucase)))
            == if SameKey(k, key, ucase) then value else ValueOf(OM.Get(m, Norm(k, ucase)))
  {
    hide OM.Get, OM.Put, Norm;
    NormIff(k, key, ucase);
    OM.GetPut(m, Norm(key, ucase), value, Norm(k, ucase));
  }

  /** A key that is removed is not found any more however it is written; all others are. */
  lemma WithoutAnswers<V>(m: Model<V>, key: CStr, ucase: bool, k: CStr)
    ensures ValueOf(OM.Get(OM.Without(m, Norm(key, ucase)), Norm(k, ucase)))
            == if SameKey(k, key, ucase) then None else ValueOf(OM.Get(m, Norm(k, ucase)))
  {
    hide OM.Get, OM.Without, Norm;
    NormIff(k, key, ucase);
    OM.GetWithout(m, Norm(key, ucase), Norm(k, ucase));
  }

  /** What an access by place does: it returns, or dereferences the item it did not get. */
  datatype Access<+V> = Returned(value: Option<V>) | NullItem

  class HashMap<V(!new)> {
    var buckets: seq<Bucket<V>>
    var keyset: seq<Item<V>>
    var size: nat
    var useCount: nat
    var orderSeq: int
    const ucase: bool
    const loadFactor: real
    const initial: nat

    ghost predicate Valid()
      reads this
    {
      && Rep(buckets, keyset, ucase)
      && (forall x :: x in keyset ==> x.order < orderSeq)
      && useCount == Used(buckets)
      && FillBounded(useCount, |buckets|, initial, loadFactor)
      && |keyset| <= size
    }

    /** The plain map this object stands for. */
    ghost function Model(): Model<V>
      reads this
    {
      Pairs(keyset)
    }

    /** A new bucket would be one too many for the load factor. */
    ghost predicate NeedsRebuild(hash: bv32)
      reads this
    {
      && |buckets| > 0 && buckets[Slot(hash, |buckets|)].None?
      && (useCount + 1) as real > loadFactor * |buckets| as real
    }

    /** What Get answers. */
    ghost function Answer(key: CStr): Option<V>
      reads this
    {
      ValueOf(OM.Get(Model(), Norm(key, ucase)))
    }

    constructor (bucketSize: nat, ucase: bool, loadFactor: real)
      requires bucketSize > 0
      ensures Valid() && Model() == [] && size == 0 && this.ucase == ucase
      ensures |buckets| == initial == bucketSize && this.loadFactor == loadFactor
    {
      buckets := seq(bucketSize, _ => None);
      keyset := [];
      size, useCount, orderSeq := 0, 0, 0;
      this.ucase := ucase;
      this.loadFactor := loadFactor;
      this.initial := bucketSize;
      new;
      SumZero(buckets, IsUsed<V>());
      FillAtStart(bucketSize, loadFactor);
    }

    /** Doubles the buckets and fills them from the keyset. */
    method Rebuild()
      requires Valid()
      modifies this`buckets, this`useCount
      ensures Rep(buckets, keyset, ucase) && |buckets| == 2 * old(|buckets|)
      ensures useCount == Used(buckets) && useCount <= 2 * old(useCount)
    {
      hide Rep, A.Insert, A.Holds, Stored, OM.Absent;
      var n := |buckets| * 2;
      ghost var before := buckets;
      var newBuckets: seq<Bucket<V>> := seq(n, _ => None);
      var used := 0;
      EmptyRep<V>(newBuckets, ucase);
      SumZero(newBuckets, IsUsed<V>());
      var i := 0;
      while i < |keyset|
        invariant 0 <= i <= |keyset| && |newBuckets| == n
        invariant Rep(newBuckets, keyset[..i], ucase)
        invariant used == Used(newBuckets)
        invariant forall b :: 0 <= b < n ==> newBuckets[b] != Some([])
      {
        var item := keyset[i];
        var index := Slot(item.hash, n);
        var bucket := Chain(newBuckets[index]);
        NextOfKeyset(before, keyset, ucase, i);
        AddRep(newBuckets, keyset[..i], ucase, item);
        assert keyset[..i + 1] == keyset[..i] + [item];
        if newBuckets[index].None? {
          used := used + 1;
        }
        var filled := A.Insert(bucket, item, ByKey<V>());
        SumUpdate(newBuckets, IsUsed<V>(), index, Some(filled));
        NotEmpty(bucket, item);
        newBuckets := newBuckets[index := Some(filled)];
        i := i + 1;
      }
      assert keyset[..i] == keyset;
      BothIndexed(before, newBuckets, keyset, ucase);
      RebuiltUse(before, newBuckets, keyset);
      buckets := newBuckets;
      useCount := used;
    }

    /** The bucket for a hash, created if needed, after a rebuild if the table is too full. */
    method ReadyBucket(hash: bv32) returns (index: nat)
      requires Valid()
      modifies this`buckets, this`useCount
      ensures Valid() && index == Slot(hash, |buckets|) && buckets[index].Some?
      ensures |buckets| == if old(NeedsRebuild(hash)) then 2 * old(|buckets|) else old(|buckets|)
      ensures forall i :: 0 <= i < |buckets| && i != index && !old(NeedsRebuild(hash)) ==> buckets[i] == old(buckets[i])
    {
      hide Rep, FillBounded, Used, Slot;
      FillHasBuckets(useCount, |buckets|, initial, loadFactor);
      LoadIs(useCount + 1, |buckets|, loadFactor);
      index := Slot(hash, |buckets|);
      if buckets[index].None? {
        ghost var n, used := |buckets|, useCount;
        var full := (useCount + 1) as real / |buckets| as real > loadFactor;
        if full {
          Rebuild();
          FillAfterRebuild(used, useCount, n, initial, loadFactor);
          index := Slot(hash, |buckets|);
        }
        if buckets[index].None? {
          if !full {
            FillAfterCheck(used, n, initial, loadFactor);
          }
          OpenBucket(buckets, keyset, ucase, index);
          buckets := buckets[index := Some([])];
          useCount := useCount + 1;
        }
      }
    }

    /** Stores a value: a key that is there already moves to the end. */
    method Put(key: CStr, value: Option<V>) returns (prev: Option<V>)
      requires Valid()
      modifies this
      ensures Valid() && Model() == OM.Put(old(Model()), Norm(key, ucase), value)
      ensures prev == ValueOf(OM.Get(old(Model()), Norm(key, ucase)))
      ensures size == old(size) + (if OM.Get(old(Model()), Norm(key, ucase)).Some? then 0 else 1)
      ensures size - |keyset| == old(size - |keyset|)
      ensures forall k: CStr :: Answer(k) == if SameKey(k, key, ucase) then value else old(Answer(k))
    {
      hide Rep, FillBounded, Used, Slot, A.Insert, A.Delete, A.Rank, A.Holds, OM.Get, OM.Without, Norm, Hash;
      prev := None;
      ghost var before := Model();
      var hash := ComputeHash(key, ucase);
      var index := ReadyBucket(hash);
      var item := Item(Norm(key, ucase), value, hash, orderSeq);
      orderSeq := orderSeq + 1;
      PutRep(buckets, keyset, ucase, key, item);
      ProbeFinds(buckets, keyset, ucase, key, item);
      var chain := buckets[index].value;
      var replaced := A.Holds(chain, item, ByKey<V>());
      var r := A.Rank(chain, item, ByKey<V>());
      UsedAfterInsert(buckets, index, A.Insert(chain, item, ByKey<V>()));
      buckets := buckets[index := Some(A.Insert(chain, item, ByKey<V>()))];
      if replaced {
        prev := chain[r].value;
        keyset := A.Delete(keyset, chain[r], ByOrder<V>());
      } else {
        OM.GetAbsent(before, item.key);
        size := size + 1;
      }
      keyset := A.Insert(keyset, item, ByOrder<V>());
      forall k: CStr ensures Answer(k) == if SameKey(k, key, ucase) then value else old(Answer(k)) {
        PutAnswers(before, key, value, ucase, k);
      }
    }

    /** Puts the pairs of a map one after the other. A map put into itself only changes its order:
        each round moves the pair at the next place to the end. */
    method PutAll(src: HashMap<V>)
      requires Valid() && src.Valid()
      modifies this
      ensures Valid() && size - |keyset| == old(size - |keyset|)
      ensures src != this ==> Model() == PutAllModel(old(Model()), src.Model(), ucase)
      ensures src == this ==> Model() == RotatedAll(old(Model()), |old(Model())|)
    {
      hide Rep, FillBounded, Used, OM.Get, OM.Put, Norm, PutAllModel, Rotated, RotatedAll, Pairs;
      ghost var before, other, same := Model(), src.Model(), src == this;
      NothingPut(before, other, ucase);
      var i := 0;
      while i < |src.keyset|
        invariant 0 <= i <= |src.keyset| == |other|
        invariant Valid() && size - |keyset| == old(size - |keyset|)
        invariant !same ==> src.Model() == other && Model() == PutAllModel(before, other[..i], ucase)
        invariant same ==> Model() == RotatedAll(before, i)
        decreases |other| - i
      {
        var item := src.keyset[i];
        if src == this {
          RePut(buckets, keyset, ucase, i);
          RotateStep(before, i);
        } else {
          PutAllStep(before, other, i, ucase);
        }
        var _ := Put(item.key, item.value);
        i := i + 1;
      }
      assert other[..i] == other;
    }

    method Get(key: CStr) returns (value: Option<V>)
      requires Valid()
      ensures value == ValueOf(OM.Get(Model(), Norm(key, ucase))) == Answer(key)
    {
      hide Rep, FillBounded, Used, Slot, A.Rank, A.Holds, OM.Get, Norm, Hash;
      FillHasBuckets(useCount, |buckets|, initial, loadFactor);
      var hash := ComputeHash(key, ucase);
      var index := Slot(hash, |buckets|);
      value := None;
      var probe := Item(Norm(key, ucase), None, 0, 0);
      ProbeFinds(buckets, keyset, ucase, key, probe);
      if buckets[index].Some? {
        var chain := buckets[index].value;
        if A.Holds(chain, probe, ByKey<V>()) {
          value := chain[A.Rank(chain, probe, ByKey<V>())].value;
        } else {
          OM.GetAbsent(Model(), probe.key);
        }
      } else {
        HoldsInEmpty(probe);
        OM.GetAbsent(Model(), probe.key);
      }
    }

    /** Removes a key; `size` counts down only if its value was not NULL. */
    method Remove(key: CStr) returns (value: Option<V>)
      requires Valid()
      modifies this
      ensures Valid() && Model() == OM.Without(old(Model()), Norm(key, ucase))
      ensures value == ValueOf(OM.Get(old(Model()), Norm(key, ucase)))
      ensures size == old(size) - (if value.Some? then 1 else 0)
      ensures |keyset| == old(|keyset|) - (if OM.Get(old(Model()), Norm(key, ucase)).Some? then 1 else 0)
      ensures forall k: CStr :: Answer(k) == if SameKey(k, key, ucase) then None else old(Answer(k))
    {
      hide Rep, FillBounded, Used, Slot, A.Delete, A.Rank, A.Holds, OM.Get, OM.Without, OM.Absent, Norm, Hash, Pairs;
      FillHasBuckets(useCount, |buckets|, initial, loadFactor);
      ghost var before := Model();
      var hash := ComputeHash(key, ucase);
      var index := Slot(hash, |buckets|);
      value := None;
      var probe := Item(Norm(key, ucase), None, 0, 0);
      ProbeFinds(buckets, keyset, ucase, key, probe);
      if buckets[index].Some? {
        var chain := buckets[index].value;
        if A.Holds(chain, probe, ByKey<V>()) {
          var item := chain[A.Rank(chain, probe, ByKey<V>())];
          TakeOut(buckets, keyset, ucase, key, item, probe, orderSeq);
          buckets := buckets[index := Some(A.Delete(chain, probe, ByKey<V>()))];
          keyset := A.Delete(keyset, item, ByOrder<V>());
          value := item.value;
        } else {
          OM.GetAbsent(Model(), probe.key);
          OM.WithoutAbsent(Model(), probe.key);
        }
        if value.Some? {
          size := size - 1;
        }
      } else {
        HoldsInEmpty(probe);
        OM.GetAbsent(Model(), probe.key);
        OM.WithoutAbsent(Model(), probe.key);
      }
      forall k: CStr ensures Answer(k) == if SameKey(k, key, ucase) then None else old(Answer(k)) {
        WithoutAnswers(before, key, ucase, k);
      }
    }

    /** The value at a place in insertion order. A stored NULL that was removed leaves `size` too
        large; the places up to it have no item, and the code dereferences a null pointer. */
    method GetAt(index: nat) returns (r: Access<V>)
      requires Valid()
      ensures r == if index >= size then Returned(None)
                   else if index < |keyset| then Returned(Model()[index].value) else NullItem
      ensures size == |keyset| ==> r.Returned?
    {
      hide Rep, FillBounded, Used, OM.Get, Norm;
      if index >= size {
        r := Returned(None);
      } else if index < |keyset| {
        PlaceOfKey(buckets, keyset, ucase, index);
        var value := Get(keyset[index].key);
        r := Returned(value);
      } else {
        r := NullItem;
      }
    }

    method RemoveAt(index: nat) returns (r: Access<V>)
      requires Valid()
      modifies this
      ensures Valid()
      ensures r == if index >= old(size) then Returned(None)
                   else if index < old(|keyset|) then Returned(old(Model())[index].value) else NullItem
      ensures Model() == if index < old(size) && index < old(|keyset|)
                         then old(Model())[..index] + old(Model())[index + 1..] else old(Model())
      ensures size == old(size) - (if r.Returned? && r.value.Some? then 1 else 0)
    {
      hide Rep, FillBounded, Used, OM.Get, OM.Without, Norm;
      if index >= size {
        r := Returned(None);
      } else if index < |keyset| {
        PlaceOfKey(buckets, keyset, ucase, index);
        var value := Remove(keyset[index].key);
        r := Returned(value);
      } else {
        r := NullItem;
      }
    }

    /** Empties every bucket and the keyset; the buckets stay in use. */
    method Clear() returns (freed: seq<Item<V>>)
      requires Valid()
      modifies this
      ensures Valid() && Model() == [] && size == 0
      ensures forall x :: x in freed <==> x in old(keyset)
      ensures forall i, j :: 0 <= i < j < |freed| ==> freed[i] != freed[j]
      ensures useCount == old(useCount) && |buckets| == old(|buckets|)
    {
      hide FillBounded, Used, A.Sorted, Slot;
      FillHasBuckets(useCount, |buckets|, initial, loadFactor);
      freed := [];
      ghost var before := buckets;
      var i := 0;
      while i < |buckets|
        invariant 0 <= i <= |buckets| == |before|
        invariant forall b :: 0 <= b < i ==> Chain(buckets[b]) == [] && (buckets[b].Some? <==> before[b].Some?)
        invariant forall b :: i <= b < |buckets| ==> buckets[b] == before[b]
        invariant forall x :: x in freed <==> x in keyset && Slot(x.hash, |buckets|) < i
        invariant forall j, k :: 0 <= j < k < |freed| ==> freed[j] != freed[k]
        invariant Used(buckets) == useCount
        invariant keyset == old(keyset) && useCount == old(useCount)
      {
        if buckets[i].Some? {
          var chain := buckets[i].value;
          assert Chain(before[i]) == chain;
          SortedDistinct(chain);
          freed := freed + chain;
          UsedAfterInsert(buckets, i, []);
          buckets := buckets[i := Some([])];
        } else {
          assert Chain(before[i]) == [];
        }
        i := i + 1;
      }
      EmptyRep(buckets, ucase);
      keyset := [];
      size := 0;
    }
  }

  lemma HoldsInEmpty<V>(probe: Item<V>)
    ensures !A.Holds(Chain<V>(None), probe, ByKey<V>())
  {
  }

  lemma UsedAfterInsert<V>(buckets: seq<Bucket<V>>, index: nat, chain: seq<Item<V>>)
    requires index < |buckets| && buckets[index].Some?
    ensures Used(buckets[index := Some(chain)]) == Used(buckets)
  {
    SumUpdate(buckets, IsUsed<V>(), index, Some(chain));
  }

  /** An item found under a key lies in the bucket the key hashes to. */
  lemma KeyDecidesSlot<V(!new)>(buckets: seq<Bucket<V>>, keyset: seq<Item<V>>, ucase: bool, key: CStr, item: Item<V>)
    requires Rep(buckets, keyset, ucase) && item in keyset && item.key == Norm(key, ucase)
    ensures item.hash == Hash(key, ucase)
  {
    hide Norm, Hash;
    assert Stored(item, ucase);
    HashOfNorm(key, item.key, ucase);
  }

  lemma DeletedEarlier<V(!new)>(buckets: seq<Bucket<V>>, keyset: seq<Item<V>>, ucase: bool, item: Item<V>, bound: int)
    requires Rep(buckets, keyset, ucase) && item in keyset
    requires forall x :: x in keyset ==> x.order < bound
    ensures forall x :: x in A.Delete(keyset, item, ByOrder<V>()) ==> x.order < bound
  {
    hide A.Delete;
    forall x | x in A.Delete(keyset, item, ByOrder<V>()) ensures x in keyset {
      DeletedFromKeyset(keyset, item, x);
    }
  }

  /** What Remove does to the two indexes when the key is there. */
  lemma {:induction false} TakeOut<V(!new)>(buckets: seq<Bucket<V>>, keyset: seq<Item<V>>, ucase: bool,
                                            key: CStr, item: Item<V>, probe: Item<V>, bound: int)
    requires Rep(buckets, keyset, ucase) && item in keyset
    requires item.key == probe.key == Norm(key, ucase) && buckets[Slot(Hash(key, ucase), |buckets|)].Some?
    requires forall x :: x in keyset ==> x.order < bound
    ensures var b := Slot(Hash(key, ucase), |buckets|);
            var left := buckets[b := Some(A.Delete(Chain(buckets[b]), probe, ByKey<V>()))];
            var rest := A.Delete(keyset, item, ByOrder<V>());
            && Rep(left, rest, ucase) && Used(left) == Used(buckets)
            && Pairs(rest) == OM.Without(Pairs(keyset), item.key) && |rest| == |keyset| - 1
            && (forall x :: x in rest ==> x.order < bound)
  {
    hide Rep, Used, A.Delete, OM.Without, Norm, Hash;
    KeyDecidesSlot(buckets, keyset, ucase, key, item);
    RemoveRep(buckets, keyset, ucase, item, probe);
    RemovePairs(buckets, keyset, ucase, item);
    DeletedEarlier(buckets, keyset, ucase, item, bound);
    var b := Slot(Hash(key, ucase), |buckets|);
    UsedAfterInsert(buckets, b, A.Delete(Chain(buckets[b]), probe, ByKey<V>()));
  }

  /** The key at a place is stored as it is, and leads back to that place. */
  lemma PlaceOfKey<V(!new)>(buckets: seq<Bucket<V>>, keyset: seq<Item<V>>, ucase: bool, index: nat)
    requires Rep(buckets, keyset, ucase) && index < |keyset|
    ensures var key := keyset[index].key;
            && Norm(key, ucase) == key
            && OM.Get(Pairs(keyset), key) == Some(keyset[index].value)
            && OM.Without(Pairs(keyset), key) == Pairs(keyset)[..index] + Pairs(keyset)[index + 1..]
  {
    hide OM.Get, OM.Without;
    ItemHash(buckets, keyset, ucase, keyset[index]);
    RepDistinct(buckets, keyset, ucase);
    OM.GetAt(Pairs(keyset), index);
    OM.WithoutIsRemoveAt(Pairs(keyset), index);
  }

  lemma SortedDistinct<V>(chain: seq<Item<V>>)
    requires A.Sorted(chain, ByKey<V>())
    ensures forall i, j :: 0 <= i < j < |chain| ==> chain[i] != chain[j]
  {
    forall i, j | 0 <= i < j < |chain| ensures chain[i] != chain[j] {
      StrCmpEqual(chain[i].key, chain[j].key);
      assert ByKey<V>()(chain[i], chain[j]) < 0;
    }
  }

  /** What Put does to the two indexes; `old` is the item that was there under the key. */
  lemma {:induction false} PutRep<V(!new)>(buckets: seq<Bucket<V>>, keyset: seq<Item<V>>, ucase: bool,
                                           key: CStr, item: Item<V>)
    requires Rep(buckets, keyset, ucase) && item.key == Norm(key, ucase) && item.hash == Hash(key, ucase)
    requires forall x :: x in keyset ==> x.order < item.order
    ensures var b := Slot(item.hash, |buckets|);
            var chain := Chain(buckets[b]);
            var found := A.Holds(chain, item, ByKey<V>());
            var filled := buckets[b := Some(A.Insert(chain, item, ByKey<V>()))];
            (found ==> chain[A.Rank(chain, item, ByKey<V>())] in keyset)
            && var rest := if found then A.Delete(keyset, chain[A.Rank(chain, item, ByKey<V>())], ByOrder<V>())
                           else keyset;
            && A.Insert(rest, item, ByOrder<V>()) == rest + [item]
            && Rep(filled, rest + [item], ucase)
            && Pairs(rest + [item]) == OM.Put(Pairs(keyset), item.key, item.value)
            && |rest| == |keyset| - (if found then 1 else 0)
            && (found <==> OM.Get(Pairs(keyset), item.key).Some?)
            && (forall x :: x in rest + [item] ==> x.order <= item.order)
  {
    hide Rep, A.Insert, A.Delete, A.Rank, A.Holds, A.Sorted, A.IsOrder, OM.Get, OM.Without, Norm, Hash,
      OM.Absent, Ordered;
    KeysetOrdered(buckets, keyset, ucase);
    var b := Slot(item.hash, |buckets|);
    var chain := Chain(buckets[b]);
    var cmp := ByKey<V>();
    NormIdempotent(key, ucase);
    HashOfNorm(key, item.key, ucase);
    ProbeFinds(buckets, keyset, ucase, key, item);
    ChainSorted(buckets, keyset, ucase, b);
    ByKeyIsOrder<V>();
    A.InsertAfterDelete(chain, item, cmp);
    if A.Holds(chain, item, cmp) {
      var previous := chain[A.Rank(chain, item, cmp)];
      var rest := A.Delete(keyset, previous, ByOrder<V>());
      ItemHash(buckets, keyset, ucase, previous);
      RemoveRep(buckets, keyset, ucase, previous, item);
      RemovePairs(buckets, keyset, ucase, previous);
      var removed := buckets[b := Some(A.Delete(chain, item, cmp))];
      forall x | x in rest ensures x in keyset {
        DeletedFromKeyset(keyset, previous, x);
      }
      WithoutLeavesAbsent(Pairs(keyset), item.key);
      AddRep(removed, rest, ucase, item);
      assert removed[b := Some(A.Insert(chain, item, cmp))] == buckets[b := Some(A.Insert(chain, item, cmp))];
      PutAtEnd(removed, rest, ucase, item);
    } else {
      OM.WithoutAbsent(Pairs(keyset), item.key);
      OM.GetAbsent(Pairs(keyset), item.key);
      AddRep(buckets, keyset, ucase, item);
      PutAtEnd(buckets, keyset, ucase, item);
    }
  }

  lemma {:induction false} WithoutLeavesAbsent<K, V>(m: seq<OM.Pair<K, V>>, k: K)
    ensures OM.Absent(OM.Without(m, k), k)
  {
    if m != [] {
      WithoutLeavesAbsent(m[1..], k);
    }
  }

  lemma ChainSorted<V(!new)>(buckets: seq<Bucket<V>>, keyset: seq<Item<V>>, ucase: bool, b: nat)
    requires Rep(buckets, keyset, ucase) && b < |buckets|
    ensures A.Sorted(Chain(buckets[b]), ByKey<V>())
  {
  }

  lemma KeysetOrdered<V(!new)>(buckets: seq<Bucket<V>>, keyset: seq<Item<V>>, ucase: bool)
    requires Rep(buckets, keyset, ucase)
    ensures |buckets| > 0 && Ordered(keyset)
  {
  }

  lemma ItemHash<V(!new)>(buckets: seq<Bucket<V>>, keyset: seq<Item<V>>, ucase: bool, item: Item<V>)
    requires Rep(buckets, keyset, ucase) && item in keyset
    ensures Stored(item, ucase)
  {
  }

  lemma PutAtEnd<V(!new)>(buckets: seq<Bucket<V>>, keyset: seq<Item<V>>, ucase: bool, item: Item<V>)
    requires Rep(buckets, keyset, ucase)
    requires forall x :: x in keyset ==> x.order < item.order
    ensures A.Insert(keyset, item, ByOrder<V>()) == keyset + [item]
    ensures Pairs(keyset + [item]) == Pairs(keyset) + [OM.Pair(item.key, item.value)]
  {
    hide Rep, A.Sorted, A.IsOrder, A.Insert, A.Holds, A.Rank, Ordered;
    KeysetOrdered(buckets, keyset, ucase);
    OrderedIsSorted(keyset);
    ByOrderIsOrder<V>();
    A.InsertAtEnd(keyset, item, ByOrder<V>());
  }

  lemma FillHasBuckets(used: int, n: nat, initial: nat, load: real)
    requires FillBounded(used, n, initial, load)
    ensures 0 < initial <= n
  {
  }

  lemma EmptyRep<V(!new)>(buckets: seq<Bucket<V>>, ucase: bool)
    requires |buckets| > 0 && forall b :: 0 <= b < |buckets| ==> Chain(buckets[b]) == []
    ensures Rep(buckets, [], ucase)
  {
  }

  /** An empty bucket and a missing one index the same items. */
  lemma OpenBucket<V(!new)>(buckets: seq<Bucket<V>>, keyset: seq<Item<V>>, ucase: bool, index: nat)
    requires Rep(buckets, keyset, ucase) && index < |buckets| && buckets[index].None?
    ensures Rep(buckets[index := Some([])], keyset, ucase)
    ensures Used(buckets[index := Some([])]) == Used(buckets) + 1
  {
    SumUpdate(buckets, IsUsed<V>(), index, Some([]));
  }

  /** While the keyset is walked, the next item is new and later than all before it. */
  lemma NextOfKeyset<V(!new)>(buckets: seq<Bucket<V>>, keyset: seq<Item<V>>, ucase: bool, i: nat)
    requires Rep(buckets, keyset, ucase) && i < |keyset|
    ensures Stored(keyset[i], ucase) && OM.Absent(Pairs(keyset[..i]), keyset[i].key)
    ensures forall x :: x in keyset[..i] ==> x.order < keyset[i].order
  {
    RepDistinct(buckets, keyset, ucase);
    forall j | 0 <= j < i ensures keyset[j].key != keyset[i].key {
      assert Pairs(keyset)[j].key != Pairs(keyset)[i].key;
    }
  }

  lemma NotEmpty<V>(chain: seq<Item<V>>, item: Item<V>)
    ensures A.Insert(chain, item, ByKey<V>()) != []
  {
  }

  lemma BothIndexed<V(!new)>(before: seq<Bucket<V>>, after: seq<Bucket<V>>, keyset: seq<Item<V>>, ucase: bool)
    requires Rep(before, keyset, ucase) && Rep(after, keyset, ucase)
    ensures |before| > 0 && |after| > 0 && Indexed(before, keyset) && Indexed(after, keyset)
  {
  }
}
