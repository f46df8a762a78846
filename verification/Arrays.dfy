/**
 The dynamic array of arrays.c: a growing block of slots that, when it has a comparator, is
 kept sorted without duplicates by binary search.
 */
module Arrays {
  import opened Util

  /** What the library asks of a comparator: its sign is a total preorder. */
  ghost predicate IsOrder<T(!new)>(cmp: (T, T) -> int)
  {
    && (forall a, b :: cmp(a, b) < 0 <==> cmp(b, a) > 0)
    && (forall a, b, c :: cmp(a, b) <= 0 && cmp(b, c) <= 0 ==> cmp(a, c) <= 0)
  }

  ghost predicate Sorted<T>(s: seq<T>, cmp: (T, T) -> int)
  {
    forall i, j :: 0 <= i < j < |s| ==> cmp(s[i], s[j]) < 0
  }

  /** The position of `x`: how many elements at the front are smaller. */
  function Rank<T>(s: seq<T>, x: T, cmp: (T, T) -> int): (r: nat)
    ensures r <= |s|
    ensures forall i :: 0 <= i < r ==> cmp(x, s[i]) > 0
    ensures r < |s| ==> cmp(x, s[r]) <= 0
  {
    if s == [] || cmp(x, s[0]) <= 0 then 0 else 1 + Rank(s[1..], x, cmp)
  }

  /** Whether an element equal to `x` is there. */
  predicate Holds<T>(s: seq<T>, x: T, cmp: (T, T) -> int)
  {
    var r := Rank(s, x, cmp);
    r < |s| && cmp(x, s[r]) == 0
  }

  /** The first place of an element equal to `x`, or the length. */
  function FirstEqual<T>(s: seq<T>, x: T, cmp: (T, T) -> int): (n: nat)
    ensures n <= |s| && forall i :: 0 <= i < n ==> cmp(x, s[i]) != 0
    ensures n < |s| ==> cmp(x, s[n]) == 0
  {
    if s == [] || cmp(x, s[0]) == 0 then 0 else 1 + FirstEqual(s[1..], x, cmp)
  }

  /** Inserts `x` at its position, or replaces the element equal to it. */
  function Insert<T>(s: seq<T>, x: T, cmp: (T, T) -> int): seq<T>
  {
    var r := Rank(s, x, cmp);
    if Holds(s, x, cmp) then s[r := x] else s[..r] + [x] + s[r..]
  }

  /** The two shapes an insertion can have. */
  lemma InsertShape<T(!new)>(s: seq<T>, x: T, cmp: (T, T) -> int)
    requires IsOrder(cmp) && Sorted(s, cmp)
    ensures var r, t := Rank(s, x, cmp), Insert(s, x, cmp);
            && Sorted(t, cmp)
            && (if Holds(s, x, cmp) then r < |s| && t == s[r := x] else t == s[..r] + [x] + s[r..])
  {
    InsertSorted(s, x, cmp);
  }

  function Without<T>(s: seq<T>, i: nat): seq<T>
    requires i < |s|
  {
    s[..i] + s[i + 1..]
  }

  /** Removes the element equal to `x`, if it is there. */
  function Delete<T>(s: seq<T>, x: T, cmp: (T, T) -> int): seq<T>
  {
    if Holds(s, x, cmp) then Without(s, Rank(s, x, cmp)) else s
  }

  /** In a sorted sequence everything behind the position of `x` is greater. */
  lemma BehindRank<T(!new)>(s: seq<T>, x: T, cmp: (T, T) -> int, i: nat)
    requires IsOrder(cmp) && Sorted(s, cmp) && Rank(s, x, cmp) < i < |s|
    ensures cmp(x, s[i]) < 0
  {
    assert cmp(s[Rank(s, x, cmp)], s[i]) < 0;
  }

  /** The position is where the order says it is, however it is found. */
  lemma RankIs<T(!new)>(s: seq<T>, x: T, cmp: (T, T) -> int, i: nat)
    requires IsOrder(cmp) && Sorted(s, cmp) && i <= |s|
    requires i > 0 ==> cmp(x, s[i - 1]) > 0
    requires i < |s| ==> cmp(x, s[i]) <= 0
    ensures Rank(s, x, cmp) == i
  {
    hide IsOrder, Sorted;
    if Rank(s, x, cmp) < i - 1 {
      BehindRank(s, x, cmp, i - 1);
    }
  }

  /** Where `x` stands among the elements of a sorted sequence. */
  lemma AroundRank<T(!new)>(s: seq<T>, x: T, cmp: (T, T) -> int)
    requires IsOrder(cmp) && Sorted(s, cmp)
    ensures var r := Rank(s, x, cmp);
            && (Holds(s, x, cmp) ==> r < |s| && cmp(x, s[r]) == 0)
            && (forall i :: 0 <= i < r ==> cmp(s[i], x) < 0 < cmp(x, s[i]))
            && (forall i :: r <= i < |s| && !(i == r && Holds(s, x, cmp)) ==> cmp(x, s[i]) < 0 < cmp(s[i], x))
  {
    forall i | Rank(s, x, cmp) < i < |s| ensures cmp(x, s[i]) < 0 {
      BehindRank(s, x, cmp, i);
    }
  }

  /** Insertion keeps a sequence sorted. */
  lemma InsertSorted<T(!new)>(s: seq<T>, x: T, cmp: (T, T) -> int)
    requires IsOrder(cmp) && Sorted(s, cmp)
    ensures Sorted(Insert(s, x, cmp), cmp)
  {
    hide IsOrder, Rank, Holds;
    AroundRank(s, x, cmp);
  }

  /** The result of an insertion holds the new element, and the old ones except the one that
      was equal to it. */
  lemma InsertHolds<T(!new)>(s: seq<T>, x: T, cmp: (T, T) -> int, y: T)
    requires IsOrder(cmp) && Sorted(s, cmp)
    ensures y in Insert(s, x, cmp) <==> y == x || (y in s && cmp(x, y) != 0)
  {
    hide IsOrder, Rank, Holds, Sorted;
    AroundRank(s, x, cmp);
    var r := Rank(s, x, cmp);
    var t := Insert(s, x, cmp);
    assert t[r] == x;
    if y in t && y != x {
      var i :| 0 <= i < |t| && t[i] == y;
      var j := if i < r || Holds(s, x, cmp) then i else i - 1;
      assert s[j] == y;
    }
    if y in s && cmp(x, y) != 0 {
      var i :| 0 <= i < |s| && s[i] == y;
      var j := if i < r || Holds(s, x, cmp) then i else i + 1;
      assert t[j] == y;
    }
  }

  /** Deletion keeps a sequence sorted. */
  lemma DeleteSorted<T(!new)>(s: seq<T>, x: T, cmp: (T, T) -> int)
    requires Sorted(s, cmp)
    ensures Sorted(Delete(s, x, cmp), cmp)
  {
    hide Rank;
  }

  /** Deletion removes exactly the element equal to `x`. */
  lemma DeleteHolds<T(!new)>(s: seq<T>, x: T, cmp: (T, T) -> int, y: T)
    requires IsOrder(cmp) && Sorted(s, cmp)
    ensures y in Delete(s, x, cmp) <==> y in s && cmp(x, y) != 0
  {
    hide IsOrder, Rank, Holds, Sorted;
    AroundRank(s, x, cmp);
    var r := Rank(s, x, cmp);
    var t := Delete(s, x, cmp);
    if y in t {
      var i :| 0 <= i < |t| && t[i] == y;
      var j := if i < r || !Holds(s, x, cmp) then i else i + 1;
      assert s[j] == y;
    }
    if y in s && cmp(x, y) != 0 {
      var i :| 0 <= i < |s| && s[i] == y;
      var j := if i < r || !Holds(s, x, cmp) then i else i - 1;
      assert t[j] == y;
    }
  }

  /** The element equal to `x` is found exactly when there is one. */
  lemma HoldsIff<T(!new)>(s: seq<T>, x: T, cmp: (T, T) -> int)
    requires IsOrder(cmp) && Sorted(s, cmp)
    ensures Holds(s, x, cmp) <==> exists i :: 0 <= i < |s| && cmp(x, s[i]) == 0
    ensures forall i :: 0 <= i < |s| && cmp(x, s[i]) == 0 ==> i == Rank(s, x, cmp)
  {
    hide IsOrder, Sorted, Rank, Holds;
    AroundRank(s, x, cmp);
  }

  /** In a sorted array the binary search and a scan from the front find the same place. */
  lemma SearchIsScan<T(!new)>(s: seq<T>, x: T, cmp: (T, T) -> int)
    requires IsOrder(cmp) && Sorted(s, cmp)
    ensures Holds(s, x, cmp) <==> FirstEqual(s, x, cmp) < |s|
    ensures Holds(s, x, cmp) ==> FirstEqual(s, x, cmp) == Rank(s, x, cmp)
  {
    hide IsOrder, Sorted, Rank, Holds, FirstEqual;
    HoldsIff(s, x, cmp);
  }

  /** Replacing an element is deleting it and inserting the new one. */
  lemma InsertAfterDelete<T(!new)>(s: seq<T>, x: T, cmp: (T, T) -> int)
    requires IsOrder(cmp) && Sorted(s, cmp)
    ensures Insert(Delete(s, x, cmp), x, cmp) == Insert(s, x, cmp)
    ensures !Holds(Delete(s, x, cmp), x, cmp)
  {
    hide IsOrder, Rank, Holds, Sorted;
    AroundRank(s, x, cmp);
    DeleteSorted(s, x, cmp);
    var r := Rank(s, x, cmp);
    RankIs(Delete(s, x, cmp), x, cmp, r);
    HoldsIff(Delete(s, x, cmp), x, cmp);
  }

  /** An element greater than all others goes to the end. */
  lemma InsertAtEnd<T(!new)>(s: seq<T>, x: T, cmp: (T, T) -> int)
    requires IsOrder(cmp) && Sorted(s, cmp)
    requires forall i :: 0 <= i < |s| ==> cmp(x, s[i]) > 0
    ensures !Holds(s, x, cmp) && Insert(s, x, cmp) == s + [x]
  {
    hide IsOrder, Rank, Sorted;
    RankIs(s, x, cmp, |s|);
  }

  /** Where a binary search ends. */
  datatype Place = Found(idx: nat) | Missing(idx: nat)

  /** The binary search on any sequence, sorted or not; it halves the window `[lo..hi]`. */
  function Probe<T>(s: seq<T>, x: T, cmp: (T, T) -> int, lo: nat, hi: nat): (p: Place)
    requires lo < hi <= |s|
    ensures p.idx <= |s| && (p.Found? ==> p.idx < |s| && cmp(x, s[p.idx]) == 0)
    decreases hi - lo
  {
    var mid := (hi + lo) / 2;
    if cmp(x, s[mid]) == 0 then Found(mid)
    else if cmp(x, s[mid]) < 0 then if mid == lo then Missing(mid) else Probe(s, x, cmp, lo, mid)
    else if mid == hi - 1 then Missing(hi) else Probe(s, x, cmp, mid, hi)
  }

  function Locate<T>(s: seq<T>, x: T, cmp: (T, T) -> int): (p: Place)
    ensures p.idx <= |s| && (p.Found? ==> p.idx < |s| && cmp(x, s[p.idx]) == 0)
  {
    if s == [] then Missing(0) else Probe(s, x, cmp, 0, |s|)
  }

  lemma LocateEmpty<T>(x: T, cmp: (T, T) -> int)
    ensures Locate([], x, cmp) == Missing(0)
  {
  }

  /** What adding and removing make of the sequence when the binary search finds the place. */
  function InsertLocated<T>(s: seq<T>, x: T, cmp: (T, T) -> int): seq<T>
  {
    match Locate(s, x, cmp)
    case Found(i) => s[i := x]
    case Missing(i) => s[..i] + [x] + s[i..]
  }

  function DeleteLocated<T>(s: seq<T>, x: T, cmp: (T, T) -> int): seq<T>
  {
    match Locate(s, x, cmp)
    case Found(i) => Without(s, i)
    case Missing(_) => s
  }

  lemma {:induction false} ProbeIsRank<T(!new)>(s: seq<T>, x: T, cmp: (T, T) -> int, lo: nat, hi: nat)
    requires IsOrder(cmp) && Sorted(s, cmp) && lo < hi <= |s|
    requires (lo > 0 ==> cmp(x, s[lo]) > 0) && (hi < |s| ==> cmp(x, s[hi]) < 0)
    ensures Probe(s, x, cmp, lo, hi) == if Holds(s, x, cmp) then Found(Rank(s, x, cmp)) else Missing(Rank(s, x, cmp))
    decreases hi - lo
  {
    hide IsOrder, Sorted, Rank, Holds;
    var mid := (hi + lo) / 2;
    HoldsIff(s, x, cmp);
    if cmp(x, s[mid]) < 0 {
      if mid == lo {
        RankIs(s, x, cmp, mid);
      } else {
        ProbeIsRank(s, x, cmp, lo, mid);
      }
    } else if cmp(x, s[mid]) > 0 {
      if mid == hi - 1 {
        RankIs(s, x, cmp, hi);
      } else {
        ProbeIsRank(s, x, cmp, mid, hi);
      }
    }
  }

  /** In a sorted sequence the binary search ends at the position of `x`. */
  lemma LocateIsRank<T(!new)>(s: seq<T>, x: T, cmp: (T, T) -> int)
    requires IsOrder(cmp) && Sorted(s, cmp)
    ensures Locate(s, x, cmp) == if Holds(s, x, cmp) then Found(Rank(s, x, cmp)) else Missing(Rank(s, x, cmp))
    ensures InsertLocated(s, x, cmp) == Insert(s, x, cmp) && DeleteLocated(s, x, cmp) == Delete(s, x, cmp)
  {
    hide IsOrder, Sorted, Probe;
    if s != [] {
      ProbeIsRank(s, x, cmp, 0, |s|);
    }
  }

  /** The array object; `data.Length` is its capacity. */
  class Array<T(0, !new)> {
    var data: array<T>
    var size: nat
    const cmp: (T, T) -> int
    const sorted: bool

    ghost predicate Valid()
      reads this, data
    {
      size <= data.Length && (sorted ==> IsOrder(cmp) && Sorted(data[..size], cmp))
    }

    ghost function Contents(): seq<T>
      reads this, data
      requires size <= data.Length
    {
      data[..size]
    }

    constructor (capacity: nat, cmp: (T, T) -> int, sorted: bool)
      requires sorted ==> IsOrder(cmp)
      ensures Valid() && fresh(data) && Contents() == [] && this.cmp == cmp && this.sorted == sorted
    {
      data := new T[capacity];
      size := 0;
      this.cmp := cmp;
      this.sorted := sorted;
    }

    /** Makes room for `insize` more elements, doubling the capacity. */
    method CheckSize(insize: nat)
      requires size <= data.Length
      modifies this`data
      ensures size + insize <= data.Length && data[..size] == old(data[..size])
      ensures data == old(data) || fresh(data)
      ensures old(data.Length) >= size + insize ==> data == old(data)
      ensures data != old(data) ==> data.Length == 4 || data.Length < 2 * (size + insize)
    {
      var reqsz := size + insize;
      if data.Length < reqsz {
        var newcap := if data.Length > 0 then data.Length * 2 else 4;
        while newcap < reqsz
          invariant newcap == 4 || 0 < newcap < 2 * reqsz
          decreases reqsz - newcap
        {
          newcap := newcap * 2;
        }
        var bigger := new T[newcap];
        forall i | 0 <= i < size {
          bigger[i] := data[i];
        }
        data := bigger;
      }
    }

    /** The binary search; it narrows the window without ever skipping the last probe. */
    method Search(x: T) returns (found: bool, idx: nat)
      requires Valid() && sorted
      ensures Locate(Contents(), x, cmp) == if found then Found(idx) else Missing(idx)
      ensures idx == Rank(Contents(), x, cmp) && (found <==> Holds(Contents(), x, cmp))
    {
      hide IsOrder, Sorted, Rank, Holds;
      LocateIsRank(Contents(), x, cmp);
      found, idx := false, 0;
      if size > 0 {
        var stpos, edpos := 0, size;
        while true
          invariant 0 <= stpos < edpos <= size
          invariant Probe(Contents(), x, cmp, stpos, edpos) == Locate(Contents(), x, cmp)
          decreases edpos - stpos
        {
          var mid := (edpos + stpos) / 2;
          var c := cmp(x, data[mid]);
          if c == 0 {
            found, idx := true, mid;
            break;
          } else if c < 0 {
            if mid == stpos {
              idx := mid;
              break;
            }
            edpos := mid;
          } else {
            if mid == edpos - 1 {
              idx := edpos;
              break;
            }
            stpos := mid;
          }
        }
      }
    }

    /** Moves the elements from `index` on one slot up and stores; an index behind the end is refused. */
    method InsertAtPrivate(x: T, index: nat) returns (ok: bool)
      requires size <= data.Length
      modifies this, data
      ensures data == old(data) || fresh(data)
      ensures ok <==> index <= old(size)
      ensures ok ==> size == old(size) + 1 <= data.Length
      ensures ok ==> data[..size] == old(data[..index]) + [x] + old(data[index..size])
      ensures !ok ==> size == old(size) <= data.Length && data[..size] == old(data[..size])
    {
      CheckSize(1);
      if index > size {
        return false;
      }
      ghost var before := data[..size];
      forall i | index < i <= size {
        data[i] := data[i - 1];
      }
      data[index] := x;
      size := size + 1;
      assert forall k :: 0 <= k < index ==> data[..size][k] == before[k];
      assert forall k :: index < k < size ==> data[..size][k] == before[k - 1];
      assert data[..size] == before[..index] + [x] + before[index..];
      return true;
    }

    /** The public insertion is refused on a sorted array. */
    method InsertAt(x: T, index: nat) returns (ok: bool)
      requires Valid()
      modifies this, data
      ensures Valid() && (data == old(data) || fresh(data))
      ensures ok <==> !sorted && index <= old(size)
      ensures Contents() == if ok then old(data[..index]) + [x] + old(data[index..size]) else old(Contents())
    {
      if !sorted {
        ok := InsertAtPrivate(x, index);
      } else {
        ok := false;
      }
    }

    /** Adds an element: at its position if sorted, replacing an equal one, else at the end. */
    method Add(x: T) returns (replaced: Option<T>)
      requires Valid()
      modifies this, data
      ensures Valid() && (data == old(data) || fresh(data))
      ensures Contents() == if sorted then Insert(old(Contents()), x, cmp) else old(Contents()) + [x]
      ensures replaced == if sorted && Holds(old(Contents()), x, cmp)
                          then Some(old(Contents())[Rank(old(Contents()), x, cmp)]) else None
    {
      hide IsOrder, Sorted, Rank, Holds, Insert, Locate, Probe, InsertLocated;
      replaced := None;
      ghost var before := Contents();
      if sorted {
        InsertShape(before, x, cmp);
        var found, index := Search(x);
        if found {
          replaced := Some(data[index]);
          data[index] := x;
          assert data[..size] == before[index := x];
        } else {
          var _ := InsertAtPrivate(x, index);
          assert old(data[index..size]) == before[index..];
        }
        assert Contents() == Insert(before, x, cmp);
      } else {
        CheckSize(1);
        data[size] := x;
        size := size + 1;
        assert data[..size] == before + [x];
      }
    }

    method RemoveAt(index: nat) returns (removed: Option<T>)
      requires Valid()
      modifies this, data
      ensures Valid() && data == old(data)
      ensures if index < old(size)
              then removed == Some(old(Contents())[index]) && Contents() == Without(old(Contents()), index)
              else removed == None && Contents() == old(Contents())
    {
      if index >= size {
        return None;
      }
      ghost var before := Contents();
      removed := Some(data[index]);
      forall i | index <= i < size - 1 {
        data[i] := data[i + 1];
      }
      size := size - 1;
      assert data[..size] == Without(before, index);
    }

    /** Binary search if sorted, else a scan with the comparator; both find the first place. */
    method Find(x: T) returns (r: Option<nat>)
      requires Valid()
      ensures var n := FirstEqual(Contents(), x, cmp);
        r == if n < size then Some(n) else None
      ensures sorted ==> (r.Some? <==> Holds(Contents(), x, cmp)) && (r.Some? ==> r.value == Rank(Contents(), x, cmp))
    {
      hide IsOrder, Sorted, Rank, Holds, FirstEqual, Locate, Probe;
      if sorted {
        SearchIsScan(Contents(), x, cmp);
        var found, idx := Search(x);
        return if found then Some(idx) else None;
      }
      var i := 0;
      while i < size
        invariant 0 <= i <= size && forall j :: 0 <= j < i ==> cmp(x, Contents()[j]) != 0
      {
        if cmp(x, data[i]) == 0 {
          assert cmp(x, Contents()[i]) == 0;
          return Some(i);
        }
        i := i + 1;
      }
      return None;
    }

    /** Removes the first element equal to `x`; a sorted array stays sorted. */
    method Remove(x: T) returns (removed: Option<T>)
      requires Valid()
      modifies this, data
      ensures Valid() && data == old(data)
      ensures sorted ==> Contents() == Delete(old(Contents()), x, cmp)
      ensures var n := FirstEqual(old(Contents()), x, cmp);
        if n < old(size) then removed == Some(old(Contents())[n]) && Contents() == Without(old(Contents()), n)
        else removed == None && Contents() == old(Contents())
    {
      hide IsOrder, Sorted, Rank, Holds, FirstEqual;
      var index := Find(x);
      if index.Some? {
        removed := RemoveAt(index.value);
      } else {
        removed := None;
      }
    }
  }
}
