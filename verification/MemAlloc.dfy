/** The allocator over all size classes: the functions behind CMAlloc, CMFree and the rest. */
module MemAlloc {
  import opened MemRcy
  import opened Text
  import opened Util

  class Allocator {
    const lists: seq<RcyList>

    ghost function Nodes(): (s: set<Node>)
      reads lists
      ensures forall i :: 0 <= i < |lists| ==> lists[i].used <= s
      ensures forall i, n :: 0 <= i < |lists| && n in lists[i].chain ==> n in s
    {
      (set i, n | 0 <= i < |lists| && n in lists[i].used :: n)
      + (set i, n | 0 <= i < |lists| && n in lists[i].chain :: n)
    }

    ghost predicate Valid()
      reads this, lists, Nodes()
    {
      && |lists| == CLASSES
      && forall i :: 0 <= i < CLASSES ==> ClassOk(i)
    }

    ghost predicate ClassOk(i: nat)
      requires i < |lists|
      reads lists[i], lists[i].used, lists[i].chain
    {
      lists[i].index == i && lists[i].Valid()
    }

    constructor ()
      ensures Valid()
      ensures forall i :: 0 <= i < CLASSES ==> fresh(lists[i]) && lists[i].used == {}
    {
      var made: seq<RcyList> := [];
      while |made| < CLASSES
        invariant |made| <= CLASSES
        invariant forall i :: 0 <= i < |made| ==> fresh(made[i]) && made[i].index == i
        invariant forall i :: 0 <= i < |made| ==> made[i].Valid() && made[i].used == {} && made[i].chain == []
      {
        var list := new RcyList(|made|);
        made := made + [list];
      }
      lists := made;
      new;
      forall i | 0 <= i < CLASSES ensures ClassOk(i) {
        assert lists[i] == made[i];
      }
    }

    /** A block belongs to the class of its index. */
    lemma InClass(i: nat, n: Node)
      requires Valid() && i < CLASSES && (n in lists[i].used || n in lists[i].chain)
      ensures n.index == i
      ensures n in lists[i].used ==> n !in lists[i].chain && n.size < |n.bytes|
    {
      hide Pow2;
      assert ClassOk(i);
      if n in lists[i].chain {
        OnChain(lists[i].head, lists[i].chain, i, n);
      }
    }

    /** The first free block of a class is no block of another class and not in use. */
    lemma HeadApart(k: nat, j: nat)
      requires Valid() && k < CLASSES && j < CLASSES && lists[k].chain != []
      ensures lists[k].chain[0] !in lists[j].used
      ensures k != j ==> lists[k].chain[0] !in lists[j].chain && lists[k] != lists[j]
    {
      var n := lists[k].chain[0];
      assert n in lists[k].chain;
      assert ClassOk(k) && ClassOk(j);
      InClass(k, n);
      if n in lists[j].used || n in lists[j].chain {
        InClass(j, n);
      }
    }

    /** What an allocation may change. */
    ghost function Touched(size: nat): set<object>
      requires |lists| == CLASSES
      reads lists
    {
      var k := RcyIndex(size);
      if k >= CLASSES then {}
      else {lists[k]} + (if lists[k].chain == [] then {} else {lists[k].chain[0]})
    }

    /** A block for `size` bytes; a size above all classes is refused. */
    method Alloc(size: nat) returns (r: Node?)
      requires Valid()
      modifies Touched(size)
      ensures Valid()
      ensures r == null <==> RcyIndex(size) >= CLASSES
      ensures r != null ==>
        r.index == RcyIndex(size) && r.size == size && r.Intact()
      ensures r != null ==> fresh(r) || r in old(Touched(size))
      ensures r != null ==> forall i :: 0 <= i < CLASSES ==> r !in old(lists[i].used)
      ensures forall i, n :: 0 <= i < CLASSES && n in old(lists[i].used) ==> unchanged(n)
      ensures forall i :: 0 <= i < CLASSES ==>
        lists[i].used == old(lists[i].used) + if r != null && i == RcyIndex(size) then {r} else {}
    {
      hide Pow2, Linked, Shape, AllFit;
      var k := RcyIndex(size);
      if k >= CLASSES {
        return null;
      }
      var list := lists[k];
      assert ClassOk(k);
      forall j | 0 <= j < CLASSES ensures ClassOk(j) && (j != k ==> lists[j] != list) {
      }
      if list.chain != [] {
        forall j | 0 <= j < CLASSES
          ensures list.chain[0] !in lists[j].used && (j != k ==> list.chain[0] !in lists[j].chain)
        {
          HeadApart(k, j);
        }
      }
      r := list.Take(size);
      forall j | 0 <= j < CLASSES ensures ClassOk(j) {
        if j != k {
          assert old(ClassOk(j));
        }
      }
    }

    /** Zeroed memory; a product that does not fit size_t is refused. */
    method Calloc(count: nat, size: nat) returns (r: Node?)
      requires Valid()
      modifies Touched(count * size)
      ensures Valid()
      ensures r == null <==> count * size > SIZE_MAX || RcyIndex(count * size) >= CLASSES
      ensures r != null ==>
        && r.index == RcyIndex(count * size)
        && r.size == count * size && r.Intact()
        && (forall i :: 0 <= i < count * size ==> r.Payload()[i] == 0)
      ensures r != null ==> forall i :: 0 <= i < CLASSES ==> r !in old(lists[i].used)
      ensures forall i, n :: 0 <= i < CLASSES && n in old(lists[i].used) ==> unchanged(n)
      ensures forall i :: 0 <= i < CLASSES ==>
        lists[i].used == old(lists[i].used) + if r != null && i == RcyIndex(count * size) then {r} else {}
    {
      hide RcyIndex, RcyList.Valid, Pow2;
      ProductFits(count, size);
      if count != 0 && size > SIZE_MAX / count {
        return null;
      }
      var total := count * size;
      r := Alloc(total);
      if r != null {
        var raw := r.bytes;
        ClassHolds(r, total);
        Rewrite(r, total, r.flag, seq(|raw|, i requires 0 <= i < |raw| => if i < total then 0 else raw[i]));
      }
    }

    /** Gives a block back. Null, and what is not in use, is refused and changes nothing. */
    method Free(node: Node?)
      requires Valid()
      modifies if node != null && 0 <= node.index < CLASSES then {node, lists[node.index]} else {}
      ensures Valid()
      ensures node != null && 0 <= node.index < CLASSES && old(node in lists[node.index].used) ==>
        lists[node.index].used == old(lists[node.index].used) - {node}
        && node.bytes == old(node.bytes)
        && if old(node.Intact())
           then lists[node.index].chain == [node] + old(lists[node.index].chain)
                && lists[node.index].lost == old(lists[node.index].lost)
           else lists[node.index].chain == old(lists[node.index].chain)
                && lists[node.index].lost == old(lists[node.index].lost) + {node}
      ensures node != null && 0 <= node.index < CLASSES && old(node !in lists[node.index].used) ==>
        unchanged(node) && unchanged(lists[node.index])
    {
      hide Pow2, Shape, Linked, AllFit;
      if node == null || node.index < 0 || node.index >= CLASSES {
        return;
      }
      var list := lists[node.index];
      assert ClassOk(node.index);
      forall j | 0 <= j < CLASSES ensures ClassOk(j) && (j != node.index ==> lists[j] != list) {
      }
      if node in list.used {
        UsedOnlyIn(node.index, node);
      }
      var _ := list.Give(node);
      forall j | 0 <= j < CLASSES ensures ClassOk(j) {
        if j != node.index {
          assert old(ClassOk(j));
        }
      }
    }

    /** What a client can do to a block in use: write one byte at a distance from its start, the
        byte just in front of it included. */
    method Store(node: Node, at: int, c: Byte)
      requires Valid() && 0 <= node.index < CLASSES && node in lists[node.index].used
      requires -1 <= at < |node.bytes|
      modifies node
      ensures Valid() && node.size == old(node.size) && |node.bytes| == old(|node.bytes|)
      ensures old(node.Intact()) ==> (node.Intact() <==> c == 0xff || (at != -1 && at != node.size))
    {
      hide Pow2, Shape, Linked, AllFit, RcyList.Valid;
      UsedOnlyIn(node.index, node);
      if at >= 0 {
        Rewrite(node, node.size, node.flag, node.bytes[at := c]);
      } else {
        Rewrite(node, node.size, c, node.bytes);
      }
    }

    /** A write just behind or just in front of a block is noticed when the block is freed: it is
        not recycled. Any other write inside the block is not. */
    method StoreAndFree(node: Node, at: int, c: Byte)
      requires Valid() && 0 <= node.index < CLASSES && node in lists[node.index].used && node.Intact()
      requires -1 <= at < |node.bytes|
      modifies node, lists[node.index]
      ensures Valid() && lists[node.index].used == old(lists[node.index].used) - {node}
      ensures lists[node.index].chain ==
        (if c == 0xff || (at != -1 && at != old(node.size)) then [node] else []) + old(lists[node.index].chain)
    {
      hide Pow2, Shape, Linked, AllFit, RcyList.Valid;
      ghost var chain := lists[node.index].chain;
      Store(node, at, c);
      Free(node);
      assert [] + chain == chain;
    }

    /** Another size for a block: in place if its class still holds it exactly, otherwise a
        new block with as much of the content as both hold. A header without a class is refused. */
    method Realloc(ptr: Node?, size: nat) returns (r: Node?)
      requires Valid() && (ptr != null && 0 <= ptr.index < CLASSES ==> ptr in lists[ptr.index].used)
      modifies Touched(size), if ptr != null && 0 <= ptr.index < CLASSES then {ptr, lists[ptr.index]} else {}
      ensures Valid()
      ensures r == null <==>
        RcyIndex(size) >= CLASSES || (ptr != null && (!(0 <= ptr.index < CLASSES) || !old(ptr.Intact())))
      ensures r == null && ptr != null ==> unchanged(ptr) && unchanged(lists)
      ensures r != null ==> r.index == RcyIndex(size) && r.size == size && r.Intact()
      ensures r != null && ptr != null ==>
        var kept := Min(old(ptr.size), size);
        && kept <= |r.Payload()| && kept <= |old(ptr.Payload())|
        && r.Payload()[..kept] == old(ptr.Payload())[..kept]
        && (r == ptr <==> ptr.index == RcyIndex(size))
        && (r != ptr ==> forall i :: 0 <= i < CLASSES ==> r !in old(lists[i].used))
      ensures forall i, n :: 0 <= i < CLASSES && n in old(lists[i].used) && n != ptr ==> unchanged(n)
      ensures forall i :: 0 <= i < CLASSES ==> lists[i].used == if r == null || r == ptr then old(lists[i].used) else
        old(lists[i].used) - (if ptr != null && i == ptr.index then {ptr} else {})
        + if i == RcyIndex(size) then {r} else {}
    {
      hide Pow2, Shape, Linked, AllFit, RcyList.Valid;
      if ptr == null {
        r := Alloc(size);
        return;
      }
      if ptr.index < 0 || ptr.index >= CLASSES {
        return null;
      }
      UsedOnlyIn(ptr.index, ptr);
      var nidx := RcyIndex(size);
      if !ptr.Intact() || nidx >= CLASSES {
        return null;
      }
      if ptr.index == nidx {
        ResizeInPlace(ptr, size);
        r := ptr;
      } else {
        r := Move(ptr, size);
      }
    }

    method ResizeInPlace(ptr: Node, size: nat)
      requires Valid() && ptr.index == RcyIndex(size) < CLASSES && ptr in lists[ptr.index].used
      requires ptr.Intact()
      modifies ptr
      ensures Valid() && ptr.size == size && ptr.Intact()
      ensures ptr.Payload()[..Min(old(ptr.size), size)] == old(ptr.Payload())[..Min(old(ptr.size), size)]
    {
      hide Pow2, Shape, Linked, AllFit, RcyList.Valid;
      UsedOnlyIn(ptr.index, ptr);
      ClassHolds(ptr, size);
      Rewrite(ptr, size, ptr.flag, ptr.bytes[size := GUARD]);
    }

    method Move(ptr: Node, size: nat) returns (r: Node)
      requires Valid() && 0 <= ptr.index < CLASSES && ptr in lists[ptr.index].used
      requires ptr.index != RcyIndex(size) < CLASSES
      requires ptr.Intact()
      modifies Touched(size), ptr, lists[ptr.index]
      ensures Valid() && r != ptr && (fresh(r) || r in old(Touched(size)))
      ensures r.index == RcyIndex(size) && r.size == size && r.Intact()
      ensures r.Payload()[..Min(old(ptr.size), size)] == old(ptr.Payload())[..Min(old(ptr.size), size)]
      ensures forall i :: 0 <= i < CLASSES ==> r !in old(lists[i].used)
      ensures forall i, n :: 0 <= i < CLASSES && n in old(lists[i].used) && n != ptr ==> unchanged(n)
      ensures forall i :: 0 <= i < CLASSES ==>
        lists[i].used == old(lists[i].used) - (if i == ptr.index then {ptr} else {})
                         + if i == RcyIndex(size) then {r} else {}
    {
      hide Pow2, Shape, Linked, AllFit, RcyList.Valid;
      ListsDiffer(ptr.index, RcyIndex(size));
      UsedOnlyIn(ptr.index, ptr);
      r := AllocCopy(ptr, size);
      assert r != ptr;
      Free(ptr);
    }

    method AllocCopy(ptr: Node, size: nat) returns (r: Node)
      requires Valid() && 0 <= ptr.index < CLASSES && ptr in lists[ptr.index].used && RcyIndex(size) < CLASSES
      requires ptr.Intact()
      modifies Touched(size)
      ensures Valid() && (fresh(r) || r in old(Touched(size)))
      ensures r.index == RcyIndex(size) && r.size == size && r.Intact()
      ensures r.Payload()[..Min(old(ptr.size), size)] == old(ptr.Payload())[..Min(old(ptr.size), size)]
      ensures forall i :: 0 <= i < CLASSES ==> r !in old(lists[i].used)
      ensures forall i, n :: 0 <= i < CLASSES && n in old(lists[i].used) ==> unchanged(n)
      ensures forall i :: 0 <= i < CLASSES ==>
        lists[i].used == old(lists[i].used) + if i == RcyIndex(size) then {r} else {}
    {
      hide Pow2, Shape, Linked, AllFit, RcyList.Valid;
      r := Alloc(size);
      var kept := Min(ptr.size, size);
      ClassHolds(r, size);
      Rewrite(r, size, r.flag, ptr.bytes[..kept] + r.bytes[kept..]);
      assert r.Payload()[..kept] == ptr.bytes[..kept] == ptr.Payload()[..kept];
    }

    /** The end of a debugging session: it succeeds exactly when nothing is in use any more. */
    method DebugClear() returns (ok: bool, destroyed: set<Node>)
      requires Valid()
      modifies lists
      ensures ok <==> forall i :: 0 <= i < CLASSES ==> old(lists[i].used) == {}
      ensures forall i :: 0 <= i < CLASSES ==> lists[i].head == null && lists[i].used == {}
      ensures forall i, n :: 0 <= i < CLASSES && (n in old(lists[i].used) || n in old(lists[i].chain)) ==>
        n in destroyed
    {
      hide Pow2, Shape, Linked, AllFit;
      ok, destroyed := true, {};
      forall j, k | 0 <= j < k < CLASSES ensures lists[j] != lists[k] {
        ListsDiffer(j, k);
      }
      var i := 0;
      while i < CLASSES
        invariant 0 <= i <= CLASSES
        invariant ok <==> forall j :: 0 <= j < i ==> old(lists[j].used) == {}
        invariant forall j :: 0 <= j < i ==> lists[j].head == null && lists[j].used == {}
        invariant forall j :: i <= j < CLASSES ==> unchanged(lists[j])
        invariant forall j, n :: 0 <= j < i && (n in old(lists[j].used) || n in old(lists[j].chain)) ==> n in destroyed
      {
        var list := lists[i];
        assert old(ClassOk(i)) && ClassOk(i);
        if list.used != {} {
          ok := false;
        }
        var freed := list.Drain();
        destroyed := destroyed + freed;
        i := i + 1;
      }
    }

    lemma ListsDiffer(i: nat, k: nat)
      requires Valid() && i < CLASSES && k < CLASSES && i != k
      ensures lists[i] != lists[k]
    {
      assert ClassOk(i) && ClassOk(k);
    }

    /** A block in use is in no other place. */
    ghost predicate OnlyIn(k: nat, node: Node)
      requires |lists| == CLASSES
      reads lists
    {
      k < CLASSES && node in lists[k].used
      && forall j :: 0 <= j < CLASSES ==> node !in lists[j].chain && (j != k ==> node !in lists[j].used)
    }

    lemma UsedOnlyIn(k: nat, node: Node)
      requires Valid() && k < CLASSES && node in lists[k].used
      ensures OnlyIn(k, node) && Sized(node, k) && node.size < |node.bytes|
    {
      assert ClassOk(k);
      InClass(k, node);
      forall j | 0 <= j < CLASSES ensures node !in lists[j].chain && (j != k ==> node !in lists[j].used) {
        if node in lists[j].chain || node in lists[j].used {
          InClass(j, node);
        }
      }
    }

    /** Writing inside a block in use, or giving it another size its class holds, keeps the
        allocator's books in order. */
    method Rewrite(node: Node, size: nat, flag: Byte, bytes: seq<Byte>)
      requires Valid() && 0 <= node.index < CLASSES && node in lists[node.index].used
      requires size <= Pow2(node.index) && |bytes| == |node.bytes|
      modifies node
      ensures Valid() && node.size == size && node.bytes == bytes && node.flag == flag
    {
      hide Pow2, Shape, Linked, AllFit;
      UsedOnlyIn(node.index, node);
      assert ClassOk(node.index);
      lists[node.index].Rewrite(node, size, flag, bytes);
      forall j | 0 <= j < CLASSES ensures ClassOk(j) {
        assert old(ClassOk(j));
      }
    }
  }

  lemma ClassHolds(r: Node, size: nat)
    requires r.index == RcyIndex(size)
    ensures size <= Pow2(r.index)
  {
  }

  lemma ProductFits(count: nat, size: nat)
    ensures count != 0 && size > SIZE_MAX / count <==> count * size > SIZE_MAX
  {
    if count == 0 {
      return;
    }
    var q := SIZE_MAX / count;
    assert SIZE_MAX == q * count + SIZE_MAX % count;
    if size > q {
      assert count * size >= count * (q + 1) == q * count + count;
    } else {
      assert count * size <= count * q;
    }
  }

  lemma {:induction false} OnChain(head: Node?, chain: seq<Node>, index: nat, n: Node)
    requires Linked(head, chain, index) && n in chain
    ensures Sized(n, index)
  {
    if n != chain[0] {
      OnChain(chain[0].next, chain[1..], index, n);
    }
  }
}
