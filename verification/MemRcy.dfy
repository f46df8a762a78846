/**
 The recycling allocator of memdebug.c. A block is one allocation: its header and the bytes
 behind it, one more than its power-of-two class holds. Freed blocks wait on the free list
 of their class; blocks in use are kept in a set by address.
 */
module MemRcy {
  import opened Text

  const CLASSES: nat := 45
  const GUARD: Byte := 0xff
  const SIZE_MAX: nat := 0xffff_ffff_ffff_ffff

  function Pow2(k: nat): (p: nat)
    ensures p > 0
  {
    if k == 0 then 1 else 2 * Pow2(k - 1)
  }

  /** The class of a size: the base-two logarithm, rounded up and never negative. */
  function RcyIndex(size: nat): (k: nat)
    ensures size <= Pow2(k)
    ensures forall j :: 0 <= j < k ==> Pow2(j) < size
  {
    if size <= 1 then 0
    else
      var k := RcyIndex((size + 1) / 2);
      HalfClass(size, k);
      k + 1
  }

  lemma HalfClass(size: nat, k: nat)
    requires size > 1 && (size + 1) / 2 <= Pow2(k) && forall j :: 0 <= j < k ==> Pow2(j) < (size + 1) / 2
    ensures size <= Pow2(k + 1) && forall j :: 0 <= j < k + 1 ==> Pow2(j) < size
  {
    assert Pow2(k + 1) == 2 * Pow2(k);
    forall j | 0 <= j < k + 1 ensures Pow2(j) < size {
      if j > 0 {
        assert Pow2(j) == 2 * Pow2(j - 1) && Pow2(j - 1) < (size + 1) / 2;
      }
    }
  }

  lemma {:induction false} Pow2Grows(j: nat, k: nat)
    requires j <= k
    ensures Pow2(j) <= Pow2(k)
  {
    if j < k {
      Pow2Grows(j, k - 1);
    }
  }

  /** The class of a size is the only one it fits whose half is too small. */
  lemma RcyIndexIff(size: nat, k: nat)
    ensures RcyIndex(size) == k <==> size <= Pow2(k) && (k > 0 ==> Pow2(k - 1) < size)
  {
    var r := RcyIndex(size);
    if r < k {
      Pow2Grows(r, k - 1);
    } else if k < r {
      Pow2Grows(k, r - 1);
    }
  }

  /** The largest class holds 2^44 bytes. */
  lemma TooLarge(size: nat)
    ensures RcyIndex(size) >= CLASSES <==> size > 0x1000_0000_0000
  {
    assert Pow2(44) == 0x1000_0000_0000 by {
      Pow2Adds(22, 22);
      Pow2Adds(11, 11);
      assert Pow2(11) == 2048 by {
        assert Pow2(4) == 16 && Pow2(8) == 16 * Pow2(4) && Pow2(11) == 8 * Pow2(8);
      }
    }
    var k := RcyIndex(size);
    if k >= CLASSES {
      assert Pow2(44) < size;
    } else {
      Pow2Grows(k, 44);
    }
  }

  lemma {:induction false} Pow2Adds(j: nat, k: nat)
    ensures Pow2(j + k) == Pow2(j) * Pow2(k)
  {
    if k > 0 {
      Pow2Adds(j, k - 1);
      assert Pow2(j + k) == 2 * Pow2(j + k - 1);
      assert Pow2(j) * (2 * Pow2(k - 1)) == 2 * (Pow2(j) * Pow2(k - 1));
    }
  }

  class Node {
    const index: int
    var size: nat
    var next: Node?
    var flag: Byte
    /** The bytes behind the header. */
    var bytes: seq<Byte>

    constructor (index: nat)
      ensures this.index == index && |bytes| == Pow2(index) + 1
    {
      this.index := index;
      bytes := seq(Pow2(index) + 1, _ => 0);
      size, next, flag := 0, null, 0;
    }

    /** CMUTIL_MemCheckFlow. */
    predicate Intact()
      reads this
    {
      size < |bytes| && flag == GUARD && bytes[size] == GUARD
    }

    /** Sets the header and the guards for a request of `size` bytes. */
    method Mark(size: nat)
      requires size < |bytes|
      modifies this
      ensures this.size == size && next == null && bytes == old(bytes)[size := GUARD] && Intact()
    {
      this.size := size;
      next := null;
      flag := GUARD;
      bytes := bytes[size := GUARD];
    }

    /** What the holder of the block sees. */
    function Payload(): (p: seq<Byte>)
      reads this
    {
      if size <= |bytes| then bytes[..size] else bytes
    }
  }

  ghost predicate Sized(n: Node, index: nat)
    reads n
  {
    n.index == index && |n.bytes| == Pow2(index) + 1
  }

  /** The free list from `head` runs through `chain` and ends. */
  ghost predicate Linked(head: Node?, chain: seq<Node>, index: nat)
    reads chain
  {
    if chain == [] then head == null
    else head == chain[0] && Sized(chain[0], index) && Linked(chain[0].next, chain[1..], index)
  }

  /** Blocks in use leave room for the guard behind the requested bytes. */
  ghost predicate AllFit(used: set<Node>, index: nat)
    reads used
  {
    forall n :: n in used ==> Sized(n, index) && n.size <= Pow2(index)
  }

  lemma FitWith(used: set<Node>, node: Node, index: nat)
    requires AllFit(used, index) && Sized(node, index) && node.size <= Pow2(index)
    ensures AllFit(used + {node}, index)
  {
  }

  lemma FitWithout(used: set<Node>, node: Node, index: nat)
    requires AllFit(used, index) && node in used
    ensures AllFit(used - {node}, index) && Sized(node, index) && node.size < |node.bytes|
  {
  }

  /** The blocks of a class are in use, on the free list or lost, each in one place, and the
      counters count them. */
  ghost predicate Shape(cnt: nat, avlcnt: nat, used: set<Node>, chain: seq<Node>, lost: set<Node>)
  {
    && (forall i, j :: 0 <= i < j < |chain| ==> chain[i] != chain[j])
    && (forall i :: 0 <= i < |chain| ==> chain[i] !in used && chain[i] !in lost)
    && used !! lost
    && avlcnt == |chain|
    && cnt == avlcnt + |used| + |lost|
  }

  lemma ShapeWithHead(cnt: nat, avlcnt: nat, used: set<Node>, chain: seq<Node>, lost: set<Node>)
    requires Shape(cnt, avlcnt, used, chain, lost) && chain != []
    ensures Shape(cnt, avlcnt - 1, used + {chain[0]}, chain[1..], lost)
  {
  }

  lemma ShapeWithNew(cnt: nat, avlcnt: nat, used: set<Node>, lost: set<Node>, node: Node)
    requires Shape(cnt, avlcnt, used, [], lost) && node !in used && node !in lost
    ensures Shape(cnt + 1, avlcnt, used + {node}, [], lost)
  {
  }

  lemma ShapeRecycled(cnt: nat, avlcnt: nat, used: set<Node>, chain: seq<Node>, lost: set<Node>, node: Node)
    requires Shape(cnt, avlcnt, used, chain, lost) && node in used
    ensures Shape(cnt, avlcnt + 1, used - {node}, [node] + chain, lost)
    ensures Shape(cnt, avlcnt, used - {node}, chain, lost + {node})
  {
  }

  /** One size class. `chain` spells the free list; `lost` are blocks whose guard was found
      broken when they were freed. */
  class RcyList {
    const index: nat
    var cnt: nat
    var avlcnt: nat
    var head: Node?
    var used: set<Node>
    ghost var chain: seq<Node>
    ghost var lost: set<Node>

    constructor (index: nat)
      ensures Valid() && this.index == index
      ensures used == {} && chain == [] && lost == {}
    {
      this.index := index;
      cnt, avlcnt, head, used, chain, lost := 0, 0, null, {}, [], {};
    }

    ghost predicate Valid()
      reads this, used, chain
    {
      && Shape(cnt, avlcnt, used, chain, lost)
      && Linked(head, chain, index)
      && AllFit(used, index)
    }

    /** Takes a block from the free list, or a new one, for `size` bytes. */
    method Take(size: nat) returns (node: Node)
      requires Valid() && size <= Pow2(index)
      modifies this, if chain == [] then {} else {chain[0]}
      ensures Valid() && used == old(used) + {node} && lost == old(lost)
      ensures node !in old(used) && node !in old(lost)
      ensures if old(chain) == [] then fresh(node) && chain == [] else node == old(chain)[0] && chain == old(chain)[1..]
      ensures cnt == old(cnt) + (if old(chain) == [] then 1 else 0)
      ensures node.index == index && node.size == size < |node.bytes| && node.Intact()
    {
      hide Pow2, Shape, Linked, AllFit;
      TakesHead();
      if head != null {
        node := TakeRecycled(size);
      } else {
        node := TakeNew(size);
      }
    }

    method TakeRecycled(size: nat) returns (node: Node)
      requires Valid() && chain != [] && head == chain[0] && size <= Pow2(index)
      modifies this, head
      ensures Valid() && used == old(used) + {node} && lost == old(lost) && cnt == old(cnt)
      ensures node == old(head) && node !in old(used) && node !in old(lost) && chain == old(chain)[1..]
      ensures node.size == size < |node.bytes| && node.Intact()
    {
      hide Pow2, Shape, Linked, AllFit;
      TakesHead();
      ShapeWithHead(cnt, avlcnt, used, chain, lost);
      node := head;
      head := node.next;
      avlcnt := avlcnt - 1;
      chain := chain[1..];
      node.Mark(size);
      FitWith(used, node, index);
      used := used + {node};
    }

    method TakeNew(size: nat) returns (node: Node)
      requires Valid() && chain == [] && size <= Pow2(index)
      modifies this
      ensures Valid() && used == old(used) + {node} && lost == old(lost) && cnt == old(cnt) + 1
      ensures fresh(node) && chain == []
      ensures node.index == index && node.size == size < |node.bytes| && node.Intact()
    {
      hide Pow2, Shape, Linked, AllFit;
      node := new Node(index);
      ShapeWithNew(cnt, avlcnt, used, lost, node);
      cnt := cnt + 1;
      node.Mark(size);
      FitWith(used, node, index);
      used := used + {node};
    }

    /** The head of the free list is no other block of the class. */
    lemma TakesHead()
      requires Valid()
      ensures head == null <==> chain == []
      ensures head != null ==>
        && avlcnt > 0 && head == chain[0] && head !in used && head !in lost && head !in chain[1..]
        && Sized(head, index) && Linked(head.next, chain[1..], index)
    {
    }

    /** Gives a block back. What is not in use is refused; what has a broken guard is taken
        out of use but not recycled. */
    method Give(node: Node) returns (ok: bool)
      requires Valid()
      modifies this, node
      ensures Valid()
      ensures ok <==> node in old(used) && old(node.Intact())
      ensures node !in old(used) ==> unchanged(this) && unchanged(node)
      ensures node in old(used) ==> used == old(used) - {node}
      ensures ok ==> chain == [node] + old(chain) && lost == old(lost)
      ensures node in old(used) && !ok ==> chain == old(chain) && lost == old(lost) + {node}
      ensures node.bytes == old(node.bytes) && node.size == old(node.size) && node.flag == old(node.flag)
    {
      hide Pow2, Shape, Linked, AllFit;
      if node !in used {
        return false;
      }
      GivesUsed(node);
      FitWithout(used, node, index);
      used := used - {node};
      if !node.Intact() {
        lost := lost + {node};
        return false;
      }
      node.next := head;
      head := node;
      avlcnt := avlcnt + 1;
      LinkFront(node, chain, index);
      chain := [node] + chain;
      return true;
    }

    /** Writes into a block in use and gives it a size its class holds. */
    method Rewrite(node: Node, size: nat, flag: Byte, bytes: seq<Byte>)
      requires Valid() && node in used && size <= Pow2(index) && |bytes| == |node.bytes|
      modifies node
      ensures Valid() && node.size == size && node.bytes == bytes && node.flag == flag
    {
      hide Pow2, Shape, Linked, AllFit;
      GivesUsed(node);
      FitWithout(used, node, index);
      node.size := size;
      node.flag := flag;
      node.bytes := bytes;
      FitWith(used - {node}, node, index);
      assert used == used - {node} + {node};
    }

    /** Destroys every block in use and on the free list. */
    method Drain() returns (freed: set<Node>)
      requires Valid()
      modifies this
      ensures head == null && used == {}
      ensures freed == old(used) + set n | n in old(chain)
    {
      hide Pow2, Shape, AllFit;
      freed := used;
      used := {};
      ghost var passed: seq<Node>, rest := [], chain;
      while head != null
        invariant Linked(head, rest, index) && chain == passed + rest
        invariant used == {} && chain == old(chain)
        invariant freed == old(used) + set n | n in passed
        decreases |rest|
      {
        var curr := head;
        head := curr.next;
        freed := freed + {curr};
        passed, rest := passed + [curr], rest[1..];
      }
    }

    lemma GivesUsed(node: Node)
      requires Valid() && node in used
      ensures node.size < |node.bytes| && node !in chain
      ensures Shape(cnt, avlcnt + 1, used - {node}, [node] + chain, lost)
      ensures Shape(cnt, avlcnt, used - {node}, chain, lost + {node})
    {
      ShapeRecycled(cnt, avlcnt, used, chain, lost, node);
    }
  }

  lemma LinkFront(node: Node, chain: seq<Node>, index: nat)
    requires Linked(node.next, chain, index) && Sized(node, index)
    ensures Linked(node, [node] + chain, index)
  {
    assert ([node] + chain)[1..] == chain;
  }
}
