/** The doubly linked list of lists.c. */
module Lists {
  import opened Util

  class Node<T> {
    var prev: Node?<T>
    var next: Node?<T>
    const data: T

    constructor (data: T, prev: Node?<T>, next: Node?<T>)
      ensures this.data == data && this.prev == prev && this.next == next
    {
      this.data, this.prev, this.next := data, prev, next;
    }
  }

  ghost predicate Distinct<T>(nodes: seq<Node<T>>)
  {
    forall i, j :: 0 <= i < j < |nodes| ==> nodes[i] != nodes[j]
  }

  /** A stretch of a list: the forward links spell `nodes` and go on at `after`, the backward
      links spell them in reverse and go on at `before`. */
  ghost predicate Chain<T>(nodes: seq<Node<T>>, before: Node?<T>, after: Node?<T>)
    reads nodes
  {
    nodes != [] ==>
      && nodes[0].prev == before
      && nodes[0].next == (if |nodes| > 1 then nodes[1] else after)
      && Chain(nodes[1..], nodes[0], after)
  }

  ghost function First<T>(nodes: seq<Node<T>>): Node?<T>
  {
    if nodes == [] then null else nodes[0]
  }

  ghost function Last<T>(nodes: seq<Node<T>>): Node?<T>
  {
    if nodes == [] then null else nodes[|nodes| - 1]
  }

  /** Two stretches make one exactly when their ends point to each other. */
  lemma {:induction false} ChainConcat<T>(a: seq<Node<T>>, b: seq<Node<T>>, before: Node?<T>, after: Node?<T>)
    requires a != [] && b != []
    ensures Chain(a + b, before, after) <==> Chain(a, before, b[0]) && Chain(b, Last(a), after)
  {
    assert (a + b)[1..] == a[1..] + b;
    if |a| > 1 {
      ChainConcat(a[1..], b, a[0], after);
    } else {
      assert a[1..] + b == b;
    }
  }

  lemma DistinctConcat<T>(a: seq<Node<T>>, b: seq<Node<T>>)
    ensures Distinct(a + b) <==> Distinct(a) && Distinct(b) && forall x :: x in a ==> x !in b
  {
    if Distinct(a + b) {
      forall i, j | 0 <= i < |a| && 0 <= j < |b| ensures a[i] != b[j] {
        assert (a + b)[i] == a[i] && (a + b)[|a| + j] == b[j];
      }
      forall i, j | 0 <= i < j < |b| ensures b[i] != b[j] {
        assert (a + b)[|a| + i] == b[i] && (a + b)[|a| + j] == b[j];
      }
      forall i, j | 0 <= i < j < |a| ensures a[i] != a[j] {
        assert (a + b)[i] == a[i] && (a + b)[j] == a[j];
      }
    }
    if Distinct(a) && Distinct(b) && forall x :: x in a ==> x !in b {
      forall i, j | 0 <= i < j < |a + b| ensures (a + b)[i] != (a + b)[j] {
        if i < |a| <= j {
          assert a[i] in a && b[j - |a|] in b;
        }
      }
    }
  }

  /** The elements after a concatenation. */
  lemma DataConcat<T>(a: seq<Node<T>>, b: seq<Node<T>>)
    ensures Data(a + b) == Data(a) + Data(b)
  {
  }

  /** Turns the backward link at the front of a stretch to another node. */
  method LinkBack<T>(first: Node<T>, before: Node?<T>,
                     ghost nodes: seq<Node<T>>, ghost was: Node?<T>, ghost after: Node?<T>)
    requires nodes != [] && nodes[0] == first && Distinct(nodes) && Chain(nodes, was, after)
    modifies first
    ensures Chain(nodes, before, after) && first.next == old(first.next)
  {
    assert first !in nodes[1..];
    first.prev := before;
  }

  /** Turns the forward link at the end of a stretch to another node. */
  method LinkOn<T>(last: Node<T>, after: Node?<T>,
                   ghost nodes: seq<Node<T>>, ghost before: Node?<T>, ghost was: Node?<T>)
    requires nodes != [] && Last(nodes) == last && Distinct(nodes) && Chain(nodes, before, was)
    modifies last
    ensures Chain(nodes, before, after) && last.prev == old(last.prev)
  {
    ghost var front := nodes[..|nodes| - 1];
    assert nodes == front + [last];
    DistinctConcat(front, [last]);
    if front != [] {
      ChainConcat(front, [last], before, was);
    }
    last.next := after;
    if front != [] {
      ChainConcat(front, [last], before, after);
    }
  }

  ghost function Data<T>(nodes: seq<Node<T>>): (d: seq<T>)
    ensures |d| == |nodes| && forall i :: 0 <= i < |d| ==> d[i] == nodes[i].data
  {
    seq(|nodes|, i requires 0 <= i < |nodes| => nodes[i].data)
  }

  /** The elements without the first one equal to `x`. */
  function RemoveFirst<T(==)>(s: seq<T>, x: T): seq<T>
  {
    if s == [] then [] else if s[0] == x then s[1..] else [s[0]] + RemoveFirst(s[1..], x)
  }

  lemma {:induction false} RemoveFirstAt<T>(s: seq<T>, x: T, k: nat)
    requires k < |s| && s[k] == x && x !in s[..k]
    ensures RemoveFirst(s, x) == s[..k] + s[k + 1..]
  {
    if k > 0 {
      assert s[0] in s[..k];
      assert s[..k] == [s[0]] + s[1..][..k - 1];
      RemoveFirstAt(s[1..], x, k - 1);
    }
  }

  lemma {:induction false} RemoveFirstAbsent<T>(s: seq<T>, x: T)
    requires x !in s
    ensures RemoveFirst(s, x) == s
  {
    if s != [] {
      RemoveFirstAbsent(s[1..], x);
    }
  }

  class List<T(==)> {
    var head: Node?<T>
    var tail: Node?<T>
    var size: nat
    ghost var nodes: seq<Node<T>>

    ghost predicate Valid()
      reads this, nodes
    {
      && Chain(nodes, null, null)
      && Distinct(nodes)
      && head == First(nodes) && tail == Last(nodes) && size == |nodes|
    }

    /** The elements, front to tail. */
    ghost function Elements(): seq<T>
      reads this
    {
      Data(nodes)
    }

    constructor ()
      ensures Valid() && Elements() == [] && nodes == []
    {
      head, tail, size, nodes := null, null, 0, [];
    }

    method AddFront(data: T)
      requires Valid()
      modifies this, nodes
      ensures Valid() && Elements() == [data] + old(Elements())
      ensures |nodes| == |old(nodes)| + 1 && fresh(nodes[0]) && nodes[1..] == old(nodes)
    {
      hide Chain, Distinct, Data;
      ghost var was := nodes;
      var item := new Node(data, null, head);
      Single(item);
      assert was == [] ==> [item] + was == [item];
      DistinctConcat([item], was);
      DataConcat([item], was);
      if head != null {
        assert head in was && head !in [item];
        LinkBack(head, item, was, null, null);
        ChainConcat([item], was, null, null);
      }
      head := item;
      if tail == null {
        tail := item;
      }
      size := size + 1;
      nodes := [item] + nodes;
    }

    method AddTail(data: T)
      requires Valid()
      modifies this, nodes
      ensures Valid() && Elements() == old(Elements()) + [data]
      ensures |nodes| == |old(nodes)| + 1 && fresh(nodes[|nodes| - 1]) && nodes[..|nodes| - 1] == old(nodes)
    {
      hide Chain, Distinct, Data;
      ghost var was := nodes;
      var item := new Node(data, tail, null);
      Single(item);
      assert was == [] ==> was + [item] == [item];
      DistinctConcat(was, [item]);
      DataConcat(was, [item]);
      if tail != null {
        assert tail in was && tail !in [item];
        LinkOn(tail, item, was, null, null);
        ChainConcat(was, [item], null, null);
      }
      tail := item;
      if head == null {
        head := item;
      }
      size := size + 1;
      nodes := nodes + [item];
    }

    method RemoveFront() returns (data: Option<T>)
      requires Valid()
      modifies this, nodes
      ensures Valid()
      ensures old(nodes) == [] ==> data == None && nodes == []
      ensures old(nodes) != [] ==>
        data == Some(old(Elements())[0]) && nodes == old(nodes)[1..] && Elements() == old(Elements())[1..]
    {
      hide Chain, Distinct, Data;
      data := None;
      var item := head;
      if item != null {
        ghost var rest := nodes[1..];
        assert nodes == [item] + rest;
        Single(item);
        DistinctConcat([item], rest);
        DataConcat([item], rest);
        ChainOfOne(nodes, null, null);
        data := Some(item.data);
        head := item.next;
        if head != null {
          ChainConcat([item], rest, null, null);
          LinkBack(head, null, rest, item, null);
        }
        size := size - 1;
        if size == 0 {
          tail := null;
        }
        nodes := rest;
      }
    }

    method RemoveTail() returns (data: Option<T>)
      requires Valid()
      modifies this, nodes
      ensures Valid()
      ensures old(nodes) == [] ==> data == None && nodes == []
      ensures var n := |old(nodes)|;
        n > 0 ==>
          data == Some(old(Elements())[n - 1]) && nodes == old(nodes)[..n - 1] && Elements() == old(Elements())[..n - 1]
    {
      hide Chain, Distinct, Data;
      data := None;
      var item := tail;
      if item != null {
        ghost var rest := nodes[..|nodes| - 1];
        assert nodes == rest + [item];
        Single(item);
        DistinctConcat(rest, [item]);
        DataConcat(rest, [item]);
        ChainOfOne(nodes, null, null);
        if rest != [] {
          ChainConcat(rest, [item], null, null);
          ChainOfOne([item], Last(rest), null);
        }
        data := Some(item.data);
        tail := item.prev;
        if tail != null {
          LinkOn(tail, null, rest, null, item);
        }
        size := size - 1;
        if size == 0 {
          head := null;
        }
        nodes := rest;
      }
    }

    /** Removes the first element equal to `data`, wherever it is. */
    method Remove(data: T) returns (found: bool)
      requires Valid()
      modifies this, nodes
      ensures Valid() && Elements() == RemoveFirst(old(Elements()), data)
      ensures found <==> data in old(Elements())
      ensures forall n :: n in nodes ==> n in old(nodes)
    {
      hide Chain, Distinct, RemoveFirst;
      var item := head;
      ghost var k := 0;
      while item != null && item.data != data
        invariant Valid() && unchanged(this) && unchanged(nodes)
        invariant 0 <= k <= |nodes| && item == (if k < |nodes| then nodes[k] else null)
        invariant data !in Elements()[..k]
        decreases |nodes| - k
      {
        NextOf(nodes, k, null, null);
        item := item.next;
        k := k + 1;
      }
      if item == null {
        RemoveFirstAbsent(Elements(), data);
        return false;
      }
      RemoveFirstAt(Elements(), data, k);
      assert data == Elements()[k];
      if item == head {
        NodeOnce(nodes, 0, k);
        var _ := RemoveFront();
      } else if item == tail {
        NodeOnce(nodes, |nodes| - 1, k);
        var _ := RemoveTail();
      } else {
        Unlink(item, k);
      }
      return true;
    }

    /** Takes a node out of the middle. */
    method Unlink(item: Node<T>, ghost k: nat)
      requires Valid() && 0 < k < |nodes| - 1 && item == nodes[k]
      modifies this, nodes
      ensures Valid() && nodes == old(nodes)[..k] + old(nodes)[k + 1..]
      ensures Elements() == old(Elements())[..k] + old(Elements())[k + 1..]
    {
      hide Chain, Distinct, Data;
      ghost var a, b := nodes[..k], nodes[k + 1..];
      Around(nodes, k);
      assert Last(a) in a && b[0] in b;
      LinkOn(item.prev, item.next, a, null, item);
      LinkBack(item.next, item.prev, b, item, null);
      ChainConcat(a, b, null, null);
      size := size - 1;
      nodes := a + b;
    }

    /** Appends all nodes of another list, which is left empty. A list moved into itself is tied
        into a ring and then dropped: it ends empty and loses its elements. */
    method MoveAll(src: List<T>)
      requires Valid() && src.Valid()
      requires src != this ==> forall n :: n in src.nodes ==> n !in nodes
      modifies this, nodes, src, src.nodes
      ensures Valid() && src.Valid()
      ensures src.nodes == [] && src.Elements() == []
      ensures src != this ==>
        nodes == old(nodes) + old(src.nodes) && Elements() == old(Elements()) + old(src.Elements())
    {
      hide Chain, Distinct, Data;
      EmptyChain<T>();
      if src == this && head != null {
        tail.next := src.head;
        src.head.prev := tail;
        tail := src.tail;
        size := size + src.size;
        src.head := null;
        src.tail := null;
        src.size := 0;
        src.nodes := [];
        return;
      }
      if src.head == null {
        assert nodes + [] == nodes;
        DataConcat(nodes, src.nodes);
        return;
      }
      ghost var a, b := nodes, src.nodes;
      DistinctConcat(a, b);
      DataConcat(a, b);
      if tail != null {
        assert tail in a && tail !in b && src.head in b && src.head !in a;
        LinkOn(tail, src.head, a, null, null);
        LinkBack(src.head, tail, b, null, null);
        ChainConcat(a, b, null, null);
        tail := src.tail;
      } else {
        assert a + b == b;
        head := src.head;
        tail := src.tail;
      }
      size := size + src.size;
      nodes := nodes + src.nodes;
      src.head := null;
      src.tail := null;
      src.size := 0;
      src.nodes := [];
    }
  }

  lemma Single<T>(item: Node<T>)
    ensures Chain([item], item.prev, item.next) && Distinct([item]) && Data([item]) == [item.data]
  {
  }

  lemma EmptyChain<T>()
    ensures Chain<T>([], null, null) && Distinct<T>([]) && Data<T>([]) == []
  {
  }

  lemma ChainOfOne<T>(nodes: seq<Node<T>>, before: Node?<T>, after: Node?<T>)
    requires Chain(nodes, before, after) && nodes != []
    ensures nodes[0].prev == before
    ensures |nodes| == 1 ==> nodes[0].next == after
    ensures |nodes| > 1 ==> nodes[0].next == nodes[1]
    ensures Chain<T>([], null, null)
  {
  }

  lemma {:induction false} NextOf<T>(nodes: seq<Node<T>>, k: nat, before: Node?<T>, after: Node?<T>)
    requires Chain(nodes, before, after) && k < |nodes|
    ensures nodes[k].next == if k + 1 < |nodes| then nodes[k + 1] else after
  {
    if k > 0 {
      NextOf(nodes[1..], k - 1, nodes[0], after);
    }
  }

  /** What stands around a node in the middle. */
  lemma Around<T>(nodes: seq<Node<T>>, k: nat)
    requires Chain(nodes, null, null) && Distinct(nodes) && 0 < k < |nodes| - 1
    ensures var a, item, b := nodes[..k], nodes[k], nodes[k + 1..];
            && Chain(a, null, item) && Chain(b, item, null)
            && item.prev == Last(a) && item.next == b[0] && item !in a && item !in b
            && Distinct(a) && Distinct(b) && Distinct(a + b) && (forall x :: x in a ==> x !in b)
            && Data(a + b) == Data(nodes)[..k] + Data(nodes)[k + 1..]
  {
    hide Chain, Distinct;
    var a, item, b := nodes[..k], nodes[k], nodes[k + 1..];
    assert nodes == a + ([item] + b);
    DistinctConcat(a, [item] + b);
    DistinctConcat([item], b);
    DistinctConcat(a, b);
    ChainConcat(a, [item] + b, null, null);
    ChainConcat([item], b, Last(a), null);
    ChainOfOne([item], Last(a), b[0]);
    assert item in [item] + b;
    forall x | x in a ensures x !in b {
      assert x in b ==> x in [item] + b;
    }
  }

  lemma NodeOnce<T>(nodes: seq<Node<T>>, i: nat, k: nat)
    requires Distinct(nodes) && i < |nodes| && k < |nodes| && nodes[i] == nodes[k]
    ensures i == k
  {
  }
}
