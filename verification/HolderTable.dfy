/**
 The holder table of the reader/writer lock: one slot per thread that holds read
 locks, with the nesting depth of that thread. Every access is guarded by rdcntmtx.
 */
module HolderTable {
  import opened Util

  const INIT_CAP := 8

  /** A slot is live when its depth is positive. */
  datatype Holder = Holder(tid: nat, depth: nat)

  predicate Live(h: seq<Holder>, i: nat, tid: nat)
  {
    i < |h| && h[i].depth > 0 && h[i].tid == tid
  }

  /** The first live slot of `tid`. */
  function FindLive(h: seq<Holder>, tid: nat): (r: Option<nat>)
    ensures r.Some? ==> Live(h, r.value, tid) && forall j :: 0 <= j < r.value ==> !Live(h, j, tid)
    ensures r.None? ==> forall j :: 0 <= j < |h| ==> !Live(h, j, tid)
  {
    FindLiveFrom(h, tid, 0)
  }

  function FindLiveFrom(h: seq<Holder>, tid: nat, i: nat): (r: Option<nat>)
    requires i <= |h|
    ensures r.Some? ==> i <= r.value && Live(h, r.value, tid) && forall j :: i <= j < r.value ==> !Live(h, j, tid)
    ensures r.None? ==> forall j :: i <= j < |h| ==> !Live(h, j, tid)
    decreases |h| - i
  {
    if i == |h| then None
    else if Live(h, i, tid) then Some(i)
    else FindLiveFrom(h, tid, i + 1)
  }

  /** The first slot whose depth is zero, or the capacity. */
  function FirstFree(h: seq<Holder>, i: nat): (r: nat)
    requires i <= |h|
    ensures i <= r <= |h| && (r < |h| ==> h[r].depth == 0)
    ensures forall j :: i <= j < r ==> h[j].depth > 0
    decreases |h| - i
  {
    if i == |h| || h[i].depth == 0 then i else FirstFree(h, i + 1)
  }

  function GrownCap(cap: nat): nat
  {
    if cap > 0 then cap * 2 else INIT_CAP
  }

  function Zeros(n: nat): (h: seq<Holder>)
    ensures |h| == n && forall i :: 0 <= i < n ==> h[i].depth == 0
  {
    seq(n, _ => Holder(0, 0))
  }

  /** Claims a free slot, or doubles the table when `grows`, or leaves the thread untracked. */
  function AddHolder(h: seq<Holder>, tid: nat, grows: bool): seq<Holder>
  {
    var i := FirstFree(h, 0);
    if i < |h| then h[i := Holder(tid, 1)]
    else if grows then (h + Zeros(GrownCap(|h|) - |h|))[|h| := Holder(tid, 1)]
    else h
  }

  /** The table only grows when every slot is live: from nothing to eight slots, then to twice as many. */
  lemma TableGrows(h: seq<Holder>, tid: nat, grows: bool)
    ensures |AddHolder(h, tid, grows)| ==
      if !grows || exists i :: 0 <= i < |h| && h[i].depth == 0 then |h| else if h == [] then 8 else |h| + |h|
  {
  }

  function Deepen(h: seq<Holder>, tid: nat): seq<Holder>
  {
    var r := FindLive(h, tid);
    if r.Some? then h[r.value := Holder(tid, h[r.value].depth + 1)] else h
  }

  /** Drops one level of `tid`, if it is tracked; the slot is cleared at zero. */
  function Shallow(h: seq<Holder>, tid: nat): seq<Holder>
  {
    var r := FindLive(h, tid);
    if r.None? then h
    else if h[r.value].depth == 1 then h[r.value := Holder(0, 0)]
    else h[r.value := Holder(tid, h[r.value].depth - 1)]
  }

  /** The nesting depth the table records for `tid`. */
  function Depth(h: seq<Holder>, tid: nat): nat
  {
    var r := FindLive(h, tid);
    if r.Some? then h[r.value].depth else 0
  }

  ghost predicate OneSlotEach(h: seq<Holder>)
  {
    forall i, j :: 0 <= i < j < |h| && h[i].depth > 0 && h[j].depth > 0 ==> h[i].tid != h[j].tid
  }

  /** With at most one live slot a thread, any live slot tells the depth. */
  lemma LiveSlotIsDepth(h: seq<Holder>, i: nat, tid: nat)
    requires OneSlotEach(h)
    ensures Live(h, i, tid) ==> FindLive(h, tid) == Some(i) && Depth(h, tid) == h[i].depth
  {
  }

  lemma DepthIff(h: seq<Holder>, tid: nat)
    ensures FindLive(h, tid).Some? <==> Depth(h, tid) > 0
  {
  }

  /** A thread whose live slots are the same in both tables has the same depth in both. */
  lemma SameDepth(h: seq<Holder>, h': seq<Holder>, u: nat)
    requires OneSlotEach(h) && OneSlotEach(h')
    requires forall j :: 0 <= j < |h| && Live(h, j, u) ==> Live(h', j, u) && h'[j] == h[j]
    requires forall j :: 0 <= j < |h'| && Live(h', j, u) ==> Live(h, j, u)
    ensures Depth(h', u) == Depth(h, u)
  {
    var r := FindLive(h, u);
    if r.Some? {
      LiveSlotIsDepth(h', r.value, u);
    }
  }

  lemma DeepenDepths(h: seq<Holder>, tid: nat)
    requires OneSlotEach(h)
    ensures OneSlotEach(Deepen(h, tid))
    ensures Depth(Deepen(h, tid), tid) == if Depth(h, tid) > 0 then Depth(h, tid) + 1 else 0
    ensures forall u: nat :: u != tid ==> Depth(Deepen(h, tid), u) == Depth(h, u)
  {
    var h' := Deepen(h, tid);
    var r := FindLive(h, tid);
    if r.Some? {
      LiveSlotIsDepth(h', r.value, tid);
      forall u: nat | u != tid ensures Depth(h', u) == Depth(h, u) {
        SameDepth(h, h', u);
      }
    }
  }

  lemma ShallowDepths(h: seq<Holder>, tid: nat)
    requires OneSlotEach(h)
    ensures OneSlotEach(Shallow(h, tid))
    ensures Depth(Shallow(h, tid), tid) == if Depth(h, tid) > 0 then Depth(h, tid) - 1 else 0
    ensures forall u: nat :: u != tid ==> Depth(Shallow(h, tid), u) == Depth(h, u)
  {
    var h' := Shallow(h, tid);
    var r := FindLive(h, tid);
    if r.Some? {
      if h[r.value].depth > 1 {
        LiveSlotIsDepth(h', r.value, tid);
      }
      forall u: nat | u != tid ensures Depth(h', u) == Depth(h, u) {
        SameDepth(h, h', u);
      }
    }
  }

  /** Claiming a free slot for a thread that has none touches no other thread. */
  lemma ClaimDepths(h: seq<Holder>, i: nat, tid: nat)
    requires OneSlotEach(h) && i < |h| && h[i].depth == 0 && Depth(h, tid) == 0
    ensures OneSlotEach(h[i := Holder(tid, 1)])
    ensures Depth(h[i := Holder(tid, 1)], tid) == 1
    ensures forall u: nat :: u != tid ==> Depth(h[i := Holder(tid, 1)], u) == Depth(h, u)
  {
    var h' := h[i := Holder(tid, 1)];
    forall j | 0 <= j < |h| && h[j].depth > 0 ensures h[j].tid != tid {
      assert !Live(h, j, tid);
    }
    LiveSlotIsDepth(h', i, tid);
    forall u: nat | u != tid ensures Depth(h', u) == Depth(h, u) {
      SameDepth(h, h', u);
    }
  }

  /** Adding a thread that has no slot: it is tracked unless the table is full and cannot grow. */
  lemma AddHolderDepths(h: seq<Holder>, tid: nat, grows: bool)
    requires OneSlotEach(h) && Depth(h, tid) == 0
    ensures OneSlotEach(AddHolder(h, tid, grows))
    ensures Depth(AddHolder(h, tid, grows), tid) == if grows || FirstFree(h, 0) < |h| then 1 else 0
    ensures forall u: nat :: u != tid ==> Depth(AddHolder(h, tid, grows), u) == Depth(h, u)
  {
    hide Depth, FirstFree, OneSlotEach;
    var i := FirstFree(h, 0);
    if i < |h| {
      ClaimDepths(h, i, tid);
    } else if grows {
      PadDepths(h, GrownCap(|h|) - |h|);
      ClaimDepths(h + Zeros(GrownCap(|h|) - |h|), i, tid);
    }
  }

  /** Empty slots at the end count for nobody. */
  lemma PadDepths(h: seq<Holder>, n: nat)
    requires OneSlotEach(h)
    ensures OneSlotEach(h + Zeros(n)) && forall u: nat :: Depth(h + Zeros(n), u) == Depth(h, u)
  {
    hide Depth, FindLive;
    forall u: nat ensures Depth(h + Zeros(n), u) == Depth(h, u) {
      SameDepth(h, h + Zeros(n), u);
    }
  }

  /** The table itself: `holders` with `holdercap` slots, scanned and grown in place. */
  class Table {
    var slots: array<Holder>

    constructor ()
      ensures fresh(slots) && slots[..] == []
    {
      slots := new Holder[0];
    }

    /** The scan for the live slot of a thread. */
    method Get(tid: nat) returns (r: Option<nat>)
      ensures r == FindLive(slots[..], tid)
    {
      var i := 0;
      while i < slots.Length
        invariant 0 <= i <= slots.Length
        invariant FindLive(slots[..], tid) == FindLiveFrom(slots[..], tid, i)
      {
        if slots[i].depth > 0 && slots[i].tid == tid {
          return Some(i);
        }
        i := i + 1;
      }
      return None;
    }

    /** Claims the first free slot, else reallocates; `grows` is false when Realloc fails. */
    method Add(tid: nat, grows: bool) returns (slot: Option<nat>)
      modifies this, slots
      ensures slots[..] == AddHolder(old(slots[..]), tid, grows)
      ensures slots == old(slots) || fresh(slots)
      ensures slot.Some? <==> grows || FirstFree(old(slots[..]), 0) < old(slots.Length)
      ensures slot.Some? ==> slot.value == FirstFree(old(slots[..]), 0) && slots[slot.value] == Holder(tid, 1)
    {
      var i := 0;
      while i < slots.Length
        invariant 0 <= i <= slots.Length
        invariant FirstFree(slots[..], 0) == FirstFree(slots[..], i)
        invariant slots == old(slots) && slots[..] == old(slots[..])
      {
        if slots[i].depth == 0 {
          slots[i] := Holder(tid, 1);
          return Some(i);
        }
        i := i + 1;
      }
      if !grows {
        return None;
      }
      var cap := slots.Length;
      var bigger := new Holder[GrownCap(cap)](_ => Holder(0, 0));
      forall j | 0 <= j < cap {
        bigger[j] := slots[j];
      }
      bigger[cap] := Holder(tid, 1);
      slots := bigger;
      return Some(cap);
    }
  }
}
