/**
 The pool object of pool.c as one thread sees it while nobody else uses it, down to the
 order of the idle list. Callbacks are oracles: a test is a function of the resource, the
 factory yields the next element of a supply.
 */
module PoolPing {
  import opened Util

  type Res = nat

  /** What becomes of one resource that is tested. */
  function PingedOne(x: Res, test: Res -> bool, supply: seq<Option<Res>>): (r: seq<Res>)
    ensures |r| <= 1
  {
    if test(x) then [x] else if supply != [] && supply[0].Some? then [supply[0].value] else []
  }

  /** What a ping pass does to the idle resources: those that pass stay, those that fail are
      replaced by what the factory yields, or dropped. */
  function Pinged(idle: seq<Res>, test: Res -> bool, supply: seq<Option<Res>>): seq<Res>
  {
    if idle == [] then []
    else PingedOne(idle[0], test, supply) + Pinged(idle[1..], test, if test(idle[0]) then supply else Drop(supply, 1))
  }

  function Failures(idle: seq<Res>, test: Res -> bool): seq<Res>
  {
    if idle == [] then [] else (if test(idle[0]) then [] else [idle[0]]) + Failures(idle[1..], test)
  }

  lemma {:induction false} FailuresAppend(idle: seq<Res>, x: Res, test: Res -> bool)
    ensures Failures(idle + [x], test) == Failures(idle, test) + (if test(x) then [] else [x])
  {
    if idle == [] {
      assert idle + [x] == [x];
    } else {
      assert (idle + [x])[1..] == idle[1..] + [x];
      FailuresAppend(idle[1..], x, test);
    }
  }

  /** One more resource: the ones before it consumed one element of the supply a failure. */
  lemma {:induction false} PingedAppend(idle: seq<Res>, x: Res, test: Res -> bool, supply: seq<Option<Res>>)
    ensures Pinged(idle + [x], test, supply)
            == Pinged(idle, test, supply) + PingedOne(x, test, Drop(supply, |Failures(idle, test)|))
  {
    hide PingedOne, Drop;
    if idle == [] {
      assert idle + [x] == [x];
      DropDrop(supply, 0, 0);
    } else {
      var rest := if test(idle[0]) then supply else Drop(supply, 1);
      var n := |Failures(idle[1..], test)|;
      assert (idle + [x])[1..] == idle[1..] + [x];
      assert Pinged(idle + [x], test, supply) == PingedOne(idle[0], test, supply) + Pinged(idle[1..] + [x], test, rest);
      PingedAppend(idle[1..], x, test, rest);
      DropDrop(supply, 1, n);
    }
  }

  function Drop(s: seq<Option<Res>>, n: nat): seq<Option<Res>>
  {
    if n <= |s| then s[n..] else []
  }

  lemma DropDrop(s: seq<Option<Res>>, a: nat, b: nat)
    ensures Drop(Drop(s, a), b) == Drop(s, a + b) && Drop(s, 0) == s
  {
  }

  /** When every resource passes, a pass changes nothing. */
  lemma {:induction false} PingedAllPass(idle: seq<Res>, test: Res -> bool, supply: seq<Option<Res>>)
    requires forall i :: 0 <= i < |idle| ==> test(idle[i])
    ensures Pinged(idle, test, supply) == idle
  {
    if idle != [] {
      PingedAllPass(idle[1..], test, supply);
    }
  }

  class Pool {
    var avail: seq<Res>
    var permits: nat
    var totcnt: nat
    var maxcnt: nat
    const testf: Option<Res -> bool>
    const hasFactory: bool
    const testonb: bool
    /** What the factory will yield; when it runs out, nothing. */
    var supply: seq<Option<Res>>
    /** The calls of the test and of the destructor, in order. */
    var tested: seq<Res>
    var destroyed: seq<Res>

    constructor (avail: seq<Res>, permits: nat, maxcnt: nat, testf: Option<Res -> bool>,
                 hasFactory: bool, testonb: bool, supply: seq<Option<Res>>)
      ensures this.avail == avail && this.permits == permits && this.maxcnt == maxcnt && totcnt == |avail|
      ensures this.testf == testf && this.hasFactory == hasFactory && this.testonb == testonb
      ensures this.supply == supply && tested == [] && destroyed == []
    {
      this.avail, this.permits, this.totcnt, this.maxcnt := avail, permits, |avail|, maxcnt;
      this.testf, this.hasFactory, this.testonb, this.supply := testf, hasFactory, testonb, supply;
      tested, destroyed := [], [];
    }

    method CallFactory() returns (r: Option<Res>)
      modifies this`supply
      ensures r == (if hasFactory && old(supply) != [] then old(supply)[0] else None)
      ensures supply == if hasFactory then Drop(old(supply), 1) else old(supply)
    {
      r := None;
      if hasFactory && supply != [] {
        r := supply[0];
        supply := supply[1..];
      }
    }

    predicate Passes(r: Res)
    {
      testf.Some? ==> testf.value(r)
    }

    /** Tests a resource; one that fails is destroyed and replaced, or counted off. */
    method TestAndReplace(r: Res) returns (res: Option<Res>)
      requires testf.Some?
      modifies this`supply, this`tested, this`destroyed, this`totcnt, this`permits
      ensures tested == old(tested) + [r]
      ensures Passes(r) ==> res == Some(r) && supply == old(supply) && destroyed == old(destroyed)
      ensures !Passes(r) ==>
        && destroyed == old(destroyed) + [r]
        && res == (if hasFactory && old(supply) != [] then old(supply)[0] else None)
        && supply == (if hasFactory then Drop(old(supply), 1) else old(supply))
      ensures totcnt == if res.None? && old(totcnt) > 0 then old(totcnt) - 1 else old(totcnt)
      ensures permits == if res.None? then old(permits) + 1 else old(permits)
    {
      tested := tested + [r];
      res := Some(r);
      if !testf.value(r) {
        destroyed := destroyed + [r];
        res := CallFactory();
        if res.None? {
          if totcnt > 0 {
            totcnt := totcnt - 1;
          }
          permits := permits + 1;
        }
      }
    }

    /** Without a permit the wait times out. */
    method CheckOut() returns (res: Option<Res>)
      modifies this
      ensures maxcnt == old(maxcnt)
      ensures old(permits) == 0 ==> res == None && unchanged(this)
      ensures old(permits) > 0 ==> permits == if res.None? then old(permits) else old(permits) - 1
      ensures old(permits) > 0 ==> avail == if old(avail) == [] then [] else old(avail)[1..]
      ensures old(permits) > 0 && old(avail) != [] ==>
        var r := old(avail)[0];
        var checked := testonb && testf.Some?;
        && tested == old(tested) + (if checked then [r] else [])
        && destroyed == old(destroyed) + (if checked && !Passes(r) then [r] else [])
        && res == (if !checked || Passes(r) then Some(r)
                   else if hasFactory && old(supply) != [] then old(supply)[0] else None)
        && supply == (if checked && !Passes(r) && hasFactory then Drop(old(supply), 1) else old(supply))
        && totcnt == if res.None? && old(totcnt) > 0 then old(totcnt) - 1 else old(totcnt)
      ensures old(permits) > 0 && old(avail) == [] ==>
        var made := if hasFactory && old(supply) != [] then old(supply)[0] else None;
        var left := if hasFactory then Drop(old(supply), 1) else old(supply);
        var failed := made.Some? && testonb && testf.Some? && !Passes(made.value);
        && tested == old(tested) + (if made.Some? && testonb && testf.Some? then [made.value] else [])
        && destroyed == old(destroyed) + (if failed then [made.value] else [])
        && res == (if failed then (if left != [] then left[0] else None) else made)
        && supply == (if failed then Drop(left, 1) else left)
        && totcnt == if res.None? then old(totcnt) else old(totcnt) + 1
    {
      res := None;
      if permits == 0 {
        return;
      }
      permits := permits - 1;
      if avail != [] {
        res := Some(avail[0]);
        avail := avail[1..];
      } else if hasFactory {
        res := CallFactory();
        if res.Some? {
          totcnt := totcnt + 1;
        }
      }
      if res.Some? {
        if testonb && testf.Some? {
          res := TestAndReplace(res.value);
        }
      } else {
        permits := permits + 1;
      }
    }

    method Release(r: Res)
      modifies this`avail, this`permits
      ensures avail == old(avail) + [r] && permits == old(permits) + 1
    {
      avail := avail + [r];
      permits := permits + 1;
    }

    /** Adding a resource above the maximum raises the maximum and adds a permit. */
    method AddResource(r: Res)
      modifies this`avail, this`totcnt, this`maxcnt, this`permits
      ensures avail == old(avail) + [r] && totcnt == old(totcnt) + 1
      ensures maxcnt - old(maxcnt) == permits - old(permits) == if old(totcnt) >= old(maxcnt) then 1 else 0
    {
      avail := avail + [r];
      totcnt := totcnt + 1;
      if totcnt > maxcnt {
        maxcnt := maxcnt + 1;
        permits := permits + 1;
      }
    }

    function Test(): Res -> bool
    {
      if testf.Some? then testf.value else (_ => true)
    }

    function Supply(): seq<Option<Res>>
      reads this`supply
    {
      if hasFactory then supply else []
    }

    /** One round of the pass; without a permit it waits in vain. */
    method PingNext()
      requires avail != []
      modifies this
      ensures old(permits) == 0 ==> unchanged(this)
      ensures old(permits) > 0 ==>
        && avail == old(avail)[1..] + PingedOne(old(avail)[0], Test(), old(Supply()))
        && tested == old(tested) + (if testf.Some? then [old(avail)[0]] else [])
        && destroyed == old(destroyed) + (if Passes(old(avail)[0]) then [] else [old(avail)[0]])
        && Supply() == if Passes(old(avail)[0]) then old(Supply()) else Drop(old(Supply()), 1)
      ensures permits == old(permits) && maxcnt == old(maxcnt)
      ensures old(totcnt) > 0 ==> totcnt == old(totcnt) - (|old(avail)| - |avail|)
    {
      var rsrc := CheckOut();
      if rsrc.Some? && !testonb && testf.Some? {
        rsrc := TestAndReplace(rsrc.value);
      }
      if rsrc.Some? {
        Release(rsrc.value);
      }
    }

    /** A pass over the pool: every idle resource is tested exactly once, in order, whichever
        of the two places does the testing, and survivors and replacements keep the order. */
    method PingTester()
      modifies this
      ensures old(permits) == 0 ==> unchanged(this)
      ensures old(permits) > 0 ==>
        && avail == Pinged(old(avail), Test(), old(Supply()))
        && tested == old(tested) + (if testf.Some? then old(avail) else [])
        && destroyed == old(destroyed) + Failures(old(avail), Test())
      ensures permits == old(permits) && maxcnt == old(maxcnt)
      ensures |old(avail)| <= old(totcnt) ==> totcnt == old(totcnt) - (|old(avail)| - |avail|)
    {
      hide Pinged, PingedOne, Failures, Drop;
      ghost var before, supplied, test := avail, Supply(), Test();
      PassStarts(before, test, supplied);
      var size := |avail|;
      var i := 0;
      while i < size
        invariant 0 <= i <= size == |before|
        invariant old(permits) == 0 ==> unchanged(this)
        invariant old(permits) > 0 ==>
          && avail == before[i..] + Pinged(before[..i], test, supplied)
          && Supply() == Drop(supplied, |Failures(before[..i], test)|)
          && tested == old(tested) + (if testf.Some? then before[..i] else [])
          && destroyed == old(destroyed) + Failures(before[..i], test)
        invariant permits == old(permits) && maxcnt == old(maxcnt)
        invariant avail != [] || i == size
        invariant size <= old(totcnt) ==> totcnt == old(totcnt) - (size - |avail|)
      {
        PassStep(before, i, test, supplied);
        PingNext();
        i := i + 1;
      }
      assert before[..i] == before;
    }

    /** What one round adds to the parts of the pass that are done. */
    lemma PassStep(before: seq<Res>, i: nat, test: Res -> bool, supplied: seq<Option<Res>>)
      requires i < |before|
      ensures before[i..] == [before[i]] + before[i + 1..]
      ensures before[..i + 1] == before[..i] + [before[i]]
      ensures Failures(before[..i + 1], test)
              == Failures(before[..i], test) + (if test(before[i]) then [] else [before[i]])
      ensures var n := |Failures(before[..i], test)|;
        && Pinged(before[..i + 1], test, supplied)
           == Pinged(before[..i], test, supplied) + PingedOne(before[i], test, Drop(supplied, n))
        && Drop(Drop(supplied, n), 1) == Drop(supplied, n + 1)
    {
      hide Pinged, PingedOne, Failures, Drop;
      assert before[..i + 1] == before[..i] + [before[i]];
      FailuresAppend(before[..i], before[i], test);
      PingedAppend(before[..i], before[i], test, supplied);
      DropDrop(supplied, |Failures(before[..i], test)|, 1);
    }

    lemma PassStarts(before: seq<Res>, test: Res -> bool, supplied: seq<Option<Res>>)
      ensures before[..0] == [] && Pinged(before[..0], test, supplied) == [] && Failures(before[..0], test) == []
      ensures Drop(supplied, 0) == supplied && before[0..] == before
    {
    }
  }
}
