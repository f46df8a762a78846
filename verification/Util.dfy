/** Helpers shared by the models: an option type and sums over sequences. */
module Util {

  datatype Option<+T> = None | Some(value: T)

  function Min(a: nat, b: nat): nat { if a < b then a else b }

  /** The sum of `f` over `s`; with a 0/1-valued `f` it counts elements. */
  function Sum<T>(s: seq<T>, f: T -> int): int
  {
    if s == [] then 0 else f(s[0]) + Sum(s[1..], f)
  }

  lemma {:induction false} SumUpdate<T>(s: seq<T>, f: T -> int, i: nat, x: T)
    requires i < |s|
    ensures Sum(s[i := x], f) == Sum(s, f) - f(s[i]) + f(x)
  {
    var s' := s[i := x];
    if i == 0 {
      assert s'[1..] == s[1..];
    } else {
      assert s'[1..] == s[1..][i - 1 := x];
      SumUpdate(s[1..], f, i - 1, x);
    }
  }

  lemma {:induction false} SumAppend<T>(s: seq<T>, f: T -> int, x: T)
    ensures Sum(s + [x], f) == Sum(s, f) + f(x)
  {
    if s == [] {
      assert s + [x] == [x] && [x][1..] == [];
    } else {
      assert (s + [x])[1..] == s[1..] + [x];
      SumAppend(s[1..], f, x);
    }
  }

  /** A sum of non-negative terms bounds each of its terms. */
  lemma {:induction false} SumBoundsTerm<T>(s: seq<T>, f: T -> int, i: nat)
    requires i < |s|
    requires forall k :: 0 <= k < |s| ==> f(s[k]) >= 0
    ensures f(s[i]) <= Sum(s, f)
  {
    SumNonNegative(s[1..], f);
    if i > 0 {
      SumBoundsTerm(s[1..], f, i - 1);
    }
  }

  lemma {:induction false} SumNonNegative<T>(s: seq<T>, f: T -> int)
    requires forall k :: 0 <= k < |s| ==> f(s[k]) >= 0
    ensures Sum(s, f) >= 0
  {
    if s != [] {
      SumNonNegative(s[1..], f);
    }
  }

  /** A sum that is not zero has a term that is not zero. */
  lemma {:induction false} SumHasTerm<T>(s: seq<T>, f: T -> int) returns (i: nat)
    requires Sum(s, f) != 0
    ensures i < |s| && f(s[i]) != 0
  {
    if f(s[0]) != 0 {
      i := 0;
    } else {
      var j := SumHasTerm(s[1..], f);
      i := j + 1;
    }
  }

  lemma {:induction false} SumZero<T>(s: seq<T>, f: T -> int)
    requires forall k :: 0 <= k < |s| ==> f(s[k]) == 0
    ensures Sum(s, f) == 0
  {
    if s != [] {
      SumZero(s[1..], f);
    }
  }
}
