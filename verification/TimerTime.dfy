/**
 The time arithmetic of the timer in concurrent.c: adding delays, comparing times through a
 cast to int, and re-arming repeating tasks.
 */
module TimerTime {

  datatype TimeVal = TimeVal(sec: int, usec: int)

  const MILLION := 1_000_000
  const INT_RANGE := 0x1_0000_0000
  const INT_HALF := 0x8000_0000

  /** The cast of a difference to a 32-bit int keeps the low bits. */
  function ToInt(x: int): (r: int)
    ensures -INT_HALF <= r < INT_HALF
    ensures -INT_HALF <= x < INT_HALF ==> r == x
  {
    (x + INT_HALF) % INT_RANGE - INT_HALF
  }

  /** Division in C truncates toward zero. */
  function Quot(a: int, b: nat): int
    requires b > 0
  {
    if a >= 0 then a / b else -(-a / b)
  }

  function Rem(a: int, b: nat): (r: int)
    requires b > 0
    ensures r + b > 0 && r < b && (a >= 0 ==> r >= 0)
    ensures a == Quot(a, b) * b + r
  {
    a - Quot(a, b) * b
  }

  function GetDelayed(tv: TimeVal, delay: int): TimeVal
  {
    var sec := tv.sec + Quot(delay, 1000);
    var usec := tv.usec + Rem(delay, 1000) * 1000;
    if usec >= MILLION then TimeVal(sec + 1, usec - MILLION) else TimeVal(sec, usec)
  }

  function Micros(tv: TimeVal): int
  {
    tv.sec * MILLION + tv.usec
  }

  predicate Normal(tv: TimeVal)
  {
    0 <= tv.usec < MILLION
  }

  function TVCompare(a: TimeVal, b: TimeVal): int
  {
    var sdiff := ToInt(a.sec - b.sec);
    if sdiff == 0 then ToInt(a.usec - b.usec) else sdiff
  }

  // ----- delays -----

  /** The delay is added exactly, and the result is normalized again exactly when the rest of
      the delay below a second does not take the microseconds below zero. */
  lemma GetDelayedAdds(tv: TimeVal, delay: int)
    requires Normal(tv)
    ensures Micros(GetDelayed(tv, delay)) == Micros(tv) + delay * 1000
    ensures Normal(GetDelayed(tv, delay)) <==> tv.usec + Rem(delay, 1000) * 1000 >= 0
    ensures delay >= 0 ==> Normal(GetDelayed(tv, delay))
  {
    assert delay == Quot(delay, 1000) * 1000 + Rem(delay, 1000);
  }

  /** One millisecond back from a full second leaves negative microseconds. */
  lemma NegativeDelayNotNormal()
    ensures Normal(TimeVal(5, 0)) && !Normal(GetDelayed(TimeVal(5, 0), -1))
  {
    assert Quot(-1, 1000) == 0;
  }

  /** A period moves the seconds on by at most one more than its whole seconds. */
  lemma GetDelayedSeconds(tv: TimeVal, period: int)
    requires period > 0
    ensures tv.sec <= GetDelayed(tv, period).sec <= tv.sec + period / 1000 + 1
    ensures -MILLION < tv.usec < MILLION ==> -MILLION < GetDelayed(tv, period).usec < MILLION
  {
  }

  // ----- comparison -----

  /** The comparison has the sign of the distance in time. */
  predicate Agrees(a: TimeVal, b: TimeVal)
  {
    (TVCompare(a, b) < 0 <==> Micros(a) < Micros(b)) && (TVCompare(a, b) > 0 <==> Micros(a) > Micros(b))
  }

  /** What the cast leaves of a distance in seconds has its sign, or the microseconds decide the
      same way. */
  predicate SignKept(a: TimeVal, b: TimeVal)
  {
    var d := a.sec - b.sec;
    || d == 0
    || (d > 0 && 0 < d % INT_RANGE < INT_HALF)
    || (d < 0 && 0 < -d % INT_RANGE <= INT_HALF)
    || (d > 0 && d % INT_RANGE == 0 && a.usec > b.usec)
    || (d < 0 && -d % INT_RANGE == 0 && a.usec < b.usec)
  }

  /** For which normalized times the comparison is that of the points in time. */
  lemma CompareIff(a: TimeVal, b: TimeVal)
    requires Normal(a) && Normal(b)
    ensures Agrees(a, b) <==> SignKept(a, b)
  {
    CastOfDistance(a.sec - b.sec);
  }

  /** What the cast makes of a distance. */
  lemma CastOfDistance(d: int)
    ensures ToInt(d) == 0 <==> d % INT_RANGE == 0
    ensures ToInt(d) > 0 <==> 0 < d % INT_RANGE < INT_HALF
    ensures d < 0 ==> (ToInt(d) < 0 <==> 0 < -d % INT_RANGE <= INT_HALF)
    ensures d % INT_RANGE == 0 <==> -d % INT_RANGE == 0
  {
    var q, m := d / INT_RANGE, d % INT_RANGE;
    assert d == q * INT_RANGE + m;
    if m < INT_HALF {
      RemainderIs(d + INT_HALF, q, m + INT_HALF);
    } else {
      RemainderIs(d + INT_HALF, q + 1, m - INT_HALF);
    }
    if m == 0 {
      RemainderIs(-d, -q, 0);
    } else {
      RemainderIs(-d, -q - 1, INT_RANGE - m);
    }
  }

  lemma RemainderIs(x: int, q: int, r: int)
    requires x == q * INT_RANGE + r && 0 <= r < INT_RANGE
    ensures x % INT_RANGE == r
  {
  }

  /** In particular for times less than 2^31 seconds apart. */
  lemma CompareNear(a: TimeVal, b: TimeVal)
    requires Normal(a) && Normal(b) && -INT_HALF < a.sec - b.sec < INT_HALF
    ensures Agrees(a, b)
    ensures TVCompare(a, b) == 0 <==> a == b
  {
  }

  /** At some time in 2025 the first second of 2100 compares as past, and so does a time that
      stands for never. */
  lemma FarTimeIsPast()
    ensures var now, y2100, never := TimeVal(1760000000, 0), TimeVal(4102444800, 0), TimeVal(0x7fff_ffff_ffff_ffff, 0);
            && Micros(now) < Micros(y2100) < Micros(never)
            && TVCompare(y2100, now) < 0 && TVCompare(never, now) < 0
            && !SignKept(y2100, now) && !SignKept(never, now)
  {
  }

  /** Two times 2^31 seconds apart are each before the other. */
  lemma NoOrderFarApart()
    ensures TVCompare(TimeVal(INT_HALF, 0), TimeVal(0, 0)) < 0 && TVCompare(TimeVal(0, 0), TimeVal(INT_HALF, 0)) < 0
  {
  }

  // ----- re-arming -----

  /** The `k`-th slot after `tv`. */
  function Later(tv: TimeVal, period: int, k: nat): TimeVal
  {
    if k == 0 then tv else GetDelayed(Later(tv, period, k - 1), period)
  }

  lemma NoSlotLater(tv: TimeVal, period: int)
    ensures Later(tv, period, 0) == tv
  {
  }

  lemma {:induction false} LaterAdds(tv: TimeVal, period: int, k: nat)
    requires Normal(tv) && period > 0
    ensures Normal(Later(tv, period, k)) && Micros(Later(tv, period, k)) == Micros(tv) + k * period * 1000
  {
    hide GetDelayed, Micros;
    if k > 0 {
      LaterAdds(tv, period, k - 1);
      GetDelayedAdds(Later(tv, period, k - 1), period);
      assert k * period == (k - 1) * period + period;
    }
  }

  lemma {:induction false} LaterLater(tv: TimeVal, period: int, j: nat, k: nat)
    ensures Later(Later(tv, period, j), period, k) == Later(tv, period, j + k)
  {
    if k > 0 {
      LaterLater(tv, period, j, k - 1);
    }
  }

  /** The slot a task is re-armed at: the next one, or with skipping the first that the clock
      does not compare as behind. */
  ghost predicate RearmedAt(tv: TimeVal, period: int, skip: bool, now: TimeVal, k: nat)
  {
    && k >= 1
    && (!skip ==> k == 1)
    && (skip ==> TVCompare(now, Later(tv, period, k)) <= 0)
    && forall j :: 1 <= j < k ==> TVCompare(now, Later(tv, period, j)) > 0
  }

  /** Task and clock leave room for one more period before 2^31 seconds. */
  predicate RoomFor(tv: TimeVal, period: int, now: TimeVal)
  {
    0 <= tv.sec && 0 <= now.sec && tv.sec + period / 1000 + 1 < INT_HALF && now.sec + period / 1000 + 1 < INT_HALF
  }

  /** Then all slots up to the chosen one lie before 2^31 seconds, also for a time whose
      microseconds are negative. */
  lemma {:induction false} RearmedInRange(tv: TimeVal, period: int, skip: bool, now: TimeVal, k: nat, j: nat)
    requires period > 0 && RearmedAt(tv, period, skip, now, k) && RoomFor(tv, period, now)
    requires -MILLION < tv.usec < MILLION && j <= k
    ensures 0 <= Later(tv, period, j).sec < INT_HALF && -MILLION < Later(tv, period, j).usec < MILLION
  {
    hide GetDelayed, Micros;
    if j > 0 {
      RearmedInRange(tv, period, skip, now, k, j - 1);
      var before := Later(tv, period, j - 1);
      GetDelayedSeconds(before, period);
      if j > 1 {
        assert TVCompare(now, before) > 0;
      }
    }
  }

  /** The least later slot that is not before the clock. */
  ghost predicate LeastNotBefore(tv: TimeVal, period: int, now: TimeVal, k: nat)
  {
    && k >= 1 && Micros(now) <= Micros(Later(tv, period, k))
    && forall j :: 1 <= j < k ==> Micros(Later(tv, period, j)) < Micros(now)
  }

  /** The clock is less than 2^31 seconds ahead of the first slot tried, or behind it by a
      distance whose cast does not turn around. */
  predicate Catchable(now: TimeVal, first: TimeVal)
  {
    var d := now.sec - first.sec;
    d < INT_HALF && (d < 0 ==> -d % INT_RANGE <= INT_HALF && (-d % INT_RANGE == 0 ==> now.usec <= first.usec))
  }

  /** With skipping the loop finds the least later slot not before the clock exactly when the
      first slot it tries can be caught up with. */
  lemma RearmExactIff(tv: TimeVal, period: int, now: TimeVal, k: nat)
    requires Normal(tv) && Normal(now) && 0 < period && period / 1000 + 1 < INT_HALF
    requires RearmedAt(tv, period, true, now, k)
    ensures LeastNotBefore(tv, period, now, k) <==> Catchable(now, GetDelayed(tv, period))
  {
    hide GetDelayed, Micros, TVCompare;
    assert Later(tv, period, 1) == GetDelayed(tv, period) by { FirstSlot(tv, period); }
    LaterAdds(tv, period, 1);
    var first := Later(tv, period, 1);
    var d := now.sec - first.sec;
    if d >= INT_HALF {
      LeftBehind(tv, period, now, k, k);
      MicrosApart(now, Later(tv, period, k));
      LaterAdds(tv, period, k);
    } else if d < 0 {
      AheadOfClock(now, first);
      MicrosApart(now, first);
    } else {
      forall j | 1 <= j <= k ensures Agrees(now, Later(tv, period, j)) {
        RearmedNear(tv, period, now, k, j);
        CompareNear(now, Later(tv, period, j));
      }
    }
  }

  lemma FirstSlot(tv: TimeVal, period: int)
    ensures Later(tv, period, 1) == GetDelayed(tv, period)
  {
    NoSlotLater(tv, period);
  }

  lemma AheadOfClock(now: TimeVal, first: TimeVal)
    requires Normal(first) && Normal(now) && now.sec < first.sec
    ensures TVCompare(now, first) <= 0 <==> Catchable(now, first)
  {
    CastOfDistance(now.sec - first.sec);
  }

  /** From less than 2^31 seconds behind the clock no slot tried leaves that distance. */
  lemma {:induction false} RearmedNear(tv: TimeVal, period: int, now: TimeVal, k: nat, j: nat)
    requires Normal(tv) && Normal(now) && 0 < period && period / 1000 + 1 < INT_HALF
    requires RearmedAt(tv, period, true, now, k) && 1 <= j <= k
    requires 0 <= now.sec - Later(tv, period, 1).sec < INT_HALF
    ensures Normal(Later(tv, period, j)) && -INT_HALF < now.sec - Later(tv, period, j).sec < INT_HALF
    ensures j < k ==> now.sec - Later(tv, period, j).sec >= 0
  {
    hide GetDelayed, Micros;
    LaterAdds(tv, period, j);
    if j > 1 {
      RearmedNear(tv, period, now, k, j - 1);
      LaterAdds(tv, period, j - 1);
      GetDelayedSeconds(Later(tv, period, j - 1), period);
    }
    if j < k {
      assert TVCompare(now, Later(tv, period, j)) > 0;
    }
  }

  /** From further behind, a slot tried stays at least 2^31 seconds behind. */
  lemma {:induction false} LeftBehind(tv: TimeVal, period: int, now: TimeVal, k: nat, j: nat)
    requires Normal(tv) && Normal(now) && 0 < period && period / 1000 + 1 < INT_HALF
    requires RearmedAt(tv, period, true, now, k) && 1 <= j <= k
    requires now.sec - Later(tv, period, 1).sec >= INT_HALF
    ensures now.sec - Later(tv, period, j).sec >= INT_HALF
  {
    hide GetDelayed, Micros;
    if j > 1 {
      LeftBehind(tv, period, now, k, j - 1);
      var before := Later(tv, period, j - 1);
      LaterAdds(tv, period, j - 1);
      GetDelayedSeconds(before, period);
      assert TVCompare(now, before) > 0;
      FarCast(now.sec - before.sec);
    }
  }

  lemma FarCast(d: int)
    requires d >= INT_HALF && ToInt(d) >= 0
    ensures d >= INT_RANGE
  {
  }

  /** While the clock compares as ahead, one period less than 2^31 seconds does not take the
      difference through the end of the int range, so each round of the loop is progress. */
  lemma CatchesUp(tv: TimeVal, now: TimeVal, period: int)
    requires Normal(tv) && Normal(now) && period > 0 && period / 1000 + 1 < INT_HALF
    requires TVCompare(now, tv) > 0
    ensures var next := GetDelayed(tv, period);
            Lag(now, next) == Lag(now, tv) - period * 1000 && Lag(now, tv) + MILLION > 0
  {
    hide Micros;
    GetDelayedSeconds(tv, period);
    GetDelayedAdds(tv, period);
    MicrosApart(now, tv);
    MicrosApart(now, GetDelayed(tv, period));
    CastSteps(now.sec - tv.sec, GetDelayed(tv, period).sec - tv.sec);
  }

  /** How far the clock is ahead as the comparison sees it, in microseconds. */
  function Lag(now: TimeVal, tv: TimeVal): int
  {
    ToInt(now.sec - tv.sec) * MILLION + now.usec - tv.usec
  }

  lemma MicrosApart(a: TimeVal, b: TimeVal)
    ensures Micros(a) - Micros(b) == (a.sec - b.sec) * MILLION + a.usec - b.usec
  {
  }

  lemma CastSteps(d: int, q: int)
    requires ToInt(d) >= 0 && 0 <= q < INT_HALF
    ensures ToInt(d - q) == ToInt(d) - q
  {
  }

  /** What the worker does to a repeating task after its procedure. */
  method Rearm(nextrun: TimeVal, period: int, skip: bool, now: TimeVal) returns (tv: TimeVal, ghost k: nat)
    requires Normal(nextrun) && Normal(now) && 0 < period && period / 1000 + 1 < INT_HALF
    ensures Normal(tv) && tv == Later(nextrun, period, k) && RearmedAt(nextrun, period, skip, now, k)
    ensures Micros(tv) == Micros(nextrun) + k * period * 1000
    ensures skip ==> (LeastNotBefore(nextrun, period, now, k) <==> Catchable(now, GetDelayed(nextrun, period)))
  {
    hide GetDelayed, Micros, TVCompare, Lag, LeastNotBefore, Catchable;
    k := 1;
    tv := GetDelayed(nextrun, period);
    LaterAdds(nextrun, period, 1);
    NoSlotLater(nextrun, period);
    while skip && TVCompare(now, tv) > 0
      invariant k >= 1 && tv == Later(nextrun, period, k) && Normal(tv)
      invariant Micros(tv) == Micros(nextrun) + k * period * 1000
      invariant forall j :: 1 <= j < k ==> TVCompare(now, Later(nextrun, period, j)) > 0
      invariant !skip ==> k == 1
      decreases Lag(now, tv) + MILLION
    {
      CatchesUp(tv, now, period);
      LaterAdds(nextrun, period, k + 1);
      tv := GetDelayed(tv, period);
      k := k + 1;
    }
    if skip {
      RearmExactIff(nextrun, period, now, k);
    }
  }

  /** With a period of 2^32 seconds the comparison never changes, and a loop that goes on once
      goes on for ever. */
  lemma {:induction false} RearmCanHang(tv: TimeVal, now: TimeVal, k: nat)
    requires Normal(tv) && TVCompare(now, tv) > 0
    ensures TVCompare(now, Later(tv, INT_RANGE * 1000, k)) > 0
  {
    HangingSlot(tv, k);
    WholeRange(now.sec - tv.sec, k);
  }

  lemma {:induction false} HangingSlot(tv: TimeVal, k: nat)
    requires Normal(tv)
    ensures Later(tv, INT_RANGE * 1000, k) == TimeVal(tv.sec + k * INT_RANGE, tv.usec)
  {
    if k > 0 {
      HangingSlot(tv, k - 1);
      assert Quot(INT_RANGE * 1000, 1000) == INT_RANGE && Rem(INT_RANGE * 1000, 1000) == 0;
    }
  }

  lemma {:induction false} WholeRange(d: int, k: nat)
    ensures ToInt(d - k * INT_RANGE) == ToInt(d)
  {
    if k > 0 {
      WholeRange(d, k - 1);
      assert (d - k * INT_RANGE + INT_HALF) % INT_RANGE == (d - (k - 1) * INT_RANGE + INT_HALF) % INT_RANGE;
    }
  }
}
