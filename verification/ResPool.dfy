/**
 The resource pool of pool.c under any number of threads. A block under the pool's mutex is
 one step, and so is a semaphore operation or a callback.
 */
module ResPool {
  import opened Util

  /** `excess` is how far the initial count lies above the maximum the semaphore started with. */
  datatype Config = Config(hasFactory: bool, hasTest: bool, testOnBorrow: bool, excess: nat)

  /** `held` are the resources callers have checked out; `known` and `destroyed` only record
      which resources there ever were and which are gone. */
  datatype Shared = Shared(idle: seq<nat>, permits: nat, totcnt: int, maxcnt: int,
                           held: set<nat>, known: set<nat>, destroyed: set<nat>)

  /** Where a thread is; `ping` tells a ping pass from a caller of CheckOut. */
  datatype Thread =
    | Idle
    | Acquired(ping: bool)            // has a permit, is about to look for a resource
    | Taken(res: nat, ping: bool)     // has a resource, is about to test it or hand it on
    | Empty(ping: bool)               // has destroyed a resource that failed, will ask for another
    | Dropping                        // got none, will count the resource off
    | Returning(res: nat)             // is about to put a resource back
    | Giving                          // is about to release a permit

  datatype State = State(sh: Shared, threads: seq<Thread>)

  datatype Action =
    | Acquire(ping: bool)
    | Look(created: Option<nat>)
    | Test(passes: bool)
    | Replace(created: Option<nat>)
    | CountOff
    | Release(res: nat)
    | PutBack
    | Give
    | Add(res: nat)

  // ----- one thread's step -----

  predicate Tested(cfg: Config, t: Thread)
    requires t.Taken?
  {
    cfg.hasTest && (t.ping || cfg.testOnBorrow)
  }

  /** A resource checked out goes to the caller, or back to the pool after a ping. */
  function Deliver(sh: Shared, res: nat, ping: bool): (Shared, Thread)
  {
    if ping then (sh, Returning(res)) else (sh.(held := sh.held + {res}), Idle)
  }

  /** A factory yields nothing or a resource that was never there before. */
  predicate Makes(cfg: Config, sh: Shared, created: Option<nat>)
  {
    created.Some? ==> cfg.hasFactory && created.value !in sh.known
  }

  predicate Enabled(cfg: Config, sh: Shared, t: Thread, a: Action)
  {
    match a
    case Acquire(_) => t.Idle? && sh.permits > 0
    case Look(created) => t.Acquired? && Makes(cfg, sh, created)
    case Test(_) => t.Taken?
    case Replace(created) => t.Empty? && Makes(cfg, sh, created)
    case CountOff => t.Dropping?
    case Release(res) => t.Idle? && res in sh.held
    case PutBack => t.Returning?
    case Give => t.Giving?
    case Add(res) => t.Idle? && res !in sh.known
  }

  function Act(cfg: Config, sh: Shared, t: Thread, a: Action): (Shared, Thread)
    requires Enabled(cfg, sh, t, a)
  {
    match a
    case Acquire(ping) => (sh.(permits := sh.permits - 1), Acquired(ping))
    case Look(created) =>
      if sh.idle != [] then (sh.(idle := sh.idle[1..]), Taken(sh.idle[0], t.ping))
      else if created.Some? then
        (sh.(totcnt := sh.totcnt + 1, known := sh.known + {created.value}), Taken(created.value, t.ping))
      else (sh, Giving)
    case Test(passes) =>
      if Tested(cfg, t) && !passes then (sh.(destroyed := sh.destroyed + {t.res}), Empty(t.ping))
      else Deliver(sh, t.res, t.ping)
    case Replace(created) =>
      if created.Some? then Deliver(sh.(known := sh.known + {created.value}), created.value, t.ping)
      else (sh, Dropping)
    case CountOff => (sh.(totcnt := if sh.totcnt > 0 then sh.totcnt - 1 else sh.totcnt), Giving)
    case Release(res) => (sh.(held := sh.held - {res}), Returning(res))
    case PutBack => (sh.(idle := sh.idle + [t.res]), Giving)
    case Give => (sh.(permits := sh.permits + 1), Idle)
    case Add(res) =>
      var added := sh.(idle := sh.idle + [res], totcnt := sh.totcnt + 1, known := sh.known + {res});
      if added.totcnt > added.maxcnt then (added.(maxcnt := added.maxcnt + 1), Giving) else (added, Idle)
  }

  // ----- runs -----

  /** What Create leaves: `initial` are the resources the factory made; the semaphore starts
      at `maxcnt` whatever `initcnt` is. */
  predicate Init(cfg: Config, initcnt: nat, maxcnt: nat, s: State)
  {
    && cfg.excess == (if initcnt > maxcnt then initcnt - maxcnt else 0)
    && s.sh.totcnt == |s.sh.idle| <= initcnt
    && s.sh.maxcnt == (if initcnt > maxcnt then initcnt else maxcnt)
    && s.sh.permits == maxcnt
    && s.sh.held == {} && s.sh.destroyed == {}
    && s.sh.known == (set r | r in s.sh.idle)
    && (forall i, j :: 0 <= i < j < |s.sh.idle| ==> s.sh.idle[i] != s.sh.idle[j])
    && forall i :: 0 <= i < |s.threads| ==> s.threads[i] == Idle
  }

  datatype Step = Step(thread: nat, action: Action)

  predicate CanStep(cfg: Config, s: State, step: Step)
  {
    step.thread < |s.threads| && Enabled(cfg, s.sh, s.threads[step.thread], step.action)
  }

  function Next(cfg: Config, s: State, step: Step): State
    requires CanStep(cfg, s, step)
  {
    var (sh, t) := Act(cfg, s.sh, s.threads[step.thread], step.action);
    State(sh, s.threads[step.thread := t])
  }

  ghost predicate IsRun(cfg: Config, s: State, steps: seq<Step>, s': State)
    decreases |steps|
  {
    if steps == [] then s == s'
    else CanStep(cfg, s, steps[0]) && IsRun(cfg, Next(cfg, s, steps[0]), steps[1..], s')
  }

  // ----- what is counted -----

  /** The thread stands for a resource that `totcnt` counts. */
  function Slot(t: Thread): int
  {
    if t.Taken? || t.Empty? || t.Dropping? || t.Returning? then 1 else 0
  }

  /** The thread has a permit, but no resource counted by `totcnt` that goes with it. */
  function Bare(t: Thread): int
  {
    if t.Acquired? || t.Giving? then 1 else 0
  }

  /** The thread has resource `r` in its hands. */
  function InHand(r: nat): Thread -> int
  {
    (t: Thread) => if (t.Taken? || t.Returning?) && t.res == r then 1 else 0
  }

  function Is(r: nat): nat -> int
  {
    (x: nat) => if x == r then 1 else 0
  }

  /** In how many places `r` is. */
  function Places(s: State, r: nat): int
  {
    Sum(s.sh.idle, Is(r)) + Sum(s.threads, InHand(r)) + (if r in s.sh.held then 1 else 0)
      + (if r in s.sh.destroyed then 1 else 0)
  }

  /** `totcnt` counts the idle resources and the borrowed slots; every permit is free, with a
      caller who holds a resource, or with a thread inside the pool. */
  ghost predicate Counted(cfg: Config, s: State)
  {
    && s.sh.totcnt == |s.sh.idle| + |s.sh.held| + Sum(s.threads, Slot)
    && s.sh.permits + |s.sh.held| + Sum(s.threads, Slot) + Sum(s.threads, Bare) == s.sh.maxcnt - cfg.excess
    && s.sh.totcnt <= s.sh.maxcnt
  }

  /** Every resource there ever was is in exactly one place: idle, with a caller, in the hands
      of a thread inside the pool, or destroyed. */
  ghost predicate Placed(s: State)
  {
    forall r :: Places(s, r) == if r in s.sh.known then 1 else 0
  }

  ghost predicate Inv(cfg: Config, s: State)
  {
    Counted(cfg, s) && Placed(s)
  }

  // ----- one step keeps it -----

  lemma SumsNonNegative(s: State, r: nat)
    ensures Sum(s.threads, Slot) >= 0 && Sum(s.threads, Bare) >= 0
    ensures Sum(s.threads, InHand(r)) >= 0 && Sum(s.sh.idle, Is(r)) >= 0
  {
    SumNonNegative(s.threads, Slot);
    SumNonNegative(s.threads, Bare);
    SumNonNegative(s.threads, InHand(r));
    SumNonNegative(s.sh.idle, Is(r));
  }

  /** A resource in the hands of a thread is nowhere else. */
  lemma HandIsOnlyPlace(s: State, i: nat)
    requires Placed(s) && i < |s.threads| && (s.threads[i].Taken? || s.threads[i].Returning?)
    ensures s.threads[i].res in s.sh.known && s.threads[i].res !in s.sh.held && s.threads[i].res !in s.sh.destroyed
  {
    var r := s.threads[i].res;
    SumsNonNegative(s, r);
    SumBoundsTerm(s.threads, InHand(r), i);
    assert Places(s, r) == if r in s.sh.known then 1 else 0;
  }

  lemma HeldIsKnown(s: State, r: nat)
    requires Placed(s) && (r in s.sh.held || r in s.sh.destroyed)
    ensures r in s.sh.known
  {
    SumsNonNegative(s, r);
    assert Places(s, r) == if r in s.sh.known then 1 else 0;
  }

  ghost predicate CountedWith(cfg: Config, sh: Shared, slots: int, bares: int)
  {
    && sh.totcnt == |sh.idle| + |sh.held| + slots
    && sh.permits + |sh.held| + slots + bares == sh.maxcnt - cfg.excess
    && sh.totcnt <= sh.maxcnt
  }

  /** The counters after the step of one thread; `slots` and `bares` count all threads. */
  lemma ActCounts(cfg: Config, sh: Shared, t: Thread, a: Action, slots: int, bares: int)
    requires Enabled(cfg, sh, t, a) && CountedWith(cfg, sh, slots, bares)
    requires slots >= Slot(t) && bares >= Bare(t)
    requires t.Taken? ==> t.res !in sh.held
    requires a.Replace? && a.created.Some? ==> a.created.value !in sh.held
    ensures var (sh', t') := Act(cfg, sh, t, a);
            CountedWith(cfg, sh', slots - Slot(t) + Slot(t'), bares - Bare(t) + Bare(t'))
  {
    hide Act, Slot, Bare, Handed, Enabled;
    ActHeld(cfg, sh, t, a);
    ActTotal(cfg, sh, t, a, slots);
    ActPermits(cfg, sh, t, a);
    ActMaximum(cfg, sh, t, a, bares);
  }

  /** How many more resources callers hold after a step. */
  function Handed(a: Action, t': Thread): int
  {
    if a.Release? then -1 else if (a.Test? || a.Replace?) && t'.Idle? then 1 else 0
  }

  lemma ActHeld(cfg: Config, sh: Shared, t: Thread, a: Action)
    requires Enabled(cfg, sh, t, a)
    requires t.Taken? ==> t.res !in sh.held
    requires a.Replace? && a.created.Some? ==> a.created.value !in sh.held
    ensures var (sh', t') := Act(cfg, sh, t, a); |sh'.held| == |sh.held| + Handed(a, t')
  {
  }

  lemma ActTotal(cfg: Config, sh: Shared, t: Thread, a: Action, slots: int)
    requires Enabled(cfg, sh, t, a) && sh.totcnt >= slots >= Slot(t)
    ensures var (sh', t') := Act(cfg, sh, t, a);
            sh'.totcnt - |sh'.idle| - Slot(t') - Handed(a, t') == sh.totcnt - |sh.idle| - Slot(t)
  {
  }

  lemma ActPermits(cfg: Config, sh: Shared, t: Thread, a: Action)
    requires Enabled(cfg, sh, t, a)
    ensures var (sh', t') := Act(cfg, sh, t, a);
            sh'.permits + Slot(t') + Bare(t') + Handed(a, t') - sh'.maxcnt
            == sh.permits + Slot(t) + Bare(t) - sh.maxcnt
  {
  }

  /** Only a thread that looks for a resource and finds none asks for one more; its permit has
      no resource yet. */
  lemma ActMaximum(cfg: Config, sh: Shared, t: Thread, a: Action, bares: int)
    requires Enabled(cfg, sh, t, a) && sh.totcnt <= sh.maxcnt && bares >= Bare(t)
    requires sh.totcnt - |sh.idle| + sh.permits + bares == sh.maxcnt - cfg.excess
    ensures Act(cfg, sh, t, a).0.totcnt <= Act(cfg, sh, t, a).0.maxcnt
  {
  }

  lemma NextKeepsCounted(cfg: Config, s: State, step: Step)
    requires Inv(cfg, s) && CanStep(cfg, s, step)
    ensures Counted(cfg, Next(cfg, s, step))
  {
    hide Placed, Act, Slot, Bare;
    var i, t, t' := step.thread, s.threads[step.thread], Next(cfg, s, step).threads[step.thread];
    SumUpdate(s.threads, Slot, i, t');
    SumUpdate(s.threads, Bare, i, t');
    SlotBounds(s, i);
    if t.Taken? {
      HandIsOnlyPlace(s, i);
    }
    if step.action.Replace? && step.action.created.Some? && step.action.created.value in s.sh.held {
      HeldIsKnown(s, step.action.created.value);
    }
    ActCounts(cfg, s.sh, t, step.action, Sum(s.threads, Slot), Sum(s.threads, Bare));
  }

  lemma SlotBounds(s: State, i: nat)
    requires i < |s.threads|
    ensures Sum(s.threads, Slot) >= Slot(s.threads[i]) && Sum(s.threads, Bare) >= Bare(s.threads[i])
  {
    SumBoundsTerm(s.threads, Slot, i);
    SumBoundsTerm(s.threads, Bare, i);
  }

  function PlacesWith(sh: Shared, hands: int, r: nat): int
  {
    Sum(sh.idle, Is(r)) + hands + (if r in sh.held then 1 else 0) + (if r in sh.destroyed then 1 else 0)
  }

  /** A step moves one resource from one place to another, or brings a new one. */
  lemma ActPlaces(cfg: Config, sh: Shared, t: Thread, a: Action, hands: int, r: nat)
    requires Enabled(cfg, sh, t, a)
    requires PlacesWith(sh, hands, r) == if r in sh.known then 1 else 0
    requires t.Taken? || t.Returning? ==> t.res in sh.known && t.res !in sh.held && t.res !in sh.destroyed
    requires r in sh.held || r in sh.destroyed ==> r in sh.known
    ensures var (sh', t') := Act(cfg, sh, t, a);
            PlacesWith(sh', hands - InHand(r)(t) + InHand(r)(t'), r) == if r in sh'.known then 1 else 0
  {
    if a.PutBack? {
      SumAppend(sh.idle, Is(r), t.res);
    } else if a.Add? {
      SumAppend(sh.idle, Is(r), a.res);
    }
  }

  lemma NextKeepsPlaces(cfg: Config, s: State, step: Step, r: nat)
    requires Inv(cfg, s) && CanStep(cfg, s, step)
    ensures Places(Next(cfg, s, step), r) == if r in Next(cfg, s, step).sh.known then 1 else 0
  {
    hide Counted, Act, InHand, Is;
    var i, t, t' := step.thread, s.threads[step.thread], Next(cfg, s, step).threads[step.thread];
    SumUpdate(s.threads, InHand(r), i, t');
    if t.Taken? || t.Returning? {
      HandIsOnlyPlace(s, i);
    }
    if r in s.sh.held || r in s.sh.destroyed {
      HeldIsKnown(s, r);
    }
    assert Places(s, r) == if r in s.sh.known then 1 else 0;
    ActPlaces(cfg, s.sh, t, step.action, Sum(s.threads, InHand(r)), r);
  }

  lemma NextKeepsInv(cfg: Config, s: State, step: Step)
    requires Inv(cfg, s) && CanStep(cfg, s, step)
    ensures Inv(cfg, Next(cfg, s, step))
  {
    hide Counted, Act, Enabled, Places;
    NextKeepsCounted(cfg, s, step);
    forall r ensures Places(Next(cfg, s, step), r) == if r in Next(cfg, s, step).sh.known then 1 else 0 {
      NextKeepsPlaces(cfg, s, step, r);
    }
  }

  lemma {:induction false} RunKeepsInv(cfg: Config, s: State, steps: seq<Step>, s': State)
    requires Inv(cfg, s) && IsRun(cfg, s, steps, s')
    ensures Inv(cfg, s')
    decreases |steps|
  {
    hide Inv, Act;
    if steps != [] {
      NextKeepsInv(cfg, s, steps[0]);
      RunKeepsInv(cfg, Next(cfg, s, steps[0]), steps[1..], s');
    }
  }

  lemma InitInv(cfg: Config, initcnt: nat, maxcnt: nat, s: State)
    requires Init(cfg, initcnt, maxcnt, s)
    ensures Inv(cfg, s)
  {
    SumZero(s.threads, Slot);
    SumZero(s.threads, Bare);
    forall r ensures Places(s, r) == if r in s.sh.known then 1 else 0 {
      SumZero(s.threads, InHand(r));
      OnceOrNever(s.sh.idle, r);
    }
  }

  lemma {:induction false} OnceOrNever(idle: seq<nat>, r: nat)
    requires forall i, j :: 0 <= i < j < |idle| ==> idle[i] != idle[j]
    ensures Sum(idle, Is(r)) == if r in idle then 1 else 0
  {
    if idle != [] {
      OnceOrNever(idle[1..], r);
    }
  }

  // ----- what it means -----

  /** No interleaving of callers, releases, added resources, pings and failing callbacks loses
      or duplicates a resource, or lets the pool exceed its maximum. */
  lemma OnePlaceEach(cfg: Config, initcnt: nat, maxcnt: nat, s0: State, steps: seq<Step>, s: State, r: nat)
    requires Init(cfg, initcnt, maxcnt, s0) && IsRun(cfg, s0, steps, s)
    ensures Places(s, r) == if r in s.sh.known then 1 else 0
    ensures s.sh.totcnt <= s.sh.maxcnt
    ensures s.sh.totcnt == |s.sh.idle| + |s.sh.held| + Sum(s.threads, Slot)
  {
    hide Init, IsRun, Places;
    InitInv(cfg, initcnt, maxcnt, s0);
    RunKeepsInv(cfg, s0, steps, s);
  }

  predicate Quiet(s: State)
  {
    forall i :: 0 <= i < |s.threads| ==> s.threads[i] == Idle
  }

  /** When no thread is inside the pool, every permit is free or stands for a checked-out
      resource; a pool created within its maximum then has a free permit for every idle one. */
  lemma PermitsConserved(cfg: Config, initcnt: nat, maxcnt: nat, s0: State, steps: seq<Step>, s: State)
    requires Init(cfg, initcnt, maxcnt, s0) && IsRun(cfg, s0, steps, s) && Quiet(s)
    ensures s.sh.permits + |s.sh.held| == s.sh.maxcnt - cfg.excess
    ensures |s.sh.idle| <= s.sh.permits <==> s.sh.totcnt + cfg.excess <= s.sh.maxcnt
    ensures initcnt <= maxcnt ==> |s.sh.idle| <= s.sh.permits
  {
    hide IsRun, Placed;
    InitInv(cfg, initcnt, maxcnt, s0);
    RunKeepsInv(cfg, s0, steps, s);
    SumZero(s.threads, Slot);
    SumZero(s.threads, Bare);
  }

  /** In every run from these arguments of Create, whatever the factory made at first, each
      quiet state has a free permit for every idle resource. */
  ghost predicate AlwaysCovered(cfg: Config, initcnt: nat, maxcnt: nat)
  {
    forall s0, steps, s :: Init(cfg, initcnt, maxcnt, s0) && IsRun(cfg, s0, steps, s) && Quiet(s)
      ==> |s.sh.idle| <= s.sh.permits
  }

  /** That is so exactly when the initial count does not exceed the maximum. */
  lemma CoveredIff(cfg: Config, initcnt: nat, maxcnt: nat)
    requires cfg.excess == if initcnt > maxcnt then initcnt - maxcnt else 0
    ensures AlwaysCovered(cfg, initcnt, maxcnt) <==> initcnt <= maxcnt
  {
    hide Init, IsRun, Quiet;
    if initcnt <= maxcnt {
      forall s0, steps, s | Init(cfg, initcnt, maxcnt, s0) && IsRun(cfg, s0, steps, s) && Quiet(s)
        ensures |s.sh.idle| <= s.sh.permits
      {
        PermitsConserved(cfg, initcnt, maxcnt, s0, steps, s);
      }
    } else {
      var s0 := State(Shared([], maxcnt, 0, initcnt, {}, {}, {}), [Idle]);
      assert Init(cfg, initcnt, maxcnt, s0) by { EmptyInit(cfg, initcnt, maxcnt); }
      var steps, s := Uncovered(cfg, initcnt, maxcnt, s0);
      assert Quiet(s) && |s.sh.idle| > s.sh.permits;
    }
  }

  lemma EmptyInit(cfg: Config, initcnt: nat, maxcnt: nat)
    requires initcnt > maxcnt && cfg.excess == initcnt - maxcnt
    ensures Init(cfg, initcnt, maxcnt, State(Shared([], maxcnt, 0, initcnt, {}, {}, {}), [Idle]))
  {
  }

  /** Whatever a pool created above its maximum starts with, callers can add resources until,
      with nobody inside, idle ones outnumber the free permits. */
  lemma Uncovered(cfg: Config, initcnt: nat, maxcnt: nat, s0: State) returns (steps: seq<Step>, s: State)
    requires initcnt > maxcnt && Init(cfg, initcnt, maxcnt, s0) && |s0.threads| > 0
    ensures IsRun(cfg, s0, steps, s) && Quiet(s) && |s.sh.idle| > s.sh.permits
    ensures forall i :: 0 <= i < |steps| ==> steps[i].action.Add?
  {
    steps, s := AddUpTo(cfg, s0, initcnt);
  }

  /** Resources are added one after the other while the total stays within the maximum. */
  lemma {:induction false} AddUpTo(cfg: Config, s: State, total: nat) returns (steps: seq<Step>, s': State)
    requires Quiet(s) && |s.threads| > 0 && s.sh.totcnt == |s.sh.idle| <= total <= s.sh.maxcnt
    ensures IsRun(cfg, s, steps, s') && Quiet(s')
    ensures |s'.sh.idle| == total && s'.sh.permits == s.sh.permits
    ensures forall i :: 0 <= i < |steps| ==> steps[i].action.Add?
    decreases total - |s.sh.idle|
  {
    if |s.sh.idle| == total {
      steps, s' := [], s;
    } else {
      var unknown := Bound(s.sh.known);
      var step := Step(0, Add(unknown));
      var rest;
      rest, s' := AddUpTo(cfg, Next(cfg, s, step), total);
      steps := [step] + rest;
      assert steps[1..] == rest;
    }
  }

  lemma {:induction false} Bound(known: set<nat>) returns (bound: nat)
    ensures forall x :: x in known ==> x < bound
    decreases known
  {
    if known == {} {
      bound := 0;
    } else {
      var y :| y in known;
      var rest := Bound(known - {y});
      bound := if y < rest then rest else y + 1;
      forall x | x in known ensures x < bound {
        assert x == y || x in known - {y};
      }
    }
  }

  // ----- borrowing and giving back -----

  /** A caller that is alone and finds a permit and an idle resource gets the first one; with a
      test on borrowing that it fails, the resource is destroyed instead. */
  lemma BorrowsFirst(cfg: Config, s: State, i: nat, passes: bool)
    requires i < |s.threads| && s.threads[i] == Idle && s.sh.permits > 0 && s.sh.idle != []
    ensures var r, sh := s.sh.idle[0], s.sh.(permits := s.sh.permits - 1, idle := s.sh.idle[1..]);
            IsRun(cfg, s, [Step(i, Acquire(false)), Step(i, Look(None)), Step(i, Test(passes))],
                  if cfg.hasTest && cfg.testOnBorrow && !passes
                  then State(sh.(destroyed := sh.destroyed + {r}), s.threads[i := Empty(false)])
                  else State(sh.(held := sh.held + {r}), s.threads))
  {
    var one, two, three := Step(i, Acquire(false)), Step(i, Look(None)), Step(i, Test(passes));
    var s1 := Next(cfg, s, one);
    var s2 := Next(cfg, s1, two);
    var s3 := Next(cfg, s2, three);
    assert s.threads[i := Idle] == s.threads;
    assert s3.threads == s.threads[i := s3.threads[i]];
    ThreeSteps(cfg, s, one, two, three);
  }

  lemma ThreeSteps(cfg: Config, s: State, one: Step, two: Step, three: Step)
    requires CanStep(cfg, s, one) && CanStep(cfg, Next(cfg, s, one), two)
    requires CanStep(cfg, Next(cfg, Next(cfg, s, one), two), three)
    ensures IsRun(cfg, s, [one, two, three], Next(cfg, Next(cfg, Next(cfg, s, one), two), three))
  {
    hide CanStep, Next;
    var s1 := Next(cfg, s, one);
    var s2 := Next(cfg, s1, two);
    assert [one, two, three][1..] == [two, three] && [two, three][1..] == [three] && [three][1..] == [];
    assert IsRun(cfg, s2, [three], Next(cfg, s2, three));
    assert IsRun(cfg, s1, [two, three], Next(cfg, s2, three));
  }

  /** A ping pass tests whenever there is a test, whatever is asked for borrowing, and returns what
      passes to the end. */
  lemma PingTests(cfg: Config, s: State, i: nat, passes: bool)
    requires i < |s.threads| && s.threads[i] == Idle && s.sh.permits > 0 && s.sh.idle != []
    ensures var r, sh := s.sh.idle[0], s.sh.(permits := s.sh.permits - 1, idle := s.sh.idle[1..]);
            IsRun(cfg, s, [Step(i, Acquire(true)), Step(i, Look(None)), Step(i, Test(passes))],
                  if cfg.hasTest && !passes
                  then State(sh.(destroyed := sh.destroyed + {r}), s.threads[i := Empty(true)])
                  else State(sh, s.threads[i := Returning(r)]))
  {
    var one, two, three := Step(i, Acquire(true)), Step(i, Look(None)), Step(i, Test(passes));
    var s1 := Next(cfg, s, one);
    var s2 := Next(cfg, s1, two);
    var s3 := Next(cfg, s2, three);
    assert s3.threads == s.threads[i := s3.threads[i]];
    ThreeSteps(cfg, s, one, two, three);
  }

  /** Giving a resource back puts it behind the idle ones and frees a permit. */
  lemma ReturnsLast(cfg: Config, s: State, i: nat, r: nat)
    requires i < |s.threads| && s.threads[i] == Idle && r in s.sh.held
    ensures IsRun(cfg, s, [Step(i, Release(r)), Step(i, PutBack), Step(i, Give)],
                  State(s.sh.(held := s.sh.held - {r}, idle := s.sh.idle + [r], permits := s.sh.permits + 1),
                        s.threads))
  {
    var one, two, three := Step(i, Release(r)), Step(i, PutBack), Step(i, Give);
    var s1 := Next(cfg, s, one);
    var s2 := Next(cfg, s1, two);
    var s3 := Next(cfg, s2, three);
    assert s.threads[i := Idle] == s.threads;
    assert s3.threads == s.threads;
    ThreeSteps(cfg, s, one, two, three);
  }

  // ----- every activity ends -----

  /** How many steps a thread is at most away from being outside the pool. */
  function ToGo(t: Thread): nat
  {
    match t
    case Idle => 0
    case Giving => 1
    case Returning(_) => 2
    case Dropping => 2
    case Empty(_) => 3
    case Taken(_, _) => 4
    case Acquired(_) => 5
  }

  /** A thread inside the pool never waits: some step of it is enabled, and each brings it
      closer to the end. */
  lemma NeverStuck(cfg: Config, s: State, i: nat)
    requires i < |s.threads| && s.threads[i] != Idle
    ensures exists a :: CanStep(cfg, s, Step(i, a))
    ensures forall a :: CanStep(cfg, s, Step(i, a)) ==> ToGo(Next(cfg, s, Step(i, a)).threads[i]) < ToGo(s.threads[i])
  {
    var a := match s.threads[i]
      case Acquired(_) => Look(None)
      case Taken(_, _) => Test(true)
      case Empty(_) => Replace(None)
      case Dropping => CountOff
      case Returning(_) => PutBack
      case _ => Give;
    assert CanStep(cfg, s, Step(i, a));
  }
}
