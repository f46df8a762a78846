/**
 The condition ("event") object of concurrent.c: a flag guarded by a mutex, on which waiters
 sleep in a condition variable. Only a single-wakeup signal is ever used: a manual-reset event
 releases all its waiters because each one that passes signals the next.

 A block between locking and unlocking the mutex is one step; sleeping in the condition
 variable releases the mutex. A sleeper may also wake spuriously or, in a timed wait, expire.
 */
module Event {
  import opened Util

  datatype Pc =
    | Outside              // not in a call
    | Enter(timed: bool)   // called Wait or TimedWait(ms > 0), has yet to lock the mutex
    | Poll                 // called TimedWait(0), has yet to lock the mutex
    | Asleep(timed: bool)  // in the condition variable
    | Awake(timed: bool, expired: bool)  // woken, has yet to lock the mutex again

  /** `raised`, `cleared` and `passed` count what happened so far: Set calls that changed the
      flag, Reset calls that changed it, and waits that returned with success. */
  datatype Event = Event(
    manual: bool,
    state: bool,
    raised: nat,
    cleared: nat,
    passed: nat,
    threads: seq<Pc>)

  /** `woken` is the sleeper that COND_SIGNAL picks; it is ignored when nothing is signalled. */
  datatype Action =
    | CallWait
    | CallTimedWait(zero: bool)
    | Run(woken: nat)        // lock the mutex, test the flag, and pass, fail or sleep
    | Set(woken: nat)
    | Reset
    | WakeSpuriously
    | Expire

  datatype Step = Step(t: nat, action: Action)

  function Init(n: nat, manual: bool): Event
  {
    Event(manual, false, 0, 0, 0, seq(n, _ => Outside))
  }

  predicate Sleeping(s: Event)
  {
    exists u :: 0 <= u < |s.threads| && s.threads[u].Asleep?
  }

  /** A signal wakes a sleeper if there is one. */
  predicate CanSignal(s: Event, u: nat)
  {
    Sleeping(s) ==> u < |s.threads| && s.threads[u].Asleep?
  }

  function Signal(s: Event, u: nat): Event
  {
    if u < |s.threads| && s.threads[u].Asleep?
    then s.(threads := s.threads[u := Awake(s.threads[u].timed, false)])
    else s
  }

  predicate Enabled(s: Event, step: Step)
  {
    step.t < |s.threads| &&
    var pc := s.threads[step.t];
    match step.action
    case CallWait | CallTimedWait(_) | Reset => pc.Outside?
    case Set(u) => pc.Outside? && CanSignal(s, u)
    case Run(u) => (pc.Enter? || pc.Poll? || pc.Awake?) && CanSignal(s, u)
    case WakeSpuriously => pc.Asleep?
    case Expire => pc.Asleep? && pc.timed
  }

  function Goto(s: Event, t: nat, pc: Pc): Event
    requires t < |s.threads|
  {
    s.(threads := s.threads[t := pc])
  }

  /** With the mutex held: pass if the flag is set, else give up or sleep. */
  function RunWaiter(s: Event, t: nat, u: nat): Event
    requires t < |s.threads|
  {
    var pc := s.threads[t];
    if s.state then
      var out := Goto(s, t, Outside).(passed := s.passed + 1);
      if s.manual then Signal(out, u) else out.(state := false)
    else if pc.Poll? || (pc.Awake? && pc.timed && pc.expired) then Goto(s, t, Outside)
    else Goto(s, t, Asleep((pc.Enter? || pc.Awake?) && pc.timed))
  }

  function Next(s: Event, step: Step): Event
    requires Enabled(s, step)
  {
    var t := step.t;
    match step.action
    case CallWait => Goto(s, t, Enter(false))
    case CallTimedWait(zero) => Goto(s, t, if zero then Poll else Enter(true))
    case Run(u) => RunWaiter(s, t, u)
    case Set(u) => Signal(s.(state := true, raised := s.raised + if s.state then 0 else 1), u)
    case Reset => s.(state := false, cleared := s.cleared + if s.state then 1 else 0)
    case WakeSpuriously => Goto(s, t, Awake(s.threads[t].timed, false))
    case Expire => Goto(s, t, Awake(s.threads[t].timed, true))
  }

  ghost predicate IsRun(s: Event, steps: seq<Step>, s': Event)
    decreases |steps|
  {
    if steps == [] then s == s'
    else Enabled(s, steps[0]) && IsRun(Next(s, steps[0]), steps[1..], s')
  }

  /** A woken thread has yet to look at the flag. */
  predicate SomeoneAwake(s: Event)
  {
    exists u :: 0 <= u < |s.threads| && s.threads[u].Awake?
  }

  ghost predicate Inv(s: Event)
  {
    && (s.state && Sleeping(s) ==> SomeoneAwake(s))
    && (!s.manual ==> s.raised == s.passed + s.cleared + if s.state then 1 else 0)
  }

  lemma SignalWakes(s: Event, u: nat)
    requires CanSignal(s, u)
    ensures Sleeping(s) ==> SomeoneAwake(Signal(s, u))
    ensures Sleeping(Signal(s, u)) ==> Sleeping(s)
  {
    if Sleeping(s) {
      assert Signal(s, u).threads[u].Awake?;
    }
  }

  lemma NextKeepsInv(s: Event, step: Step)
    requires Inv(s) && Enabled(s, step)
    ensures Inv(Next(s, step))
  {
    var t := step.t;
    var s' := Next(s, step);
    match step.action
    case Run(u) =>
      if s.state && s.manual {
        var out := Goto(s, t, Outside).(passed := s.passed + 1);
        assert Sleeping(out) ==> Sleeping(s);
        SignalWakes(out, u);
      }
    case Set(u) =>
      SignalWakes(s.(state := true), u);
      assert s'.threads == Signal(s.(state := true), u).threads;
    case WakeSpuriously => assert s'.threads[t].Awake?;
    case Expire => assert s'.threads[t].Awake?;
    case Reset =>
    case _ =>
      if SomeoneAwake(s) {
        var u :| 0 <= u < |s.threads| && s.threads[u].Awake?;
        assert s'.threads[u].Awake?;
      }
      if Sleeping(s') {
        var u :| 0 <= u < |s'.threads| && s'.threads[u].Asleep?;
        assert s.threads[u].Asleep?;
      }
  }

  lemma {:induction false} RunKeepsInv(s: Event, steps: seq<Step>, s': Event)
    requires Inv(s) && IsRun(s, steps, s')
    ensures Inv(s') && s'.manual == s.manual
    decreases |steps|
  {
    if steps != [] {
      NextKeepsInv(s, steps[0]);
      RunKeepsInv(Next(s, steps[0]), steps[1..], s');
    }
  }

  /** No wakeup is lost: in every reachable state in which the event is set and some thread
      sleeps on it, a woken thread has yet to run. Manual or auto reset, with or without timeouts. */
  lemma NoLostWakeup(n: nat, manual: bool, steps: seq<Step>, s: Event, sleeper: nat)
    requires IsRun(Init(n, manual), steps, s)
    requires s.state && sleeper < |s.threads| && s.threads[sleeper].Asleep?
    ensures exists u :: 0 <= u < |s.threads| && s.threads[u].Awake?
  {
    RunKeepsInv(Init(n, manual), steps, s);
    assert Sleeping(s);
  }

  /** An auto-reset event hands each effective Set to exactly one wait, or a Reset takes it
      back, or it is still pending. */
  lemma AutoResetConserves(n: nat, steps: seq<Step>, s: Event)
    requires IsRun(Init(n, false), steps, s)
    ensures s.raised == s.passed + s.cleared + if s.state then 1 else 0
    ensures s.passed <= s.raised
  {
    RunKeepsInv(Init(n, false), steps, s);
  }

  // ----- when a wait succeeds -----

  /** A step lets a wait succeed exactly when it is a waiter's look at the flag and the flag is set,
      and then just this one. */
  lemma PassesIff(s: Event, step: Step)
    requires Enabled(s, step)
    ensures Next(s, step).passed == s.passed + if step.action.Run? && s.state then 1 else 0
    ensures step.action.Run? && s.state ==> Next(s, step).threads[step.t].Outside?
  {
  }

  /** A wait gives up exactly when its look finds the flag unset and it only polls or its time is
      over; a waiter that does neither goes to sleep. */
  lemma GivesUpIff(s: Event, step: Step)
    requires Enabled(s, step) && !s.threads[step.t].Outside?
    ensures var pc, pc' := s.threads[step.t], Next(s, step).threads[step.t];
            && (pc'.Outside? && Next(s, step).passed == s.passed <==>
                  step.action.Run? && !s.state && (pc.Poll? || (pc.Awake? && pc.timed && pc.expired)))
            && (step.action.Run? && !s.state && !pc'.Outside? ==> pc'.Asleep?)
  {
  }

  /** The flag is what the last Set or Reset made it, except that in auto-reset mode a wait that
      succeeds takes it back. */
  lemma FlagIs(s: Event, step: Step)
    requires Enabled(s, step)
    ensures Next(s, step).manual == s.manual
    ensures Next(s, step).state <==>
      step.action.Set? || (s.state && !step.action.Reset? && (step.action.Run? ==> s.manual))
  {
  }

  /** A step changes no other thread, except that a Set and, in manual-reset mode, a wait that
      succeeds wake one sleeper if there is one. */
  lemma WakesAtMostOne(s: Event, step: Step, u: nat)
    requires Enabled(s, step) && u < |s.threads| && u != step.t
    ensures |Next(s, step).threads| == |s.threads|
    ensures Next(s, step).threads[u] ==
      if s.threads[u].Asleep? && (   (step.action.Set? && step.action.woken == u)
                                  || (step.action.Run? && step.action.woken == u && s.state && s.manual))
      then Awake(s.threads[u].timed, false) else s.threads[u]
  {
  }

  /** How often Set was called. */
  function Sets(steps: seq<Step>): nat
  {
    if steps == [] then 0 else (if steps[0].action.Set? then 1 else 0) + Sets(steps[1..])
  }

  lemma {:induction false} RaisedAtMostSets(s: Event, steps: seq<Step>, s': Event)
    requires IsRun(s, steps, s')
    ensures s'.raised <= s.raised + Sets(steps)
    ensures Sets(steps) == 0 && !s.state ==> !s'.state && s'.passed == s.passed
    decreases |steps|
  {
    hide Enabled, Next;
    if steps != [] {
      PassesIff(s, steps[0]);
      FlagIs(s, steps[0]);
      RaisedStep(s, steps[0]);
      RaisedAtMostSets(Next(s, steps[0]), steps[1..], s');
    }
  }

  lemma RaisedStep(s: Event, step: Step)
    requires Enabled(s, step)
    ensures Next(s, step).raised <= s.raised + if step.action.Set? then 1 else 0
  {
  }

  /** No wait succeeds before the first Set, and in auto-reset mode no more waits than Sets. */
  lemma PassedAtMostSets(n: nat, manual: bool, steps: seq<Step>, s: Event)
    requires IsRun(Init(n, manual), steps, s)
    ensures Sets(steps) == 0 ==> s.passed == 0 && !s.state
    ensures !manual ==> s.passed <= Sets(steps)
  {
    RunKeepsInv(Init(n, manual), steps, s);
    RaisedAtMostSets(Init(n, manual), steps, s);
  }

  datatype Call = Waits | TimedWaits | Polls

  function AfterStep(calls: map<nat, Call>, step: Step): map<nat, Call>
  {
    match step.action
    case CallWait => calls[step.t := Waits]
    case CallTimedWait(zero) => calls[step.t := if zero then Polls else TimedWaits]
    case _ => calls
  }

  /** The last call of each thread. */
  function LastCalls(calls: map<nat, Call>, steps: seq<Step>): map<nat, Call>
    decreases |steps|
  {
    if steps == [] then calls else LastCalls(AfterStep(calls, steps[0]), steps[1..])
  }

  /** A thread is in the call it made. */
  ghost predicate InCall(calls: map<nat, Call>, t: nat, pc: Pc)
  {
    match pc
    case Outside => true
    case Poll => t in calls && calls[t] == Polls
    case Awake(timed, expired) => t in calls && calls[t] == (if timed then TimedWaits else Waits) && (expired ==> timed)
    case _ => t in calls && calls[t] == (if pc.timed then TimedWaits else Waits)
  }

  ghost predicate AllInCalls(calls: map<nat, Call>, s: Event)
  {
    forall t :: 0 <= t < |s.threads| ==> InCall(calls, t, s.threads[t])
  }

  lemma {:induction false} RunKeepsCalls(calls: map<nat, Call>, s: Event, steps: seq<Step>, s': Event)
    requires AllInCalls(calls, s) && IsRun(s, steps, s')
    ensures AllInCalls(LastCalls(calls, steps), s')
    decreases |steps|
  {
    hide Enabled, AllInCalls, AfterStep;
    if steps != [] {
      NextKeepsCalls(calls, s, steps[0]);
      RunKeepsCalls(AfterStep(calls, steps[0]), Next(s, steps[0]), steps[1..], s');
    }
  }

  lemma NextKeepsCalls(calls: map<nat, Call>, s: Event, step: Step)
    requires AllInCalls(calls, s) && Enabled(s, step)
    ensures AllInCalls(AfterStep(calls, step), Next(s, step))
  {
    forall u | 0 <= u < |s.threads| ensures InCall(AfterStep(calls, step), u, Next(s, step).threads[u]) {
      assert InCall(calls, u, s.threads[u]);
      if u != step.t {
        WakesAtMostOne(s, step, u);
      }
    }
  }

  /** Over every run: a Wait without a time limit never returns without success. */
  lemma WaitNeverGivesUp(n: nat, manual: bool, steps: seq<Step>, s: Event, step: Step)
    requires IsRun(Init(n, manual), steps, s) && Enabled(s, step) && !s.threads[step.t].Outside?
    requires Next(s, step).threads[step.t].Outside? && Next(s, step).passed == s.passed
    ensures step.t in LastCalls(map[], steps) && LastCalls(map[], steps)[step.t] != Waits
  {
    hide IsRun, LastCalls;
    RunKeepsCalls(map[], Init(n, manual), steps, s);
    GivesUpIff(s, step);
    assert InCall(LastCalls(map[], steps), step.t, s.threads[step.t]);
  }

  lemma SomeoneRuns(s: Event, waiter: nat) returns (step: Step)
    requires Inv(s) && s.state && waiter < |s.threads| && !s.threads[waiter].Outside?
    ensures Enabled(s, step) && step.action.Run? && Next(s, step).passed == s.passed + 1
  {
    var t := waiter;
    if s.threads[waiter].Asleep? {
      assert Sleeping(s);
      t :| 0 <= t < |s.threads| && s.threads[t].Awake?;
    }
    if Sleeping(s) {
      var u :| 0 <= u < |s.threads| && s.threads[u].Asleep?;
      step := Step(t, Run(u));
    } else {
      step := Step(t, Run(0));
    }
  }

  /** In every reachable state in which the event is set and anyone waits, some waiter can go on
      and succeed. */
  lemma SomeWaiterPasses(n: nat, manual: bool, steps: seq<Step>, s: Event, waiter: nat) returns (step: Step)
    requires IsRun(Init(n, manual), steps, s)
    requires s.state && waiter < |s.threads| && !s.threads[waiter].Outside?
    ensures Enabled(s, step) && step.action.Run? && Next(s, step).passed == s.passed + 1
  {
    RunKeepsInv(Init(n, manual), steps, s);
    step := SomeoneRuns(s, waiter);
  }

  function Pending(pc: Pc): int
  {
    if pc.Outside? then 0 else if pc.Asleep? then 2 else 1
  }

  lemma ReleasesAllFrom(s: Event) returns (steps: seq<Step>, s': Event)
    requires Inv(s) && s.manual && s.state
    ensures IsRun(s, steps, s') && forall i :: 0 <= i < |steps| ==> steps[i].action.Run?
    ensures forall u :: 0 <= u < |s'.threads| ==> s'.threads[u].Outside?
    ensures s'.state && s'.passed == s.passed + |steps|
    decreases Sum(s.threads, Pending)
  {
    if waiter :| 0 <= waiter < |s.threads| && !s.threads[waiter].Outside? {
      var step := SomeoneRuns(s, waiter);
      NextKeepsInv(s, step);
      WakingShortens(s, step);
      var rest;
      rest, s' := ReleasesAllFrom(Next(s, step));
      steps := [step] + rest;
    } else {
      steps, s' := [], s;
    }
  }

  /** The broadcast: from every reachable state a manual-reset event that stays set lets every
      waiter out although each signal wakes one, and every wait that ends this way succeeds. */
  lemma ManualResetReleasesAll(n: nat, before: seq<Step>, s: Event) returns (steps: seq<Step>, s': Event)
    requires IsRun(Init(n, true), before, s) && s.state
    ensures IsRun(s, steps, s') && forall i :: 0 <= i < |steps| ==> steps[i].action.Run?
    ensures forall u :: 0 <= u < |s'.threads| ==> s'.threads[u].Outside?
    ensures s'.state && s'.passed == s.passed + |steps|
  {
    RunKeepsInv(Init(n, true), before, s);
    steps, s' := ReleasesAllFrom(s);
  }

  /** While a manual-reset event stays set, whatever a waiter does next is progress. */
  lemma WakingShortens(s: Event, step: Step)
    requires s.manual && s.state && Enabled(s, step)
    requires step.action.Run? || step.action.WakeSpuriously? || step.action.Expire?
    ensures 0 <= Sum(Next(s, step).threads, Pending) < Sum(s.threads, Pending)
  {
    var t := step.t;
    SumNonNegative(Next(s, step).threads, Pending);
    if step.action.Run? {
      var u := step.action.woken;
      var out := s.threads[t := Outside];
      SumUpdate(s.threads, Pending, t, Outside);
      if u < |out| && out[u].Asleep? {
        SumUpdate(out, Pending, u, Awake(out[u].timed, false));
      }
    } else {
      SumUpdate(s.threads, Pending, t, Next(s, step).threads[t]);
    }
  }
}
