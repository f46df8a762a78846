/**
 The reentrant reader/writer lock of concurrent.c, as a transition system.

 Every action of a thread between two points where another thread can interfere
 is one step: taking or dropping `rdcntmtx` or `wrmtx`, and setting, resetting or
 waiting on the manual-reset event `nordrs`. Both mutexes are explicit state, so
 mutual exclusion inside the critical sections is proved, not assumed.
 */
module RWLock {
  import opened Util
  import opened HolderTable

  /** Where a thread is inside ReadLock, ReadUnlock or WriteLock. */
  datatype Pc =
    | Idle            // between two calls
    | ReadProbe       // ReadLock: about to lock rdcntmtx and look up its holder slot
    | ReadHit         // ReadLock: slot found and bumped, holds rdcntmtx
    | ReadMiss        // ReadLock: no slot, holds rdcntmtx
    | ReadWantWriter  // ReadLock: about to lock wrmtx
    | ReadWantCount   // ReadLock: holds wrmtx, about to lock rdcntmtx and count itself
    | ReadReset       // ReadLock: counted as first reader, about to reset nordrs
    | ReadDropCount   // ReadLock: about to unlock rdcntmtx
    | ReadDropWriter  // ReadLock: about to unlock wrmtx
    | UnreadProbe     // ReadUnlock: about to lock rdcntmtx and uncount itself
    | UnreadSet       // ReadUnlock: was the last reader, about to set nordrs
    | UnreadDrop      // ReadUnlock: about to unlock rdcntmtx
    | WriteWant       // WriteLock: about to lock wrmtx
    | WriteWait       // WriteLock: holds wrmtx, waits on nordrs

  /** `rlocks` counts the thread's outstanding read locks, `wlocks` its write locks. */
  datatype Thread = Thread(pc: Pc, rlocks: int, wlocks: int)

  /** The fields of the lock object. `wrmtx` is recursive: `wrCount` locks are held by
      `wrOwner`, and it is free when there are none. */
  datatype Shared = Shared(
    rdcntmtx: Option<nat>,
    wrOwner: nat,
    wrCount: int,
    nordrs: bool,
    rdcnt: int,
    holders: seq<Holder>)

  /** The lock and the threads that use it; a thread's system id is its index. */
  datatype Lock = Lock(sh: Shared, threads: seq<Thread>)

  /** The first four are calls; `Advance` performs the next action of the call in progress.
      `grows` tells whether growing the holder table would succeed. */
  datatype Action = BeginRead | BeginUnread | BeginWrite | Unwrite | Advance(grows: bool)

  datatype Step = Step(t: nat, action: Action)

  function Init(n: nat): Lock
  {
    Lock(Shared(None, 0, 0, true, 0, []), seq(n, _ => Thread(Idle, 0, 0)))
  }

  /** A call in progress is blocked only on a mutex or on the event. */
  predicate CanAdvance(sh: Shared, t: nat, th: Thread)
  {
    match th.pc
    case Idle => false
    case ReadProbe | UnreadProbe | ReadWantCount => sh.rdcntmtx.None?
    case ReadWantWriter | WriteWant => sh.wrCount == 0 || sh.wrOwner == t
    case WriteWait => sh.nordrs
    case _ => true
  }

  /** Callers unlock only what they hold; otherwise they may nest and mix locks freely. */
  predicate CanAct(sh: Shared, t: nat, th: Thread, action: Action)
  {
    match action
    case BeginRead | BeginWrite => th.pc.Idle?
    case BeginUnread => th.pc.Idle? && th.rlocks > 0
    case Unwrite => th.pc.Idle? && th.wlocks > 0
    case Advance(_) => CanAdvance(sh, t, th)
  }

  /** What the action of thread `t` makes of the lock and of the thread. */
  function Act(sh: Shared, t: nat, th: Thread, action: Action): (Shared, Thread)
  {
    match action
    case BeginRead => (sh, th.(pc := ReadProbe))
    case BeginUnread => (sh, th.(pc := UnreadProbe))
    case BeginWrite => (sh, th.(pc := WriteWant))
    case Unwrite => (sh.(wrCount := sh.wrCount - 1), th.(wlocks := th.wlocks - 1))
    case Advance(grows) => Proceed(sh, t, th, grows)
  }

  function Proceed(sh: Shared, t: nat, th: Thread, grows: bool): (Shared, Thread)
  {
    match th.pc
    case Idle => (sh, th)
    case ReadProbe =>
      if FindLive(sh.holders, t).Some?
      then (sh.(rdcntmtx := Some(t), holders := Deepen(sh.holders, t), rdcnt := sh.rdcnt + 1),
            th.(pc := ReadHit, rlocks := th.rlocks + 1))
      else (sh.(rdcntmtx := Some(t)), th.(pc := ReadMiss))
    case ReadHit => (sh.(rdcntmtx := None), th.(pc := Idle))
    case ReadMiss => (sh.(rdcntmtx := None), th.(pc := ReadWantWriter))
    case ReadWantWriter => (sh.(wrOwner := t, wrCount := sh.wrCount + 1), th.(pc := ReadWantCount))
    case ReadWantCount =>
      (sh.(rdcntmtx := Some(t), holders := AddHolder(sh.holders, t, grows), rdcnt := sh.rdcnt + 1),
       th.(pc := if sh.rdcnt + 1 == 1 then ReadReset else ReadDropCount, rlocks := th.rlocks + 1))
    case ReadReset => (sh.(nordrs := false), th.(pc := ReadDropCount))
    case ReadDropCount => (sh.(rdcntmtx := None), th.(pc := ReadDropWriter))
    case ReadDropWriter => (sh.(wrCount := sh.wrCount - 1), th.(pc := Idle))
    case UnreadProbe =>
      (sh.(rdcntmtx := Some(t), holders := Shallow(sh.holders, t), rdcnt := sh.rdcnt - 1),
       th.(pc := if sh.rdcnt - 1 == 0 then UnreadSet else UnreadDrop, rlocks := th.rlocks - 1))
    case UnreadSet => (sh.(nordrs := true), th.(pc := UnreadDrop))
    case UnreadDrop => (sh.(rdcntmtx := None), th.(pc := Idle))
    case WriteWant => (sh.(wrOwner := t, wrCount := sh.wrCount + 1), th.(pc := WriteWait))
    case WriteWait => (sh, th.(pc := Idle, wlocks := th.wlocks + 1))
  }

  predicate Enabled(s: Lock, step: Step)
  {
    step.t < |s.threads| && CanAct(s.sh, step.t, s.threads[step.t], step.action)
  }

  function Next(s: Lock, step: Step): Lock
    requires Enabled(s, step)
  {
    var (sh, th) := Act(s.sh, step.t, s.threads[step.t], step.action);
    Lock(sh, s.threads[step.t := th])
  }

  /** `steps` lead from `s` to `s'`, each enabled where it is taken. */
  ghost predicate IsRun(s: Lock, steps: seq<Step>, s': Lock)
    decreases |steps|
  {
    if steps == [] then s == s'
    else Enabled(s, steps[0]) && IsRun(Next(s, steps[0]), steps[1..], s')
  }

  // ----- what calls amount to -----

  /** The calls of thread `t` that take a lock, less those that give one back. */
  function NetReads(steps: seq<Step>, t: nat): int
  {
    if steps == [] then 0
    else (if steps[0] == Step(t, BeginRead) then 1 else if steps[0] == Step(t, BeginUnread) then -1 else 0)
         + NetReads(steps[1..], t)
  }

  function NetWrites(steps: seq<Step>, t: nat): int
  {
    if steps == [] then 0
    else (if steps[0] == Step(t, BeginWrite) then 1 else if steps[0] == Step(t, Unwrite) then -1 else 0)
         + NetWrites(steps[1..], t)
  }

  /** What a call in progress has yet to add to the locks of its thread. */
  function ReadsToCome(pc: Pc): int
  {
    if pc.ReadProbe? || pc.ReadMiss? || pc.ReadWantWriter? || pc.ReadWantCount? then 1
    else if pc.UnreadProbe? then -1 else 0
  }

  function WritesToCome(pc: Pc): int
  {
    if pc.WriteWant? || pc.WriteWait? then 1 else 0
  }

  lemma {:induction false} RunAddsUp(s: Lock, steps: seq<Step>, s': Lock, t: nat)
    requires IsRun(s, steps, s') && t < |s.threads|
    ensures |s'.threads| == |s.threads|
    ensures var a, b := s.threads[t], s'.threads[t];
            && b.rlocks + ReadsToCome(b.pc) == a.rlocks + ReadsToCome(a.pc) + NetReads(steps, t)
            && b.wlocks + WritesToCome(b.pc) == a.wlocks + WritesToCome(a.pc) + NetWrites(steps, t)
    decreases |steps|
  {
    hide Enabled, Next;
    if steps != [] {
      StepAddsUp(s, steps[0], t);
      RunAddsUp(Next(s, steps[0]), steps[1..], s', t);
    }
  }

  lemma StepAddsUp(s: Lock, step: Step, t: nat)
    requires Enabled(s, step) && t < |s.threads|
    ensures |Next(s, step).threads| == |s.threads|
    ensures var a, b := s.threads[t], Next(s, step).threads[t];
            && b.rlocks + ReadsToCome(b.pc) == a.rlocks + ReadsToCome(a.pc) + NetReads([step], t)
            && b.wlocks + WritesToCome(b.pc) == a.wlocks + WritesToCome(a.pc) + NetWrites([step], t)
  {
    hide FindLive, Deepen, Shallow, AddHolder;
    assert [step][1..] == [];
  }

  /** Over every run: whenever a thread is not inside a call it has exactly the read and write
      locks that its calls took and did not give back. */
  lemma LocksAddUp(n: nat, steps: seq<Step>, s: Lock, t: nat)
    requires IsRun(Init(n), steps, s) && t < |s.threads| && s.threads[t].pc.Idle?
    ensures s.threads[t].rlocks == NetReads(steps, t) && s.threads[t].wlocks == NetWrites(steps, t)
  {
    hide IsRun, NetReads, NetWrites;
    ThreadsStay(Init(n), steps, s);
    RunAddsUp(Init(n), steps, s, t);
  }

  lemma {:induction false} ThreadsStay(s: Lock, steps: seq<Step>, s': Lock)
    requires IsRun(s, steps, s')
    ensures |s'.threads| == |s.threads|
    decreases |steps|
  {
    if steps != [] {
      ThreadsStay(Next(s, steps[0]), steps[1..], s');
    }
  }

  // ----- the invariant -----

  function Reads(th: Thread): int { th.rlocks }

  predicate InCount(pc: Pc)
  {
    pc.ReadHit? || pc.ReadMiss? || pc.ReadReset? || pc.ReadDropCount? || pc.UnreadSet? || pc.UnreadDrop?
  }

  /** How often a thread has locked wrmtx. */
  function WriterHolds(th: Thread): int
  {
    th.wlocks +
    if th.pc.ReadWantCount? || th.pc.ReadReset? || th.pc.ReadDropCount? || th.pc.ReadDropWriter? || th.pc.WriteWait?
    then 1 else 0
  }

  /** `t` is inside a critical section exactly when it owns the mutex of that section. */
  predicate MutexOk(sh: Shared, t: nat, th: Thread)
  {
    && (InCount(th.pc) <==> sh.rdcntmtx == Some(t))
    && WriterHolds(th) == (if sh.wrOwner == t then sh.wrCount else 0)
    && th.wlocks >= 0
  }

  /** The holder table never credits a thread with more than it holds, and a thread on the
      slow path of ReadLock has no live slot. */
  predicate HolderOk(sh: Shared, t: nat, th: Thread)
  {
    && Depth(sh.holders, t) <= th.rlocks
    && (th.pc.ReadMiss? || th.pc.ReadWantWriter? || th.pc.ReadWantCount? ==> Depth(sh.holders, t) == 0)
    && (th.pc.UnreadProbe? ==> th.rlocks > 0)
  }

  /** The event is set exactly when `rdcnt` is 0, except between the change of `rdcnt`
      and the call that updates the event, both made by the owner of rdcntmtx. */
  predicate EventOk(sh: Shared, t: nat, th: Thread)
  {
    if sh.rdcntmtx != Some(t) then true
    else if th.pc.ReadReset? then sh.rdcnt == 1 && sh.nordrs
    else if th.pc.UnreadSet? then sh.rdcnt == 0 && !sh.nordrs
    else sh.nordrs <==> sh.rdcnt == 0
  }

  /** While a thread is in its write section no other thread holds any lock. */
  predicate ExclusiveOk(writer: Thread, other: Thread)
  {
    writer.wlocks > 0 ==> other.rlocks == 0 && other.wlocks == 0
  }

  predicate ThreadOk(s: Lock, t: nat)
    requires t < |s.threads|
  {
    MutexOk(s.sh, t, s.threads[t]) && HolderOk(s.sh, t, s.threads[t]) && EventOk(s.sh, t, s.threads[t])
  }

  ghost predicate Exclusive(s: Lock)
  {
    forall w, u :: 0 <= w < |s.threads| && 0 <= u < |s.threads| && w != u ==> ExclusiveOk(s.threads[w], s.threads[u])
  }

  ghost predicate Inv(s: Lock)
  {
    && (s.sh.rdcntmtx.Some? ==> s.sh.rdcntmtx.value < |s.threads|)
    && (s.sh.rdcntmtx.None? ==> (s.sh.nordrs <==> s.sh.rdcnt == 0))
    && (s.sh.wrCount > 0 ==> s.sh.wrOwner < |s.threads|)
    && s.sh.wrCount >= 0
    && s.sh.rdcnt == Sum(s.threads, Reads)
    && OneSlotEach(s.sh.holders)
    && (forall t :: 0 <= t < |s.threads| ==> ThreadOk(s, t))
    && Exclusive(s)
  }

  lemma InitInv(n: nat)
    ensures Inv(Init(n))
  {
    SumZero(Init(n).threads, Reads);
  }

  // ----- one action keeps it -----

  lemma HoldersAct(sh: Shared, t: nat, th: Thread, action: Action)
    requires OneSlotEach(sh.holders) && CanAct(sh, t, th, action) && HolderOk(sh, t, th)
    ensures var (sh', th') := Act(sh, t, th, action);
            OneSlotEach(sh'.holders) && HolderOk(sh', t, th') &&
            forall u: nat :: u != t ==> Depth(sh'.holders, u) == Depth(sh.holders, u)
  {
    hide Depth, FindLive, OneSlotEach, Deepen, Shallow, AddHolder;
    DepthIff(sh.holders, t);
    if action.Advance? {
      match th.pc
      case ReadProbe => DeepenDepths(sh.holders, t);
      case ReadWantCount => AddHolderDepths(sh.holders, t, action.grows);
      case UnreadProbe => ShallowDepths(sh.holders, t);
      case _ =>
    }
  }

  lemma MutexAct(sh: Shared, t: nat, th: Thread, action: Action, u: nat, other: Thread)
    requires CanAct(sh, t, th, action) && MutexOk(sh, t, th)
    requires u != t && MutexOk(sh, u, other) && EventOk(sh, u, other) && sh.wrCount >= 0
    ensures var (sh', th') := Act(sh, t, th, action);
            MutexOk(sh', t, th') && MutexOk(sh', u, other) && EventOk(sh', u, other)
  {
  }

  lemma EventAct(sh: Shared, t: nat, th: Thread, action: Action)
    requires CanAct(sh, t, th, action) && MutexOk(sh, t, th) && HolderOk(sh, t, th) && EventOk(sh, t, th)
    requires 0 <= th.rlocks <= sh.rdcnt && sh.wrCount >= 0
    requires sh.rdcntmtx.None? ==> (sh.nordrs <==> sh.rdcnt == 0)
    ensures var (sh', th') := Act(sh, t, th, action);
            && MutexOk(sh', t, th') && EventOk(sh', t, th') && sh'.wrCount >= 0
            && sh'.rdcnt - sh.rdcnt == th'.rlocks - th.rlocks
            && (sh'.rdcntmtx.Some? ==> sh'.rdcntmtx.value == t || sh'.rdcntmtx == sh.rdcntmtx)
            && (sh'.rdcntmtx.None? ==> (sh'.nordrs <==> sh'.rdcnt == 0))
            && (sh'.wrOwner == t || sh'.wrOwner == sh.wrOwner)
  {
  }

  lemma ReadsAddUp(s: Lock, t: nat)
    requires Inv(s) && t < |s.threads|
    ensures 0 <= s.threads[t].rlocks <= s.sh.rdcnt
  {
    forall u | 0 <= u < |s.threads| ensures Reads(s.threads[u]) >= 0 {
      assert ThreadOk(s, u);
    }
    SumBoundsTerm(s.threads, Reads, t);
  }

  lemma NoReaderLeft(s: Lock, w: nat, u: nat)
    requires Inv(s) && w < |s.threads| && u < |s.threads|
    requires s.threads[w].pc.WriteWait? && s.sh.nordrs
    ensures s.threads[u].rlocks == 0
  {
    assert ThreadOk(s, w);
    if s.sh.rdcntmtx.Some? {
      assert ThreadOk(s, s.sh.rdcntmtx.value);
    }
    ReadsAddUp(s, u);
  }

  lemma ExclusiveAct(sh: Shared, t: nat, th: Thread, action: Action, u: nat, other: Thread)
    requires CanAct(sh, t, th, action) && u != t
    requires MutexOk(sh, t, th) && HolderOk(sh, t, th) && MutexOk(sh, u, other)
    requires ExclusiveOk(th, other) && ExclusiveOk(other, th)
    requires th.pc.WriteWait? && sh.nordrs ==> other.rlocks == 0
    ensures var (sh', th') := Act(sh, t, th, action); ExclusiveOk(th', other) && ExclusiveOk(other, th')
  {
  }

  lemma NextKeepsExclusive(s: Lock, step: Step)
    requires Inv(s) && Enabled(s, step)
    ensures Exclusive(Next(s, step))
  {
    var t := step.t;
    var s' := Next(s, step);
    forall u | 0 <= u < |s.threads| && u != t
      ensures ExclusiveOk(s'.threads[t], s'.threads[u]) && ExclusiveOk(s'.threads[u], s'.threads[t])
    {
      assert ThreadOk(s, t) && ThreadOk(s, u);
      assert ExclusiveOk(s.threads[t], s.threads[u]) && ExclusiveOk(s.threads[u], s.threads[t]);
      if s.threads[t].pc.WriteWait? && s.sh.nordrs {
        NoReaderLeft(s, t, u);
      }
      ExclusiveAct(s.sh, t, s.threads[t], step.action, u, s.threads[u]);
    }
    forall w, u | 0 <= w < |s.threads| && 0 <= u < |s.threads| && w != u
      ensures ExclusiveOk(s'.threads[w], s'.threads[u])
    {
      if w != t && u != t {
        assert ExclusiveOk(s.threads[w], s.threads[u]);
      }
    }
  }

  lemma NextKeepsInv(s: Lock, step: Step)
    requires Inv(s) && Enabled(s, step)
    ensures Inv(Next(s, step))
  {
    var t := step.t;
    var s' := Next(s, step);
    assert ThreadOk(s, t);
    ReadsAddUp(s, t);
    EventAct(s.sh, t, s.threads[t], step.action);
    HoldersAct(s.sh, t, s.threads[t], step.action);
    SumUpdate(s.threads, Reads, t, s'.threads[t]);
    forall u | 0 <= u < |s'.threads| ensures ThreadOk(s', u) {
      if u != t {
        assert ThreadOk(s, u);
        MutexAct(s.sh, t, s.threads[t], step.action, u, s.threads[u]);
      }
    }
    NextKeepsExclusive(s, step);
  }

  /** Every reachable state satisfies the invariant, whatever the callers nest and mix and
      whether or not the holder table can grow. */
  lemma {:induction false} RunKeepsInv(s: Lock, steps: seq<Step>, s': Lock)
    requires Inv(s) && IsRun(s, steps, s')
    ensures Inv(s')
    decreases |steps|
  {
    if steps != [] {
      NextKeepsInv(s, steps[0]);
      RunKeepsInv(Next(s, steps[0]), steps[1..], s');
    }
  }

  /** In every reachable state a writer that holds wrmtx and finds the event set finds no reader. */
  lemma WriterPassesAlone(n: nat, steps: seq<Step>, s: Lock, w: nat, u: nat)
    requires IsRun(Init(n), steps, s) && w < |s.threads| && u < |s.threads|
    requires s.threads[w].pc.WriteWait? && s.sh.nordrs
    ensures s.threads[u].rlocks == 0
  {
    InitInv(n);
    RunKeepsInv(Init(n), steps, s);
    NoReaderLeft(s, w, u);
  }

  /** The safety of the lock, over every run of any number of threads: a write section
      excludes every other lock; `rdcnt` counts the read locks; outside the critical section
      of rdcntmtx the event is set exactly when there are none; and no thread has two live
      holder slots or a slot deeper than the locks it holds. */
  lemma Safety(n: nat, steps: seq<Step>, s: Lock)
    requires IsRun(Init(n), steps, s)
    ensures forall w, u :: 0 <= w < |s.threads| && 0 <= u < |s.threads| && w != u && s.threads[w].wlocks > 0 ==>
              s.threads[u].rlocks == 0 && s.threads[u].wlocks == 0
    ensures s.sh.rdcnt == Sum(s.threads, Reads)
    ensures s.sh.rdcntmtx.None? ==> (s.sh.nordrs <==> s.sh.rdcnt == 0)
    ensures forall i, j, t: nat :: Live(s.sh.holders, i, t) && Live(s.sh.holders, j, t) ==> i == j
    ensures forall t :: 0 <= t < |s.threads| ==> Depth(s.sh.holders, t) <= s.threads[t].rlocks
  {
    InitInv(n);
    RunKeepsInv(Init(n), steps, s);
    forall w, u | 0 <= w < |s.threads| && 0 <= u < |s.threads| && w != u && s.threads[w].wlocks > 0
      ensures s.threads[u].rlocks == 0 && s.threads[u].wlocks == 0
    {
      assert ExclusiveOk(s.threads[w], s.threads[u]);
    }
    forall t | 0 <= t < |s.threads| ensures Depth(s.sh.holders, t) <= s.threads[t].rlocks {
      assert ThreadOk(s, t);
    }
  }

  /** At most one thread is inside each critical section. */
  lemma CriticalSections(n: nat, steps: seq<Step>, s: Lock, t: nat, u: nat)
    requires IsRun(Init(n), steps, s) && t < |s.threads| && u < |s.threads| && t != u
    ensures !(InCount(s.threads[t].pc) && InCount(s.threads[u].pc))
    ensures !(WriterHolds(s.threads[t]) > 0 && WriterHolds(s.threads[u]) > 0)
  {
    InitInv(n);
    RunKeepsInv(Init(n), steps, s);
    assert ThreadOk(s, t) && ThreadOk(s, u);
  }

  // ----- no stuck state -----

  /** The callers' discipline for progress: no read-to-write upgrade, and the holder table grows
      when it must, so that every reader is tracked. */
  predicate Polite(s: Lock, step: Step)
    requires Enabled(s, step)
  {
    match step.action
    case BeginWrite => s.threads[step.t].rlocks == 0
    case Advance(grows) => grows
    case _ => true
  }

  ghost predicate IsPoliteRun(s: Lock, steps: seq<Step>, s': Lock)
    decreases |steps|
  {
    if steps == [] then s == s'
    else Enabled(s, steps[0]) && Polite(s, steps[0]) && IsPoliteRun(Next(s, steps[0]), steps[1..], s')
  }

  /** Every read lock is recorded in the holder table, and a thread that asks for the
      write lock holds no read lock. */
  predicate TrackedOk(sh: Shared, t: nat, th: Thread)
  {
    Depth(sh.holders, t) == th.rlocks && (th.pc.WriteWant? || th.pc.WriteWait? ==> th.rlocks == 0)
  }

  ghost predicate TrackedInv(s: Lock)
  {
    Inv(s) && forall t :: 0 <= t < |s.threads| ==> TrackedOk(s.sh, t, s.threads[t])
  }

  lemma TrackedAct(sh: Shared, t: nat, th: Thread, action: Action)
    requires OneSlotEach(sh.holders) && CanAct(sh, t, th, action) && HolderOk(sh, t, th) && TrackedOk(sh, t, th)
    requires action.BeginWrite? ==> th.rlocks == 0
    requires action.Advance? ==> action.grows
    ensures var (sh', th') := Act(sh, t, th, action); TrackedOk(sh', t, th')
  {
    if action.Advance? {
      match th.pc
      case ReadProbe => DeepenDepths(sh.holders, t);
      case ReadWantCount => AddHolderDepths(sh.holders, t, true);
      case UnreadProbe => ShallowDepths(sh.holders, t);
      case _ =>
    }
  }

  lemma NextKeepsTracked(s: Lock, step: Step)
    requires TrackedInv(s) && Enabled(s, step) && Polite(s, step)
    ensures TrackedInv(Next(s, step))
  {
    NextKeepsInv(s, step);
    assert ThreadOk(s, step.t) && TrackedOk(s.sh, step.t, s.threads[step.t]);
    HoldersAct(s.sh, step.t, s.threads[step.t], step.action);
    TrackedAct(s.sh, step.t, s.threads[step.t], step.action);
    forall u | 0 <= u < |s.threads| ensures TrackedOk(Next(s, step).sh, u, Next(s, step).threads[u]) {
      assert TrackedOk(s.sh, u, s.threads[u]);
    }
  }

  lemma {:induction false} PoliteRunKeepsTracked(s: Lock, steps: seq<Step>, s': Lock)
    requires TrackedInv(s) && IsPoliteRun(s, steps, s')
    ensures TrackedInv(s')
    decreases |steps|
  {
    if steps != [] {
      NextKeepsTracked(s, steps[0]);
      PoliteRunKeepsTracked(Next(s, steps[0]), steps[1..], s');
    }
  }

  lemma InitTracked(n: nat)
    ensures TrackedInv(Init(n))
  {
    InitInv(n);
  }

  /** In every state a disciplined run reaches, every read lock is recorded in the holder table
      and no thread that asks for the write lock holds a read lock. */
  lemma ReachableTracked(n: nat, steps: seq<Step>, s: Lock)
    requires IsPoliteRun(Init(n), steps, s)
    ensures TrackedInv(s)
    ensures forall t :: 0 <= t < |s.threads| ==> TrackedOk(s.sh, t, s.threads[t])
  {
    InitTracked(n);
    PoliteRunKeepsTracked(Init(n), steps, s);
  }

  /** What happens when no new lock is asked for: calls in progress go on, holders release. */
  predicate Draining(action: Action)
  {
    (action.Advance? && action.grows) || action.BeginUnread? || action.Unwrite?
  }

  predicate Quiet(th: Thread)
  {
    th == Thread(Idle, 0, 0)
  }

  /** The number of actions a thread still needs to become quiet. */
  function Remaining(th: Thread): int
  {
    4 * th.rlocks + th.wlocks +
    match th.pc
    case Idle => 0
    case ReadProbe => 11
    case ReadMiss => 10
    case ReadWantWriter => 9
    case ReadWantCount => 8
    case ReadReset => 3
    case ReadDropCount => 2
    case ReadDropWriter => 1
    case ReadHit => 1
    case UnreadProbe => -1
    case UnreadSet => 2
    case UnreadDrop => 1
    case WriteWant => 3
    case WriteWait => 2
  }

  /** A draining action brings its thread strictly closer to rest. */
  lemma DrainingActShortens(sh: Shared, t: nat, th: Thread, action: Action)
    requires CanAct(sh, t, th, action) && Draining(action) && HolderOk(sh, t, th) && MutexOk(sh, t, th)
    ensures Remaining(Act(sh, t, th, action).1) < Remaining(th)
    ensures Remaining(th) > 0
  {
  }

  /** A thread that is not quiet can act or waits for a mutex or for the readers. */
  lemma WaitsFor(sh: Shared, t: nat, th: Thread)
    requires MutexOk(sh, t, th) && HolderOk(sh, t, th) && TrackedOk(sh, t, th)
    requires !Quiet(th) && sh.wrCount >= 0
    ensures || (th.pc.Idle? && th.rlocks > 0 && CanAct(sh, t, th, BeginUnread))
            || (th.pc.Idle? && th.wlocks > 0 && CanAct(sh, t, th, Unwrite))
            || CanAct(sh, t, th, Advance(true))
            || (sh.rdcntmtx.Some? && sh.rdcntmtx.value != t)
            || (sh.wrCount > 0 && sh.wrOwner != t && th.rlocks == 0)
            || (th.pc.WriteWait? && !sh.nordrs && th.rlocks == 0)
  {
  }

  /** The owner of rdcntmtx can always go on; a parked writer waits for a thread that holds a
      read lock, and no such thread ever waits for wrmtx. */
  lemma SomeoneGoesOn(s: Lock, t: nat) returns (step: Step)
    requires TrackedInv(s) && t < |s.threads| && !Quiet(s.threads[t])
    ensures Enabled(s, step) && Draining(step.action) && Polite(s, step)
  {
    if s.sh.rdcntmtx.Some? {
      var o := s.sh.rdcntmtx.value;
      assert ThreadOk(s, o);
      step := Step(o, Advance(true));
    } else {
      var reader: Option<nat> := None;
      if s.sh.rdcnt != 0 {
        var r := SumHasTerm(s.threads, Reads);
        reader := Some(r);
      }
      if reader.Some? && s.threads[reader.value].rlocks != 0 {
        step := ReaderGoesOn(s, reader.value);
      } else {
        step := WriterGoesOn(s, t);
      }
    }
  }

  /** No reachable state is stuck: as long as some thread is inside a call or holds a lock, some
      thread has an enabled action that leads towards releasing all locks. */
  lemma NotStuck(n: nat, steps: seq<Step>, s: Lock, t: nat) returns (step: Step)
    requires IsPoliteRun(Init(n), steps, s) && t < |s.threads| && !Quiet(s.threads[t])
    ensures Enabled(s, step) && Draining(step.action) && Polite(s, step)
  {
    ReachableTracked(n, steps, s);
    step := SomeoneGoesOn(s, t);
  }

  /** In every reachable state with rdcntmtx free, parked writer or not, a thread that holds a
      read lock can take its next step: begin a nested ReadLock or a ReadUnlock, or go on. */
  lemma ReaderNeverBlocked(n: nat, steps: seq<Step>, s: Lock, r: nat)
    requires IsPoliteRun(Init(n), steps, s) && s.sh.rdcntmtx.None? && r < |s.threads| && s.threads[r].rlocks > 0
    ensures if s.threads[r].pc.Idle? then Enabled(s, Step(r, BeginRead)) && Enabled(s, Step(r, BeginUnread))
            else Enabled(s, Step(r, Advance(true)))
  {
    ReachableTracked(n, steps, s);
    var step := ReaderGoesOn(s, r);
  }

  /** With rdcntmtx free, a thread that holds a read lock has its next step enabled: it never
      waits for wrmtx or for the event, so nested ReadLock and ReadUnlock pass a parked writer. */
  lemma ReaderGoesOn(s: Lock, r: nat) returns (step: Step)
    requires TrackedInv(s) && s.sh.rdcntmtx.None? && r < |s.threads| && s.threads[r].rlocks != 0
    ensures step.t == r && Enabled(s, step) && Draining(step.action) && Polite(s, step)
  {
    assert ThreadOk(s, r) && TrackedOk(s.sh, r, s.threads[r]);
    step := Step(r, if s.threads[r].pc.Idle? then BeginUnread else Advance(true));
  }

  lemma WriterGoesOn(s: Lock, t: nat) returns (step: Step)
    requires TrackedInv(s) && s.sh.rdcntmtx.None? && s.sh.rdcnt == 0
    requires t < |s.threads| && !Quiet(s.threads[t])
    ensures Enabled(s, step) && Draining(step.action) && Polite(s, step)
  {
    ReadsAddUp(s, t);
    assert ThreadOk(s, t) && TrackedOk(s.sh, t, s.threads[t]);
    WaitsFor(s.sh, t, s.threads[t]);
    var who := if s.sh.wrCount > 0 then s.sh.wrOwner else t;
    ReadsAddUp(s, who);
    assert ThreadOk(s, who) && TrackedOk(s.sh, who, s.threads[who]);
    WaitsFor(s.sh, who, s.threads[who]);
    step := Step(who, if s.threads[who].pc.Idle? then Unwrite else Advance(true));
  }

  ghost predicate AllQuiet(s: Lock)
  {
    forall t :: 0 <= t < |s.threads| ==> Quiet(s.threads[t])
  }

  lemma DrainsFrom(s: Lock) returns (steps: seq<Step>, s': Lock)
    requires TrackedInv(s)
    ensures IsPoliteRun(s, steps, s') && AllQuiet(s') && |steps| <= Sum(s.threads, Remaining)
    ensures forall i :: 0 <= i < |steps| ==> Draining(steps[i].action)
    decreases Sum(s.threads, Remaining)
  {
    RemainingNonNegative(s);
    if AllQuiet(s) {
      steps, s' := [], s;
    } else {
      var t :| 0 <= t < |s.threads| && !Quiet(s.threads[t]);
      var step := SomeoneGoesOn(s, t);
      NextKeepsTracked(s, step);
      DrainingStepShortens(s, step);
      var rest;
      rest, s' := DrainsFrom(Next(s, step));
      steps := [step] + rest;
    }
  }

  /** From every state that a disciplined run can reach, draining actions alone bring every
      thread to rest with all locks released, within `Remaining` actions, in any order the
      scheduler takes them; here is one such schedule. */
  lemma Drains(n: nat, before: seq<Step>, s: Lock) returns (steps: seq<Step>, s': Lock)
    requires IsPoliteRun(Init(n), before, s)
    ensures IsPoliteRun(s, steps, s') && AllQuiet(s') && |steps| <= Sum(s.threads, Remaining)
    ensures forall i :: 0 <= i < |steps| ==> Draining(steps[i].action)
  {
    ReachableTracked(n, before, s);
    steps, s' := DrainsFrom(s);
  }

  lemma RemainingNonNegative(s: Lock)
    requires Inv(s)
    ensures Sum(s.threads, Remaining) >= 0
  {
    forall u | 0 <= u < |s.threads| ensures Remaining(s.threads[u]) >= 0 {
      assert ThreadOk(s, u);
    }
    SumNonNegative(s.threads, Remaining);
  }

  /** Whichever draining action the scheduler picks, the work left shrinks. */
  lemma DrainingStepShortens(s: Lock, step: Step)
    requires Inv(s) && Enabled(s, step) && Draining(step.action)
    ensures 0 <= Sum(Next(s, step).threads, Remaining) < Sum(s.threads, Remaining)
  {
    NextKeepsInv(s, step);
    RemainingNonNegative(Next(s, step));
    assert ThreadOk(s, step.t);
    DrainingActShortens(s.sh, step.t, s.threads[step.t], step.action);
    SumUpdate(s.threads, Remaining, step.t, Next(s, step).threads[step.t]);
  }
}
