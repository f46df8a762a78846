/**
 The thread pool of concurrent.c while it runs, as a transition system.

 `idle_count`, `pool_size` and the event `idle_cond` change under `tmtx`, the job queue under
 `qmtx`, and the semaphore `feed_sem` under neither, so Execute and the worker loop each take
 several steps. Each submission and each Wait is an activity of its own: whoever calls, even a
 job that runs on a worker, only adds steps of that activity.
 */
module ThreadPool {
  import opened Util

  /** The worker loop. */
  datatype Worker =
    | Acquiring          // waits on the semaphore
    | HasToken           // acquired it, has yet to take a job from the queue
    | Running(job: nat)  // inside the job's callback
    | Counting           // the callback returned, has yet to count itself idle

  /** Execute, after its first block. */
  datatype Submission = Queued(needThread: bool) | Growing | Submitted

  /** Wait; `since` is the number of jobs submitted before the call. */
  datatype Waiter = Parked(since: nat) | Returned(since: nat)

  /** Jobs are numbered in the order of submission; `done` holds those whose callback returned. */
  datatype Pool = Pool(
    autoIncrement: bool,
    poolSize: int,
    idleCount: int,
    jobq: seq<nat>,
    feedSem: int,
    idleCond: bool,
    submitted: nat,
    done: set<nat>,
    workers: seq<Worker>,
    submissions: seq<Submission>,
    waiters: seq<Waiter>)

  datatype Step =
    | Submit            // Execute: reset idle_cond, queue the job, decrement idle_count
    | Release(i: nat)   // Execute: release the semaphore
    | Grow(i: nat)      // Execute: start one more worker
    | TakeToken(i: nat)
    | TakeJob(i: nat)
    | FinishJob(i: nat)
    | CountIdle(i: nat)
    | StartWait
    | WakeWaiter(i: nat)

  function Init(size: int): Pool
  {
    var n := if size <= 0 then 1 else size;
    Pool(size <= 0, n, n, [], 0, false, 0, {}, seq(n, _ => Acquiring), [], [])
  }

  predicate Enabled(s: Pool, step: Step)
  {
    match step
    case Submit | StartWait => true
    case Release(i) => i < |s.submissions| && s.submissions[i].Queued?
    case Grow(i) => i < |s.submissions| && s.submissions[i].Growing?
    case TakeToken(i) => i < |s.workers| && s.workers[i].Acquiring? && s.feedSem > 0
    case TakeJob(i) => i < |s.workers| && s.workers[i].HasToken?
    case FinishJob(i) => i < |s.workers| && s.workers[i].Running?
    case CountIdle(i) => i < |s.workers| && s.workers[i].Counting?
    case WakeWaiter(i) => i < |s.waiters| && s.waiters[i].Parked? && s.idleCond
  }

  function SetWorker(s: Pool, i: nat, w: Worker): Pool
    requires i < |s.workers|
  {
    s.(workers := s.workers[i := w])
  }

  function Next(s: Pool, step: Step): Pool
    requires Enabled(s, step)
  {
    match step
    case Submit =>
      s.(idleCond := false, jobq := s.jobq + [s.submitted], submitted := s.submitted + 1,
         idleCount := s.idleCount - 1,
         submissions := s.submissions + [Queued(s.idleCount - 1 <= 0 && s.autoIncrement)])
    case Release(i) =>
      s.(feedSem := s.feedSem + 1,
         submissions := s.submissions[i := if s.submissions[i].needThread then Growing else Submitted])
    case Grow(i) =>
      s.(poolSize := s.poolSize + 1, idleCount := s.idleCount + 1,
         workers := s.workers + [Acquiring], submissions := s.submissions[i := Submitted])
    case TakeToken(i) => SetWorker(s, i, HasToken).(feedSem := s.feedSem - 1)
    case TakeJob(i) =>
      // an empty queue sends the worker back to the semaphore
      if s.jobq == [] then SetWorker(s, i, Acquiring)
      else SetWorker(s, i, Running(s.jobq[0])).(jobq := s.jobq[1..])
    case FinishJob(i) => SetWorker(s, i, Counting).(done := s.done + {s.workers[i].job})
    case CountIdle(i) =>
      SetWorker(s, i, Acquiring).(idleCount := s.idleCount + 1,
                                  idleCond := s.idleCond || s.idleCount + 1 == s.poolSize)
    case StartWait =>
      var allDone := s.idleCount >= s.poolSize && |s.jobq| == 0;
      s.(waiters := s.waiters + [if allDone then Returned(s.submitted) else Parked(s.submitted)])
    case WakeWaiter(i) => s.(waiters := s.waiters[i := Returned(s.waiters[i].since)])
  }

  ghost predicate IsRun(s: Pool, steps: seq<Step>, s': Pool)
    decreases |steps|
  {
    if steps == [] then s == s'
    else Enabled(s, steps[0]) && IsRun(Next(s, steps[0]), steps[1..], s')
  }

  // ----- the invariant -----

  function InFlight(w: Worker): int { if w.Running? || w.Counting? then 1 else 0 }

  function Token(w: Worker): int { if w.HasToken? then 1 else 0 }

  function Unreleased(x: Submission): int { if x.Queued? then 1 else 0 }

  function ToGrow(x: Submission): int { if x.Growing? || (x.Queued? && x.needThread) then 1 else 0 }

  function Runs(job: nat): Worker -> int { w => if w == Running(job) then 1 else 0 }

  /** How many jobs have been taken from the queue. */
  function Taken(s: Pool): int { s.submitted - |s.jobq| }

  /** `idle_count` + queued jobs + jobs in flight = `pool_size`. */
  ghost predicate Balanced(s: Pool)
  {
    && s.idleCount + |s.jobq| + Sum(s.workers, InFlight) == s.poolSize
    && |s.workers| == s.poolSize && s.poolSize >= 1
  }

  /** queued jobs = semaphore value + workers with an unused token + submitters yet to release */
  ghost predicate Fed(s: Pool)
  {
    && |s.jobq| == s.feedSem + Sum(s.workers, Token) + Sum(s.submissions, Unreleased)
    && s.feedSem >= 0
  }

  /** Once a job was submitted, `idle_cond` is set exactly when none is outstanding. */
  ghost predicate Signalled(s: Pool)
  {
    && (s.idleCond <==> s.submitted > 0 && s.idleCount == s.poolSize)
    && (s.submitted == 0 ==> s.idleCount == s.poolSize)
  }

  /** An auto-growing pool always has an idle worker or one about to be started. */
  ghost predicate Growable(s: Pool)
  {
    s.autoIncrement ==> s.idleCount + Sum(s.submissions, ToGrow) >= 1
  }

  /** The queue holds the youngest jobs in order; every older job is on exactly one worker or done. */
  ghost predicate JobsPlaced(s: Pool)
  {
    && Taken(s) >= 0
    && (forall k :: 0 <= k < |s.jobq| ==> s.jobq[k] == Taken(s) + k)
    && (forall j: nat :: Sum(s.workers, Runs(j)) + (if j in s.done then 1 else 0) == if j < Taken(s) then 1 else 0)
  }

  ghost predicate WaitersOk(s: Pool)
  {
    forall i :: 0 <= i < |s.waiters| ==> WaiterOk(s, s.waiters[i])
  }

  /** Wait returned only after every job submitted before it was done; a parked waiter has
      seen an unfinished job. */
  ghost predicate WaiterOk(s: Pool, w: Waiter)
  {
    match w
    case Parked(since) => 0 < s.submitted && since <= s.submitted
    case Returned(since) => forall j: nat :: j < since ==> j in s.done
  }

  ghost predicate Inv(s: Pool)
  {
    Balanced(s) && Fed(s) && Signalled(s) && Growable(s) && JobsPlaced(s) && WaitersOk(s)
  }

  lemma InitInv(size: int)
    ensures Inv(Init(size))
  {
    var s := Init(size);
    SumZero(s.workers, InFlight);
    SumZero(s.workers, Token);
    forall j: nat ensures Sum(s.workers, Runs(j)) == 0 {
      SumZero(s.workers, Runs(j));
    }
  }

  /** How a step changes the sum of `f` over the workers. */
  lemma WorkersAddUp(s: Pool, step: Step, f: Worker -> int)
    requires Enabled(s, step)
    ensures var s' := Next(s, step);
            Sum(s'.workers, f) - Sum(s.workers, f) ==
            match step
            case Grow(_) => f(Acquiring)
            case TakeToken(i) => f(HasToken) - f(s.workers[i])
            case TakeJob(i) => f(if s.jobq == [] then Acquiring else Running(s.jobq[0])) - f(s.workers[i])
            case FinishJob(i) => f(Counting) - f(s.workers[i])
            case CountIdle(i) => f(Acquiring) - f(s.workers[i])
            case _ => 0
  {
    if step.Grow? {
      SumAppend(s.workers, f, Acquiring);
    } else if step.TakeToken? || step.TakeJob? || step.FinishJob? || step.CountIdle? {
      SumUpdate(s.workers, f, step.i, Next(s, step).workers[step.i]);
    }
  }

  lemma SubmissionsAddUp(s: Pool, step: Step, f: Submission -> int)
    requires Enabled(s, step)
    ensures var s' := Next(s, step);
            Sum(s'.submissions, f) - Sum(s.submissions, f) ==
            match step
            case Submit => f(Queued(s.idleCount - 1 <= 0 && s.autoIncrement))
            case Release(i) =>
              f(if s.submissions[i].needThread then Growing else Submitted) - f(s.submissions[i])
            case Grow(i) => f(Submitted) - f(s.submissions[i])
            case _ => 0
  {
    if step.Submit? {
      SumAppend(s.submissions, f, Queued(s.idleCount - 1 <= 0 && s.autoIncrement));
    } else if step.Release? || step.Grow? {
      SumUpdate(s.submissions, f, step.i, Next(s, step).submissions[step.i]);
    }
  }

  lemma TokenMeansJob(s: Pool, i: nat)
    requires Fed(s) && i < |s.workers| && s.workers[i].HasToken?
    ensures s.jobq != []
  {
    SumBoundsTerm(s.workers, Token, i);
    SumNonNegative(s.submissions, Unreleased);
  }

  lemma NextKeepsBalanced(s: Pool, step: Step)
    requires Inv(s) && Enabled(s, step)
    ensures Balanced(Next(s, step)) && Signalled(Next(s, step))
  {
    WorkersAddUp(s, step, InFlight);
    SumNonNegative(s.workers, InFlight);
    if step.CountIdle? || step.FinishJob? {
      SumBoundsTerm(s.workers, InFlight, step.i);
    }
  }

  lemma NextKeepsFed(s: Pool, step: Step)
    requires Inv(s) && Enabled(s, step)
    ensures Fed(Next(s, step)) && Growable(Next(s, step))
  {
    WorkersAddUp(s, step, Token);
    SubmissionsAddUp(s, step, Unreleased);
    SubmissionsAddUp(s, step, ToGrow);
    if step.TakeJob? {
      TokenMeansJob(s, step.i);
    }
    if step.Submit? {
      SumNonNegative(s.submissions, ToGrow);
    }
  }

  lemma NextKeepsJobsPlaced(s: Pool, step: Step)
    requires Inv(s) && Enabled(s, step)
    ensures JobsPlaced(Next(s, step))
  {
    var s' := Next(s, step);
    if step.TakeJob? {
      TokenMeansJob(s, step.i);
    }
    forall j: nat
      ensures Sum(s'.workers, Runs(j)) + (if j in s'.done then 1 else 0) == if j < Taken(s') then 1 else 0
    {
      WorkersAddUp(s, step, Runs(j));
      if step.FinishJob? {
        SumNonNegative(s.workers, Runs(j));
        SumBoundsTerm(s.workers, Runs(j), step.i);
      }
    }
  }

  lemma AllDone(s: Pool)
    requires Balanced(s) && JobsPlaced(s) && s.idleCount >= s.poolSize
    ensures |s.jobq| == 0 && forall j: nat :: j < s.submitted ==> j in s.done
  {
    SumNonNegative(s.workers, InFlight);
    forall j: nat | j < s.submitted ensures j in s.done {
      if j !in s.done {
        var i := SumHasTerm(s.workers, Runs(j));
        SumBoundsTerm(s.workers, InFlight, i);
      }
    }
  }

  lemma NextKeepsWaiters(s: Pool, step: Step)
    requires Inv(s) && Enabled(s, step)
    ensures WaitersOk(Next(s, step))
  {
    var s' := Next(s, step);
    assert s.done <= s'.done && s.submitted <= s'.submitted;
    if s.idleCount >= s.poolSize {
      AllDone(s);
    }
    forall i | 0 <= i < |s'.waiters| ensures WaiterOk(s', s'.waiters[i]) {
      if i < |s.waiters| {
        assert WaiterOk(s, s.waiters[i]);
      }
    }
  }

  lemma NextKeepsInv(s: Pool, step: Step)
    requires Inv(s) && Enabled(s, step)
    ensures Inv(Next(s, step))
  {
    NextKeepsBalanced(s, step);
    NextKeepsFed(s, step);
    NextKeepsJobsPlaced(s, step);
    NextKeepsWaiters(s, step);
  }

  lemma {:induction false} RunKeepsInv(s: Pool, steps: seq<Step>, s': Pool)
    requires Inv(s) && IsRun(s, steps, s')
    ensures Inv(s')
    decreases |steps|
  {
    if steps != [] {
      NextKeepsInv(s, steps[0]);
      RunKeepsInv(Next(s, steps[0]), steps[1..], s');
    }
  }

  // ----- what the invariant says about every run -----

  /** The counters of the pool agree at every moment of every run. */
  lemma Accounting(size: int, steps: seq<Step>, s: Pool)
    requires IsRun(Init(size), steps, s)
    ensures s.idleCount + |s.jobq| + Sum(s.workers, InFlight) == s.poolSize == |s.workers|
    ensures |s.jobq| == s.feedSem + Sum(s.workers, Token) + Sum(s.submissions, Unreleased)
    ensures s.idleCond <==> s.submitted > 0 && s.idleCount == s.poolSize
    ensures s.autoIncrement ==> s.idleCount + Sum(s.submissions, ToGrow) >= 1
  {
    InitInv(size);
    RunKeepsInv(Init(size), steps, s);
  }

  /** A pool of a given size keeps that size: only a growing pool starts more workers. */
  lemma FixedSize(size: int, steps: seq<Step>, s: Pool)
    requires size > 0 && IsRun(Init(size), steps, s)
    ensures s.poolSize == |s.workers| == size
  {
    RunKeepsFixed(Init(size), steps, s);
  }

  ghost predicate Fixed(s: Pool)
  {
    && !s.autoIncrement && |s.workers| == s.poolSize
    && forall i :: 0 <= i < |s.submissions| ==> s.submissions[i] == Queued(false) || s.submissions[i] == Submitted
  }

  lemma {:induction false} RunKeepsFixed(s: Pool, steps: seq<Step>, s': Pool)
    requires Fixed(s) && IsRun(s, steps, s')
    ensures Fixed(s') && s'.poolSize == s.poolSize
    decreases |steps|
  {
    if steps != [] {
      RunKeepsFixed(Next(s, steps[0]), steps[1..], s');
    }
  }

  /** Each submitted job is in exactly one place: the queue, one worker, or done. The queue
      holds the youngest jobs in the order of submission. */
  lemma JobInOnePlace(size: int, steps: seq<Step>, s: Pool, j: nat)
    requires IsRun(Init(size), steps, s) && j < s.submitted
    ensures (if j in s.jobq then 1 else 0) + Sum(s.workers, Runs(j)) + (if j in s.done then 1 else 0) == 1
    ensures forall k :: 0 <= k < |s.jobq| ==> s.jobq[k] == s.submitted - |s.jobq| + k
  {
    InitInv(size);
    RunKeepsInv(Init(size), steps, s);
    if j >= Taken(s) {
      assert s.jobq[j - Taken(s)] == j;
    }
  }

  /** In every reachable state a worker that acquired the semaphore finds a job in the queue. */
  lemma TokenFindsJob(size: int, steps: seq<Step>, s: Pool, i: nat)
    requires IsRun(Init(size), steps, s) && i < |s.workers| && s.workers[i].HasToken?
    ensures s.jobq != []
  {
    InitInv(size);
    RunKeepsInv(Init(size), steps, s);
    TokenMeansJob(s, i);
  }

  /** How many submissions of a growing pool found no worker to spare. */
  function Wanting(s: Pool, steps: seq<Step>): nat
    decreases |steps|
  {
    if steps == [] || !Enabled(s, steps[0]) then 0
    else (if steps[0].Submit? && s.autoIncrement && s.idleCount <= 1 then 1 else 0)
         + Wanting(Next(s, steps[0]), steps[1..])
  }

  lemma {:induction false} RunGrows(s: Pool, steps: seq<Step>, s': Pool)
    requires IsRun(s, steps, s')
    ensures s'.autoIncrement == s.autoIncrement
    ensures s'.poolSize + Sum(s'.submissions, ToGrow) == s.poolSize + Sum(s.submissions, ToGrow) + Wanting(s, steps)
    decreases |steps|
  {
    hide Enabled, Next;
    if steps != [] {
      StepGrows(s, steps[0]);
      RunGrows(Next(s, steps[0]), steps[1..], s');
    }
  }

  lemma StepGrows(s: Pool, step: Step)
    requires Enabled(s, step)
    ensures var s' := Next(s, step);
            && s'.autoIncrement == s.autoIncrement
            && s'.poolSize + Sum(s'.submissions, ToGrow) == s.poolSize + Sum(s.submissions, ToGrow)
               + if step.Submit? && s.autoIncrement && s.idleCount <= 1 then 1 else 0
  {
    SubmissionsAddUp(s, step, ToGrow);
  }

  /** Over every run: a pool grows only if it was created without a size, starting from one worker,
      and then by one worker for each submission that found none to spare. */
  lemma GrowsOnDemand(size: int, steps: seq<Step>, s: Pool)
    requires IsRun(Init(size), steps, s)
    ensures s.autoIncrement <==> size <= 0
    ensures s.poolSize + Sum(s.submissions, ToGrow) == (if size <= 0 then 1 else size) + Wanting(Init(size), steps)
    ensures (forall i :: 0 <= i < |s.submissions| ==> s.submissions[i].Submitted?) ==> Sum(s.submissions, ToGrow) == 0
  {
    RunGrows(Init(size), steps, s);
    if forall i :: 0 <= i < |s.submissions| ==> s.submissions[i].Submitted? {
      SumZero(s.submissions, ToGrow);
    }
  }

  /** Whenever Wait has returned, every job submitted before the call is done. */
  lemma WaitIsSound(size: int, steps: seq<Step>, s: Pool, i: nat, j: nat)
    requires IsRun(Init(size), steps, s)
    requires i < |s.waiters| && s.waiters[i].Returned? && j < s.waiters[i].since
    ensures j in s.done
  {
    InitInv(size);
    RunKeepsInv(Init(size), steps, s);
    assert WaiterOk(s, s.waiters[i]);
  }

  /** Wait does not miss the last completion: a parked waiter can return as soon as no job is
      outstanding. */
  lemma WaitIsComplete(size: int, steps: seq<Step>, s: Pool, i: nat)
    requires IsRun(Init(size), steps, s)
    requires i < |s.waiters| && s.waiters[i].Parked?
    requires |s.jobq| == 0 && Sum(s.workers, InFlight) == 0
    ensures Enabled(s, WakeWaiter(i))
  {
    InitInv(size);
    RunKeepsInv(Init(size), steps, s);
    assert WaiterOk(s, s.waiters[i]);
  }

  // ----- no job is stranded -----

  ghost predicate AllQuiet(s: Pool)
  {
    && s.jobq == []
    && (forall i :: 0 <= i < |s.workers| ==> s.workers[i].Acquiring?)
    && (forall i :: 0 <= i < |s.submissions| ==> s.submissions[i].Submitted?)
    && (forall i :: 0 <= i < |s.waiters| ==> s.waiters[i].Returned?)
  }

  function WorkerLeft(w: Worker): int
  {
    match w
    case Acquiring => 0
    case HasToken => 0
    case Running(_) => 2
    case Counting => 1
  }

  function SubmissionLeft(x: Submission): int
  {
    match x
    case Queued(_) => 3
    case Growing => 1
    case Submitted => 0
  }

  function WaiterLeft(w: Waiter): int { if w.Parked? then 1 else 0 }

  /** The work left when nobody submits or waits anew. */
  function WorkLeft(s: Pool): int
  {
    3 * |s.jobq| + s.feedSem + Sum(s.workers, WorkerLeft)
    + Sum(s.submissions, SubmissionLeft) + Sum(s.waiters, WaiterLeft)
  }

  lemma WorkLeftNonNegative(s: Pool)
    requires Fed(s)
    ensures WorkLeft(s) >= 0
  {
    SumNonNegative(s.workers, WorkerLeft);
    SumNonNegative(s.submissions, SubmissionLeft);
    SumNonNegative(s.waiters, WaiterLeft);
  }

  /** Whatever the scheduler picks, the work left shrinks. */
  lemma StepShortens(s: Pool, step: Step)
    requires Inv(s) && Enabled(s, step) && !step.Submit? && !step.StartWait?
    ensures WorkLeft(Next(s, step)) < WorkLeft(s)
  {
    WorkersAddUp(s, step, WorkerLeft);
    SubmissionsAddUp(s, step, SubmissionLeft);
    if step.TakeJob? {
      TokenMeansJob(s, step.i);
    }
    if step.WakeWaiter? {
      SumUpdate(s.waiters, WaiterLeft, step.i, Next(s, step).waiters[step.i]);
    }
  }

  lemma SomeoneGoesOn(s: Pool) returns (step: Step)
    requires Inv(s) && !AllQuiet(s)
    ensures Enabled(s, step) && !step.Submit? && !step.StartWait?
  {
    if i :| 0 <= i < |s.workers| && !s.workers[i].Acquiring? {
      step := if s.workers[i].HasToken? then TakeJob(i)
              else if s.workers[i].Running? then FinishJob(i)
              else CountIdle(i);
    } else if i :| 0 <= i < |s.submissions| && !s.submissions[i].Submitted? {
      step := if s.submissions[i].Queued? then Release(i) else Grow(i);
    } else {
      SumZero(s.workers, Token);
      SumZero(s.workers, InFlight);
      SumZero(s.submissions, Unreleased);
      if s.jobq != [] {
        step := TakeToken(0);
      } else {
        var i :| 0 <= i < |s.waiters| && !s.waiters[i].Returned?;
        assert WaiterOk(s, s.waiters[i]);
        step := WakeWaiter(i);
      }
    }
  }

  /** In every reachable state in which the pool is not quiet some step is enabled: a queued job
      has a token on the way to a worker, and a parked waiter whose jobs are done can return. */
  lemma SomeStepEnabled(size: int, steps: seq<Step>, s: Pool) returns (step: Step)
    requires IsRun(Init(size), steps, s) && !AllQuiet(s)
    ensures Enabled(s, step) && !step.Submit? && !step.StartWait?
  {
    InitInv(size);
    RunKeepsInv(Init(size), steps, s);
    step := SomeoneGoesOn(s);
  }

  lemma DrainsFrom(s: Pool) returns (steps: seq<Step>, s': Pool)
    requires Inv(s)
    ensures IsRun(s, steps, s') && AllQuiet(s') && s'.submitted == s.submitted
    ensures forall j: nat :: j < s.submitted ==> j in s'.done
    ensures s'.idleCount == s'.poolSize
    ensures |steps| <= WorkLeft(s)
    decreases WorkLeft(s)
  {
    WorkLeftNonNegative(s);
    if AllQuiet(s) {
      SumZero(s.workers, InFlight);
      AllDone(s);
      steps, s' := [], s;
    } else {
      var step := SomeoneGoesOn(s);
      NextKeepsInv(s, step);
      StepShortens(s, step);
      WorkLeftNonNegative(Next(s, step));
      var rest;
      rest, s' := DrainsFrom(Next(s, step));
      steps := [step] + rest;
    }
  }

  /** From every reachable state, if callbacks return and nobody submits anew, all submitted jobs
      get done, all workers become idle and every Wait returns. */
  lemma Drains(size: int, before: seq<Step>, s: Pool) returns (steps: seq<Step>, s': Pool)
    requires IsRun(Init(size), before, s)
    ensures IsRun(s, steps, s') && AllQuiet(s') && s'.submitted == s.submitted
    ensures forall j: nat :: j < s.submitted ==> j in s'.done
    ensures s'.idleCount == s'.poolSize
    ensures |steps| <= WorkLeft(s)
  {
    InitInv(size);
    RunKeepsInv(Init(size), before, s);
    steps, s' := DrainsFrom(s);
  }
}
