/**
 The ownership protocol of timer tasks in concurrent.c, as a transition system.

 A task moves between the schedule, a worker, the finished set and a cancelling thread, and
 is freed by the canceller or by the worker. A block under the timer mutex is one step; the
 worker's unguarded reads of `canceled`, the procedure and each Free are steps of their own.
 The clients' discipline is: a handle is cancelled at most once, and while a Purge runs only by
 the task's own procedure.
 */
module Timer {
  import opened Util

  // How many times a canceller polls a running task before it gives up.
  const CANCEL_WAIT: nat := 5000

  /** The worker that handles a dispatched task. */
  datatype Worker =
    | NoWorker
    | Pending                          // in the job queue of the worker pool
    | Started                          // recorded itself as the runner
    | InProc                           // inside the task procedure
    | AfterProc                        // the procedure returned
    | Ending(target: Option<Target>)   // decided where the task goes, has yet to lock the mutex
    | WorkerFreeing                    // left the mutex, has yet to free the task

  datatype Target = ToScheduled | ToFinished

  datatype Outcome = Freed | GaveUp | LeftToWorker

  /** The thread that cancels the task, directly or for a Purge. */
  datatype Canceller =
    | NotCancelled
    | Purging                    // in the snapshot of a Purge, has yet to be cancelled
    | Waiting(remain: nat)       // polls until the worker is done with the task
    | CancelFreeing              // left the mutex, has yet to free the task
    | Returned(outcome: Outcome)

  /** A task with its place in the three arrays. The counters only remember: calls of Free on it,
      how often it was handed to a worker, how often a worker found it cancelled and skipped its
      procedure, how often the procedure returned, and the looks of a waiting canceller. */
  datatype Task = Task(
    repeating: bool,
    inScheduled: bool,
    inFinished: bool,
    inAll: bool,
    canceled: bool,
    dispatched: bool,
    waiter: bool,
    runner: Option<nat>,
    frees: nat,
    dispatches: nat,
    skipped: nat,
    returned: nat,
    polls: nat,
    worker: Worker,
    cancel: Canceller)

  datatype Timer = Timer(tasks: seq<Task>, purging: bool)

  /** What happens to one task; `self` is the system id of the acting thread. */
  datatype Action =
    | Dispatch             // main loop: leave the schedule for a worker
    | Begin(self: nat)     // worker: record the runner
    | Check                // worker: run the procedure unless cancelled
    | ProcReturns
    | Decide               // worker: repeat or finish, unless cancelled
    | Finish               // worker: put the task back, or give it up
    | WorkerFree
    | Cancel(self: nat)
    | PurgeCancel(self: nat)
    | PollWait             // canceller: look again after a sleep
    | CancelFree

  datatype Step =
    | Create(repeating: bool)
    | On(i: nat, action: Action)
    | PurgeSnapshot
    | PurgeEnd

  function NewTask(repeating: bool): Task
  {
    Task(repeating, true, false, true, false, false, false, None, 0, 0, 0, 0, 0, NoWorker, NotCancelled)
  }

  predicate CanAct(t: Task, action: Action)
  {
    match action
    case Dispatch => t.inScheduled
    case Begin(_) => t.worker.Pending?
    case Check => t.worker.Started?
    case ProcReturns => t.worker.InProc?
    case Decide => t.worker.AfterProc?
    case Finish => t.worker.Ending?
    case WorkerFree => t.worker.WorkerFreeing?
    // a thread that runs the task calls Cancel from inside the procedure
    case Cancel(self) =>
      && (t.runner == Some(self) ==> t.worker.InProc?)
      && (t.cancel.NotCancelled? || (t.cancel.Purging? && !t.canceled && t.runner == Some(self)))
    case PurgeCancel(self) => t.cancel.Purging? && (t.runner == Some(self) ==> t.worker.InProc?)
    case PollWait => t.cancel.Waiting?
    case CancelFree => t.cancel.CancelFreeing?
  }

  function Act(t: Task, action: Action): Task
  {
    match action
    case Dispatch => t.(inScheduled := false, dispatched := true, worker := Pending, dispatches := t.dispatches + 1)
    case Begin(self) => t.(runner := Some(self), worker := Started)
    case Check => if t.canceled then t.(worker := Ending(None), skipped := t.skipped + 1) else t.(worker := InProc)
    case ProcReturns => t.(worker := AfterProc, returned := t.returned + 1)
    case Decide => t.(worker := Ending(Some(if t.repeating && !t.canceled then ToScheduled else ToFinished)))
    case Finish => FinishTask(t).(runner := None, dispatched := false)
    case WorkerFree => t.(frees := t.frees + 1, worker := NoWorker)
    // the Purge that has the task in its snapshot will still cancel it
    case Cancel(self) => if t.cancel.Purging? then CancelTask(t, self).(cancel := Purging) else CancelTask(t, self)
    case PurgeCancel(self) => CancelTask(t, self)
    case PollWait =>
      if !t.dispatched then t.(cancel := CancelFreeing, polls := t.polls + 1)
      else if t.cancel.Waiting? && t.cancel.remain > 0 then
        t.(cancel := Waiting(t.cancel.remain - 1), polls := t.polls + 1)
      else t.(waiter := false, cancel := Returned(GaveUp), polls := t.polls + 1)
    case CancelFree => t.(frees := t.frees + 1, cancel := Returned(Freed))
  }

  /** The worker's last block: a cancelled task leaves `alltasks`; a waiting canceller takes it over. */
  function FinishTask(t: Task): Task
  {
    if t.canceled then
      t.(inAll := false, worker := if t.waiter then NoWorker else WorkerFreeing)
    else if t.worker.Ending? && t.worker.target == Some(ToScheduled) then
      t.(inScheduled := true, worker := NoWorker)
    else if t.worker.Ending? && t.worker.target == Some(ToFinished) then
      t.(inFinished := true, worker := NoWorker)
    else
      t.(worker := NoWorker)
  }

  /** The first block of a cancellation. */
  function CancelTask(t: Task, self: nat): Task
  {
    if !t.canceled && (t.inScheduled || t.inFinished) then
      // the second Remove is tried only when the first finds nothing
      t.(inScheduled := false, inFinished := t.inScheduled && t.inFinished,
         inAll := false, cancel := CancelFreeing)
    else if t.dispatched && t.runner != Some(self) then
      // the first round of the loop already counts
      t.(canceled := true, waiter := true, cancel := Waiting(CANCEL_WAIT - 1), polls := 0)
    else
      t.(canceled := true, cancel := Returned(LeftToWorker))
  }

  function Mark(t: Task): Task
  {
    if t.inAll then t.(waiter := true, cancel := Purging) else t
  }

  predicate InCancel(t: Task)
  {
    t.cancel.Purging? || t.cancel.Waiting? || t.cancel.CancelFreeing?
  }

  /** While a Purge runs only a task's own procedure cancels it. */
  predicate Enabled(s: Timer, step: Step)
  {
    match step
    case Create(_) => true
    case On(i, action) =>
      && i < |s.tasks| && CanAct(s.tasks[i], action)
      && (action.Cancel? && s.purging ==> s.tasks[i].runner == Some(action.self))
    case PurgeSnapshot => !s.purging && forall i :: 0 <= i < |s.tasks| ==> !InCancel(s.tasks[i])
    case PurgeEnd => s.purging && forall i :: 0 <= i < |s.tasks| ==> !InCancel(s.tasks[i])
  }

  function Next(s: Timer, step: Step): Timer
    requires Enabled(s, step)
  {
    match step
    case Create(repeating) => s.(tasks := s.tasks + [NewTask(repeating)])
    case On(i, action) => s.(tasks := s.tasks[i := Act(s.tasks[i], action)])
    case PurgeSnapshot => Timer(seq(|s.tasks|, i requires 0 <= i < |s.tasks| => Mark(s.tasks[i])), true)
    case PurgeEnd => s.(purging := false)
  }

  function Init(): Timer { Timer([], false) }

  /** The rest of the discipline: no task of a Purge's snapshot was cancelled before and is still
      running, none cancels itself before the Purge comes to it, and no running task calls Purge. */
  predicate Disciplined(s: Timer, step: Step)
    requires Enabled(s, step)
  {
    match step
    case PurgeSnapshot => forall i :: 0 <= i < |s.tasks| ==> !(s.tasks[i].inAll && s.tasks[i].canceled)
    case On(i, Cancel(_)) => !s.tasks[i].cancel.Purging?
    case On(i, PurgeCancel(self)) => s.tasks[i].runner != Some(self)
    case _ => true
  }

  ghost predicate IsRun(s: Timer, steps: seq<Step>, s': Timer)
    decreases |steps|
  {
    if steps == [] then s == s'
    else Enabled(s, steps[0]) && IsRun(Next(s, steps[0]), steps[1..], s')
  }

  ghost predicate IsDisciplinedRun(s: Timer, steps: seq<Step>, s': Timer)
    decreases |steps|
  {
    if steps == [] then s == s'
    else Enabled(s, steps[0]) && Disciplined(s, steps[0]) && IsDisciplinedRun(Next(s, steps[0]), steps[1..], s')
  }

  // ----- the invariant, one task at a time -----

  predicate OnWorker(w: Worker)
  {
    w.Pending? || w.Started? || w.InProc? || w.AfterProc? || w.Ending?
  }

  /** A task in `alltasks` is in exactly one of the schedule, the finished set and a worker's
      hands; none of its holders has freed it. */
  predicate PlaceOk(t: Task)
  {
    && (t.inAll <==> t.inScheduled || t.inFinished || t.dispatched)
    && !(t.inScheduled && t.inFinished) && !(t.inScheduled && t.dispatched) && !(t.inFinished && t.dispatched)
    && (t.dispatched <==> OnWorker(t.worker))
    && (t.runner.Some? <==> OnWorker(t.worker) && !t.worker.Pending?)
    && (t.inAll ==> t.frees == 0)
    && (t.inScheduled || t.inFinished ==> !t.canceled)
    && (t.worker.Ending? && !t.canceled ==> t.worker.target == Some(if t.repeating then ToScheduled else ToFinished))
    && (t.inFinished ==> !t.repeating)
    && (t.worker.WorkerFreeing? ==> t.canceled && !t.waiter && t.frees == 0)
    && t.frees <= 1
  }

  /** What the stage of its cancellation says about a task in every run. */
  predicate CancelSound(t: Task)
  {
    match t.cancel
    case NotCancelled => !t.canceled && !t.waiter && t.inAll
    case Purging => t.waiter && t.frees == 0 && !t.worker.WorkerFreeing? && (!t.canceled ==> t.inAll)
    case Waiting(_) => t.canceled && t.waiter && t.frees == 0 && (t.dispatched || t.worker.NoWorker?)
    case CancelFreeing => t.frees == 0 && t.worker.NoWorker? && !t.inAll
    case Returned(Freed) => t.frees == 1 && t.worker.NoWorker? && !t.inAll
    case Returned(_) => t.canceled && (t.waiter ==> t.frees == 0 && t.cancel == Returned(LeftToWorker))
                        && (t.frees == 1 ==> t.worker.NoWorker?)
                        && (t.frees == 0 && t.worker.NoWorker? ==> t.waiter)
  }

  /** In a disciplined run, moreover, a task in the snapshot of a Purge is not cancelled yet, and
      a worker to whom a task was left will free it. */
  predicate CancelOk(t: Task)
  {
    CancelSound(t) && (t.cancel.Purging? ==> !t.canceled) && (t.cancel.Returned? ==> !t.waiter || t.frees == 1)
  }

  predicate TaskSound(t: Task)
  {
    PlaceOk(t) && CancelSound(t)
  }

  predicate TaskOk(t: Task)
  {
    PlaceOk(t) && CancelOk(t)
  }

  ghost predicate Sound(s: Timer)
  {
    && (forall i :: 0 <= i < |s.tasks| ==> TaskSound(s.tasks[i]))
    && (!s.purging ==> forall i :: 0 <= i < |s.tasks| ==> !s.tasks[i].cancel.Purging?)
  }

  ghost predicate Inv(s: Timer)
  {
    Sound(s) && forall i :: 0 <= i < |s.tasks| ==> TaskOk(s.tasks[i])
  }

  lemma ActKeepsSound(t: Task, action: Action)
    requires TaskSound(t) && CanAct(t, action)
    ensures TaskSound(Act(t, action))
    ensures Act(t, action).cancel.Purging? ==> t.cancel.Purging?
  {
    if action.Finish? {
      assert t.worker.target.Some? ==> t.worker.target.value.ToScheduled? || t.worker.target.value.ToFinished?;
    }
  }

  lemma NextKeepsSound(s: Timer, step: Step)
    requires Sound(s) && Enabled(s, step)
    ensures Sound(Next(s, step))
  {
    hide PlaceOk, CancelSound, Act, CanAct;
    match step
    case On(i, action) => ActKeepsSound(s.tasks[i], action);
    case Create(repeating) => NewIsSound(repeating);
    case PurgeSnapshot =>
      forall i | 0 <= i < |s.tasks| ensures TaskSound(Mark(s.tasks[i])) {
        MarkKeepsSound(s.tasks[i]);
      }
    case PurgeEnd =>
  }

  lemma NewIsSound(repeating: bool)
    ensures TaskOk(NewTask(repeating)) && !NewTask(repeating).cancel.Purging?
  {
  }

  lemma MarkKeepsSound(t: Task)
    requires TaskSound(t) && !InCancel(t)
    ensures TaskSound(Mark(t))
  {
  }

  lemma {:induction false} RunKeepsSound(s: Timer, steps: seq<Step>, s': Timer)
    requires Sound(s) && IsRun(s, steps, s')
    ensures Sound(s')
    decreases |steps|
  {
    hide Sound, Next, Enabled;
    if steps != [] {
      NextKeepsSound(s, steps[0]);
      RunKeepsSound(Next(s, steps[0]), steps[1..], s');
    }
  }

  lemma ActKeepsTask(t: Task, action: Action)
    requires TaskOk(t) && CanAct(t, action)
    requires action.PurgeCancel? ==> t.runner != Some(action.self)
    requires action.Cancel? ==> !t.cancel.Purging?
    ensures TaskOk(Act(t, action))
    ensures Act(t, action).cancel.Purging? ==> t.cancel.Purging?
  {
    if action.Finish? {
      assert t.worker.target.Some? ==> t.worker.target.value.ToScheduled? || t.worker.target.value.ToFinished?;
    }
  }

  lemma MarkKeepsTask(t: Task)
    requires TaskOk(t) && !InCancel(t) && !(t.inAll && t.canceled)
    ensures TaskOk(Mark(t))
  {
  }

  lemma NextKeepsInv(s: Timer, step: Step)
    requires Inv(s) && Enabled(s, step) && Disciplined(s, step)
    ensures Inv(Next(s, step))
  {
    hide PlaceOk, CancelOk, CancelSound, Act, CanAct;
    NextKeepsSound(s, step);
    match step
    case On(i, action) => ActKeepsTask(s.tasks[i], action);
    case Create(repeating) => NewIsSound(repeating);
    case PurgeSnapshot =>
      forall i | 0 <= i < |s.tasks| ensures TaskOk(Mark(s.tasks[i])) {
        MarkKeepsTask(s.tasks[i]);
      }
    case PurgeEnd =>
  }

  lemma InitIsInv()
    ensures Inv(Init())
  {
  }

  lemma {:induction false} RunKeepsInv(s: Timer, steps: seq<Step>, s': Timer)
    requires Inv(s) && IsDisciplinedRun(s, steps, s')
    ensures Inv(s')
    decreases |steps|
  {
    hide Inv, Next, Enabled, Disciplined;
    if steps != [] {
      NextKeepsInv(s, steps[0]);
      RunKeepsInv(Next(s, steps[0]), steps[1..], s');
    }
  }

  // ----- what it says about every run -----

  /** Every task in `alltasks` is in exactly one place, and only tasks there are in any place. */
  lemma OnePlace(steps: seq<Step>, s: Timer, i: nat)
    requires IsRun(Init(), steps, s) && i < |s.tasks|
    ensures var t := s.tasks[i];
            (if t.inScheduled then 1 else 0) + (if t.inFinished then 1 else 0) + (if t.dispatched then 1 else 0)
            == if t.inAll then 1 else 0
  {
    RunKeepsSound(Init(), steps, s);
    assert TaskSound(s.tasks[i]);
  }

  /** No task is freed twice, and nothing touches a task after it was freed: no action on a
      freed task is enabled. A Purge marks only tasks that are not freed. */
  lemma NoUseAfterFree(steps: seq<Step>, s: Timer, i: nat, action: Action)
    requires IsRun(Init(), steps, s) && i < |s.tasks|
    ensures s.tasks[i].frees <= 1
    ensures s.tasks[i].frees == 1 ==> !CanAct(s.tasks[i], action) && !s.tasks[i].inAll
  {
    RunKeepsSound(Init(), steps, s);
    assert TaskSound(s.tasks[i]);
  }

  /** Nothing leaks: once the cancellation of a task returned and no worker is left on it, it
      has been freed exactly once. */
  lemma FreedExactlyOnce(steps: seq<Step>, s: Timer, i: nat)
    requires IsDisciplinedRun(Init(), steps, s) && i < |s.tasks|
    requires s.tasks[i].cancel.Returned? && s.tasks[i].worker.NoWorker?
    ensures s.tasks[i].frees == 1
  {
    RunKeepsInv(Init(), steps, s);
    assert TaskOk(s.tasks[i]);
  }

  /** A cancellation is left to the worker, or to the Purge that has the task in its snapshot,
      only when the running task cancels itself. */
  lemma OnlySelfCancelIsLeft(t: Task, action: Action)
    requires TaskOk(t) && CanAct(t, action) && (action.Cancel? || action.PurgeCancel?)
    ensures Act(t, action).cancel == (if action.Cancel? && t.cancel.Purging? then Purging else Returned(LeftToWorker))
            <==> t.runner == Some(action.self)
  {
  }

  // ----- what is counted -----

  /** A worker that has a task and has neither called its procedure nor skipped it. */
  predicate BeforeCall(w: Worker)
  {
    w.Pending? || w.Started? || w.InProc?
  }

  /** Each dispatch called the procedure once, or found the task cancelled and skipped it, unless
      its worker is not that far. A canceller that waits has looked as often as it counted down. */
  predicate Counted(t: Task)
  {
    && t.dispatches == t.returned + t.skipped + (if BeforeCall(t.worker) then 1 else 0)
    && (t.skipped > 0 ==>
          t.skipped == 1 && t.canceled && (t.worker.NoWorker? || t.worker == Ending(None) || t.worker.WorkerFreeing?))
    && (!t.repeating ==> t.dispatches <= if t.inScheduled then 0 else 1)
    && (t.cancel.Waiting? ==> t.polls + t.cancel.remain == CANCEL_WAIT - 1)
    && (t.cancel == Returned(GaveUp) ==> t.polls == CANCEL_WAIT)
  }

  lemma ActKeepsCounted(t: Task, action: Action)
    requires TaskSound(t) && Counted(t) && CanAct(t, action)
    ensures Counted(Act(t, action))
  {
    if action.Finish? {
      assert t.worker.target.Some? ==> t.worker.target.value.ToScheduled? || t.worker.target.value.ToFinished?;
    }
  }

  lemma {:induction false} RunKeepsCounted(s: Timer, steps: seq<Step>, s': Timer)
    requires Sound(s) && IsRun(s, steps, s') && forall i :: 0 <= i < |s.tasks| ==> Counted(s.tasks[i])
    ensures Sound(s') && forall i :: 0 <= i < |s'.tasks| ==> Counted(s'.tasks[i])
    decreases |steps|
  {
    hide TaskSound, Counted, CanAct, Act, Mark, NewTask;
    if steps != [] {
      NextKeepsSound(s, steps[0]);
      NextKeepsCounted(s, steps[0]);
      RunKeepsCounted(Next(s, steps[0]), steps[1..], s');
    }
  }

  lemma NextKeepsCounted(s: Timer, step: Step)
    requires Sound(s) && Enabled(s, step) && forall i :: 0 <= i < |s.tasks| ==> Counted(s.tasks[i])
    ensures forall i :: 0 <= i < |Next(s, step).tasks| ==> Counted(Next(s, step).tasks[i])
  {
    hide TaskSound, CanAct, Act;
    match step
    case On(i, action) => ActKeepsCounted(s.tasks[i], action);
    case _ =>
  }

  /** Over every run: each time a task was handed to a worker its procedure was called exactly
      once, unless the worker found it cancelled, which happens at most once and then for good; so a
      task that is back in the schedule or finished has been called as often as it was dispatched.
      A one-time task is dispatched at most once. */
  lemma CalledOncePerDispatch(steps: seq<Step>, s: Timer, i: nat)
    requires IsRun(Init(), steps, s) && i < |s.tasks|
    ensures var t := s.tasks[i];
            && t.dispatches == t.returned + t.skipped + (if BeforeCall(t.worker) then 1 else 0)
            && t.skipped <= (if t.canceled then 1 else 0)
            && (t.inScheduled || t.inFinished ==> t.dispatches == t.returned)
            && (t.worker.Ending? && t.worker.target.Some? ==> t.skipped == 0)
            && (!t.repeating ==> t.dispatches <= 1)
  {
    hide IsRun;
    RunKeepsCounted(Init(), steps, s);
    assert TaskSound(s.tasks[i]) && Counted(s.tasks[i]);
  }

  /** A worker calls the procedure of a task exactly when it does not find it cancelled. */
  lemma CallsUnlessCancelled(t: Task)
    requires CanAct(t, Check)
    ensures Act(t, Check).worker.InProc? <==> !t.canceled
    ensures CanAct(Act(t, Check), ProcReturns) <==> !t.canceled
  {
  }

  /** Over every run: a canceller gives up exactly when it has looked 5000 times and the task is
      still with its worker. */
  lemma GivesUpIff(steps: seq<Step>, s: Timer, i: nat)
    requires IsRun(Init(), steps, s) && i < |s.tasks| && CanAct(s.tasks[i], PollWait)
    ensures var t := s.tasks[i];
            && (Act(t, PollWait).cancel == Returned(GaveUp) <==> OnWorker(t.worker) && t.polls + 1 == 5000)
            && (Act(t, PollWait).cancel == CancelFreeing <==> !OnWorker(t.worker))
            && t.polls < 5000
  {
    hide IsRun;
    RunKeepsCounted(Init(), steps, s);
    assert TaskSound(s.tasks[i]) && Counted(s.tasks[i]);
  }

  // ----- cancelling and purging -----

  /** When Cancel by a thread that does not run the task returned without giving up, the
      procedure is not running, and in no continuation does anything happen to the task again. */
  lemma {:induction false} CancelledNeverRunsAgain(s: Timer, i: nat, steps: seq<Step>, s': Timer)
    requires Sound(s) && i < |s.tasks| && s.tasks[i].cancel == Returned(Freed)
    requires IsRun(s, steps, s')
    ensures i < |s'.tasks| && s'.tasks[i] == s.tasks[i] && !OnWorker(s'.tasks[i].worker)
    decreases |steps|
  {
    assert TaskSound(s.tasks[i]);
    if steps != [] {
      NextKeepsSound(s, steps[0]);
      assert Next(s, steps[0]).tasks[i] == s.tasks[i];
      CancelledNeverRunsAgain(Next(s, steps[0]), i, steps[1..], s');
    }
  }

  /** A procedure is started only on a task that is neither cancelled nor in any array, and by
      the one worker it was dispatched to. */
  lemma StartsOnce(steps: seq<Step>, s: Timer, i: nat)
    requires IsRun(Init(), steps, s) && i < |s.tasks| && CanAct(s.tasks[i], Dispatch)
    ensures s.tasks[i].worker.NoWorker? && !s.tasks[i].canceled && s.tasks[i].frees == 0
  {
    RunKeepsSound(Init(), steps, s);
    assert TaskSound(s.tasks[i]);
  }

  /** A repeating task is never among the finished ones; unless it was cancelled, the worker
      puts it back into the schedule when its procedure has returned. */
  lemma RepeatingComesBack(steps: seq<Step>, s: Timer, i: nat)
    requires IsRun(Init(), steps, s) && i < |s.tasks| && s.tasks[i].repeating
    ensures !s.tasks[i].inFinished
    ensures s.tasks[i].worker.Ending? && !s.tasks[i].canceled ==> Act(s.tasks[i], Finish).inScheduled
  {
    RunKeepsSound(Init(), steps, s);
    assert TaskSound(s.tasks[i]);
  }

  lemma {:induction false} SnapshotIsCancelled(s: Timer, steps: seq<Step>, s': Timer, i: nat)
    requires Inv(s) && IsDisciplinedRun(s, steps, s') && Enabled(s', PurgeEnd)
    requires i < |s.tasks| && !s.tasks[i].cancel.NotCancelled?
    ensures i < |s'.tasks| && s'.tasks[i].cancel.Returned?
    ensures s'.tasks[i].frees == 0 ==> s'.tasks[i].canceled && !s'.tasks[i].worker.NoWorker?
    decreases |steps|
  {
    if steps == [] {
      assert TaskOk(s.tasks[i]);
    } else {
      NextKeepsInv(s, steps[0]);
      SnapshotIsCancelled(Next(s, steps[0]), steps[1..], s', i);
    }
  }

  /** Over every disciplined run: when a Purge ends, every task that was in its snapshot is freed
      or was given up and still belongs to its worker. */
  lemma PurgeCancelsAll(before: seq<Step>, s: Timer, steps: seq<Step>, s': Timer, i: nat)
    requires IsDisciplinedRun(Init(), before, s) && Enabled(s, PurgeSnapshot) && Disciplined(s, PurgeSnapshot)
    requires IsDisciplinedRun(Next(s, PurgeSnapshot), steps, s') && Enabled(s', PurgeEnd)
    requires i < |s.tasks| && s.tasks[i].inAll
    ensures i < |s'.tasks| && s'.tasks[i].cancel.Returned?
    ensures s'.tasks[i].frees == 0 ==> s'.tasks[i].canceled && !s'.tasks[i].worker.NoWorker?
  {
    hide IsDisciplinedRun, Inv;
    InitIsInv();
    RunKeepsInv(Init(), before, s);
    NextKeepsInv(s, PurgeSnapshot);
    SnapshotIsCancelled(Next(s, PurgeSnapshot), steps, s', i);
  }

  // ----- everything begun comes to its end -----

  function WorkerLeft(w: Worker): nat
  {
    match w
    case NoWorker => 0
    case WorkerFreeing => 1
    case Ending(_) => 2
    case AfterProc => 3
    case InProc => 4
    case Started => 5
    case Pending => 6
  }

  function CancelLeft(c: Canceller): nat
  {
    match c
    case CancelFreeing => 1
    case Waiting(remain) => remain + 2
    case Purging => CANCEL_WAIT + 2
    case _ => 0
  }

  /** How many steps are left of what has begun on a task. */
  function Left(t: Task): int
  {
    WorkerLeft(t.worker) + CancelLeft(t.cancel)
  }

  /** What workers and cancellers do by themselves. */
  predicate GoesOn(action: Action)
  {
    !action.Dispatch? && !action.Cancel?
  }

  /** Whatever of it happens next is progress. */
  lemma ActShortens(t: Task, action: Action)
    requires TaskSound(t) && CanAct(t, action) && GoesOn(action)
    ensures 0 <= Left(Act(t, action)) < Left(t)
  {
  }

  /** Whoever has begun something on a task can go on with it. */
  lemma SomeAction(t: Task, self: nat) returns (action: Action)
    requires TaskSound(t) && Left(t) > 0 && t.runner != Some(self)
    ensures CanAct(t, action) && GoesOn(action) && (action.Begin? ==> action.self == self + 1)
  {
    action := match t.worker
      case Pending => Begin(self + 1)
      case Started => Check
      case InProc => ProcReturns
      case AfterProc => Decide
      case Ending(_) => Finish
      case WorkerFreeing => WorkerFree
      case NoWorker =>
        if t.cancel.Purging? then PurgeCancel(self) else if t.cancel.Waiting? then PollWait else CancelFree;
  }

  predicate AllDone(s: Timer)
  {
    forall i :: 0 <= i < |s.tasks| ==> s.tasks[i].worker.NoWorker? && !InCancel(s.tasks[i])
  }

  lemma {:induction false} DoneFrom(s: Timer, self: nat) returns (steps: seq<Step>, s': Timer)
    requires Sound(s) && forall i :: 0 <= i < |s.tasks| ==> s.tasks[i].runner != Some(self)
    ensures IsRun(s, steps, s') && AllDone(s') && |steps| <= Sum(s.tasks, Left) && |s'.tasks| == |s.tasks|
    ensures forall k :: 0 <= k < |steps| ==> steps[k].On? && GoesOn(steps[k].action)
    decreases Sum(s.tasks, Left)
  {
    hide TaskSound, CanAct, Act;
    SumNonNegative(s.tasks, Left);
    if i :| 0 <= i < |s.tasks| && Left(s.tasks[i]) > 0 {
      var action := SomeAction(s.tasks[i], self);
      var next := Next(s, On(i, action));
      NextKeepsSound(s, On(i, action));
      ActShortens(s.tasks[i], action);
      SumUpdate(s.tasks, Left, i, Act(s.tasks[i], action));
      SumNonNegative(next.tasks, Left);
      RunnerStays(s.tasks[i], action, self);
      var rest;
      rest, s' := DoneFrom(next, self);
      steps := [On(i, action)] + rest;
    } else {
      steps, s' := [], s;
    }
  }

  lemma RunnerStays(t: Task, action: Action, self: nat)
    requires t.runner != Some(self) && (action.Begin? ==> action.self == self + 1)
    ensures Act(t, action).runner != Some(self)
  {
    match action
    case Begin(_) =>
    case Cancel(_) =>
    case PurgeCancel(_) =>
    case Finish =>
    case _ =>
  }

  /** From every reachable state, if procedures return and nothing new is begun, every worker gets
      done with its task and every canceller and Purge returns, within a stated number of steps. */
  lemma AllGetDone(before: seq<Step>, s: Timer) returns (steps: seq<Step>, s': Timer)
    requires IsRun(Init(), before, s)
    ensures IsRun(s, steps, s') && AllDone(s') && !s'.purging && |steps| <= Sum(s.tasks, Left) + 1
  {
    RunKeepsSound(Init(), before, s);
    var self := NewThread(s.tasks);
    steps, s' := DoneFrom(s, self);
    StaysPurging(s, steps, s');
    if s.purging {
      OneMoreStep(s, steps, s', PurgeEnd);
      steps, s' := steps + [PurgeEnd], Next(s', PurgeEnd);
    }
  }

  lemma {:induction false} NewThread(tasks: seq<Task>) returns (self: nat)
    ensures forall i :: 0 <= i < |tasks| ==> tasks[i].runner.Some? ==> tasks[i].runner.value < self
  {
    if tasks == [] {
      self := 0;
    } else {
      var n := NewThread(tasks[1..]);
      var r := tasks[0].runner;
      self := if r.Some? && r.value >= n then r.value + 1 else n;
      assert forall i :: 1 <= i < |tasks| ==> tasks[i] == tasks[1..][i - 1];
    }
  }

  lemma {:induction false} StaysPurging(s: Timer, steps: seq<Step>, s': Timer)
    requires IsRun(s, steps, s') && forall k :: 0 <= k < |steps| ==> steps[k].On?
    ensures s'.purging == s.purging
    decreases |steps|
  {
    if steps != [] {
      StaysPurging(Next(s, steps[0]), steps[1..], s');
    }
  }

  // ----- why the discipline is needed -----

  /** Somebody is bound to free the task. */
  predicate Owned(t: Task)
  {
    || t.cancel.Waiting? || t.cancel.CancelFreeing? || t.worker.WorkerFreeing?
    || (t.dispatched && t.canceled && !t.waiter)
  }

  predicate Kept(t: Task)
  {
    TaskSound(t) && (t.frees == 1 || Owned(t)) && !t.cancel.NotCancelled? && !t.cancel.Purging?
  }

  /** A canceller left the task to its worker, which leaves it to the canceller. */
  predicate Lost(t: Task)
  {
    TaskSound(t) && t.cancel == Returned(LeftToWorker) && t.waiter && t.frees == 0
  }

  /** A Purge can cancel this task so that it stays somebody's. */
  predicate InReach(t: Task, self: nat)
  {
    t.inScheduled || t.inFinished || (t.dispatched && t.runner != Some(self))
  }

  lemma PurgeKeepsOwner(t: Task, self: nat)
    requires TaskSound(t) && CanAct(t, PurgeCancel(self))
    ensures InReach(t, self) ==> Kept(Act(t, PurgeCancel(self)))
    ensures !InReach(t, self) ==> Lost(Act(t, PurgeCancel(self)))
  {
  }

  lemma ActKeepsFate(t: Task, action: Action)
    requires CanAct(t, action)
    ensures Kept(t) ==> Kept(Act(t, action))
    ensures Lost(t) ==> Lost(Act(t, action))
  {
    if TaskSound(t) {
      ActKeepsSound(t, action);
    }
  }

  predicate NoSnapshot(steps: seq<Step>)
  {
    forall k :: 0 <= k < |steps| ==> !steps[k].PurgeSnapshot?
  }

  lemma {:induction false} FateIsKept(s: Timer, steps: seq<Step>, s': Timer, i: nat)
    requires IsRun(s, steps, s') && NoSnapshot(steps) && i < |s.tasks|
    ensures i < |s'.tasks| && (Kept(s.tasks[i]) ==> Kept(s'.tasks[i])) && (Lost(s.tasks[i]) ==> Lost(s'.tasks[i]))
    decreases |steps|
  {
    hide Kept, Lost, Act, CanAct;
    if steps != [] {
      assert !steps[0].PurgeSnapshot?;
      if steps[0].On? && steps[0].i == i {
        ActKeepsFate(s.tasks[i], steps[0].action);
      }
      assert NoSnapshot(steps[1..]);
      FateIsKept(Next(s, steps[0]), steps[1..], s', i);
    }
  }

  /** The exact condition, over every run, also with tasks that cancel themselves before or after
      the snapshot and procedures that purge: a Purge leaks a task if and only if the task was in
      no array when the Purge reached it, and not running on another thread.
      The end is looked at when the Purge's call and the worker are done with the task, before
      another Purge begins. */
  lemma PurgeLeaksIff(steps: seq<Step>, s: Timer, i: nat, self: nat, more: seq<Step>, s': Timer)
    requires IsRun(Init(), steps, s) && Enabled(s, On(i, PurgeCancel(self)))
    requires IsRun(Next(s, On(i, PurgeCancel(self))), more, s') && NoSnapshot(more)
    requires i < |s'.tasks| && s'.tasks[i].cancel.Returned? && s'.tasks[i].worker.NoWorker?
    ensures s'.tasks[i].frees == if InReach(s.tasks[i], self) then 1 else 0
  {
    hide IsRun, NoSnapshot, CanAct, Act;
    RunKeepsSound(Init(), steps, s);
    assert TaskSound(s.tasks[i]);
    PurgeKeepsOwner(s.tasks[i], self);
    FateIsKept(Next(s, On(i, PurgeCancel(self))), more, s', i);
  }

  /** A leaked task that no worker has stays as it is for ever: nobody frees it. */
  lemma {:induction false} LeakedForever(s: Timer, steps: seq<Step>, s': Timer, i: nat)
    requires i < |s.tasks| && Lost(s.tasks[i]) && s.tasks[i].worker.NoWorker?
    requires IsRun(s, steps, s')
    ensures i < |s'.tasks| && s'.tasks[i] == s.tasks[i] && s'.tasks[i].frees == 0
    decreases |steps|
  {
    if steps != [] {
      assert Next(s, steps[0]).tasks[i] == s.tasks[i];
      LeakedForever(Next(s, steps[0]), steps[1..], s', i);
    }
  }

  lemma {:induction false} OneMoreStep(s: Timer, steps: seq<Step>, s': Timer, step: Step)
    requires IsRun(s, steps, s') && Enabled(s', step)
    ensures IsRun(s, steps + [step], Next(s', step))
    decreases |steps|
  {
    hide Next, Enabled;
    if steps == [] {
      assert IsRun(Next(s', step), [step][1..], Next(s', step));
    } else {
      OneMoreStep(Next(s, steps[0]), steps[1..], s', step);
      assert (steps + [step])[1..] == steps[1..] + [step];
    }
  }

  /** A task created, dispatched and inside its procedure on thread `self`. */
  lemma IntoProcedure(self: nat) returns (steps: seq<Step>, s: Timer)
    ensures IsRun(Init(), steps, s) && !s.purging
    ensures s.tasks == [Act(Act(Act(NewTask(false), Dispatch), Begin(self)), Check)]
  {
    hide IsRun;
    s := Init();
    steps := [];
    assert IsRun(s, steps, s) by { NoSteps(s); }
    var actions := [Create(false), On(0, Dispatch), On(0, Begin(self)), On(0, Check)];
    OneMoreStep(Init(), steps, s, actions[0]);
    steps, s := steps + [actions[0]], Next(s, actions[0]);
    OneMoreStep(Init(), steps, s, actions[1]);
    steps, s := steps + [actions[1]], Next(s, actions[1]);
    OneMoreStep(Init(), steps, s, actions[2]);
    steps, s := steps + [actions[2]], Next(s, actions[2]);
    OneMoreStep(Init(), steps, s, actions[3]);
    steps, s := steps + [actions[3]], Next(s, actions[3]);
  }

  lemma NoSteps(s: Timer)
    ensures IsRun(s, [], s)
  {
  }

  /** The worker of the only task goes on until it is done. */
  lemma OutOfProcedure(steps: seq<Step>, s: Timer) returns (more: seq<Step>, s': Timer)
    requires IsRun(Init(), steps, s) && |s.tasks| == 1 && s.tasks[0].worker.InProc?
    ensures IsRun(Init(), more, s') && s'.purging == s.purging
    ensures s'.tasks == [Act(Act(Act(s.tasks[0], ProcReturns), Decide), Finish)]
  {
    hide IsRun;
    more, s' := steps, s;
    OneMoreStep(Init(), more, s', On(0, ProcReturns));
    more, s' := more + [On(0, ProcReturns)], Next(s', On(0, ProcReturns));
    OneMoreStep(Init(), more, s', On(0, Decide));
    more, s' := more + [On(0, Decide)], Next(s', On(0, Decide));
    OneMoreStep(Init(), more, s', On(0, Finish));
    more, s' := more + [On(0, Finish)], Next(s', On(0, Finish));
  }

  /** A run that leaks: a task cancels itself and is still running when a Purge on another
      thread takes its snapshot; the worker leaves it to the Purge, which finds it cancelled and
      no longer dispatched. */
  lemma PurgeLeaksSelfCancelled(self: nat, purger: nat) returns (steps: seq<Step>, s: Timer)
    requires self != purger
    ensures IsRun(Init(), steps, s) && |s.tasks| == 1
    ensures Lost(s.tasks[0]) && s.tasks[0].worker.NoWorker?
  {
    hide IsRun;
    steps, s := IntoProcedure(self);
    OneMoreStep(Init(), steps, s, On(0, Cancel(self)));
    steps, s := steps + [On(0, Cancel(self))], Next(s, On(0, Cancel(self)));
    OneMoreStep(Init(), steps, s, PurgeSnapshot);
    steps, s := steps + [PurgeSnapshot], Next(s, PurgeSnapshot);
    steps, s := OutOfProcedure(steps, s);
    OneMoreStep(Init(), steps, s, On(0, PurgeCancel(purger)));
    steps, s := steps + [On(0, PurgeCancel(purger))], Next(s, On(0, PurgeCancel(purger)));
  }

  /** Another: the task cancels itself when the snapshot is already taken. */
  lemma PurgeLeaksSelfCancelledLater(self: nat, purger: nat) returns (steps: seq<Step>, s: Timer)
    requires self != purger
    ensures IsRun(Init(), steps, s) && |s.tasks| == 1
    ensures Lost(s.tasks[0]) && s.tasks[0].worker.NoWorker?
  {
    hide IsRun;
    steps, s := IntoProcedure(self);
    OneMoreStep(Init(), steps, s, PurgeSnapshot);
    steps, s := steps + [PurgeSnapshot], Next(s, PurgeSnapshot);
    OneMoreStep(Init(), steps, s, On(0, Cancel(self)));
    steps, s := steps + [On(0, Cancel(self))], Next(s, On(0, Cancel(self)));
    steps, s := OutOfProcedure(steps, s);
    OneMoreStep(Init(), steps, s, On(0, PurgeCancel(purger)));
    steps, s := steps + [On(0, PurgeCancel(purger))], Next(s, On(0, PurgeCancel(purger)));
  }

  /** A third: a task procedure that purges the timer leaks its own task. */
  lemma PurgeFromProcedureLeaks(self: nat) returns (steps: seq<Step>, s: Timer)
    ensures IsRun(Init(), steps, s) && |s.tasks| == 1
    ensures Lost(s.tasks[0]) && s.tasks[0].worker.NoWorker?
  {
    hide IsRun;
    steps, s := IntoProcedure(self);
    OneMoreStep(Init(), steps, s, PurgeSnapshot);
    steps, s := steps + [PurgeSnapshot], Next(s, PurgeSnapshot);
    OneMoreStep(Init(), steps, s, On(0, PurgeCancel(self)));
    steps, s := steps + [On(0, PurgeCancel(self))], Next(s, On(0, PurgeCancel(self)));
    OneMoreStep(Init(), steps, s, PurgeEnd);
    steps, s := steps + [PurgeEnd], Next(s, PurgeEnd);
    steps, s := OutOfProcedure(steps, s);
  }
}
