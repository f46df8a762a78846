/**
 When timer tasks run: the sorted schedule of concurrent.c, its main loop and its workers.
 */
module TimerSchedule {
  import A = Arrays
  import opened TimerTime

  // ----- the schedule -----

  /** Addresses, counted in tasks. */
  type Id = i: nat | i < INT_HALF

  datatype Task = Task(nextrun: TimeVal, period: int, repeating: bool, skip: bool)

  /** What happened to a task: the time it was created for, how often it was handed to a worker,
      how often it was re-armed, and how many periods after its first time it is armed for. */
  datatype Record = Record(first: TimeVal, runs: nat, rearms: nat, slot: nat)

  /** `tasks` holds the data of every task that exists, by address; `scheduled` is the sorted
      array, `running` are the tasks handed to workers and `armed` those of them whose next time
      is computed; `records` only remembers. */
  datatype Schedule = Schedule(tasks: map<Id, Task>, scheduled: seq<Id>, running: set<Id>, armed: set<Id>,
                               records: map<Id, Record>)

  function Empty(): Schedule
  {
    Schedule(map[], [], {}, {}, map[])
  }

  function TaskOf(tasks: map<Id, Task>, id: Id): Task
  {
    if id in tasks then tasks[id] else Task(TimeVal(0, 0), 0, false, false)
  }

  /** CMUTIL_TimerTaskComp: by time, then period, then address, with casts to int. */
  function TaskComp(tasks: map<Id, Task>): (Id, Id) -> int
  {
    (a: Id, b: Id) =>
      var ta, tb := TaskOf(tasks, a), TaskOf(tasks, b);
      var byTime, byPeriod := TVCompare(ta.nextrun, tb.nextrun), ToInt(ta.period - tb.period);
      if byTime != 0 then byTime else if byPeriod != 0 then byPeriod else ToInt(a - b)
  }

  /** Different tasks never compare as equal, however far apart their times are. */
  lemma TaskCompEqual(tasks: map<Id, Task>, a: Id, b: Id)
    ensures TaskComp(tasks)(a, b) == 0 <==> a == b
  {
    assert TVCompare(TaskOf(tasks, a).nextrun, TaskOf(tasks, a).nextrun) == 0;
  }

  /** Where casts change nothing: seconds and periods in `[0, 2^31)`. The microseconds may be
      negative, as a negative delay leaves them. */
  predicate InRange(t: Task)
  {
    0 <= t.nextrun.sec < INT_HALF && -MILLION < t.nextrun.usec < MILLION && 0 <= t.period < INT_HALF
  }

  ghost predicate AllInRange(tasks: map<Id, Task>)
  {
    forall id :: id in tasks ==> InRange(TaskOf(tasks, id))
  }

  /** Within the range the comparator is an order. */
  lemma TaskCompIsOrder(tasks: map<Id, Task>)
    requires AllInRange(tasks)
    ensures A.IsOrder(TaskComp(tasks))
  {
    hide TaskOf, ToInt;
    forall id: Id ensures InRange(TaskOf(tasks, id)) {
      UnknownInRange(tasks, id);
    }
    forall a: Id, b: Id ensures TaskComp(tasks)(a, b) < 0 <==> TaskComp(tasks)(b, a) > 0 {
      ExactComp(tasks, a, b);
      ExactComp(tasks, b, a);
    }
    forall a: Id, b: Id, c: Id | TaskComp(tasks)(a, b) <= 0 && TaskComp(tasks)(b, c) <= 0
      ensures TaskComp(tasks)(a, c) <= 0
    {
      ExactComp(tasks, a, b);
      ExactComp(tasks, b, c);
      ExactComp(tasks, a, c);
    }
  }

  lemma UnknownInRange(tasks: map<Id, Task>, id: Id)
    requires AllInRange(tasks)
    ensures InRange(TaskOf(tasks, id))
  {
  }

  /** The comparator without casts. */
  lemma ExactComp(tasks: map<Id, Task>, a: Id, b: Id)
    requires InRange(TaskOf(tasks, a)) && InRange(TaskOf(tasks, b))
    ensures var ta, tb := TaskOf(tasks, a), TaskOf(tasks, b);
            TaskComp(tasks)(a, b) ==
              if ta.nextrun.sec != tb.nextrun.sec then ta.nextrun.sec - tb.nextrun.sec
              else if ta.nextrun.usec != tb.nextrun.usec then ta.nextrun.usec - tb.nextrun.usec
              else if ta.period != tb.period then ta.period - tb.period
              else a - b
  {
  }

  /** The array holds each of its tasks once, and no task that a worker has. */
  ghost predicate Placed(s: Schedule)
  {
    && Distinct(s.scheduled)
    && (forall id :: id in s.scheduled ==> id in s.tasks && id !in s.running)
    && s.armed <= s.running <= s.tasks.Keys
  }

  ghost predicate Distinct(scheduled: seq<Id>)
  {
    forall i, j :: 0 <= i < j < |scheduled| ==> scheduled[i] != scheduled[j]
  }

  /** The array is sorted besides. */
  ghost predicate Valid(s: Schedule)
  {
    Placed(s) && A.Sorted(s.scheduled, TaskComp(s.tasks))
  }

  predicate IsElapsed(t: Task, curr: TimeVal)
  {
    TVCompare(t.nextrun, curr) <= 0
  }

  datatype Event =
    | Create(id: Id, task: Task)             // put into the schedule
    | Pass(curr: TimeVal)                    // one round of the main loop
    | Rearm(id: Id, now: TimeVal, k: nat)    // a worker computes the next time, `k` periods on
    | PutBack(id: Id)                        // a worker puts a re-armed task back
    | Finish(id: Id)                         // a worker is done with a task
    | Cancel(id: Id)                         // taken out of the schedule, if it is there

  /** A worker re-arms a repeating task once a run, by the rule of its loop. */
  ghost predicate Enabled(s: Schedule, e: Event)
  {
    match e
    case Create(id, task) => id !in s.tasks && (task.repeating ==> task.period > 0)
    case Pass(_) => true
    case Rearm(id, now, k) =>
      && id in s.running && id !in s.armed && TaskOf(s.tasks, id).repeating
      && var t := TaskOf(s.tasks, id); RearmedAt(t.nextrun, t.period, t.skip, now, k)
    case PutBack(id) => id in s.armed
    case Finish(id) => id in s.running
    case Cancel(id) => id in s.tasks
  }

  /** How many tasks at the front of the schedule are due. */
  function DueCount(tasks: map<Id, Task>, scheduled: seq<Id>, curr: TimeVal): (n: nat)
    ensures n <= |scheduled|
    ensures forall i :: 0 <= i < n ==> IsElapsed(TaskOf(tasks, scheduled[i]), curr)
    ensures n < |scheduled| ==> !IsElapsed(TaskOf(tasks, scheduled[n]), curr)
  {
    if scheduled != [] && IsElapsed(TaskOf(tasks, scheduled[0]), curr) then 1 + DueCount(tasks, scheduled[1..], curr)
    else 0
  }

  /** The front of the schedule that is due. */
  function Due(s: Schedule, curr: TimeVal): set<Id>
  {
    set id | id in s.scheduled[..DueCount(s.tasks, s.scheduled, curr)]
  }

  function CountRuns(records: map<Id, Record>, due: set<Id>): (r: map<Id, Record>)
    ensures r.Keys == records.Keys
    ensures forall id :: id in records ==>
      r[id] == if id in due then records[id].(runs := records[id].runs + 1) else records[id]
  {
    map id | id in records :: if id in due then records[id].(runs := records[id].runs + 1) else records[id]
  }

  function RecordOf(records: map<Id, Record>, id: Id): Record
  {
    if id in records then records[id] else Record(TimeVal(0, 0), 0, 0, 0)
  }

  ghost function Next(s: Schedule, e: Event): Schedule
    requires Enabled(s, e)
  {
    match e
    case Create(id, task) =>
      var tasks := s.tasks[id := task];
      s.(tasks := tasks, scheduled := A.InsertLocated(s.scheduled, id, TaskComp(tasks)),
         records := s.records[id := Record(task.nextrun, 0, 0, 0)])
    case Pass(curr) => AfterPass(s, curr)
    case Rearm(id, now, k) =>
      var t, r := TaskOf(s.tasks, id), RecordOf(s.records, id);
      s.(tasks := s.tasks[id := t.(nextrun := Later(t.nextrun, t.period, k))], armed := s.armed + {id},
         records := s.records[id := r.(rearms := r.rearms + 1, slot := r.slot + k)])
    case PutBack(id) =>
      s.(scheduled := A.InsertLocated(s.scheduled, id, TaskComp(s.tasks)), running := s.running - {id},
         armed := s.armed - {id})
    case Finish(id) => s.(running := s.running - {id}, armed := s.armed - {id})
    case Cancel(id) => s.(scheduled := A.DeleteLocated(s.scheduled, id, TaskComp(s.tasks)))
  }

  function AfterPass(s: Schedule, curr: TimeVal): Schedule
  {
    s.(scheduled := s.scheduled[DueCount(s.tasks, s.scheduled, curr)..], running := s.running + Due(s, curr),
       records := CountRuns(s.records, Due(s, curr)))
  }

  ghost predicate IsRun(s: Schedule, events: seq<Event>, s': Schedule)
    decreases |events|
  {
    if events == [] then s == s'
    else Enabled(s, events[0]) && IsRun(Next(s, events[0]), events[1..], s')
  }

  // ----- places -----

  /** The array may be in any order: the binary search stops somewhere, and only the same task
      compares as equal, so nothing is replaced. */
  lemma InsertPlaces(scheduled: seq<Id>, tasks: map<Id, Task>, id: Id)
    requires Distinct(scheduled) && id !in scheduled
    ensures Distinct(A.InsertLocated(scheduled, id, TaskComp(tasks)))
    ensures forall y :: y in A.InsertLocated(scheduled, id, TaskComp(tasks)) <==> y == id || y in scheduled
  {
    hide TaskComp, A.Locate;
    var p := A.Locate(scheduled, id, TaskComp(tasks));
    if p.Found? {
      TaskCompEqual(tasks, id, scheduled[p.idx]);
    }
  }

  lemma DeletePlaces(scheduled: seq<Id>, tasks: map<Id, Task>, id: Id)
    requires Distinct(scheduled)
    ensures var rest := A.DeleteLocated(scheduled, id, TaskComp(tasks));
            && Distinct(rest) && (forall y :: y in rest ==> y in scheduled)
            && (forall y :: y in scheduled && y != id ==> y in rest)
            && (id !in scheduled ==> rest == scheduled)
  {
    hide TaskComp, A.Locate;
    var p := A.Locate(scheduled, id, TaskComp(tasks));
    if p.Found? {
      TaskCompEqual(tasks, id, scheduled[p.idx]);
    }
  }

  /** Cancelling a task that is not in the schedule leaves the schedule as it is. */
  lemma CancelElsewhere(s: Schedule, id: Id)
    requires Placed(s) && id in s.tasks && id !in s.scheduled
    ensures Next(s, Cancel(id)) == s
  {
    DeletePlaces(s.scheduled, s.tasks, id);
  }

  lemma NextKeepsPlaced(s: Schedule, e: Event)
    requires Placed(s) && Enabled(s, e)
    ensures Placed(Next(s, e))
  {
    hide A.InsertLocated, A.DeleteLocated, TaskComp, AfterPass, Later, RearmedAt;
    match e
    case Create(id, task) => InsertPlaces(s.scheduled, s.tasks[id := task], id);
    case Pass(curr) => PassKeepsPlaced(s, curr);
    case Rearm(id, now, k) =>
    case PutBack(id) => InsertPlaces(s.scheduled, s.tasks, id);
    case Finish(id) =>
    case Cancel(id) => DeletePlaces(s.scheduled, s.tasks, id);
  }

  lemma PassKeepsPlaced(s: Schedule, curr: TimeVal)
    requires Placed(s)
    ensures Placed(AfterPass(s, curr))
  {
    hide DueCount, IsElapsed;
    PassMoves(s, curr);
  }

  /** A pass moves the due tasks, which were in the schedule, to the running ones. */
  lemma PassMoves(s: Schedule, curr: TimeVal)
    requires Placed(s)
    ensures forall id :: id in Due(s, curr) ==> id in s.scheduled && id !in s.running
    ensures forall id :: id in AfterPass(s, curr).scheduled ==> id in s.scheduled && id !in Due(s, curr)
  {
    hide DueCount, CountRuns;
    var n := DueCount(s.tasks, s.scheduled, curr);
    forall id | id in s.scheduled[n..] ensures id in s.scheduled && id !in s.scheduled[..n] {
      var i :| 0 <= i < |s.scheduled[n..]| && s.scheduled[n..][i] == id;
      assert s.scheduled[n + i] == id;
    }
  }

  /** Nobody cancels the task and no worker is done with it for good. */
  ghost predicate NeverEnded(events: seq<Event>, id: Id)
  {
    forall i :: 0 <= i < |events| ==> events[i] != Cancel(id) && events[i] != Finish(id)
  }

  ghost predicate Alive(s: Schedule, id: Id)
  {
    id in s.tasks && (id in s.scheduled || id in s.running)
  }

  lemma {:induction false} StaysAlive(s: Schedule, events: seq<Event>, s': Schedule, id: Id)
    requires Placed(s) && Alive(s, id) && IsRun(s, events, s') && NeverEnded(events, id)
    ensures Placed(s') && Alive(s', id)
    decreases |events|
  {
    hide Placed, Alive, Next, Enabled;
    if events != [] {
      NextKeepsPlaced(s, events[0]);
      NextKeepsAlive(s, events[0], id);
      StaysAlive(Next(s, events[0]), events[1..], s', id);
    }
  }

  lemma NextKeepsAlive(s: Schedule, e: Event, id: Id)
    requires Placed(s) && Alive(s, id) && Enabled(s, e) && e != Cancel(id) && e != Finish(id)
    ensures Alive(Next(s, e), id)
  {
    hide A.InsertLocated, A.DeleteLocated, TaskComp, DueCount, CountRuns, Later, RearmedAt, Distinct;
    match e
    case Create(x, task) => InsertPlaces(s.scheduled, s.tasks[x := task], x);
    case Pass(curr) =>
      var n := DueCount(s.tasks, s.scheduled, curr);
      assert s.scheduled == s.scheduled[..n] + s.scheduled[n..];
    case Rearm(x, now, k) =>
    case PutBack(x) => InsertPlaces(s.scheduled, s.tasks, x);
    case Finish(x) =>
    case Cancel(x) => DeletePlaces(s.scheduled, s.tasks, x);
  }

  /** Over every run, far times included: a task that is created and neither cancelled nor finished
      is always either in the schedule or with a worker, and never both. */
  lemma NeverLost(before: seq<Event>, s: Schedule, id: Id, task: Task, events: seq<Event>, s': Schedule)
    requires IsRun(Empty(), before, s) && Enabled(s, Create(id, task))
    requires IsRun(Next(s, Create(id, task)), events, s') && NeverEnded(events, id)
    ensures id in s'.tasks && (id in s'.scheduled <==> id !in s'.running)
  {
    hide IsRun, NeverEnded, A.InsertLocated, TaskComp;
    RunKeepsPlaced(Empty(), before, s);
    NextKeepsPlaced(s, Create(id, task));
    InsertPlaces(s.scheduled, s.tasks[id := task], id);
    StaysAlive(Next(s, Create(id, task)), events, s', id);
  }

  lemma {:induction false} RunKeepsPlaced(s: Schedule, events: seq<Event>, s': Schedule)
    requires Placed(s) && IsRun(s, events, s')
    ensures Placed(s')
    decreases |events|
  {
    hide Placed, Next, Enabled;
    if events != [] {
      NextKeepsPlaced(s, events[0]);
      RunKeepsPlaced(Next(s, events[0]), events[1..], s');
    }
  }

  // ----- the window -----

  /** The last second from which every period below 2^31 milliseconds stays below 2^31 seconds. */
  const HORIZON := INT_HALF - INT_HALF / 1000 - 2

  predicate ClockInWindow(now: TimeVal)
  {
    0 <= now.sec < HORIZON && -MILLION < now.usec < MILLION
  }

  /** What a run is given: first times and periods in range, and clocks before the horizon. */
  predicate InWindow(e: Event)
  {
    match e
    case Create(_, task) => InRange(task)
    case Pass(curr) => ClockInWindow(curr)
    case Rearm(_, now, _) => ClockInWindow(now)
    case _ => true
  }

  ghost predicate AllInWindow(events: seq<Event>)
  {
    forall i :: 0 <= i < |events| ==> InWindow(events[i])
  }

  /** All tasks are in range, and those not yet re-armed leave room for one more period. */
  ghost predicate Windowed(s: Schedule)
  {
    && AllInRange(s.tasks)
    && (forall id :: id in s.tasks && TaskOf(s.tasks, id).repeating ==> TaskOf(s.tasks, id).period > 0)
    && forall id :: id in s.running && id !in s.armed ==> TaskOf(s.tasks, id).nextrun.sec < HORIZON
  }

  lemma NextKeepsWindowed(s: Schedule, e: Event)
    requires Placed(s) && Windowed(s) && Enabled(s, e) && InWindow(e)
    ensures Windowed(Next(s, e))
  {
    hide A.InsertLocated, A.DeleteLocated, TaskComp, AfterPass, Later, RearmedAt;
    match e
    case Create(id, task) =>
    case Pass(curr) => PassKeepsWindowed(s, curr);
    case Rearm(id, now, k) => RearmKeepsRange(TaskOf(s.tasks, id), now, k);
    case PutBack(id) =>
    case Finish(id) =>
    case Cancel(id) =>
  }

  /** A task is handed out only when the clock has reached it, hence before the horizon. */
  lemma PassKeepsWindowed(s: Schedule, curr: TimeVal)
    requires Placed(s) && Windowed(s) && ClockInWindow(curr)
    ensures Windowed(AfterPass(s, curr))
  {
    hide CountRuns, DueCount;
    forall id | id in Due(s, curr) ensures TaskOf(s.tasks, id).nextrun.sec < HORIZON {
      var i :| 0 <= i < DueCount(s.tasks, s.scheduled, curr) && s.scheduled[i] == id;
      UnknownInRange(s.tasks, id);
      assert IsElapsed(TaskOf(s.tasks, id), curr);
    }
  }

  lemma RearmKeepsRange(t: Task, now: TimeVal, k: nat)
    requires InRange(t) && t.nextrun.sec < HORIZON && ClockInWindow(now) && t.period > 0
    requires RearmedAt(t.nextrun, t.period, t.skip, now, k)
    ensures InRange(t.(nextrun := Later(t.nextrun, t.period, k)))
  {
    hide GetDelayed, RearmedAt;
    RearmedInRange(t.nextrun, t.period, t.skip, now, k, k);
  }

  // ----- the order -----

  /** The order is that of the tasks' data, so it holds as long as no task in the array changes. */
  lemma SortedUnderChange(scheduled: seq<Id>, before: map<Id, Task>, after: map<Id, Task>)
    requires A.Sorted(scheduled, TaskComp(before))
    requires forall id :: id in scheduled ==> TaskOf(before, id) == TaskOf(after, id)
    ensures A.Sorted(scheduled, TaskComp(after))
  {
    hide TaskOf, TVCompare;
    forall i, j | 0 <= i < j < |scheduled| ensures TaskComp(after)(scheduled[i], scheduled[j]) < 0 {
      assert scheduled[i] in scheduled && scheduled[j] in scheduled;
      assert TaskComp(before)(scheduled[i], scheduled[j]) < 0;
    }
  }

  lemma Inserted(scheduled: seq<Id>, tasks: map<Id, Task>, id: Id)
    requires A.Sorted(scheduled, TaskComp(tasks)) && AllInRange(tasks)
    ensures A.Sorted(A.InsertLocated(scheduled, id, TaskComp(tasks)), TaskComp(tasks))
  {
    hide TaskComp, A.Sorted, A.Insert, A.InsertLocated, A.IsOrder, AllInRange;
    TaskCompIsOrder(tasks);
    A.LocateIsRank(scheduled, id, TaskComp(tasks));
    A.InsertSorted(scheduled, id, TaskComp(tasks));
  }

  lemma Deleted(scheduled: seq<Id>, tasks: map<Id, Task>, id: Id)
    requires A.Sorted(scheduled, TaskComp(tasks))
    ensures A.Sorted(A.DeleteLocated(scheduled, id, TaskComp(tasks)), TaskComp(tasks))
  {
    hide TaskComp, A.Locate;
  }

  lemma NextKeepsValid(s: Schedule, e: Event)
    requires Valid(s) && Windowed(s) && Enabled(s, e) && InWindow(e)
    ensures Valid(Next(s, e)) && Windowed(Next(s, e))
  {
    hide A.InsertLocated, A.DeleteLocated, TaskComp, Placed, AllInRange, AfterPass, Later, RearmedAt;
    NextKeepsPlaced(s, e);
    NextKeepsWindowed(s, e);
    assert forall id :: id in s.scheduled ==> id in s.tasks && id !in s.running by { PlacesOf(s); }
    match e
    case Create(id, task) =>
      var tasks := s.tasks[id := task];
      SortedUnderChange(s.scheduled, s.tasks, tasks);
      Inserted(s.scheduled, tasks, id);
    case Pass(curr) => PassKeepsSorted(s, curr);
    case Rearm(id, now, k) => SortedUnderChange(s.scheduled, s.tasks, Next(s, e).tasks);
    case PutBack(id) => Inserted(s.scheduled, s.tasks, id);
    case Finish(id) =>
    case Cancel(id) => Deleted(s.scheduled, s.tasks, id);
  }

  lemma PlacesOf(s: Schedule)
    requires Placed(s)
    ensures forall id :: id in s.scheduled ==> id in s.tasks && id !in s.running
  {
  }

  lemma PassKeepsSorted(s: Schedule, curr: TimeVal)
    requires A.Sorted(s.scheduled, TaskComp(s.tasks))
    ensures A.Sorted(AfterPass(s, curr).scheduled, TaskComp(AfterPass(s, curr).tasks))
  {
    hide TaskComp, DueCount;
  }

  /** The schedule stays sorted over every run in the window. */
  lemma {:induction false} RunKeepsValid(s: Schedule, events: seq<Event>, s': Schedule)
    requires Valid(s) && Windowed(s) && IsRun(s, events, s') && AllInWindow(events)
    ensures Valid(s') && Windowed(s')
    decreases |events|
  {
    hide Valid, Windowed, Next, Enabled, InWindow;
    if events != [] {
      NextKeepsValid(s, events[0]);
      RunKeepsValid(Next(s, events[0]), events[1..], s');
    }
  }

  lemma WindowFromEmpty(events: seq<Event>, s: Schedule)
    requires IsRun(Empty(), events, s) && AllInWindow(events)
    ensures Valid(s) && Windowed(s)
  {
    hide IsRun, AllInWindow;
    RunKeepsValid(Empty(), events, s);
  }

  /** Over every run in the window a cancellation takes its task, and no other, out of the
      schedule. */
  lemma CancelRemoves(events: seq<Event>, s: Schedule, id: Id, y: Id)
    requires IsRun(Empty(), events, s) && AllInWindow(events) && id in s.tasks
    ensures y in Next(s, Cancel(id)).scheduled <==> y in s.scheduled && y != id
  {
    hide IsRun, AllInWindow, TaskComp, A.IsOrder, A.Sorted, A.Delete, A.DeleteLocated, Placed, AllInRange;
    WindowFromEmpty(events, s);
    TaskCompIsOrder(s.tasks);
    A.LocateIsRank(s.scheduled, id, TaskComp(s.tasks));
    A.DeleteHolds(s.scheduled, id, TaskComp(s.tasks), y);
    TaskCompEqual(s.tasks, id, y);
  }

  /** Because the schedule is sorted, the front that is due is all that is due. */
  lemma PassIsExact(s: Schedule, curr: TimeVal, i: nat)
    requires Valid(s) && Windowed(s) && ClockInWindow(curr) && i < |s.scheduled|
    ensures i < DueCount(s.tasks, s.scheduled, curr) <==> IsElapsed(TaskOf(s.tasks, s.scheduled[i]), curr)
  {
    hide TaskOf, DueCount, Placed;
    var n := DueCount(s.tasks, s.scheduled, curr);
    if n < i {
      assert TaskComp(s.tasks)(s.scheduled[n], s.scheduled[i]) < 0;
      UnknownInRange(s.tasks, s.scheduled[n]);
      UnknownInRange(s.tasks, s.scheduled[i]);
      ExactComp(s.tasks, s.scheduled[n], s.scheduled[i]);
    }
  }

  // ----- outside the window -----

  /** A one-time task for the year 2100, scheduled in 2025, is handed out by the first pass. */
  lemma FarTaskRunsAtOnce()
    ensures var y2100, now := TimeVal(4102444800, 0), TimeVal(1760000000, 0);
            var s := Next(Empty(), Create(0, Task(y2100, 0, false, false)));
            && IsRun(Empty(), [Create(0, Task(y2100, 0, false, false)), Pass(now)], Next(s, Pass(now)))
            && 0 in Next(s, Pass(now)).running && Micros(now) < Micros(y2100)
  {
    FarTimeIsPast();
  }

  function AtSecond(sec: int): Task
  {
    Task(TimeVal(sec, 0), 0, false, false)
  }

  /** Where the binary search ends. */
  lemma FarPlaces(cmp: (Id, Id) -> int)
    ensures cmp(1, 0) > 0 ==> A.Locate<Id>([0], 1, cmp) == A.Missing(1)
    ensures cmp(2, 1) > 0 ==> A.Locate<Id>([0, 1], 2, cmp) == A.Missing(2)
    ensures cmp(1, 1) == 0 ==> A.Locate<Id>([0, 1, 2], 1, cmp) == A.Found(1)
    ensures cmp(0, 2) > 0 ==> A.Locate<Id>([0, 2], 0, cmp) == A.Missing(2)
  {
  }

  /** Of tasks 1500000000 seconds apart the first compares as after the third. */
  lemma FarComp(tasks: map<Id, Task>)
    requires forall id: Id :: id in tasks ==> id < 3 && tasks[id] == AtSecond(id * 1500000000)
    ensures 0 in tasks && 1 in tasks ==> TaskComp(tasks)(1, 0) > 0
    ensures 1 in tasks && 2 in tasks ==> TaskComp(tasks)(2, 1) > 0
    ensures 0 in tasks && 2 in tasks ==> TaskComp(tasks)(0, 2) > 0
    ensures TaskComp(tasks)(1, 1) == 0
    ensures A.Locate<Id>([], 0, TaskComp(tasks)) == A.Missing(0)
  {
    hide A.Probe;
    TaskCompEqual(tasks, 1, 1);
    A.LocateEmpty<Id>(0, TaskComp(tasks));
  }

  /** Of three tasks created in the order of their times, 1500000000 seconds apart, the first is
      not found any more when it is cancelled after the second: it stays in the schedule. */
  lemma FarTaskIsNotFound()
    ensures var s1 := Next(Empty(), Create(0, AtSecond(0)));
            var s2 := Next(s1, Create(1, AtSecond(1500000000)));
            var s3 := Next(s2, Create(2, AtSecond(3000000000)));
            var s4 := Next(s3, Cancel(1));
            && s4.scheduled == [0, 2] && Next(s4, Cancel(0)) == s4
  {
    hide TaskComp, A.Locate, A.Probe, TVCompare, AfterPass, Later, RearmedAt;
    var s1 := Next(Empty(), Create(0, AtSecond(0)));
    FarComp(s1.tasks);
    assert s1.scheduled == [0];
    var s2 := Next(s1, Create(1, AtSecond(1500000000)));
    FarComp(s2.tasks);
    FarPlaces(TaskComp(s2.tasks));
    assert s2.scheduled == [0, 1];
    var s3 := Next(s2, Create(2, AtSecond(3000000000)));
    FarComp(s3.tasks);
    FarPlaces(TaskComp(s3.tasks));
    assert s3.scheduled == [0, 1, 2];
    assert A.Without<Id>([0, 1, 2], 1) == [0, 2];
  }

  // ----- the timetable -----

  /** A task is armed for its first time plus `slot` periods. A one-time task stays at its first;
      each re-arming moves a repeating one on, without skipping by exactly one period. */
  ghost predicate OnGrid(t: Task, r: Record)
  {
    && t.nextrun == Later(r.first, t.period, r.slot)
    && (t.repeating ==> t.period > 0)
    && (!t.repeating ==> r.slot == r.rearms == 0)
    && r.slot >= r.rearms && (!t.skip ==> r.slot == r.rearms)
  }

  /** A task in the schedule was re-armed after each of its runs, one with a worker after each
      but perhaps the current one. */
  ghost predicate RunsOk(s: Schedule, id: Id)
  {
    var r := RecordOf(s.records, id);
    && (id in s.scheduled ==> r.runs == r.rearms)
    && (id in s.running ==> r.runs == r.rearms + if id in s.armed then 0 else 1)
  }

  ghost predicate Timed(s: Schedule)
  {
    s.records.Keys == s.tasks.Keys
    && forall id :: id in s.tasks ==> OnGrid(TaskOf(s.tasks, id), RecordOf(s.records, id)) && RunsOk(s, id)
  }

  lemma RearmKeepsGrid(t: Task, r: Record, now: TimeVal, k: nat)
    requires OnGrid(t, r) && t.repeating && RearmedAt(t.nextrun, t.period, t.skip, now, k)
    ensures OnGrid(t.(nextrun := Later(t.nextrun, t.period, k)), r.(rearms := r.rearms + 1, slot := r.slot + k))
  {
    hide Later, TVCompare;
    LaterLater(r.first, t.period, r.slot, k);
  }

  lemma CreateOnGrid(task: Task)
    requires task.repeating ==> task.period > 0
    ensures OnGrid(task, Record(task.nextrun, 0, 0, 0))
  {
  }

  /** Counting a run does not move a task. */
  lemma RunOnGrid(t: Task, r: Record, runs: nat)
    requires OnGrid(t, r)
    ensures OnGrid(t, r.(runs := runs))
  {
  }

  lemma NextKeepsTimed(s: Schedule, e: Event)
    requires Placed(s) && Timed(s) && Enabled(s, e)
    ensures Timed(Next(s, e))
  {
    hide A.InsertLocated, A.DeleteLocated, TaskComp, OnGrid, RearmedAt, Later, AfterPass, Distinct;
    match e
    case Create(id, task) =>
      CreateOnGrid(task);
      CreateKeepsRuns(s, id, task);
    case Pass(curr) => PassKeepsTimed(s, curr);
    case Rearm(id, now, k) => RearmKeepsGrid(TaskOf(s.tasks, id), RecordOf(s.records, id), now, k);
    case PutBack(id) => InsertPlaces(s.scheduled, s.tasks, id);
    case Finish(id) =>
    case Cancel(id) => DeletePlaces(s.scheduled, s.tasks, id);
  }

  lemma CreateKeepsRuns(s: Schedule, id: Id, task: Task)
    requires Placed(s) && Timed(s) && Enabled(s, Create(id, task))
    ensures forall y :: y in s.tasks || y == id ==> RunsOk(Next(s, Create(id, task)), y)
  {
    hide A.InsertLocated, TaskComp, OnGrid, Distinct;
    InsertPlaces(s.scheduled, s.tasks[id := task], id);
  }

  lemma PassKeepsTimed(s: Schedule, curr: TimeVal)
    requires Placed(s) && Timed(s)
    ensures Timed(AfterPass(s, curr))
  {
    hide OnGrid, DueCount, Due, Distinct;
    PassMoves(s, curr);
    forall id | id in s.tasks
      ensures OnGrid(TaskOf(s.tasks, id), RecordOf(AfterPass(s, curr).records, id)) && RunsOk(AfterPass(s, curr), id)
    {
      assert OnGrid(TaskOf(s.tasks, id), RecordOf(s.records, id)) && RunsOk(s, id);
      RunOnGrid(TaskOf(s.tasks, id), RecordOf(s.records, id), RecordOf(s.records, id).runs + 1);
    }
  }

  lemma {:induction false} RunKeepsTimed(s: Schedule, events: seq<Event>, s': Schedule)
    requires Placed(s) && Timed(s) && IsRun(s, events, s')
    ensures Placed(s') && Timed(s')
    decreases |events|
  {
    hide Placed, Timed, Next, Enabled;
    if events != [] {
      NextKeepsPlaced(s, events[0]);
      NextKeepsTimed(s, events[0]);
      RunKeepsTimed(Next(s, events[0]), events[1..], s');
    }
  }

  lemma FromEmpty(events: seq<Event>, s: Schedule)
    requires IsRun(Empty(), events, s)
    ensures Placed(s) && Timed(s)
  {
    hide IsRun;
    RunKeepsTimed(Empty(), events, s);
  }

  /** Over every run from the empty schedule a task is armed only for its first time plus a
      number of its periods, at least one more for each re-arming; without skipping exactly one
      more, so that the run a scheduled task waits for has its own slot. A first time that is
      normalized makes all of them normalized. */
  lemma Timetable(events: seq<Event>, s: Schedule, id: Id)
    requires IsRun(Empty(), events, s) && id in s.tasks
    ensures id in s.records
    ensures var t, r := s.tasks[id], s.records[id];
            && t.nextrun == Later(r.first, t.period, r.slot)
            && r.slot >= r.rearms && (!t.skip ==> r.slot == r.rearms)
            && (id in s.scheduled ==> r.rearms == r.runs)
            && (Normal(r.first) ==>
                  Normal(t.nextrun) && Micros(t.nextrun) == Micros(r.first) + r.slot * t.period * 1000)
  {
    hide IsRun, Later, Micros;
    FromEmpty(events, s);
    var t, r := s.tasks[id], s.records[id];
    assert OnGrid(TaskOf(s.tasks, id), RecordOf(s.records, id)) && RunsOk(s, id);
    if t.repeating && Normal(r.first) {
      LaterAdds(r.first, t.period, r.slot);
    } else {
      NoSlotLater(r.first, t.period);
    }
  }

  /** The tasks are created for normalized times. */
  ghost predicate NormalFirsts(events: seq<Event>)
  {
    forall i :: 0 <= i < |events| && events[i].Create? ==> Normal(events[i].task.nextrun)
  }

  lemma {:induction false} FirstsAreNormal(s: Schedule, events: seq<Event>, s': Schedule)
    requires IsRun(s, events, s') && NormalFirsts(events)
    requires forall id :: id in s.records ==> Normal(s.records[id].first)
    requires Placed(s) && Timed(s)
    ensures forall id :: id in s'.records ==> Normal(s'.records[id].first)
    decreases |events|
  {
    hide Placed, Timed, Enabled, Normal;
    if events != [] {
      NextKeepsPlaced(s, events[0]);
      NextKeepsTimed(s, events[0]);
      FirstKept(s, events[0]);
      FirstsAreNormal(Next(s, events[0]), events[1..], s');
    }
  }

  lemma FirstKept(s: Schedule, e: Event)
    requires Enabled(s, e) && Placed(s) && Timed(s)
    ensures forall id :: id in Next(s, e).records ==>
      if e.Create? && id == e.id then Next(s, e).records[id].first == e.task.nextrun
      else id in s.records && Next(s, e).records[id].first == s.records[id].first
  {
    hide A.InsertLocated, A.DeleteLocated, TaskComp, OnGrid, RearmedAt, Later, Due;
  }

  function TimeOf(s: Schedule, i: nat): TimeVal
    requires i < |s.scheduled|
  {
    TaskOf(s.tasks, s.scheduled[i]).nextrun
  }

  /** Over every run from the empty schedule in the window in which the tasks are created for
      normalized times, a pass hands out exactly the scheduled tasks whose time has come, the
      earlier ones first. */
  lemma PassDispatchesDue(events: seq<Event>, s: Schedule, curr: TimeVal)
    requires IsRun(Empty(), events, s) && AllInWindow(events) && NormalFirsts(events)
    requires ClockInWindow(curr) && Normal(curr)
    ensures var s', n := Next(s, Pass(curr)), DueCount(s.tasks, s.scheduled, curr);
            && s.scheduled == s.scheduled[..n] + s'.scheduled
            && s'.running == s.running + set id | id in s.scheduled[..n]
            && (forall i :: 0 <= i < |s.scheduled| ==> (i < n <==> Micros(TimeOf(s, i)) <= Micros(curr)))
            && (forall i, j :: 0 <= i < j < n ==> Micros(TimeOf(s, i)) <= Micros(TimeOf(s, j)))
  {
    hide IsRun, Micros, TaskComp, DueCount, AfterPass, Valid, Windowed, TimeOf, Normal, NormalFirsts, AllInWindow;
    WindowFromEmpty(events, s);
    TimesAreNear(events, s);
    PassShape(s, curr);
    DueIsPrefix(s, curr);
    forall i, j | 0 <= i < j < |s.scheduled| ensures Micros(TimeOf(s, i)) <= Micros(TimeOf(s, j)) {
      EarlierFirst(s, i, j);
    }
  }

  lemma PassShape(s: Schedule, curr: TimeVal)
    ensures var s', n := AfterPass(s, curr), DueCount(s.tasks, s.scheduled, curr);
            s.scheduled == s.scheduled[..n] + s'.scheduled && s'.running == s.running + set id | id in s.scheduled[..n]
  {
    hide DueCount, CountRuns;
  }

  /** A normalized time in range. */
  predicate Near(tv: TimeVal)
  {
    Normal(tv) && 0 <= tv.sec < INT_HALF
  }

  lemma TimesAreNear(events: seq<Event>, s: Schedule)
    requires IsRun(Empty(), events, s) && NormalFirsts(events) && Windowed(s)
    ensures forall i :: 0 <= i < |s.scheduled| ==> Near(TimeOf(s, i))
  {
    hide IsRun, Micros, TaskComp, NormalFirsts, OnGrid, Later, Normal;
    FromEmpty(events, s);
    FirstsAreNormal(Empty(), events, s);
    forall i | 0 <= i < |s.scheduled| ensures Near(TimeOf(s, i)) {
      Timetable(events, s, s.scheduled[i]);
      UnknownInRange(s.tasks, s.scheduled[i]);
    }
  }

  lemma DueIsPrefix(s: Schedule, curr: TimeVal)
    requires Valid(s) && Windowed(s) && ClockInWindow(curr) && Normal(curr)
    requires forall i :: 0 <= i < |s.scheduled| ==> Near(TimeOf(s, i))
    ensures forall i :: 0 <= i < |s.scheduled| ==>
      (i < DueCount(s.tasks, s.scheduled, curr) <==> Micros(TimeOf(s, i)) <= Micros(curr))
  {
    hide Micros, TaskComp, DueCount, Valid, Windowed, Normal;
    forall i | 0 <= i < |s.scheduled|
      ensures i < DueCount(s.tasks, s.scheduled, curr) <==> Micros(TimeOf(s, i)) <= Micros(curr)
    {
      PassIsExact(s, curr, i);
      CompareNear(TimeOf(s, i), curr);
    }
  }

  lemma EarlierFirst(s: Schedule, i: nat, j: nat)
    requires Valid(s) && i < j < |s.scheduled| && Near(TimeOf(s, i)) && Near(TimeOf(s, j))
    ensures Micros(TimeOf(s, i)) <= Micros(TimeOf(s, j))
  {
    hide TaskOf, Micros;
    assert TaskComp(s.tasks)(s.scheduled[i], s.scheduled[j]) < 0;
    CompareNear(TimeOf(s, i), TimeOf(s, j));
  }

  /** The loop of the main loop's round, on the array. */
  method PassLoop(s: Schedule, curr: TimeVal) returns (scheduled: seq<Id>, dispatched: seq<Id>)
    ensures scheduled == Next(s, Pass(curr)).scheduled
    ensures dispatched == s.scheduled[..DueCount(s.tasks, s.scheduled, curr)]
  {
    hide IsElapsed;
    scheduled, dispatched := s.scheduled, [];
    while |scheduled| > 0 && IsElapsed(TaskOf(s.tasks, scheduled[0]), curr)
      invariant |dispatched| + |scheduled| == |s.scheduled|
      invariant s.scheduled == dispatched + scheduled
      invariant DueCount(s.tasks, s.scheduled, curr) == |dispatched| + DueCount(s.tasks, scheduled, curr)
      decreases |scheduled|
    {
      dispatched := dispatched + [scheduled[0]];
      scheduled := scheduled[1..];
    }
  }
}
