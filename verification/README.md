# Verified model of the C utility library

This project models the parts of the library where ordinary calls hide a protocol, a format or a
data structure kept twice, and proves what they promise. It stands beside the C sources and
refers to them by path and line.

Protocols between threads are transition systems: a state, the steps of a thread, and theorems
about every run of any number of threads. What one mutex protects is one step, unless the mutex
itself is the subject, as in the reader/writer lock. Code that updates an object in place is a
class whose methods are proved against functions of the old state, and the laws are proved about
those functions.

| file | models |
|---|---|
| `RWLock.dfy`, `HolderTable.dfy` | the reentrant reader/writer lock and its growing table of holders |
| `Event.dfy` | the condition object, manual and auto reset, which only ever signals one waiter |
| `ThreadPool.dfy` | the worker pool: job queue, semaphore, idle counter, Wait |
| `Timer.dfy` | who owns and frees a timer task |
| `TimerTime.dfy`, `TimerSchedule.dfy` | time arithmetic with its casts to int; when tasks run and are armed again |
| `Arrays.dfy` | the growing array and its binary search |
| `MapHash.dfy`, `Maps.dfy`, `HashMap.dfy`, `OrderedMap.dfy` | the hash map over sorted buckets and a sorted keyset; the plain ordered map it stands for |
| `JsonText.dfy`, `JsonParser.dfy`, `JsonRoundTrip.dfy`, `JsonReread.dfy`, `JsonTokens.dfy`, `JsonRules.dfy`, `JsonLayout.dfy`, `JsonEscapes.dfy`, `JsonComments.dfy`, `JsonGaps.dfy`, `Utf8.dfy`, `Text.dfy` | the JSON language that is read, the parser and printer objects, their round trips, the spelling of numbers and constants, the layout of printed texts, blanks and comments, `\u` escapes (RFC 8259, section 7) and UTF-8 (RFC 3629, section 3) |
| `Pattern.dfy` | the file name patterns |
| `MemRcy.dfy`, `MemAlloc.dfy` | the recycling allocator: one size class, then all of them |
| `ResPool.dfy`, `PoolPing.dfy` | the resource pool between threads; its ping pass on the idle list |
| `Lists.dfy` | the doubly linked list |
| `RollLog.dfy` | the rolling file appender |
| `Util.dfy` | an option type, a minimum and sums over sequences |

What the environment supplies is a parameter: the time, what a factory or a test callback
answers, whether a file opens, whether the holder table can grow, the name a roll path expands to.
Mutexes, semaphores and condition variables do what the operating system documents, spurious
wakeups included. Bytes are 0..255 and file name characters -128..127, as `char` is signed; hashes
are 32-bit words. Folding to upper case is that of the C locale.

Results that differ from what one might expect of the code:

- A JSON document survives printing and parsing exactly when it has at most 512 levels
  (`JsonRoundTrip.RoundTrip`).
- The end of the text closes an array or object that was just opened or that waits behind a comma,
  so `[` and `{` alone are accepted (`JsonReread.EndCloses`, `JsonReread.OpenEndsAreAccepted`).
- A comment may stand anywhere except behind an unquoted token, which takes it in: `[true]` is
  accepted and `[true/**/]` is not (`JsonGaps.InsertedAnywhere`, `JsonGaps.CommentBehindToken`).
- What follows the digits of a whole number up to the next delimiter is ignored, so `1e5` and `1 2`
  are read as 1 (`JsonTokens.TailsAreIgnored`).
- Where a NUL byte stands in the text of a `\u` escape, it counts as the byte 0xFF
  (`JsonEscapes.Hex4Accepts`).
- The validity check of patterns steps over the character behind `!` unseen, so `![` is valid
  (`Pattern.ValidAcceptsMore`) and well-formed negations such as `!\[` are refused
  (`Pattern.ValidRefusesNegations`); `Pattern.ValidIff` and `Pattern.RenderingValidIff` say exactly
  what is accepted. Except for the empty pattern nothing matches the empty name, not even `*`
  (`Pattern.StarMissesEmptyName`). The comment at src/pattern.c:416-418 promises matching without
  case; on Unix the macro at src/pattern.c:125-126 makes it exact, and the model follows the code.
- A task that cancels itself, before or after the snapshot of a Purge, and is done before the
  Purge comes to it is leaked (`Timer.PurgeLeaksSelfCancelled`, `Timer.PurgeLeaksSelfCancelledLater`),
  and so is a task whose procedure calls Purge (`Timer.PurgeFromProcedureLeaks`);
  `Timer.PurgeLeaksIff` is the exact condition.
- Times are compared by a difference of seconds cast to int. `TimerTime.CompareIff` says for which
  times that is the order in time. A time of the year 2100 compares as past in 2025
  (`TimerTime.FarTimeIsPast`), so a task for it is handed out by the first pass
  (`TimerSchedule.FarTaskRunsAtOnce`); two times 2^31 seconds apart are each before the other
  (`TimerTime.NoOrderFarApart`); and among far times the array is searched in vain for a task that
  is in it, so that it cannot be cancelled (`TimerSchedule.FarTaskIsNotFound`). The theorems about
  the order of the schedule are over all runs whose first times and periods lie within 2^31 and
  whose clock stays one period away from it, which is until December 2037.
- Skipping missed periods catches up exactly when the first slot it tries is within reach of the
  cast (`TimerTime.RearmExactIff`); with a period of 2^32 seconds it may never end
  (`TimerTime.RearmCanHang`).
- A delay that is not a whole number of seconds and takes the microseconds below zero leaves a
  time that is not normalized (`TimerTime.GetDelayedAdds`, `TimerTime.NegativeDelayNotNormal`).
- A pool created with an initial count above its maximum does not keep a free permit for every
  idle resource; `ResPool.CoveredIff` says that this is the only case.
- Removing a key whose value is NULL takes it out of both indexes of the map but leaves the size
  as it was (`HashMap.HashMap.Remove`). Afterwards GetAt and RemoveAt at an index below that size
  but behind the last pair dereference the null item the keyset returns (src/maps.c:473-475 and
  src/maps.c:487-489), the outcome `NullItem` of their contracts.
- A list moved into itself loses its elements (`Lists.List.MoveAll`).
- A block whose guard is broken when it is freed leaves the used set and is never handed out
  again; the counters then balance with these lost blocks (`MemRcy.RcyList.Give`).

## Model

| member | source | states |
|---|---|---|
| `HolderTable.Table.Get` | src/concurrent.c:1122-1132 | the scan finds the first live slot of a thread, and nothing exactly when it has none |
| `HolderTable.Table.Add` | src/concurrent.c:1134-1162 | claims the first free slot, or doubles the table and claims the first new one, or leaves the table as it was when it cannot grow |
| `HolderTable.DeepenDepths` | src/concurrent.c:1166-1184 | a nested ReadLock changes the recorded depth of its own thread only, and no thread gets two live slots |
| `HolderTable.ShallowDepths` | src/concurrent.c:1216-1240 | ReadUnlock lowers the recorded depth of its own thread only; at zero the slot is free again |
| `HolderTable.AddHolderDepths` | src/concurrent.c:1134-1162 | adding a thread without a slot tracks it unless the table is full and cannot grow, and touches no other thread |
| `HolderTable.TableGrows` | src/concurrent.c:1134-1162 | the table grows only when every slot is live, from nothing to eight slots and then to twice as many |
| `RWLock.NextKeepsInv` | src/concurrent.c:1166-1272 | every step of every thread keeps the whole invariant of the lock, whatever is nested or mixed and even when the holder table fails to grow |
| `RWLock.Safety` | src/concurrent.c:1122-1272 | in every reachable state of any number of threads a write lock excludes every lock of other threads, rdcnt is the number of outstanding read locks, nordrs is set exactly when it is 0, and each thread has at most one live slot |
| `RWLock.CriticalSections` | src/concurrent.c:1166-1272 | no two threads are inside the section of rdcntmtx, and no two hold wrmtx |
| `RWLock.LocksAddUp` | src/concurrent.c:1166-1272 | over every run a thread outside calls has exactly the read and write locks that its calls took and did not give back |
| `RWLock.WriterPassesAlone` | src/concurrent.c:1242-1258 | in every reachable state a writer that finds nordrs set while it holds wrmtx finds no reader |
| `RWLock.ReachableTracked` | src/concurrent.c:1166-1272 | without upgrades and with a table that grows, every read lock is recorded in every reachable state, and who asks for the write lock holds no read lock |
| `RWLock.ReaderNeverBlocked` | src/concurrent.c:1173-1240 | in every such state with rdcntmtx free, writer parked or not, a thread that holds a read lock has its next nested ReadLock and ReadUnlock step enabled |
| `RWLock.NotStuck` | src/concurrent.c:1166-1272 | no reachable state is stuck: while any thread is inside a call or holds a lock, some thread has an enabled action towards releasing all locks |
| `RWLock.DrainingStepShortens` | src/concurrent.c:1166-1272 | whatever draining step the scheduler takes, the work left strictly shrinks |
| `RWLock.Drains` | src/concurrent.c:1166-1272 | from every reachable state all calls return and all locks are released within a stated number of steps |
| `Event.NextKeepsInv` | src/concurrent.c:98-230 | waits, timed waits, timeouts, spurious wakeups, Set and Reset all keep: a set event with a sleeper has a woken thread yet to run |
| `Event.NoLostWakeup` | src/concurrent.c:98-230 | over every run: if the event is set and some thread sleeps on it, a signalled thread has yet to run, although only one waiter is ever signalled |
| `Event.AutoResetConserves` | src/concurrent.c:98-230 | in auto-reset mode each Set that raises the flag lets one wait through, is taken back by a Reset, or is pending; successful waits never exceed Sets |
| `Event.PassesIff` | src/concurrent.c:98-174 | in both modes a step lets a wait succeed if and only if it is a look of a waiter at the set flag, and then just one |
| `Event.GivesUpIff` | src/concurrent.c:126-174 | a wait ends without success if and only if its look finds the flag unset and it polls or its time is over; any other then sleeps |
| `Event.FlagIs` | src/concurrent.c:98-230 | the flag is what the last Set or Reset made it, except that a successful wait of an auto-reset event takes it back |
| `Event.WakesAtMostOne` | src/concurrent.c:98-230 | a step changes no other thread, except that a Set and a successful wait of a manual-reset event wake one sleeper |
| `Event.PassedAtMostSets` | src/concurrent.c:98-230 | over every run no wait succeeds before the first Set, and in auto-reset mode no more waits than there were Sets |
| `Event.WaitNeverGivesUp` | src/concurrent.c:98-111 | over every run a Wait without a time limit never returns without success |
| `Event.SomeWaiterPasses` | src/concurrent.c:98-174 | in every reachable state in which the event is set some waiter can run and succeed |
| `Event.ManualResetReleasesAll` | src/concurrent.c:98-174 | from every reachable state a manual-reset event that stays set lets every waiter out, one waking the next |
| `Event.WakingShortens` | src/concurrent.c:98-174 | whatever a waiter of a set manual-reset event does is progress |
| `ThreadPool.Accounting` | src/concurrent.c:780-869 | over every run: idle_count + queued + in-flight jobs = pool_size; queued jobs = semaphore value + unused tokens + submitters yet to release; idle_cond is set exactly when a job was submitted and none is outstanding; a growing pool has an idle worker or one on the way |
| `ThreadPool.FixedSize` | src/concurrent.c:828-852 | a pool created with a size keeps it over every run; only a growing pool starts more workers |
| `ThreadPool.GrowsOnDemand` | src/concurrent.c:813-852 | over every run a pool grows only if it was created without a size, from one worker and by one for each submission that found none to spare |
| `ThreadPool.JobInOnePlace` | src/concurrent.c:782-852 | each submitted job is in exactly one of the queue, one worker and done; the queue keeps the order of submission |
| `ThreadPool.TokenFindsJob` | src/concurrent.c:782-811 | in every reachable state a worker that acquired the semaphore finds a job in the queue |
| `ThreadPool.WaitIsSound` | src/concurrent.c:855-869 | when Wait has returned, every job submitted before it was called is done |
| `ThreadPool.WaitIsComplete` | src/concurrent.c:780-869 | a parked Wait can return as soon as no job is outstanding: the last completion is not missed |
| `ThreadPool.SomeStepEnabled` | src/concurrent.c:780-869 | no job is stranded: in every reachable state that is not quiet some step is enabled |
| `ThreadPool.StepShortens` | src/concurrent.c:780-869 | each such step shrinks the work left, whichever the scheduler picks |
| `ThreadPool.Drains` | src/concurrent.c:780-869 | from every reachable state all submitted jobs get done, all workers become idle and every Wait returns |
| `Timer.RunKeepsSound` | src/concurrent.c:1388-1664 | creation, dispatch, running, re-arming, cancelling, giving up and Purge keep the places of every task sound over every run |
| `Timer.RunKeepsInv` | src/concurrent.c:1388-1664 | over every run of disciplined clients every cancelled task moreover has somebody bound to free it |
| `Timer.OnePlace` | src/concurrent.c:1388-1688 | a task in alltasks is in exactly one of scheduled, finished and dispatched, and no other task is in any |
| `Timer.NoUseAfterFree` | src/concurrent.c:1388-1664 | no task is freed twice, and after its Free no action on it is possible |
| `Timer.FreedExactlyOnce` | src/concurrent.c:1388-1664 | once its cancellation returned and its worker is done, a task was freed exactly once, by one of them |
| `Timer.OnlySelfCancelIsLeft` | src/concurrent.c:1411-1427 | a cancellation leaves the task to its worker, or to the Purge that has it in its snapshot, exactly when the running task cancels itself |
| `Timer.CancelledNeverRunsAgain` | src/concurrent.c:1388-1436 | after a Cancel by another thread that did not give up, the procedure is not running and never runs again |
| `Timer.StartsOnce` | src/concurrent.c:1676-1688 | a task is dispatched only while no worker has it and it is neither cancelled nor freed |
| `Timer.RepeatingComesBack` | src/concurrent.c:1624-1656 | a repeating task is never finished: unless cancelled, its worker puts it back into the schedule |
| `Timer.CalledOncePerDispatch` | src/concurrent.c:1609-1664 | over every run each dispatch of a task called its procedure exactly once, except at most one, the last, that found it cancelled; a task back in the schedule or finished was called as often as it was dispatched, a one-time task at most once |
| `Timer.CallsUnlessCancelled` | src/concurrent.c:1624-1626 | a worker calls the procedure exactly when it does not find the task cancelled |
| `Timer.GivesUpIff` | src/concurrent.c:1412-1427 | over every run a waiting canceller gives up exactly at its 5000th look if the task is still with its worker |
| `Timer.AllGetDone` | src/concurrent.c:1388-1664 | from every reachable state, procedures returning, all workers, cancellers and a Purge come to their end within a stated number of steps |
| `Timer.PurgeCancelsAll` | src/concurrent.c:1523-1555 | over every disciplined run, when a Purge ends, every task that was there when it began is freed or still belongs to its worker, which will free it |
| `Timer.PurgeLeaksIff` | src/concurrent.c:1396-1427 | over every run, also with tasks that cancel themselves before or after the snapshot and procedures that purge: a Purge leaks a task if and only if, when it reached the task, that was in no array and not running on another thread |
| `Timer.LeakedForever` | src/concurrent.c:1396-1427 | a leaked task is never freed in any continuation |
| `Timer.PurgeLeaksSelfCancelled` | src/concurrent.c:1396-1427 | a run from the start in which a self-cancelled task caught in the snapshot of a Purge is leaked |
| `Timer.PurgeLeaksSelfCancelledLater` | src/concurrent.c:1396-1427 | a run from the start in which a task that cancels itself after the snapshot is leaked |
| `Timer.PurgeFromProcedureLeaks` | src/concurrent.c:1523-1555 | a run from the start in which a task procedure that calls Purge leaks its own task |
| `TimerTime.GetDelayedAdds` | src/concurrent.c:1443-1451 | the delay is added exactly; the result is normalized exactly when its part below a second does not take the microseconds below zero |
| `TimerTime.NegativeDelayNotNormal` | src/concurrent.c:1443-1451 | a delay of one negative millisecond on a full second yields negative microseconds |
| `TimerTime.CompareIff` | src/concurrent.c:1592-1601 | the comparison of normalized times, cast to int, has the sign of their distance in time exactly when the cast keeps the sign of the seconds, or cancels them and the microseconds agree |
| `TimerTime.CompareNear` | src/concurrent.c:1592-1601 | so it does for times less than 2^31 seconds apart, and is 0 only for the same time |
| `TimerTime.FarTimeIsPast` | src/concurrent.c:1592-1601 | the year 2100 and the largest time compare as before a time of 2025 |
| `TimerTime.NoOrderFarApart` | src/concurrent.c:1592-1601 | two times 2^31 seconds apart are each before the other |
| `TimerTime.Rearm` | src/concurrent.c:1628-1643 | a repeating task is armed one period later, or with skipping at the first slot the clock does not compare as behind, which is the least later slot not before now exactly when the first is within reach of the cast; the loop ends |
| `TimerTime.RearmExactIff` | src/concurrent.c:1635-1643 | skipping finds the least later slot not before the clock if and only if the clock is less than 2^31 seconds ahead of the first slot, or behind it by a distance the cast keeps |
| `TimerTime.RearmCanHang` | src/concurrent.c:1635-1643 | with a period of 2^32 seconds the loop that goes on once goes on for ever |
| `TimerSchedule.TaskCompIsOrder` | src/concurrent.c:1696-1704 | the comparator of the schedule, casts included, is a total order on tasks with seconds and periods in [0, 2^31) |
| `TimerSchedule.TaskCompEqual` | src/concurrent.c:1696-1704 | different tasks never compare as equal, however far apart, so no insertion replaces a task |
| `TimerSchedule.RunKeepsValid` | src/concurrent.c:1453-1688 | over every run whose first times, periods and clocks lie in the window the schedule stays sorted, without duplicates and apart from the running tasks, and all times stay in range |
| `TimerSchedule.CancelRemoves` | src/concurrent.c:1396-1405 | over every run in the window a cancellation takes its task, and no other, out of the schedule |
| `TimerSchedule.FarTaskIsNotFound` | src/arrays.c:69-108 | three tasks 1500000000 seconds apart: after the second is cancelled the search misses the first, which stays in the schedule |
| `TimerSchedule.PassIsExact` | src/concurrent.c:1603-1688 | in the window the due tasks are exactly the front of the schedule |
| `TimerSchedule.FarTaskRunsAtOnce` | src/concurrent.c:1676-1688 | a run from the empty schedule in which a task for the year 2100 is handed out in 2025 |
| `TimerSchedule.Timetable` | src/concurrent.c:1453-1654 | over every run from the empty schedule, far times included, a task is armed only for first + slot * period, slot growing with each re-arming and without skipping by exactly one a run; a normalized first time keeps all of them normalized |
| `TimerSchedule.PassDispatchesDue` | src/concurrent.c:1676-1688 | over every run from the empty schedule in the window with normalized first times a pass hands out exactly the scheduled tasks whose time has come, in time order, and leaves the others |
| `TimerSchedule.CancelElsewhere` | src/concurrent.c:1396-1405 | cancelling a task that is not in the schedule leaves the schedule as it is, whatever its time and whatever the order of the array |
| `TimerSchedule.NeverLost` | src/concurrent.c:1453-1688 | over every run, far times included, a task that is neither cancelled nor finished is always either in the schedule or with a worker |
| `TimerSchedule.PassLoop` | src/concurrent.c:1676-1688 | the loop takes exactly the due front off the array |
| `Arrays.AroundRank` | src/arrays.c:69-108 | everything before the position is smaller, everything behind it greater |
| `Arrays.HoldsIff` | src/arrays.c:69-108 | an equal element is found exactly when there is one, and only at one place |
| `Arrays.LocateIsRank` | src/arrays.c:69-108 | on a sorted sequence the probes of the binary search, as they are made on any sequence, end at the position of the element |
| `Arrays.SearchIsScan` | src/arrays.c:69-108 | in a sorted array the binary search finds what a scan from the front would find |
| `Arrays.InsertSorted` | src/arrays.c:178-208 | adding keeps the array sorted and free of duplicates |
| `Arrays.InsertHolds` | src/arrays.c:178-208 | adding yields the new element and all old ones except one equal to it |
| `Arrays.DeleteHolds` | src/arrays.c:276-285 | removing takes out the equal element and nothing else |
| `Arrays.Array.CheckSize` | src/arrays.c:49-67 | makes room by doubling and keeps the contents; does nothing when there is room |
| `Arrays.Array.Search` | src/arrays.c:69-108 | the binary search ends, makes the probes described, and returns the position and whether an equal element is there |
| `Arrays.Array.InsertAtPrivate` | src/arrays.c:110-131 | shifts and stores at any index up to the size, refuses one behind it |
| `Arrays.Array.InsertAt` | src/arrays.c:133-146 | is refused on a sorted array, which changes nothing |
| `Arrays.Array.Add` | src/arrays.c:178-208 | a sorted array inserts in place or replaces an equal element and reports it; another appends |
| `Arrays.Array.RemoveAt` | src/arrays.c:210-225 | removes the element at an index and closes the gap; a bad index changes nothing |
| `Arrays.Array.Find` | src/arrays.c:239-274 | finds the first equal element, by binary search in a sorted array and by a scan in another, and nothing exactly when there is none |
| `Arrays.Array.Remove` | src/arrays.c:276-285 | removes the first equal element and closes the gap; a sorted array stays sorted |
| `MapHash.HashClearsTop` | src/maps.c:55-83 | the top four bits of a hash are clear after every character, so no shift loses one |
| `MapHash.HashOfNorm` | src/maps.c:55-91 | keys that are stored as the same bytes have the same hash, so a lookup in any case goes to the right bucket |
| `MapHash.FoldsLetters` | src/maps.c:85-91 | folding maps the 26 lower-case letters to their upper case and leaves every other byte |
| `MapHash.NormIff` | src/maps.c:85-91 | two keys are stored as the same bytes if and only if they are the same or, with folding, differ in the case of letters only |
| `MapHash.WidensSigned` | src/maps.c:55-68 | without folding, bytes from 128 up and only these count as 256 less |
| `MapHash.StepFolds` | src/maps.c:55-83 | a round keeps the low 28 bits of the shifted sum and lays its top four bits over the bits from 4 to 7 |
| `OrderedMap.GetPut` | src/maps.c:147-207 | of several values put under a key the last is found, and other keys keep theirs |
| `MapHash.ComputeHash` | src/maps.c:55-83 | the loop over the characters computes the hash, sign-extending or folding each |
| `MapHash.MapToUpper` | src/maps.c:85-91 | folds a key in place, letter by letter |
| `Maps.RepDistinct` | src/maps.c:147-310 | the two indexes together imply that all keys are distinct |
| `Maps.ProbeFinds` | src/maps.c:245-274 | the probe of a bucket finds the item of the folded key, and fails exactly when the ordered map has none |
| `Maps.AddRep` | src/maps.c:115-123 | adding a new item to its bucket and to the end of the keyset keeps the indexes in agreement |
| `Maps.RemoveRep` | src/maps.c:284-303 | removing an item from its bucket by key and from the keyset by number keeps the indexes in agreement |
| `Maps.HalfSlot` | src/maps.c:107-115 | a rebuild sends an old bucket i to i or i + n only |
| `Maps.RebuiltUse` | src/maps.c:101-135 | after a rebuild at most twice as many buckets are in use |
| `Maps.FillAfterRebuild` | src/maps.c:164-182 | the bound use_count + 1 <= (load_factor + 1/N0) * bucket_size survives a rebuild, also with one more bucket |
| `Maps.FillAfterCheck` | src/maps.c:164-182 | the bound survives a new bucket when the load check passes |
| `HashMap.PutRep` | src/maps.c:147-223 | storing an item replaces the one with its key in the bucket and moves it to the end of the keyset; the result is Put on the ordered map |
| `HashMap.TakeOut` | src/maps.c:284-303 | removing a key keeps both indexes, the number of used buckets and the numbering |
| `HashMap.HashMap.constructor` | src/maps.c:519-539 | a new map is empty and within its fill bound |
| `HashMap.HashMap.Rebuild` | src/maps.c:101-135 | doubles the buckets; keyset and abstract map stay, both indexes agree, use_count counts the buckets in use |
| `HashMap.HashMap.ReadyBucket` | src/maps.c:161-182 | the bucket of a hash exists afterwards and the fill stays bounded, with or without a rebuild |
| `HashMap.HashMap.Put` | src/maps.c:147-223 | refines Put of the ordered map on the folded key, replacing moves to the end; returns the previous value; the size counts new keys only |
| `HashMap.HashMap.PutAll` | src/maps.c:225-243 | puts the pairs of another map one by one in their order; a map put into itself keeps all its pairs and only reorders them |
| `HashMap.HashMap.Get` | src/maps.c:245-274 | returns what the ordered map holds under the folded key; by the contracts of Put and Remove that is the value last put under a key the same for the map, letters differing in case included, and not removed since |
| `HashMap.HashMap.Remove` | src/maps.c:276-310 | removes the folded key and returns its value; the size counts down only if that was not NULL |
| `HashMap.HashMap.GetAt` | src/maps.c:469-481 | returns the value at a place in insertion order and nothing behind the size; a place without an item below a size left too large is a null dereference |
| `HashMap.HashMap.RemoveAt` | src/maps.c:483-495 | removes the pair at a place in insertion order; a place without an item below a size left too large is a null dereference |
| `HashMap.HashMap.Clear` | src/maps.c:386-408 | empties both indexes, keeps the buckets in use, and frees every item exactly once |
| `Utf8.DecodeEncode` | src/nanojson.c:876-898 | every scalar value decodes back from its UTF-8 bytes |
| `Utf8.EncodeDecode` | src/nanojson.c:876-898 | every well-formed UTF-8 sequence is the encoding of what it decodes to |
| `Utf8.PairsAreBijective` | src/nanojson.c:928-946 | surrogate pairs map one to one onto U+10000..U+10FFFF |
| `JsonEscapes.Hex4Accepts` | src/strings.c:1225-1271 | exactly what four hexadecimal digits accept, NUL padding included |
| `JsonEscapes.HexDigits` | src/strings.c:1225-1271 | the sixteen digits in either case have their places as values, and no other byte has one |
| `JsonEscapes.BasicEscape` | src/nanojson.c:900-957 | an escape of a scalar value of the basic plane yields its UTF-8 bytes and the cursor advances by its length |
| `JsonEscapes.PairEscape` | src/nanojson.c:928-957 | a surrogate pair yields the UTF-8 bytes of its scalar value and the cursor advances by both escapes |
| `JsonEscapes.LoneSurrogates` | src/nanojson.c:928-951 | a low surrogate alone is rejected, and a high one exactly when no escape of a low one follows |
| `JsonParser.Parser.Consume` | src/nanojson.c:820-832 | remain plus consumed bytes stays constant and lines are counted |
| `JsonParser.Parser.SkipSpaces` | src/nanojson.c:844-869 | skips blanks, line comments and block comments and ends on every text |
| `JsonParser.Parser.SkipLineComment` | src/nanojson.c:844-869 | a line comment ends at a line end, a NUL or the end of the text |
| `JsonParser.Parser.SkipBlockComment` | src/nanojson.c:844-869 | a block comment ends behind its first star and slash or at the end of the text |
| `JsonParser.Parser.ParseEscape` | src/nanojson.c:900-957 | appends the bytes of an escape and stops on its last character |
| `JsonParser.Parser.ParseUnicode` | src/nanojson.c:915-953 | reads one escape or a surrogate pair and stops on its last digit |
| `JsonParser.Parser.ParseString` | src/nanojson.c:978-1020 | reads a quoted string or an unquoted token up to a delimiter |
| `JsonParser.Parser.ParseConst` | src/nanojson.c:1022-1078 | tells booleans, null, doubles and longs apart and rejects other tokens |
| `JsonParser.Parser.ParseValue` | src/nanojson.c:1080-1103 | a quoted text becomes a string cut at its first NUL, another token a constant or a number |
| `JsonParser.Parser.ParseName` | src/nanojson.c:1127-1140 | reads a member name and the colon behind it |
| `JsonParser.Parser.ParseBase` | src/nanojson.c:959-976 | reads one document, restores depth, refuses the 513th level, and ends on every text |
| `JsonParser.Parser.ParseArray` | src/nanojson.c:1185-1242 | reads the items of an array as the grammar says |
| `JsonParser.Parser.ParseObject` | src/nanojson.c:1105-1183 | reads the members of an object; a repeated name replaces its member at the end |
| `JsonParser.JsonParse` | src/nanojson.c:1244-1262 | the parser object decides the grammar on every text |
| `JsonComments.GapSkipped` | src/nanojson.c:844-869 | every blank, line comment and block comment, as described by its text, is skipped as a whole |
| `JsonComments.InsertedGaps` | src/nanojson.c:844-1242 | blanks and comments inserted wherever a document is expected leave the value parsed there |
| `JsonComments.LeadingGaps` | src/nanojson.c:1244-1262 | blanks and comments in front of a text do not change what it parses to |
| `JsonGaps.BaseLocal` | src/nanojson.c:959-1242 | what is read of a document does not depend on what stands behind it, except for the one byte that ends an unquoted token |
| `JsonGaps.InsertedAnywhere` | src/nanojson.c:844-1262 | blanks and comments inserted in front of any value, item, name or closing bracket of an accepted text, or in front of a colon or comma behind a string, array or object, leave the document it parses to |
| `JsonGaps.CommentBehindToken` | src/nanojson.c:1000-1078 | [true] is accepted, [true/**/] is rejected |
| `JsonTokens.SpelledParses` | src/nanojson.c:1022-1103 | a token spelled as a constant in any case, a whole number or a number with a point, between blanks and before a delimiter, parses to what it is spelled for |
| `JsonTokens.TokenAcceptedIff` | src/nanojson.c:1022-1103 | a token is accepted if and only if it is spelled in one of these ways |
| `JsonTokens.WholeNumbers` | src/nanojson.c:1067-1075 | a sign and digits, leading zeros allowed, are a long of their positional value, saturated at 64 bits |
| `JsonTokens.PointNumbers` | src/nanojson.c:1058-1066 | a sign, digits, a point and perhaps more digits are a double |
| `JsonTokens.FalseStart` | src/nanojson.c:1040-1057 | a token that starts like a constant and is none is rejected |
| `JsonTokens.TailsAreIgnored` | src/nanojson.c:1067-1075 | what follows the digits of a whole number is ignored |
| `JsonRules.RepeatedNames` | src/nanojson.c:1105-1183 | of repeated names of an object each keeps its last value, at the place of the last |
| `JsonRules.NeedsComma` | src/nanojson.c:1185-1242 | behind a string, array or object only a comma or the closing bracket goes on with an array |
| `JsonRules.NeedsColon` | src/nanojson.c:1127-1140 | behind a quoted name only a colon goes on with an object |
| `JsonRules.NeedsCommaInObject` | src/nanojson.c:1105-1183 | behind a value that is a string, array or object only a comma or the closing brace goes on with an object |
| `JsonRules.EscapedCharacter` | src/nanojson.c:900-957 | every character but u may be escaped; five stand for control characters and all others for themselves |
| `JsonLayout.EscapeIs` | src/nanojson.c:48-92 | how each byte of a string is printed |
| `JsonLayout.PrettyIsCompact` | src/nanojson.c:125-221 | the printed text, compact or pretty, less the blanks outside its strings is the compact text, which so has none |
| `JsonLayout.PrettyObject` | src/nanojson.c:125-174 | in pretty text each member stands on its own line behind two blanks per level, and so does the closing brace |
| `JsonLayout.ArrayText` | src/nanojson.c:176-198 | arrays are their items with commas, and blanks behind them in pretty text |
| `JsonParser.AppendQuoted` | src/nanojson.c:48-92 | the loop over a string prints its escapes |
| `JsonParser.AppendArray` | src/nanojson.c:176-198 | the loop over the items prints them with their separators |
| `JsonParser.AppendObject` | src/nanojson.c:141-174 | the loop over the keys prints the members in their order |
| `JsonParser.AppendJson` | src/nanojson.c:131-221 | the printing loops produce the compact or pretty text |
| `Text.TrimIs` | src/strings.c:648-676 | trimming takes the spaces off both ends, NULs on the right included, and nothing else |
| `Text.StrToLongOfDecimal` | src/nanojson.c:1057-1068 | a printed long is read back as the same number |
| `JsonRoundTrip.BaseReads` | src/nanojson.c:959-1242 | a document printed anywhere in a text is read back there, or rejected exactly when it is too deep |
| `JsonRoundTrip.RoundTrip` | src/nanojson.c:131-1242 | parsing the compact or pretty text of a document gives back the same document with the same key order exactly when it has at most 512 levels; otherwise it is rejected |
| `JsonReread.Reread` | src/nanojson.c:820-1262 | whatever text is accepted, the document has at most 512 levels, 64-bit longs, NUL-free strings and distinct names, and without doubles printing and parsing gives it back |
| `JsonReread.EndCloses` | src/nanojson.c:1105-1242 | the end of the text closes an array or object wherever an item or member may start |
| `JsonReread.OpenEndsAreAccepted` | src/nanojson.c:1105-1262 | the texts [ and { and [[], are accepted |
| `Pattern.SubmatchDenotes` | src/pattern.c:230-393 | for every pattern the matcher accepts exactly the names in its denotation: stars as some split, sets, quotes, negation as complement |
| `Pattern.SkipIsScan` | src/pattern.c:160-188 | the validity check and the matcher read every set alike |
| `Pattern.ValidIff` | src/pattern.c:147-211 | a text is valid exactly when it is the rendering of a negation-free pattern, or one followed by ! and a text valid from its second character on |
| `Pattern.ValidAtNot` | src/pattern.c:197-202 | the check skips the character behind ! whatever it is |
| `Pattern.ValidAcceptsMore` | src/pattern.c:197-202 | "![" is valid but renders no pattern |
| `Pattern.PatternSubmatch` | src/pattern.c:230-393 | the loop and its recursion end and compute the matching function |
| `Pattern.ScanSet` | src/pattern.c:316-346 | the set loop, with quotes, ranges and a missing bracket, computes the scan |
| `Pattern.TrySplits` | src/pattern.c:260-294 | the recursion over the rest of the name ends and tries every split |
| `Pattern.PatternIsValid` | src/pattern.c:147-211 | the loop computes validity; a null pointer is invalid |
| `Pattern.PatternMatch` | src/pattern.c:421-438 | refuses null and invalid patterns and treats the empty name apart |
| `Pattern.PatternMatchN` | src/pattern.c:469-482 | matches without checking the pattern |
| `Pattern.MatchDenotes` | src/pattern.c:421-438 | for every pattern, negated ones included: a name is accepted exactly when the text of the pattern is valid and denotes it, the empty name only by the empty pattern |
| `Pattern.RenderingValidIff` | src/pattern.c:147-211 | the text of a pattern is valid exactly when it has no negation mark or what follows the character behind the mark is valid |
| `Pattern.NegationValid` | src/pattern.c:190-202 | what that means for each kind of element behind the mark |
| `Pattern.ValidRefusesNegations` | src/pattern.c:190-202 | two well-formed negations, of a quoted bracket and of a quoted quote, that the check refuses |
| `Pattern.StarMissesEmptyName` | src/pattern.c:433-436 | the star denotes the empty name but does not match it |
| `MemRcy.RcyIndexIff` | src/memdebug.c:205-209 | the class of a size is the only k with 2^(k-1) < size <= 2^k, or 0 |
| `MemRcy.TooLarge` | src/memdebug.c:205-221 | exactly the sizes above 2^44 have no class |
| `MemRcy.RcyList.Take` | src/memdebug.c:222-244 | a block comes off the free list or is new, was not in use, fits the size and its guard; cnt = avlcnt + used + lost |
| `MemRcy.RcyList.Give` | src/memdebug.c:327-354 | a block not in use is refused; one with intact guards is recycled; one with a broken guard is lost |
| `MemAlloc.Allocator.Alloc` | src/memdebug.c:211-259 | never returns a block in use in any class, changes no live block, and refuses sizes above all classes |
| `MemAlloc.Allocator.Calloc` | src/memdebug.c:261-276 | zeroes the whole block inside its guard; refuses a product that does not fit size_t |
| `MemAlloc.Allocator.Free` | src/memdebug.c:311-354 | takes one block out of use, keeps its bytes; freeing twice or null changes nothing |
| `MemAlloc.Allocator.StoreAndFree` | src/memdebug.c:277-354 | a byte written just in front of or just behind a block is noticed when it is freed, and the block is not recycled; a write inside it is not |
| `MemAlloc.Allocator.Realloc` | src/memdebug.c:356-406 | keeps the first min(old, new) bytes, in place exactly when the class stays, moves the guard, and changes no other live block; a header without a class, a broken guard or a too large size changes nothing |
| `MemAlloc.Allocator.ResizeInPlace` | src/memdebug.c:382-398 | keeps the content up to the smaller size and moves the guard |
| `MemAlloc.Allocator.Move` | src/memdebug.c:399-405 | copies the content that fits into a block that was not in use and frees the old one |
| `MemAlloc.Allocator.DebugClear` | src/memdebug.c:461-506 | reports success exactly when no block is in use; everything in use or free is destroyed |
| `ResPool.RunKeepsInv` | src/pool.c:49-186 | borrowers, releases, AddResource, pings and failing callbacks keep all counts over every run |
| `ResPool.OnePlaceEach` | src/pool.c:49-186 | over every run each resource is in exactly one of idle, checked out, in a thread, destroyed; totcnt = idle + borrowed slots <= maxcnt |
| `ResPool.PermitsConserved` | src/pool.c:49-233 | at quiescent points every permit is free or stands for a checked-out resource |
| `ResPool.CoveredIff` | src/pool.c:212-233 | in every quiet reachable state idle resources do not exceed free permits if and only if initcnt <= maxcnt |
| `ResPool.Uncovered` | src/pool.c:103-118 | a pool created above its maximum, whatever it starts with, can be brought by AddResource alone to a quiet state with more idle resources than permits |
| `ResPool.BorrowsFirst` | src/pool.c:49-91 | a caller with a permit and an idle resource gets the first one, or destroys it when a test on borrowing fails |
| `ResPool.PingTests` | src/pool.c:151-186 | a ping tests whenever there is a test, whatever is asked for borrowing |
| `ResPool.ReturnsLast` | src/pool.c:93-118 | giving a resource back puts it behind the idle ones and frees a permit |
| `ResPool.NeverStuck` | src/pool.c:49-186 | a thread inside the pool always can go on and each of its steps brings it closer to the end |
| `PoolPing.Pool.CheckOut` | src/pool.c:49-91 | first idle resource or a new one; tested if asked, replaced or dropped on failure; on every failure the permit is back |
| `PoolPing.Pool.TestAndReplace` | src/pool.c:65-79 | a resource that fails is destroyed and replaced, or counted off with its permit given back |
| `PoolPing.Pool.AddResource` | src/pool.c:103-118 | a resource above the maximum raises it and adds a permit |
| `PoolPing.Pool.PingTester` | src/pool.c:151-186 | an undisturbed pass tests each idle resource exactly once in order, keeps survivors and replacements in order, destroys the failures, and conserves permits |
| `PoolPing.Pool.PingNext` | src/pool.c:157-184 | one round tests the first idle resource once, whichever of the two places does it, and puts the outcome at the end |
| `Lists.List.AddFront` | src/lists.c:48-66 | puts an element in front; both chains spell the new sequence |
| `Lists.List.AddTail` | src/lists.c:68-86 | puts an element at the end; both chains spell the new sequence |
| `Lists.List.RemoveFront` | src/lists.c:106-122 | takes the first element off, nothing from an empty list |
| `Lists.List.RemoveTail` | src/lists.c:124-140 | takes the last element off, nothing from an empty list |
| `Lists.List.Remove` | src/lists.c:142-162 | removes the first equal element wherever it stands, or nothing |
| `Lists.List.Unlink` | src/lists.c:154-158 | takes a node out of the middle; both chains close the gap |
| `Lists.List.MoveAll` | src/lists.c:234-254 | the destination holds dest ++ src, src is empty, both chains of both lists are right; a list moved into itself ends empty |
| `RollLog.DrainIsWriteAll` | src/logger.c:1295-1333 | with opens succeeding the batch leaves the same files as single writes, for any timestamps |
| `RollLog.RollKeeps` | src/logger.c:1251-1273 | rolling loses no message, keeps the order of generations and starts an empty one |
| `RollLog.IsChangedIff` | src/logger.c:1242-1248 | the compared bytes differ if and only if the two times differ in the year or a unit down to the term |
| `RollLog.RollRenames` | src/logger.c:1250-1273 | rolling renames the current file to the expanded roll path, or to that with a minus and the least number that makes it new, and touches no other file |
| `RollLog.FilesAreStretches` | src/logger.c:1242-1333 | the files of a new appender are exactly the longest stretches of messages of one term: it rolls when the term changes and only then |
| `RollLog.DrainWritesPrefix` | src/logger.c:1295-1333 | however the opens turn out the batch is that of single writes of its first messages, all of them unless an open failed |
| `RollLog.WriteAllKeeps` | src/logger.c:1242-1333 | all messages are kept in order and each file generation holds messages of one term, even for timestamps that go back |
| `RollLog.WrittenIsKept` | src/logger.c:1242-1333 | a new appender that writes any messages has exactly these in its files, in order, each rolled file and the current one of a single term |
| `RollLog.Appender.Rolling` | src/logger.c:1251-1273 | renames the current file to the first free name, if there is one, and takes over the time |
| `RollLog.Appender.Write` | src/logger.c:1275-1293 | rolls if the term changed and appends; if the file does not open only the roll happens |
| `RollLog.Appender.Flush` | src/logger.c:1295-1333 | writes the two buffers in order as single writes would; keeps everything if the first open fails, drops the rest if a later one does |

## Left out

- Doubles in JSON: the digits a double is printed with and the value it is read as; a token stands for a double, and the round trip is for documents without doubles and with strings free of NUL bytes, which are set through C strings.
- Map numbers: `order_seq` and the differences of insertion numbers are unbounded, so a map with more than 2^31 insertions is outside the model; the load check is exact instead of in floating point.
- Maps.Item: buckets and keyset hold items as values, so an item shared by pointer between both is not modelled, nor the freeing of its key.
- HashMap.HashMap.PutAll: does not model the callback that frees previous values, which a map put into itself would be handed the very values it keeps.
- Arrays.Array: elements are never NULL and a comparator is always there; the callback that frees replaced elements is left out.
- Lists.List.MoveAll: moving between two lists that share nodes is outside the model; no operation makes such lists.
- MemRcy.Node: the index of a block is fixed, so a client that overwrites it, and pointers that do not come from the allocator, are outside the model.
- MemAlloc.Allocator.Realloc: is for blocks in use or with an index out of range, because the code does not look at the used set before it changes the block.
- `usedsize` of the allocator, which is not lowered by a free, the stack traces and the log of leaks; Strdup, which is an allocation and a copy.
- Out of memory, except the growth of the holder table, which is in the model.
- The ceiling of a floating-point logarithm in the allocator is the least k with 2^k >= size.
- Release of a resource that was not checked out, as src/http.c:189 does, and the destruction of a pool in use.
- Destruction of the pool of threads, the timer, the lock and the event; the timer's clients cancel a handle at most once, and while a Purge runs only from the task's own procedure.
- TimerTime.Rearm: times and the clock are normalized, with microseconds below a million, as the system's clock gives them, and the period is less than about 2^31 seconds, beyond which the loop may not end; the public calls check neither.
- TimerSchedule.Id: a task's address is its place counted in tasks, and places differ by less than 2^31; the code subtracts pointers that need not be a whole number of tasks apart.
- Timer: the three arrays are sets there, so a search that misses a task (`TimerSchedule.FarTaskIsNotFound`) is not in that module.
- A failing gettimeofday or clock_gettime.
- RollLog.FirstFree: the lengths of the buffers for file names; strftime is a parameter, the creation of directories is left out.
- Pattern: the branches for DOS, where the delimiter is a macro and letters are folded.
- Windows and Apple branches, function tables, logging and the library's start-up order.
- src/http.c, src/datagram.c, src/crypto.c, src/config.c, src/callstack.c, src/base.c and the rest of src/logger.c: plumbing around sockets, TLS, OpenSSL, files and formats.
