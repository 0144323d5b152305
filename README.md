# Timer registry and event dispatcher, in Dafny

This project models a small C++ timer library. It has three parts:

- **The timer (`CTimer`).** A deadline in ms, a recurrence interval, a nullable
  callback and a uid drawn from a process-wide counter. Its mutators are
  `Cancel`, `Refresh` and `Reset`. A comparator orders timers by (deadline, uid).
- **The registry (`CTimerManager`).** A `std::set` of timers under that
  comparator. It supports adding a timer, with an upcall when the new timer
  becomes the first one; deleting by uid; the time to the nearest deadline; and
  collecting expired timers. Collection returns the callbacks of the due timers
  in order and puts recurring timers that have a callback back with their next deadline.
- **The dispatcher (`CEvent`).** A registry driven by one thread. It has a
  keep-alive flag, a thread state (`Waiting`, `Processing`, `Exited`), an event
  handle that can be signalled, `start`/`stop`, and the dispatch loop. Each
  wait of the loop times out after at most 50 ms; once a wait has timed out or
  been signalled, the pass collects the expired timers and invokes their
  callbacks; a failed wait ends the loop.

The four files:

- `types.dfy` (module `Types`) holds the machine integers. `Add64` is
  `uint64_t` addition with wrap-around. `TruncateTo32` is the `(uint32_t)` cast.
  The module also holds `Option` (a `nullptr` callback is `None`) and an
  opaque callback token.
- `timer.dfy` (module `TimerEntity`) holds the timer:
  - `TimerEntry`, the value of a timer's four fields;
  - the comparator `Less` on timers and `LessRef` on nullable pointers, with
    its order laws;
  - `Refreshed`, the value `Refresh` leaves;
  - the class `UidCounter` (`g_uniqueIdCount`);
  - the class `Timer`, whose methods update its fields in place.
- `timer_manager.dfy` (module `TimerRegistry`) holds the registry:
  - The class `TimerManager` keeps the set as a `seq<TimerEntry>`. Its
    invariant is sorted strictly by `Less`, no uid twice, and every uid drawn
    from the counter.
  - `Insert` is `std::set::insert`; `RemoveFirst` is `DelTimer`'s scan.
  - `ExpiredCount`, `FiredCallbacks` and `ReinsertAll` follow
    `_ListExpireTimer` step by step.
  - `DueCallbacks`, `Survivors` and `Rescheduled` define the same results
    independently, over the whole registry. Lemmas prove the two agree.
  - `Registry` is the set together with the counter, as values. `ApplyOp`
    is what one `AddTimer` or `DelTimer` call (a `RegistryOp`) does to it,
    and `TimerManager.Snapshot()` is the object's current `Registry`.
- `event.dfy` (module `Dispatcher`) holds the dispatcher:
  - The class `Event` has the flags, the lifecycle methods and the loop
    `ThreadEntry`.
  - An OS wait is a `WaitCall`: a clock reading and an outcome (`TimedOut`,
    `Signaled`, `Interrupted` or `Error`).
  - One pass of the loop is a `Round`. It holds:
    - its waits;
    - the clock reading at collection;
    - the `AddTimer`/`DelTimer` calls made before the next pass, by the
      invoked callbacks or by other threads;
    - whether a `stop` from another thread has cleared keep-alive by the end
      of the pass.
  - `Run` is the loop on values. `ThreadEntry` is proved to compute exactly
    `Run` of the registry and counter it started from.

The clock (`CTimer::CurrentTime`) is a `now` parameter everywhere. The
`_OnTimerInsertedAtFront` upcall is the `atFront` result of
`TimerManager.AddTimer`, which `Event.AddTimer` turns into a `Tickle`.

A due timer with a null callback is skipped by `continue` before the
reinsertion (timer.cpp:168-171), so it is dropped even if it recurs;
`ReinsertStep`, `Rescheduled` and `ExpireStateFacts` state this.

## Model

| member | source | states |
|---|---|---|
| Types.Add64 | timer.cpp:14 | `uint64_t` addition: the exact sum when it fits, otherwise the sum minus 2^64, which is below the first operand |
| Types.TruncateTo32 | event.cpp:151 | the `(uint32_t)` cast: identity up to `UINT32_MAX`; above it, a smaller value congruent modulo 2^32 |
| Types.TruncateTo32Wraps | event.cpp:151 | the cast gives the same value for two inputs 2^32 apart |
| TimerEntity.Less | timer.h:75-81 | `CTimer::Comparator` on two timers: the earlier deadline first, the smaller uid on a tie; its laws are `LessIsLexicographic`, `LessIrreflexive`, `LessTotal` and `LessTransitive` |
| TimerEntity.LessRef | timer.h:61-82 | the comparator on nullable pointers: null before every timer, otherwise `Less` on the pointees; stated by `LessRefNull` and `LessRefOnTimers` |
| TimerEntity.LessIsLexicographic | timer.h:75-81 | the comparator is the lexicographic order on (deadline, uid) |
| TimerEntity.LessIrreflexive | timer.h:75-78 | no timer is less than itself |
| TimerEntity.LessTotal | timer.h:75-81 | for two timers with distinct uids exactly one of `less(a,b)`, `less(b,a)` holds |
| TimerEntity.LessTransitive | timer.h:75-81 | the comparator is transitive |
| TimerEntity.EquivalentIsSameKey | timer.h:75-81 | two timers are equivalent for the set iff they have the same deadline and uid |
| TimerEntity.LessRefNull | timer.h:63-74 | null is not less than null, null precedes every timer, no timer precedes null |
| TimerEntity.LessRefOnTimers | timer.h:61-82 | on two non-null pointers the comparator compares the pointees |
| TimerEntity.Refreshed | timer.cpp:52-57 | `Refresh` keeps uid, interval and callback; a one-shot timer is unchanged; a recurring one is due at the wrapping sum of deadline and interval, which without overflow is exactly one interval later |
| TimerEntity.UidCounter.constructor | timer.cpp:3 | the counter starts at 0 |
| TimerEntity.UidCounter.Next | timer.cpp:10 | `++g_uniqueIdCount`: the counter grows by one and the new value, never `INVALID_TIMER_ID`, is the uid |
| TimerEntity.Timer.Default | timer.cpp:5-11 | `CTimer()`: deadline 0, interval 0, no callback, a fresh uid |
| TimerEntity.Timer.constructor | timer.cpp:13-19 | deadline `now + ms` (wrapping), the given interval and callback, a fresh uid |
| TimerEntity.Timer.Copy | timer.cpp:21-28 | the copy has every field of the original, uid included |
| TimerEntity.Timer.Assign | timer.cpp:35-43 | after assignment every field, uid included, equals the source's |
| TimerEntity.Timer.GetTimeout | timer.h:30 | returns the stored deadline |
| TimerEntity.Timer.GetUID | timer.h:33 | returns the stored uid |
| TimerEntity.Timer.SetNextTime | timer.h:36 | only the deadline changes |
| TimerEntity.Timer.SetCallback | timer.h:39 | only the callback changes |
| TimerEntity.Timer.SetRecycleTime | timer.h:42 | only the interval changes |
| TimerEntity.Timer.Cancel | timer.cpp:45-50 | deadline, interval and callback become 0, 0, null; the uid stays |
| TimerEntity.Timer.Refresh | timer.cpp:52-57 | the new value is `Refreshed` of the old one |
| TimerEntity.Timer.Reset | timer.cpp:59-69 | a deadline earlier than the current one changes nothing; otherwise exactly deadline, callback and interval are replaced and the uid stays |
| TimerEntity.FirstTwoTimers | timer.cpp:3-19 | from a fresh counter the first two timers get uids 1 and 2 |
| TimerRegistry.Insert | timer.cpp:192 | `std::set::insert` never leaves the set empty; what it does is stated by `InsertFacts` and `InsertedAtFrontIsMinimum` |
| TimerRegistry.InsertedAtFront | timer.cpp:193 | `it == m_timers.begin()` after the insert: the set was empty or its first timer does not precede the new one; `InsertedAtFrontIsMinimum` states what this means |
| TimerRegistry.InsertFacts | timer.cpp:192 | inserting a timer with a new uid keeps the order and uniqueness, and adds exactly that timer |
| TimerRegistry.InsertedAtFrontIsMinimum | timer.cpp:192-193 | the "inserted at `begin()`" condition holds iff the new timer precedes every registered one, iff it is the new first element |
| TimerRegistry.RemoveFirst | timer.cpp:132-141 | the scan never makes the set longer; what it erases is stated by `RemoveFirstAt`, `RemoveFirstAbsent` and `RemoveFirstFacts` |
| TimerRegistry.RemoveFirstAbsent | timer.cpp:132-141 | with no timer of that uid the scan erases nothing |
| TimerRegistry.RemoveFirstAt | timer.cpp:132-141 | the scan erases exactly the first match and keeps the rest in order |
| TimerRegistry.RemoveFirstFacts | timer.cpp:124-142 | deletion keeps the invariant, removes exactly the timer with that uid, keeps every other one, and shortens the set by one iff the uid was present |
| TimerRegistry.RemoveFirstIdempotent | timer.cpp:124-142 | deleting a uid twice is deleting it once |
| TimerRegistry.ExpiredCount | timer.cpp:157-161 | the first loop stops within the set; where it stops is stated by `ExpiredCountPrefix`, `ExpiredCountFirstLate` and `ExpiredCountIsDue` |
| TimerRegistry.ExpiredCountFirstLate | timer.cpp:158 | the first loop stops exactly at the first timer that is not due |
| TimerRegistry.ExpiredCountPrefix | timer.cpp:158-161 | every timer the first loop passes is due, and the one it stops at is not |
| TimerRegistry.ExpiredCountIsDue | timer.cpp:157-161 | in a sorted set, a position lies before the stop iff its timer is due |
| TimerRegistry.AllLate | timer.cpp:158 | when nothing is due, nothing is collected or rescheduled and everything survives |
| TimerRegistry.PrefixIsDue | timer.cpp:157-173 | the cut-off prefix yields exactly the callbacks of all due timers, in set order, and exactly the rescheduled timers; the rest is exactly the timers not due |
| TimerRegistry.FiredCallbacks | timer.cpp:166-173 | the callbacks the second loop appends to `cbs`, in batch order, skipping null ones; `PrefixIsDue` equates them with `DueCallbacks` |
| TimerRegistry.ReinsertStep | timer.cpp:168-178 | one element of the second loop: a timer with a callback and a positive interval is refreshed and inserted back; any other leaves the set as it is |
| TimerRegistry.ReinsertAll | timer.cpp:166-179 | the second loop's effect on the set, element by element in batch order; `ReinsertAllFacts` states it |
| TimerRegistry.BatchReschedules | timer.cpp:168-178 | the timers of a batch the second loop puts back, refreshed, in batch order; `PrefixIsDue` equates them with `Rescheduled` |
| TimerRegistry.ExpireState | timer.cpp:157-179 | the set `_ListExpireTimer` leaves: the due prefix cut off, then its recurring timers put back; `ExpireStateFacts` states it |
| TimerRegistry.SplitFacts | timer.cpp:163-164 | erasing a prefix leaves a valid set whose uids are disjoint from the erased ones |
| TimerRegistry.ReinsertAllFacts | timer.cpp:166-179 | reinserting the batch keeps the invariant and adds exactly the refreshed recurring timers that have a callback |
| TimerRegistry.SurvivorsFrom | timer.cpp:164 | a timer survives iff it was registered and is not due |
| TimerRegistry.RescheduledFrom | timer.cpp:174-178 | a timer is put back iff it is a due, recurring, non-null-callback timer, refreshed |
| TimerRegistry.DueCallbacksFrom | timer.cpp:166-173 | a callback is collected iff some due registered timer carries it |
| TimerRegistry.ExpireStateFacts | timer.cpp:163-179 | after collection the set is valid and holds exactly the survivors and the rescheduled timers; each carries an old uid and callback |
| TimerRegistry.BatchStep | timer.cpp:166-179 | one iteration of the second loop: append this timer's callback, reinsert it if it recurs |
| TimerRegistry.ExpireKeepsUidBound | timer.cpp:163-179 | collection introduces no new uid |
| TimerRegistry.ApplyOp | timer.cpp:103-142 | an add with a callback advances the counter by one; a delete or a null-callback add leaves it |
| TimerRegistry.ApplyAll | timer.cpp:103-142 | a sequence of calls advances the counter by at most one per call |
| TimerRegistry.ApplyOpFacts | timer.cpp:103-142 | one call keeps the set valid with issued uids; every timer afterwards was there before or is the one an add created, with that add's callback and a uid above the old counter |
| TimerRegistry.ApplyAllFacts | timer.cpp:103-142 | the same for any sequence of calls: every timer afterwards was there before or was added, with a new uid, by one of the calls |
| TimerRegistry.TimerManager.constructor | timer.h:100 | a new manager has an empty set |
| TimerRegistry.TimerManager.GetNearTimeout | timer.cpp:85-101 | `UINT32_MAX` for an empty set |
| TimerRegistry.NearTimeoutIsNearest | timer.cpp:85-101 | for a non-empty set the result is 0 iff some timer is due; otherwise it is the distance to the nearest deadline, which some timer attains |
| TimerRegistry.TimerManager.AddTimer | timer.cpp:103-122 | a null callback returns `INVALID_TIMER_ID` and changes nothing; otherwise exactly one timer due at `now + ms` is added under a fresh uid, which is returned; the upcall flag is set iff that timer is now first, iff it precedes all others; the new set and counter are `ApplyOp` of the old ones |
| TimerRegistry.TimerManager.InsertTimer | timer.cpp:182-203 | a null timer returns `INVALID_TIMER_ID`; otherwise the timer is added, its uid returned, the set becomes `Insert` of the old one, and the upcall flag is set iff it is the new first element |
| TimerRegistry.TimerManager.DelTimer | timer.cpp:124-142 | uid 0 or an unknown uid changes nothing; otherwise exactly that timer is erased, the others stay in order; the new set is `ApplyOp` of the old one |
| TimerRegistry.TimerManager.ListExpireTimer | timer.cpp:144-180 | returns the callbacks of all due timers in set order (none for an empty set); leaves exactly the survivors and the rescheduled timers; keeps the invariant |
| Dispatcher.WaitTimeout | event.cpp:150-152 | the wait timeout never exceeds 50 ms; it is the low 32 bits of the nearest timeout (the remainder modulo 2^32) when those are at most 50, and 50 otherwise; so it equals a nearest timeout of at most 50, and is 50 for one between 50 and `UINT32_MAX` |
| Dispatcher.WaitTimeoutWraps | event.cpp:150-152 | above `UINT32_MAX` the timeout is that of the nearest timeout minus 2^32: it depends only on the nearest timeout modulo 2^32 |
| Dispatcher.Run | event.cpp:147-199 | the `_ThreadEntry` loop on values: stop when keep-alive is clear, the trace is used up or a wait failed; otherwise record the due callbacks, continue from `AfterPass`, with keep-alive cleared if a stop arrived; its properties are `RunStep`, `RunStops`, `RunExtendsInvoked`, `RunKeepsRegistryWellFormed`, `RunInvokesRegistered`, `RunFromStart` and `RunExitsOnStopOrError` |
| Dispatcher.AfterPass | event.cpp:192-199 | collection followed by the pass's registry calls advances the counter by at most one per call |
| Dispatcher.TrackedAtStart | event.cpp:140-147 | a valid registry is accounted for by itself, before any pass |
| Dispatcher.AddedInGrows | event.cpp:192-199 | a callback added by a call after one of the first `n` passes was added after one of the first `m`, for `m >= n` |
| Dispatcher.TrackedGrows | event.cpp:192-199 | a registry accounted for by the first `n` passes is accounted for by the first `m`, for `m >= n` |
| Dispatcher.ExpireTracked | event.cpp:192-194 | collection keeps the set valid, the counter unchanged, and every timer left accounted for |
| Dispatcher.OpsTracked | event.cpp:192-199 | the registry calls made after pass `i` keep the set valid and every timer accounted for by the first `i + 1` passes |
| Dispatcher.DueProvided | event.cpp:192-198 | every callback collected from an accounted-for set is accounted for by the same passes |
| Dispatcher.PassTracked | event.cpp:192-199 | one pass, with the registry calls after it, keeps the set valid and every timer in it accounted for (registered at the start, or added by a call made after one of the passes up to `i`, under a uid issued after the start); every callback it collects is accounted for by the passes before `i` |
| Dispatcher.RunKeepsRegistryWellFormed | event.cpp:147-199 | however many passes run, whatever calls are made between them, the set stays valid with issued uids, and each timer in it carries the uid and callback of a timer registered at the start, or was added by a call made after one of the passes, with a uid issued after the start |
| Dispatcher.RunExtendsInvoked | event.cpp:193-198 | the loop only appends to what was invoked, at most one batch per pass |
| Dispatcher.RunInvokesRegistered | event.cpp:193-198 | every callback the loop invokes belongs to a timer registered at its start or added by a call made after a pass before the one that invoked it |
| Dispatcher.RunFromStart | event.cpp:140-202 | for a whole run from a valid registry, the set left is accounted for by that registry and the calls of the trace, and the batch invoked at pass `k` by that registry and the calls made after passes before `k` |
| Dispatcher.RunExitsOnStopOrError | event.cpp:147-175 | on a complete trace the loop ends with keep-alive set only if some wait failed |
| Dispatcher.RunStep | event.cpp:147-199 | a pass whose wait succeeded invokes the due callbacks and continues from the collected set after the pass's registry calls |
| Dispatcher.RunStops | event.cpp:171-175 | with keep-alive cleared or a failed wait the loop does nothing more |
| Dispatcher.Event.constructor | event.cpp:20-59 | a new dispatcher is `Exited`, not kept alive, with open handles, no signal and no thread |
| Dispatcher.Event.Start | event.cpp:66-95 | fails with a closed handle; succeeds without a second thread while kept alive; otherwise sets keep-alive and launches one thread, or fails if the thread cannot be created, leaving keep-alive set |
| Dispatcher.Event.Stop | event.cpp:97-127 | with a closed handle changes nothing; otherwise clears keep-alive, joins the thread (which records `Exited`) and closes the handle |
| Dispatcher.Event.Tickle | event.cpp:204-214 | signals the handle iff the state is `Waiting` |
| Dispatcher.Event.OnTimerInsertedAtFront | event.cpp:216-219 | the upcall is a `Tickle` |
| Dispatcher.Event.AddTimer | timer.cpp:196-200 | the registry's `AddTimer` (new set and counter are `ApplyOp` of the old ones), then a signal iff the new timer is first and the dispatcher is waiting |
| Dispatcher.Event.WaitForWake | event.cpp:149-181 | state `Waiting`; every wait's timeout is `WaitTimeout` of the nearest timeout at its own clock reading; the outcome is the first non-interrupted one; a signal that wakes the wait is consumed |
| Dispatcher.Event.Dispatch | event.cpp:192-194 | state `Processing`; collects the due callbacks and leaves the post-collection set |
| Dispatcher.Event.Pass | event.cpp:149-194 | a failed wait collects nothing and leaves the set alone; otherwise the pass collects as `Dispatch` does |
| Dispatcher.Event.InvokeAll | event.cpp:195-198 | the callbacks are invoked in exactly the order collected |
| Dispatcher.Event.ApplyOps | timer.cpp:103-142 | the calls made between passes leave `ApplyAll` of the registry and counter; while the dispatcher is not `Waiting` none of them signals it |
| Dispatcher.Event.Step | event.cpp:147-199 | one loop iteration, including the registry calls after it, keeps `Progress`: the dispatcher stays valid, every timeout so far is at most 50 ms, and what remains of the run is unchanged; it moves to the next pass, except after a failed wait, where the run is over with what was invoked so far |
| Dispatcher.Event.ThreadEntry | event.cpp:140-202 | ends `Exited`; the handle, the thread object and the launch count are left as they were; no wait exceeds 50 ms; the batches invoked, the set and counter left and the flag are exactly those of `Run` on the initial ones |
| Dispatcher.StartTwice | event.cpp:80-83 | a second `start` while running succeeds and launches no second thread |
| Dispatcher.StartAfterFailedSpawn | event.cpp:85-93 | after a failed thread creation, a second `start` reports success with no thread launched |
| Dispatcher.StartAfterStop | event.cpp:75-78 | `start` after `stop` fails |
| Dispatcher.StopTwice | event.cpp:106-109 | two `stop` calls leave exactly what one leaves: from a closed handle nothing changes; otherwise keep-alive, handle, joinable and signal are cleared and the state becomes `Exited` if a thread was joined and is otherwise unchanged |

## Left out

- OS I/O: `epoll_create`, `eventfd`, `epoll_wait`, `eventfd_read`/`eventfd_write`, `CreateEvent`, `SetEvent` and `WaitForSingleObject`. A wait is an outcome supplied by the trace. The eventfd counter is a boolean `signaled` flag, set by `Tickle` and cleared when a wait returns `Signaled` (the Linux path). On Windows every successful wait ends with `ResetEvent` (event.cpp:190); that variant is not modelled.
- Threads, `std::atomic` and `std::mutex`: every registry operation is atomic and sequential. A `stop` racing with the loop is `Round.stopRequested`. The pass that `stop`'s `_Tickle` wakes and its `join` waits for (event.cpp:111-117) is the last round of the trace given to `ThreadEntry`, the one with `stopRequested`, so `Stop` itself performs no pass and joining the thread is the loop's exit. `AddTimer`/`DelTimer` calls from other threads are applied between passes (`Round.ops`). A call that lands between two retried waits, or during collection, is not modelled at that point.
- The clock `CTimer::CurrentTime` (timer.cpp:76-83) is a `now` parameter; within a pass each wait and the collection carry their own reading.
- Callbacks are opaque tokens: invoking one is recorded. A callback's calls into the registry are the round's `ops`, applied after the whole batch. Their interleaving with the later callbacks of the same batch, and every other effect of a callback, are not modelled.
- `shared_ptr` aliasing: the registry holds timer values. Changing a `CTimer` object already in the set through another handle is not modelled.
- Exceptions: the `make_shared` failure in `AddTimer` (timer.cpp:116-119), the constructor's `throw` on a failed handle (event.cpp:27-56) and `_ThreadEntryWrapper`'s catch-all. Thread-creation failure is modelled as `Start`'s `spawnOk` parameter.
- `printf` diagnostics, the destructors (`~CEvent` only calls `stop`, which `Stop` models), and the deleted copy operations of `CTimerManager`.
- main.cc and test_timer.cc are demo programs and are not part of this model.
- TimerEntity.UidCounter.Next: requires the counter to be below 2^64-1, so the wrap of `++g_uniqueIdCount` back to 0 is not modelled.
- TimerEntity.Timer.Default: inherits that requirement on the counter.
- TimerEntity.Timer.constructor: inherits that requirement on the counter.
- TimerRegistry.TimerManager.AddTimer: inherits that requirement on the counter.
- Dispatcher.Event.AddTimer: inherits that requirement on the counter.
- TimerRegistry.ApplyOp: a call that adds a timer requires the counter to be below 2^64-1, for the same reason.
- TimerRegistry.ApplyAll: requires room in the counter for one uid per call, for the same reason.
- Dispatcher.Event.ApplyOps: requires room in the counter for one uid per call, for the same reason.
- Dispatcher.Event.Step: requires room in the counter for every call left in the trace, for the same reason.
- TimerRegistry.TimerManager.InsertTimer: requires the timer's uid to be drawn from the counter and not yet registered, which `AddTimer` guarantees. Inserting a copy whose uid is already in the set is not covered by its contract, though `Insert` handles it like `std::set`.
- Dispatcher.Event.ThreadEntry: covers only traces after which the thread returns (the last pass stops or fails). A loop that runs forever has no complete trace. It also requires room in the counter for every registry call of the trace.
- Dispatcher.Event.WaitForWake: the set cannot change between an interrupted wait and its retry, so only the clock moves the recomputed timeout.
