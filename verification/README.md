# Tigerkin: a verification model

A Dafny model of the hard parts of the Tigerkin server framework (C++), and proofs of what they promise.
`dafny verify dfyconfig.toml` checks all of it.

**Event loop.** `TaskPool`, `IoEvents` and `IoManager` model the scheduler's task list and the per-descriptor
event contexts as classes changed in place, each method tied to a function. `EventLoop` puts them together
with `Scheduler::run`, `IOManager::idle`, the `doSocketIo` hook, its timeout callbacks and `stop()` as one
transition system. One step is one lock-protected section; any number of worker threads and coroutines take
steps in any order; readiness, expired timers and the results of system calls are chosen freely. The
invariant (`EventLoopInvariant`), what each step brings about and which threads can take one
(`EventLoopEffects`), the theorems over whole runs (`EventLoopTheorems`), shutdown
(`EventLoopShutdown`), timeouts (`EventLoopTimeouts`, `EventLoopWaits`), the thread numbers of contexts
(`IoHistory`) and the life of every task (`TaskHistory`) are separate files.

**Timers.** `Timers` specifies the ordered set, `TimerManager.dfy` the classes, `TimerHistory` shows that
over whole runs each timer behaves like a cell of its own, and `TimerWakeup` treats arming a timer against
sleeping in `epoll_wait`.

**ByteArray.** `ByteArrays` is the chunked array as one flat byte sequence with a cursor, `ChunkList` the
linked nodes with their copy loops, `ByteCodec` the typed readers and writers and their byte order.

**HTTP/1.1 framing.** `ChunkedBody` models the chunk-header grammar, the nested receive loops and every
fragmentation of the stream, `ChunkedReads` says for which of them the body is right; `HttpResponse` is the
case-insensitive header map; `ResponseParser` the printer and the response grammar as a machine,
`ResponseLines` what its lines mean, `ResponseText` exactly which texts are accepted, and as what.

**Coroutine stacks** (`Coroutines`, `CoroutineThread`), the **connection pool** (`ConnectionPool`), **log
patterns** (`LogPattern`) and **URL coding** (`UrlCoding`) complete it.

## What the proofs brought out

The code is modelled as written. Where it does not do what its evident intent is, the exact condition under
which it does is proved, and a lemma names the failing case.

- Delivery: an error or hang-up counts as both directions, so a descriptor waiting for READ only makes the
  process abort on the assertion of `triggerEvent` (`IoEvents.DeliverAbortsIff`, `IoEvents.HangUpAborts`).
  It is the only way a run can crash (`EventLoopTheorems.CrashIsMismatch`).
- `triggerEvent` and the callback branch of `addEvent` leave an old thread number in the context: a callback
  is free to run anywhere exactly if no coroutine was registered on its slot since the slot's last deletion
  (`IoHistory.CallbackUnpinnedIff`, `IoEvents.CallbackInheritsThread`).
- Shutdown: a worker that passed line 164 goes back into `epoll_wait` with `m_mutex` held exactly if an event
  is registered at its second check (`EventLoopShutdown.WedgesIff`, `EventLoopTheorems.RaceWedges`,
  `WedgeIsForEver`).
- `stopping()` can become false again exactly if the calling thread holds a task that will run, or executes a
  coroutine that can act (`EventLoopShutdown.StoppingEndsIff`): one that is not merely about to yield, and for
  a callback or a timeout's cancellation no worker may be wedged with the lock.
- `doSocketIo` arms the timer before it calls `addEvent`. A wait has no timeout coming exactly if the callback
  was through before, or if the timer expired after `stop()`, which refuses the callback
  (`EventLoopWaits.WaitsInVainIff`, `EventLoopTimeouts.RaceSpendsTimeout`, `EventLoopWaits.StopDropsTimeout`).
  A callback left over from an earlier wait cuts the next one short, and one past its check cancels whoever
  is registered on the slot (`EventLoopWaits.LeftoverCutsShort`, `CancelTimeoutHits`).
- `addCondTimer` drops its `recurring` argument; a timer added without a callback can be neither cancelled
  nor refreshed; a deadline that wraps at 64 bits is due at once (`TimerManagers.TimerManager.AddCondTimer`,
  `TimerHistory.CancelTells`, `TimerHistory.DueAtOnceIff`).
- `ByteArray`: overwriting inflates `m_size`, an empty read can move the cursor, `setOffset` off a boundary
  lands one chunk short (`ByteArrays.SizeIsExtentIff`, `EmptyReadIff`, `SetOffsetIff`).
- A chunk header that one read does not bring whole is forgotten as far as it was read: exactly when that
  happens, and that it costs data (`ChunkedReads.SplitIff`, `ChunkedReads.CutLosesData`,
  `ChunkedBody.SplitTruncates`). The end of the stream inside a chunk is never noticed
  (`ChunkedBody.EndInsideChunkHangs`).
- README.md:61 says that `resume` acts only on stack tops and on coroutines in no stack. The code pushes a
  covered or finished coroutine a second time, and resuming the top of another stack from a coroutine saves
  the wrong context (`Coroutines.ResumeKeepsIff`, `ResumeContextsIff`); `Coroutine::Resume` on an unknown
  number leaves two coroutines `EXECING` (`ResumeStackKeepsIff`).
- The pool compares ages with `<` on reuse and `<=` on release (`ConnectionPool.AgeBoundary`).
- `LogFormatter::init` pushes the error text for an open brace before the literal that was pending
  (`LogPattern.OpenBrace`).
- `UrlDecode` tests its second digit with `isdigit` (`UrlCoding.RoundTripIff`).

## Model

| member | source | states |
|---|---|---|
| TaskPool.FirstEligible | src/scheduler.cpp:94-117 | a thread's scan stops at a task it may take and skips none it may take |
| TaskPool.FirstEligibleIs | src/scheduler.cpp:94-117 | that position is the only one with this property |
| TaskPool.Scheduler.constructor | src/scheduler.cpp:16-30 | a scheduler starts with no tasks, not stopped, nobody idle |
| TaskPool.Scheduler.ScheduleWithoutLock | src/scheduler.h:106-121 | accepts exactly when not stopping or forced, ignores an empty task, appends at the end; asks for a wake-up when something is queued and a thread idles |
| TaskPool.Scheduler.Schedule | src/scheduler.h:39-50 | the pool grows as above, and a wake-up goes out exactly when something is queued while a thread idles |
| TaskPool.Scheduler.ScheduleIterator | src/scheduler.h:51-64 | a whole range is queued in its order, all or nothing; a wake-up goes out exactly when the range is not empty, is accepted, and leaves something queued while a thread idles |
| TaskPool.Scheduler.Take | src/scheduler.cpp:94-117 | takes the earliest task not pinned to another thread and leaves the others in order; asks for a wake-up when it skipped something or left something to an idle thread |
| TaskPool.QueueAllAppends | src/scheduler.h:51-64 | queueing never disturbs what is queued; what is accepted is at the end, unpinned |
| TaskHistory.AcceptIsQueue | src/scheduler.h:106-121 | accepting a task does to the numbered pool what schedule does to the list of class Scheduler |
| TaskHistory.TakeIsWithout | src/scheduler.cpp:94-117 | taking one does what Take does, and the task is in the thread's hand |
| TaskHistory.TurnIsQueue | src/scheduler.cpp:132-141 | wrapping a callback queues one coroutine task with its pin, even after stop() |
| TaskHistory.RunFrees | src/scheduler.cpp:121-131 | executing a coroutine empties the thread's hand and nothing else |
| TaskHistory.ExecutionInv | src/scheduler.cpp:94-140 | in every state of every run the pool is an ordered list of distinct untaken tasks and every hand holds what it took |
| TaskHistory.EveryTaskOnce | src/scheduler.cpp:94-140 | an accepted task is in the pool once or was taken once by a thread its pin allows; a taken callback is in its taker's hand or became exactly one coroutine task with the same pin |
| TaskHistory.TakesTheEarliest | src/scheduler.cpp:98-113 | what a thread takes is the earliest accepted task, among all not yet taken, that it may take |
| IoEvents.InitialInv | src/iomanager.cpp:47-62 | a new manager has no event set, an empty interest mask and a zero counter |
| IoEvents.PendingZero | src/iomanager.cpp:239-241 | m_pendingEventCount is 0 exactly when no bit is set on any descriptor |
| IoEvents.TriggerKeepsCount | src/iomanager.cpp:35-45 | the counter is positive whenever an event fires, and follows the bits, so it never wraps |
| IoEvents.TriggerBothKeeps | src/iomanager.cpp:220-228 | firing READ then WRITE clears exactly the wanted bits of one descriptor and touches no other |
| IoEvents.AddEvent | src/iomanager.cpp:76-123 | on success the event is set and its context holds the callback, or the coroutine and its thread |
| IoEvents.AddEventKeepsInv | src/iomanager.cpp:76-123 | from every consistent state: ADD or MOD is legal, the context is free (the assertion of line 113 holds), the call succeeds iff the event was free and the kernel accepts, and kernel mask, bits, contexts and counter stay consistent |
| IoEvents.AddNeverAborts | src/iomanager.cpp:111-113 | the assertion on the context never fails in a consistent state, whatever the kernel answers |
| IoEvents.GrowSize | src/iomanager.cpp:76-88 | the table grows only for a descriptor beyond it, to one and a half times that, and keeps what it has |
| IoEvents.DelEventKeepsInv | src/iomanager.cpp:125-158 | succeeds iff the event is set and the kernel accepts; one event less, nothing queued, state consistent; on failure nothing changes |
| IoEvents.CancelEventKeepsInv | src/iomanager.cpp:160-191 | succeeds iff the event is set and the kernel accepts; queues exactly the registered continuation; state consistent; on failure nothing changes |
| IoEvents.CancelAllKeepsInv | src/iomanager.cpp:193-230 | as above for all events of a descriptor: exactly the registered continuations, READ before WRITE |
| IoEvents.DeliverKeepsInv | src/iomanager.cpp:279-316 | delivery clears the ready bits, queues exactly the continuations registered for them, READ before WRITE, and keeps everything consistent |
| IoEvents.DeliverAbortsIff | src/iomanager.cpp:292-316 | delivery dies on the assertion of line 36 exactly when readiness meets the registered events without being among them |
| IoEvents.HangUpAborts | src/iomanager.cpp:281-315 | an error or hang-up on a descriptor that waits for READ only is such a case |
| IoEvents.CallbackInheritsThread | src/iomanager.cpp:28-45 | the case: a callback registered on a slot where a coroutine was cancelled is pinned to that coroutine's thread |
| IoHistory.RunInv | src/iomanager.cpp:76-316 | every state of every run of additions, deletions, cancellations and deliveries is consistent |
| IoHistory.StepThread | src/iomanager.cpp:28-45 | only a coroutine's registration and a deletion change the thread number of a slot |
| IoHistory.CallbackUnpinnedIff | src/iomanager.cpp:111-121 | over every such run a waiting callback may run on any thread exactly if no coroutine was registered on its slot since the slot's last successful deletion |
| IoHistory.RegisteredUnpinnedIff | src/iomanager.cpp:111-121 | the same at the moment of its registration |
| IoManager.FdContext.Occupy | src/iomanager.cpp:111-121 | sets the bit and fills the context; a callback leaves the old thread number in place |
| IoManager.FdContext.Vacate | src/iomanager.cpp:28-33 | clears the bit and the context |
| IoManager.FdContext.TriggerEvent | src/iomanager.cpp:35-45 | clears the bit, hands the continuation to the pool even after stop(), keeps the thread number |
| IoManager.IoManager.constructor | src/iomanager.cpp:47-62 | the table is preallocated with empty entries |
| IoManager.IoManager.GrowTo | src/iomanager.cpp:325-338 | the table only grows, by empty entries |
| IoManager.IoManager.AddEvent | src/iomanager.cpp:76-123 | the class does to its fields what the specification function does, and stays consistent |
| IoManager.IoManager.AddToContext | src/iomanager.cpp:88-122 | the same from the descriptor lock on |
| IoManager.IoManager.DelEvent | src/iomanager.cpp:125-158 | likewise for removal |
| IoManager.IoManager.TriggerAndCount | src/iomanager.cpp:308-315 | trigger plus decrement, bits and counter together |
| IoManager.IoManager.TriggerAllIn | src/iomanager.cpp:220-228 | READ before WRITE, each only if wanted and set |
| IoManager.IoManager.CancelEvent | src/iomanager.cpp:160-191 | likewise for cancellation, with what is queued |
| IoManager.IoManager.CancelAllEvent | src/iomanager.cpp:193-230 | likewise for all events of a descriptor |
| IoManager.IoManager.TriggerReady | src/iomanager.cpp:308-315 | aborts exactly when some ready event is not set; otherwise fires the ready ones |
| IoManager.IoManager.DeliverOne | src/iomanager.cpp:279-316 | one entry of epoll_wait's report: skipped, delivered or fatal as specified, consistent unless fatal |
| EventLoopInvariant.TakeKeeps | src/scheduler.cpp:94-117 | taking a task keeps the whole-system invariant (one place per coroutine, right pins, exact counters, history) |
| EventLoopInvariant.DispatchKeeps | src/scheduler.cpp:121-141 | resuming a coroutine or wrapping a callback keeps it |
| EventLoopInvariant.DecideKeeps | src/scheduler.cpp:142-178 | going idle or passing line 164 keeps it; the two thread counters stay exact |
| EventLoopInvariant.CloseCheckKeeps | src/scheduler.cpp:163-167 | the second look at canEarlyClosure keeps it |
| EventLoopInvariant.IdleCheckKeeps | src/iomanager.cpp:255-266 | the head of idle keeps it |
| EventLoopInvariant.ExpireKeeps | src/iomanager.cpp:267-269 | queueing any set of expired timeouts keeps it |
| EventLoopInvariant.DeliverKeeps | src/iomanager.cpp:271-316 | delivery keeps it, or is fatal exactly on a mismatch of readiness and registration |
| EventLoopInvariant.BeginKeeps | src/hook.cpp:79-107 | entering a socket call keeps it |
| EventLoopInvariant.AttemptKeeps | src/hook.cpp:108-125 | the system call and, on EAGAIN, arming the timer keep it |
| EventLoopInvariant.RegisterKeeps | src/hook.cpp:126-145 | addEvent for the running coroutine keeps it |
| EventLoopInvariant.YieldKeeps | src/hook.cpp:127 | parking keeps it |
| EventLoopInvariant.WakeKeeps | src/hook.cpp:128-147 | waking up, cancelling the timer and retrying or returning keep it |
| EventLoopInvariant.CheckTimeoutKeeps | src/hook.cpp:116-121 | the timeout callback's test and mark keep it |
| EventLoopInvariant.CancelTimeoutKeeps | src/hook.cpp:122-123 | the timeout callback's cancelEvent keeps it |
| EventLoopInvariant.AddCallbackKeeps | src/iomanager.cpp:76-123 | registering a callback keeps it |
| EventLoopInvariant.DeleteKeeps | src/iomanager.cpp:125-158 | delEvent keeps it |
| EventLoopInvariant.CancelKeeps | src/iomanager.cpp:160-191 | cancelEvent keeps it |
| EventLoopInvariant.CancelAllKeeps | src/iomanager.cpp:193-230 | cancelAllEvent keeps it |
| EventLoopInvariant.FinishKeeps | src/scheduler.cpp:121-141 | a coroutine ending keeps it |
| EventLoopInvariant.SpawnKeeps | src/scheduler.h:39-50 | scheduling a callback, or a coroutine that never ran, from inside or outside keeps it |
| EventLoopInvariant.StepKeeps | src/scheduler.cpp:90-181 | the invariant is inductive over every step of every thread; the only exit is the fatal delivery |
| EventLoopEffects.TakeTakes | src/scheduler.cpp:94-117 | in every reachable state the task at the first position pinned to nobody or to this thread leaves the pool, the others stay in order, and it is in the thread's hand, a coroutine with it; without one the thread goes on to idle; nothing else changes |
| EventLoopEffects.DispatchResumes | src/scheduler.cpp:121-131 | a coroutine in hand is executed and belongs to the thread from then on; nothing else changes |
| EventLoopEffects.DispatchWraps | src/scheduler.cpp:132-141 | a callback in hand becomes one new coroutine at the end of the pool, with the callback's pin, even after stop(); one of a timer starts with the test of its call |
| EventLoopEffects.DecideGoes | src/scheduler.cpp:142-178 | where a thread with nothing to take goes, for caller and workers, in terms of flags, pool, registrations and counters, and what becomes of the two counters |
| EventLoopEffects.CloseCheckGoes | src/scheduler.cpp:163-167 | where a closing worker goes at its second check |
| EventLoopEffects.IdleCheckGoes | src/iomanager.cpp:255-266 | idle ends exactly if stopping() holds, which in idle happens to the calling thread only; else epoll_wait reports |
| EventLoopEffects.ExpireQueues | src/iomanager.cpp:267-269 | the callbacks of expired timers go to the end of the pool in order, for any thread, but not after stop(); the timers are gone either way and no other is |
| EventLoopEffects.IdleYieldGoes | src/iomanager.cpp:317-319 | back to the run loop, counted idle no longer |
| EventLoopEffects.DeliverWakes | src/iomanager.cpp:279-316 | the first entry is off the report; if it meets what is registered and the kernel agrees, exactly the ready registrations end, READ before WRITE, their continuations queued in that order, or the process dies if one is not registered |
| EventLoopEffects.CancelWakes | src/iomanager.cpp:160-191 | the registration on the slot ends and what was registered is queued, exactly if there is one and the kernel agrees; else nothing happens; the contexts change as class IoManager's do |
| EventLoopEffects.CancelAllWakes | src/iomanager.cpp:193-230 | likewise for all registrations of a descriptor, READ before WRITE |
| EventLoopEffects.DeleteForgets | src/iomanager.cpp:125-158 | the registration ends, nothing is queued, and a coroutine is left with nobody to wake it |
| EventLoopEffects.AddCallbackRegisters | src/iomanager.cpp:76-123 | a callback is registered with the next number on a free slot if the kernel agrees, pinned to the thread the slot was left with |
| EventLoopEffects.RegisterRegisters | src/hook.cpp:126-145 | in a call the caller is registered, pinned to its thread, on a free slot if the kernel agrees; else the call is over and its timer gone |
| EventLoopEffects.BeginCalls | src/hook.cpp:79-107 | a socket call begins alive, unmarked and without a timer |
| EventLoopEffects.AttemptArms | src/hook.cpp:108-125 | on EAGAIN a call with a timeout arms a timer of its own; without EAGAIN the call is over |
| EventLoopEffects.YieldParks | src/hook.cpp:127 | the thread is free and the coroutine stays where it is registered or queued |
| EventLoopEffects.WakeDisarms | src/hook.cpp:128-147 | waking up disarms the timer; the call tries again exactly if it was not marked and is to |
| EventLoopEffects.CheckMarks | src/hook.cpp:116-121 | a timeout callback marks a call exactly if it is alive and unmarked, and only then goes on to cancel |
| EventLoopEffects.CancelTimeoutWakes | src/hook.cpp:122-123 | and cancelling ends the registration on the call's slot, if there is one |
| EventLoopEffects.FinishEnds | src/scheduler.cpp:121-141 | a coroutine that ends is done and on no thread |
| EventLoopEffects.SpawnQueues | src/scheduler.h:39-50 | a task is queued with its pin, but not after stop() unless forced |
| EventLoopEffects.StopSets | src/scheduler.cpp:69-88 | stop() sets its flags one after the other |
| EventLoopEffects.CanStepIff | src/scheduler.cpp:90-181 | in every reachable state a thread can go on exactly if it has neither left nor been caught in epoll_wait and m_mutex is free where its next section takes it: nothing else ever blocks a thread |
| EventLoopTheorems.InitialInv | src/scheduler.cpp:47-67 | the state after start() satisfies the invariant |
| EventLoopTheorems.ExecutionInv | src/scheduler.cpp:90-181 | every state of every run satisfies it, unless the run ended in the fatal delivery |
| EventLoopTheorems.CrashIsMismatch | src/iomanager.cpp:35-45 | a run dies only in its last step, delivering readiness that is not registered; neither the assertion of line 113 nor a context without continuation is ever met |
| EventLoopTheorems.OnePlace | src/iomanager.cpp:111-121 | a coroutine is in at most one slot, pool position, hand or thread, and what can wake it is pinned to its own thread |
| EventLoopTheorems.ResumeIsSafe | src/scheduler.cpp:121-131 | whoever is resumed is not running anywhere, has not finished, belongs to this thread or to none yet, and no second reference to it exists |
| EventLoopTheorems.RegisterPins | src/hook.cpp:126-145 | addEvent in a socket call registers the caller, pinned to its thread, exactly when slot and kernel allow it; otherwise the call ends |
| EventLoopTheorems.StepRetires | src/iomanager.cpp:35-45 | in one step, what is appended to the pool is exactly the continuations of the registrations retired in it |
| EventLoopTheorems.Conservation | src/iomanager.cpp:76-230 | over every run each registration is outstanding or retired exactly once; delivery and cancellation queued its continuation, delEvent nothing |
| EventLoopTheorems.StoppingMeans | src/iomanager.cpp:239-245 | stopping() implies: every worker has passed line 164, the pool is empty, nothing is registered or parked in a slot, and every registration ever made is retired |
| EventLoopTheorems.OutstandingKeepsRunning | src/iomanager.cpp:239-241 | an outstanding registration keeps stopping() false |
| EventLoopTheorems.StoppingIsStable | src/scheduler.cpp:187-193 | once true with the calling thread out of a task, stopping() survives every step but a forced schedule from outside |
| EventLoopShutdown.StoppingEndsIff | src/scheduler.cpp:69-88 | from every reachable state where stopping() holds: some continuation without a forced schedule from outside ends it, exactly if the calling thread holds a task that will run or executes a coroutine that can act |
| EventLoopShutdown.InertStep | src/scheduler.cpp:187-193 | otherwise every step leaves stopping() true and the calling thread unable |
| EventLoopShutdown.ExecutionClosing | src/scheduler.cpp:163-165 | in every state of every run, while a worker is past line 164, autoStop is set, the pool empty and nobody idle |
| EventLoopShutdown.WedgesIff | src/scheduler.cpp:163-167 | in every run a worker past line 164 goes back to epoll_wait with m_mutex held exactly when an event is registered at its second check |
| EventLoopTheorems.RaceWedges | src/scheduler.cpp:163-167 | from every state where a worker is about to leave and another coroutine can register, that race is possible |
| EventLoopTheorems.WedgeIsForEver | src/scheduler.cpp:163-167 | after it no task is ever queued by schedule, taken or expired again |
| EventLoopTheorems.FireIfIsTriggerIf | src/iomanager.cpp:35-45 | the machine's trigger does to contexts and pool what the specification of class IoManager does |
| EventLoopTheorems.FireBothIsTriggerBoth | src/iomanager.cpp:220-228 | likewise for both directions |
| EventLoopTheorems.DeliveryIsDeliver | src/iomanager.cpp:279-316 | likewise for a whole delivery: skipped, delivered or fatal alike |
| EventLoopTimeouts.CallStepsAre | src/hook.cpp:108-147 | a step of a socket call changes its own coroutine, its own call and its own timer, and nothing else of calls, timers, pool or threads |
| EventLoopTimeouts.UnrelatedMoves | src/scheduler.cpp:90-181 | no step that is not one of a socket call or a timer changes a call or a timer, or loses a timeout callback |
| EventLoopTimeouts.SpentStep | src/hook.cpp:116-124 | a timeout is spent by its callback's cancelEvent and by no other step; once spent, that call is never made again |
| EventLoopWaits.WaitStep | src/hook.cpp:108-147 | every step of every thread keeps: one coroutine per call, one marking callback per call, and every timed wait accounted for |
| EventLoopWaits.WaitIsCovered | src/hook.cpp:114-127 | over every run a timed call that waits at its slot has its timer armed, or its callback queued, held, checking or cancelling, or its timeout spent, or its timer dropped after stop() |
| EventLoopWaits.SpentIff | src/hook.cpp:121-123 | over every run a timeout is spent exactly if its callback called cancelEvent some time before |
| EventLoopWaits.WaitsInVainIff | src/hook.cpp:114-135 | over every run a timed wait has no timeout coming exactly if its callback was through cancelEvent before, or its timer expired after stop() with no callback of an earlier wait left over |
| EventLoopWaits.RegisteredTooLateIff | src/hook.cpp:114-127 | the same at the moment addEvent succeeds |
| EventLoopWaits.StopDropsTimeout | src/iomanager.cpp:267-268 | the second case: after stop() an expired timer leaves the set and its callback is refused; the wait that follows has no timeout and no mark |
| EventLoopWaits.CancelTimeoutHits | src/hook.cpp:122-123 | a callback past its check retires and queues whatever is registered on the slot, its own call's wait or another's; nothing exactly if the slot is free |
| EventLoopWaits.LeftoverCutsShort | src/hook.cpp:116-124 | a callback of an earlier wait that finds its call alive and unmarked ends the present wait while its timer is still armed |
| EventLoopTimeouts.RaceSpendsTimeout | src/hook.cpp:114-126 | the first case: timer armed, callback run to its end on another thread, then addEvent |
| Timers.LowerBound | src/timer.cpp:14-31 | the first position whose key is not before the probe's |
| Timers.InsertKeepsSorted | src/timer.cpp:104-114 | insertion keeps the set strictly sorted and adds exactly one element |
| Timers.RemoveKeepsSorted | src/timer.cpp:42-54 | erasing keeps it sorted and removes exactly that element |
| Timers.FindFinds | src/timer.cpp:42-54 | find locates a member and nothing else, because keys change only outside the set |
| Timers.CutIsExact | src/timer.cpp:135-150 | the split of listExpiredCbs is exact, whatever address its probe object has |
| Timers.ExpireIsExact | src/timer.cpp:135-162 | handed out, in set order, are exactly the timers due; the others stay, recurring ones come back with a deadline from now, one-shot ones lose their callback |
| Timers.ProbeIsIrrelevant | src/timer.cpp:135-162 | two probes at any two addresses give the same result and the same set |
| Timers.AddKeeps | src/timer.cpp:104-114 | addTimer keeps the set sorted, adds one timer, and owes a wake-up exactly when the new one is first |
| Timers.CancelKeeps | src/timer.cpp:42-54 | cancel succeeds exactly for a timer with callback in the set, takes it out, and leaves the rest |
| Timers.RefreshKeeps | src/timer.cpp:56-73 | refresh moves one deadline and keeps the members; owes a wake-up exactly when the timer becomes first; on a timer not in the set it drops the callback |
| Timers.ResetKeeps | src/timer.cpp:75-96 | reset does nothing for the same period, else like refresh with the new one |
| Timers.GetNextTimeIs | src/timer.cpp:164-176 | over all armed timers: 0 exactly if one is due, else the time to a deadline none comes before; the largest number if nothing is armed |
| Timers.Add64Is | src/timer.cpp:33-36 | a deadline is clock plus period, less 2^64 exactly if that overflows |
| TimerHistory.RunIsSolo | src/timer.cpp:42-162 | refinement over every run: each timer's fields, membership and firings are those of a cell that knows of no other timer |
| TimerHistory.CancelTells | src/timer.cpp:42-96 | in every reachable state cancel and refresh succeed exactly when the callback is still there (reset also for an unchanged period) |
| TimerHistory.CallbackIffArmed | src/timer.cpp:42-162 | for a timer added with a callback, the callback is there exactly while the timer is in the set |
| TimerHistory.OneShotOnce | src/timer.cpp:135-162 | a one-shot timer is handed out at most once, and not before it left the set |
| TimerHistory.NeverEarly | src/timer.cpp:135-162 | nothing is handed out before its deadline |
| TimerHistory.FiredIsDue | src/timer.cpp:135-162 | one call hands out due timers in strict order of deadline and address |
| TimerHistory.NeverAfterCancel | src/timer.cpp:42-54 | after cancel returned true the timer is never handed out again |
| TimerHistory.NeverAfterCancelAll | src/timer.cpp:127-133 | nor, after cancelAllTimers, is any timer there was |
| TimerHistory.FiringsAreSpaced | src/timer.cpp:135-162 | successive firings are at least a period apart, if no refresh or reset reads a clock older than the last firing |
| TimerHistory.MonotoneClockSpaces | src/timer.cpp:56-162 | so over every run whose clock never goes back, refresh and reset included |
| TimerHistory.DueAtOnceIff | src/timer.cpp:33-40 | a new timer is due at the reading it was armed at exactly when its period is 0 or the 64-bit sum wraps |
| TimerHistory.DueIff | src/timer.cpp:33-36 | at any later reading a new timer is handed out exactly if the 64-bit sum of clock and period has come |
| TimerManagers.Timer.constructor | src/timer.cpp:33-40 | the deadline is the 64-bit sum of clock and period |
| TimerManagers.Timer.Cancel | src/timer.cpp:42-54 | the object changes as specified, with the manager's set |
| TimerManagers.Timer.Refresh | src/timer.cpp:56-73 | likewise |
| TimerManagers.Timer.Reset | src/timer.cpp:75-96 | likewise |
| TimerManagers.TimerManager.constructor | src/timer.cpp:98-99 | a manager starts with no timer |
| TimerManagers.TimerManager.AddTimer | src/timer.cpp:104-114 | likewise, and says whether onTimerRefresh is owed |
| TimerManagers.TimerManager.AddCondTimer | src/timer.cpp:123-125 | the recurring flag is dropped: the timer is always one-shot |
| TimerManagers.TimerManager.CancelAllTimers | src/timer.cpp:127-133 | likewise |
| TimerManagers.TimerManager.ListExpiredCbs | src/timer.cpp:135-162 | the callbacks of the expired timers in set order, and the set as specified |
| TimerManagers.TimerManager.GetNextTime | src/timer.cpp:164-176 | the wait until the soonest deadline of the timers in the set, 0 exactly if one is due, the largest number when nothing is armed |
| TimerWakeup.AddStep | src/timer.cpp:104-114 | an insertion, its clock read any time before the lock, while the loop is committed to a deadline is behind it or owes a wake-up |
| TimerWakeup.RefreshStep | src/timer.cpp:56-73 | likewise for refresh |
| TimerWakeup.ResetStep | src/timer.cpp:75-96 | likewise for reset |
| TimerWakeup.NextIsFirst | src/timer.cpp:164-176 | no armed timer is due before the time getNextTime names, which is the deadline of one; it is 0 exactly if one is due |
| TimerWakeup.AskIs | src/iomanager.cpp:258-264 | the timeout given to epoll_wait: 0 exactly if a timer is due, else the time to the soonest deadline, but at most 5 seconds |
| TimerWakeup.RecheckIs | src/iomanager.cpp:265-268 | after epoll_wait the loop goes on to the expired timers exactly if it reported something, a timer is due or stop() was called; then the timers due leave the set, the recurring ones come back |
| TimerWakeup.AddIs | src/timer.cpp:104-121 | the new timer is armed for the 64-bit sum of its clock reading and period; a wake-up is owed exactly if no armed timer comes before it |
| TimerWakeup.CancelIs | src/timer.cpp:42-54 | a timer cancelled with its callback is not armed any more, the others stay; after cancelAllTimers none is |
| TimerWakeup.RearmIs | src/timer.cpp:56-96 | refresh and reset move the deadline of an armed timer to the sum of clock and period; a wake-up is owed exactly if no other comes before it |
| TimerWakeup.LoopIs | src/iomanager.cpp:232-237 | a tickle writes one byte, known to the kernel, exactly while the loop is idle; what the other steps of the loop do to pipe, readiness and place |
| TimerWakeup.LoopGoesOn | src/iomanager.cpp:247-323 | the loop thread can always take its next step |
| TimerWakeup.StepKeeps | src/iomanager.cpp:247-323 | every step of the loop, of arming threads, of tickles and of the clock keeps the wake-up invariant |
| TimerWakeup.ExecutionInv | src/iomanager.cpp:247-323 | so every state of every run has it |
| TimerWakeup.NoLostWakeup | src/iomanager.cpp:258-265 | from reading the deadline to leaving epoll_wait: the timeout is 0, or the deadline is at or before every armed timer, or the pipe is readable and the kernel knows it, or a thread still owes its onTimerRefresh |
| TimerWakeup.NeverOversleeps | src/iomanager.cpp:258-266 | once nobody owes a wake-up, the loop must leave at once or has slept less than any armed timer had to go when the deadline was read |
| TimerWakeup.MustLeaveStopsTime | src/iomanager.cpp:258-266 | and the clock cannot advance past the moment it must leave |
| ByteArrays.NodesFor | src/bytearray.cpp:86-103 | capacity only grows, and there is at least one chunk |
| ByteArrays.Enough | src/bytearray.cpp:86-103 | the chunks cover the capacity asked for, and no chunk more is allocated than that takes |
| ByteArrays.WriteKeepsWf | src/bytearray.cpp:105-139 | from any cursor, a write that stays inside the list leaves a well-formed array and never throws |
| ByteArrays.ReadKeepsWf | src/bytearray.cpp:141-174 | likewise for a read |
| ByteArrays.WriteInPlace | src/bytearray.cpp:105-139 | from a cursor in place, write follows no null link, replaces exactly the bytes at the offset, leaves all others and puts the cursor in place again |
| ByteArrays.ReadInPlace | src/bytearray.cpp:141-174 | from a cursor in place, a read of at least one byte throws exactly when too little is left, else returns exactly the bytes at the offset and puts the cursor in place |
| ByteArrays.EmptyReadIff | src/bytearray.cpp:141-174 | a read of nothing leaves the cursor in place exactly when the offset is not on a boundary with a chunk behind it; otherwise it ends one chunk too far |
| ByteArrays.NothingAllocated | src/bytearray.cpp:141-208 | while no chunk is allocated a read of nothing follows a null link and any other throws |
| ByteArrays.AfterEmptyRead | src/bytearray.cpp:141-174 | there the next read returns the bytes one chunk further on, or runs off the list |
| ByteArrays.SetOffsetIff | src/bytearray.cpp:63-80 | setOffset puts the cursor in place exactly below one chunk or on a boundary |
| ByteArrays.AfterSetOffset | src/bytearray.cpp:63-80 | elsewhere the next read returns the bytes of the chunk before |
| ByteArrays.SizeIsExtentIff | src/bytearray.cpp:119-139 | m_size is the extent written exactly as long as writes append; otherwise it counts the overwritten bytes twice |
| ByteArrays.ToStringIsRest | src/bytearray.cpp:408-416 | toString is the bytes from the offset to m_size, the array unchanged |
| ByteCodec.ByteswapTwice | src/endian.h:21-37 | byteswap undoes itself on every value of its width |
| ByteCodec.EncodeIsPortable | src/bytearray.cpp:210-258 | the bytes depend on the endian setting only, not on the machine |
| ByteCodec.DecodeEncode | src/bytearray.cpp:296-360 | reading a written integer gives it back, for every width, setting and machine |
| ByteCodec.BytesAre | src/bytearray.cpp:210-258 | byte by byte: big-endian writes the most significant byte first, little-endian the least, on any machine |
| ByteCodec.TwosComplement | src/bytearray.cpp:235-258 | a negative number is written as the unsigned one 256^w above it |
| ByteCodec.SignedInverts | src/bytearray.cpp:235-258 | likewise through two's complement for signed integers |
| ByteCodec.WriteValueIs | src/bytearray.cpp:210-294 | writing a value appends its encoding |
| ByteCodec.WriteAllIs | src/bytearray.cpp:210-294 | writing a list of values leaves their encodings one after the other |
| ByteCodec.ReadValueIs | src/bytearray.cpp:296-406 | reading where a value's encoding lies gives the value and moves past it |
| ByteCodec.ReadAllIs | src/bytearray.cpp:296-406 | likewise for a list of values |
| ByteCodec.RoundTrip | src/bytearray.cpp:63-406 | write any values, setOffset(0), make the matching reads: the same values, for every chunk size, byte order and machine, as long as strings fit their prefix and no empty string ends on a chunk boundary with more behind it |
| ByteCodec.NonEmptyIsHarmless | src/bytearray.cpp:141-174 | lists without empty strings always meet that condition |
| ByteCodec.StringComesBackIff | src/bytearray.cpp:272-294 | a string alone comes back exactly when its length fits the prefix |
| ByteCodec.EmptyStringIff | src/bytearray.cpp:376-406 | reading an empty string leaves the cursor in place exactly when it is harmless in that sense |
| ByteCodec.EmptyStringHarms | src/bytearray.cpp:141-174 | the smallest harm: after an empty string on a boundary, the wrong number is read |
| ChunkList.JoinSlice | src/bytearray.cpp:141-174 | a slice of a chunk is that slice of the flat content |
| ChunkList.JoinSplice | src/bytearray.cpp:105-139 | overwriting part of a chunk overwrites that part of the flat content and nothing else |
| ChunkList.ByteArray.constructor | src/bytearray.cpp:37-39 | an empty array of a given chunk size |
| ChunkList.ByteArray.Extend | src/bytearray.cpp:86-103 | a new chunk goes behind the last one, the flat content grows by it |
| ChunkList.ByteArray.AddCapacityTo | src/bytearray.cpp:86-103 | chunks are linked until the capacity suffices, content and cursor unchanged |
| ChunkList.ByteArray.CopyIn | src/bytearray.cpp:105-139 | a memcpy into one chunk replaces those bytes of the flat content |
| ChunkList.ByteArray.Enter | src/bytearray.cpp:111-114 | where the copy loop starts: on a boundary in the next chunk, if there is one |
| ChunkList.ByteArray.WriteLoop | src/bytearray.cpp:105-139 | the loop over linked chunks stays on the list exactly when the bytes fit, and then replaces exactly them |
| ChunkList.ByteArray.Write | src/bytearray.cpp:105-139 | write on the linked chunks is write on the flat content |
| ChunkList.ByteArray.ReadLoop | src/bytearray.cpp:141-208 | the loop returns exactly the bytes at the position, and runs off the list exactly when they are not there |
| ChunkList.ByteArray.Read | src/bytearray.cpp:141-174 | likewise for read, with its exception and its cursor |
| ChunkList.ByteArray.Peek | src/bytearray.cpp:176-208 | likewise for the read at an offset, which moves nothing |
| ChunkList.ByteArray.ToString | src/bytearray.cpp:408-416 | likewise |
| ChunkList.ByteArray.SetOffset | src/bytearray.cpp:63-80 | likewise, with its exception |
| ChunkList.ByteArray.WriteUint | src/bytearray.cpp:210-258 | the integer writers write the encoding |
| ChunkList.ByteArray.WriteString | src/bytearray.cpp:272-290 | the string writers write the truncated length and then the text |
| ChunkList.ByteArray.ReadUint | src/bytearray.cpp:296-360 | the integer readers decode what they read, or throw |
| ChunkList.ByteArray.ReadString | src/bytearray.cpp:376-406 | the string readers read the length, then that many bytes |
| ChunkedBody.Execute | src/http/http_response_parser.rl:122-185 | the pointer walk over a chunk header gives the specified verdict, size and length |
| ChunkedBody.ScanPrefix | src/http/http_response_parser.rl:122-126 | more bytes behind a header never change its verdict |
| ChunkedBody.HeaderScans | src/http/http_response_parser.rl:67-77 | a chunk header as section 4.1 of RFC 7230 allows it (any digits of the value, extensions, either line end) is parsed to its end and its value |
| ChunkedBody.HexReadsBack | src/http/http_response_parser.rl:67-77 | digits are read as the number they write and as no other: any digits out of 0123456789abcdef and 0123456789ABCDEF, any mix of case, zeros in front |
| ChunkedBody.SizeScans | src/http/http_response_parser.rl:67-77 | so a header with the print of any number, any extensions and either line end is parsed to its end and to that number |
| ChunkedBody.ToIntIs | src/http/http_response_parser.rl:67-69 | the number, if it fits an int; else its lower 32 bits, and -1 where strtol saturates |
| ChunkedBody.AcceptedIsHeader | src/http/http_response_parser.rl:112-118 | the converse: whatever is taken for a chunk header is digits of some number, extensions and a line end, and the size is what the number gives |
| ChunkedBody.ForeignIff | src/http/http_response_parser.rl:120-122 | the parser goes over to status lines exactly at an H |
| ChunkedReads.PartialIff | src/http/http_response_parser.rl:67-118 | it asks for more exactly if more can complete the header |
| ChunkedBody.MessageDecodes | src/http/http_connection.cpp:54-101 | a message of chunks means the concatenation of their data; what follows it is not touched |
| ChunkedBody.ChunksIs | src/http/http_connection.cpp:54-101 | for every fragmentation into non-empty reads, if the parser was never given part of a header line, the loops return the body the bytes mean |
| ChunkedReads.SplitIff | src/http/http_connection.cpp:59-81 | the parser is given part of a header line exactly if some header line is neither in the buffer nor in the one read made on an empty buffer, a condition on message, reads and buffer size alone |
| ChunkedReads.BodyIsPayload | src/http/http_connection.cpp:54-101 | so for every list of chunks and every fragmentation with that condition the body is the concatenation of the chunk data: no line end kept, no byte lost, the trailing one split or not |
| ChunkedReads.CutLosesData | src/http/http_connection.cpp:60-81 | a cut costs data: for every chunk with a canonical size, if the first read ends among its digits and the next brings the rest of the line, the body is not the chunk's data, however the reads fall after that |
| ChunkedReads.BodyBound | src/http/http_connection.cpp:82-101 | however the reads fall, a body is shorter than what was received by at least the headers and line ends |
| ChunkedBody.BufferedIsWhole | src/http/http_connection.cpp:54-101 | in particular when everything is buffered |
| ChunkedBody.SplitTruncates | src/http/http_connection.cpp:60-81 | a header cut after its first digit: the digit is forgotten and a 16-byte chunk comes back as an empty, complete body |
| ChunkedBody.EndInsideChunkHangs | src/http/http_connection.cpp:88-97 | a connection that ends inside a chunk keeps the read loop going for ever |
| ChunkedBody.ShortStreamHangs | src/http/http_connection.cpp:82-122 | so for a stream that ends inside a chunk or inside a body of known length the whole call never returns |
| ChunkedBody.Refused | src/http/http_connection.cpp:59-101 | no response comes back if the header is none, if an error or the end of the stream comes where a header is due, or an error inside a chunk; a negative or overlarge size is a fault |
| ChunkedBody.FixedIs | src/http/http_connection.cpp:103-122 | with a length, the body is that many bytes behind the header, however they arrive |
| ChunkedBody.FixedRefused | src/http/http_connection.cpp:103-122 | an error in the middle of it is reported |
| ChunkedBody.Socket.Read | src/stream.cpp:12-24 | one read takes what the fragmentation says, at most what is asked and there |
| ChunkedBody.Socket.RecvHeader | src/http/http_connection.cpp:59-81 | the inner loop computes the specified header and leaves the stream behind it |
| ChunkedBody.Socket.RecvRest | src/http/http_connection.cpp:88-97 | the loop for the rest of a chunk likewise |
| ChunkedBody.Socket.RecvChunks | src/http/http_connection.cpp:54-101 | the outer loop likewise |
| ChunkedBody.Socket.RecvFixed | src/http/http_connection.cpp:103-122 | the fixed-length part likewise |
| HttpResponse.LessTrans | src/http/http.cpp:60-62 | the case-insensitive order is transitive |
| HttpResponse.LessTotal | src/http/http.cpp:60-62 | and two names are unordered exactly when they are equal up to case |
| HttpResponse.SetKeepsSorted | src/http/http.cpp:72-74 | setting a header keeps the map ordered |
| HttpResponse.SetContents | src/http/http.cpp:72-74 | it leaves the entry under its first spelling and all the others |
| HttpResponse.GetAfterSet | src/http/http.cpp:72-84 | a value set is found under any spelling of its name, and no other lookup changes |
| HttpResponse.LowerIff | src/http/http.cpp:60-62 | two names count as one exactly if they are equal but for the case of letters, out of the two alphabets |
| HttpResponse.LessIff | src/http/http.cpp:60-62 | a name comes before another exactly if at the first difference its character is smaller or it has ended |
| ResponseParser.DecimalValue | src/http/http.cpp:110-115 | a printed number reads back |
| ResponseParser.DumpHeaders | src/http/http.cpp:117-122 | the loop prints every header but, without websocket, the connection one |
| ResponseParser.DumpTo | src/http/http.cpp:110-136 | dump prints status line, headers, connection, content-length and body |
| ResponseParser.Execute | src/http/http_response_parser.rl:90-185 | the walk over a buffer gives the specified message and length |
| ResponseParser.HeaderParsed | src/http/http_response_parser.rl:104-118 | a header line sets its field, the white space in front of the value dropped |
| ResponseParser.HeadersParsed | src/http/http_response_parser.rl:104-120 | so a block of lines sets all of them in turn |
| ResponseParser.VersionParsed | src/http/http_parser.cpp:132-146 | 1.0 and 1.1 are told apart |
| ResponseParser.StatusParsed | src/http/http_parser.cpp:124-127 | the digits become the status |
| ResponseParser.ReasonParsed | src/http/http_parser.cpp:119-122 | any line text becomes the reason |
| ResponseParser.PrintThenParse | src/http/http.cpp:110-136 | parsing what dump prints consumes everything but the body, and yields the version, status, reason and headers printed (sections 3.1.2 and 3.2 of RFC 7230) |
| ResponseParser.HeadersComeBack | src/http/http_parser.cpp:154-161 | the parsed map is the printed map, values less leading white space, plus dump's own lines |
| ResponseLines.LookupsComeBack | src/http/http.cpp:72-136 | after the trip, for every response and every name: connection as emitted unless websocket is set, content-length the body size if there is a body, any other name the value set, less white space in front, or none; so a value comes back exactly if it has none in front |
| ResponseLines.HeadComesBack | src/http/http.cpp:110-136 | version, status, and the reason set or else the standard one; chunked exactly if a printed header says so |
| ResponseLines.FieldsChunked | src/http/http_response_parser.rl:79-81 | after any block of valid lines the response counts as chunked exactly if it did or a line's name is transfer-encoding and its value, without white space in front, chunked, both up to case |
| ResponseLines.DumpIs | src/http/http.cpp:110-136 | the text dump writes, character by character around numbers, reason, headers and body |
| ResponseLines.LinesAre | src/http/http.cpp:117-122 | each header line is name, colon, blank, value, line end |
| ResponseLines.DecimalDigits | src/http/http.cpp:110-115 | numbers are written in the digits 0123456789, the last being the remainder by ten |
| ResponseText.HeadAccepted | src/http/http_response_parser.rl:90-112 | every status line of version 1.0 or 1.1 with any lines of name, colon and value (not blank under the three names with a rule of their own), each with either line end, is accepted to its blank line, and means: its version, status and reason, chunked exactly if a line says so, under each name the value of its last line |
| ResponseText.AcceptedIsHead | src/http/http_response_parser.rl:90-112 | the converse: whatever is accepted is such a head, and the message is what it means |
| ResponseText.AcceptedIff | src/http/http_response_parser.rl:90-112 | so the accepted texts are exactly these heads with anything behind them |
| ResponseText.Prefixes | src/http/http_response_parser.rl:90-112 | a head is not accepted before it is whole, an accepted one stays so, and an error is one whatever follows |
| Coroutines.StartInv | src/coroutine.cpp:45-52 | a thread starts with its main coroutine executing |
| Coroutines.YieldKeeps | src/coroutine.cpp:206-232 | yield keeps states, stacks and contexts right |
| Coroutines.YieldIs | src/coroutine.cpp:206-232 | yield of the current coroutine makes the main one current and EXECING and leaves the other YIELD, on top of its stack, its continuation in its own context; stacks and all others stay |
| Coroutines.YieldKeepsIff | src/coroutine.cpp:206-232 | yield of any coroutine: nothing happens unless it is on top of its stack; exactly when states and contexts survive |
| Coroutines.FinishKeeps | src/coroutine.cpp:294-327 | the end of MainFunc keeps them |
| Coroutines.FinishGoes | src/coroutine.cpp:294-327 | a coroutine that ends leaves its stack, which is dropped if empty; the one below it, or the main one, goes on where it left off |
| Coroutines.ResumeKeepsIff | src/coroutine.cpp:105-178 | resume keeps one EXECING coroutine per thread, tops and YIELD below, exactly when its target is fresh, on top of its stack, or its stack is gone |
| Coroutines.ResumeContextsIff | src/coroutine.cpp:132-140 | among those, the right context is saved exactly when the target is fresh, the main coroutine calls, or the target is running already |
| Coroutines.ResumeStackKeepsIff | src/coroutine.cpp:256-266 | Coroutine::Resume keeps the states exactly when the stack exists or the main coroutine calls; else two coroutines are left EXECING |
| Coroutines.NewStackKeeps | src/coroutine.cpp:180-204 | resumeWithNewStack keeps states, stacks and contexts from every state |
| Coroutines.NewStackIs | src/coroutine.cpp:180-204 | resumeWithNewStack puts a fresh coroutine alone on the next stack and goes to it, whoever calls; on any other it does nothing |
| Coroutines.ResumeIs | src/coroutine.cpp:105-178 | resume puts a fresh coroutine above the current one, or alone on the next stack if the main one calls, and goes to it; it goes to the top of another stack; and leaves what is over alone |
| Coroutines.ResumeStackIs | src/coroutine.cpp:256-266 | Coroutine::Resume goes to the top of the numbered stack |
| Coroutines.StepKeepsInv | src/coroutine.cpp:105-327 | every step of the documented use keeps the invariant |
| Coroutines.ExecutionInv | README.md:60-62 | over every run of that use: one EXECING coroutine, the current one, on top of its stack; all other stacked ones YIELD; none stacked twice; no empty stack; and the log explains the stacks |
| Coroutines.ExecutionContexts | src/coroutine.cpp:105-232 | where no coroutine resumes the top of another stack, the thread really runs the current coroutine and everyone continues where it left off |
| Coroutines.LastStartedFirstFinished | src/coroutine.cpp:294-327 | over every run the coroutines of one stack finish in reverse order of their first resume, across any number of yields |
| CoroutineThread.ThreadLocals.constructor | src/coroutine.cpp:45-52 | the thread-locals start as specified |
| CoroutineThread.ThreadLocals.Create | src/coroutine.cpp:54-71 | a new coroutine is in state INIT without a stack |
| CoroutineThread.ThreadLocals.Resume | src/coroutine.cpp:105-178 | the method changes objects and stacks as the step of the thread's state says |
| CoroutineThread.ThreadLocals.ResumeWithNewStack | src/coroutine.cpp:180-204 | likewise |
| CoroutineThread.ThreadLocals.Yield | src/coroutine.cpp:206-232 | likewise |
| CoroutineThread.ThreadLocals.MainFuncEnd | src/coroutine.cpp:294-327 | likewise for the current coroutine's end |
| CoroutineThread.ThreadLocals.ResumeStack | src/coroutine.cpp:256-266 | likewise |
| ConnectionPool.Dropped | src/http/http_connection.cpp:308-327 | the scan passes over connections that are closed or too old, and stops at the first other one |
| ConnectionPool.ScanKeeps | src/http/http_connection.cpp:308-327 | the locked scan keeps the pool's invariant |
| ConnectionPool.SettleKeeps | src/http/http_connection.cpp:328-352 | deleting what was passed over and adjusting m_total keeps it |
| ConnectionPool.StepKeeps | src/http/http_connection.cpp:308-353 | so does every step of concurrent callers, failed lookups and connects included |
| ConnectionPool.ExecutionInv | src/http/http_connection.cpp:308-353 | so every state of every run has it |
| ConnectionPool.TotalBalances | src/http/http_connection.cpp:308-353 | whenever no caller is inside, m_total is the number of idle connections plus those handed out |
| ConnectionPool.ServiceIsBounded | src/http/http_connection.cpp:481-498 | no connection is handed out more than max(1, m_maxRequest) times; an idle one is in the list once, not handed out, and under the limit |
| ConnectionPool.ReusedIsUsable | src/http/http_connection.cpp:308-327 | a reused connection was open and not too old when looked at, and is the first such |
| ConnectionPool.AgeBoundary | src/http/http_connection.cpp:481-498 | at exactly the allowed age a connection is reused when idle but closed when released |
| ConnectionPool.ScanIs | src/http/http_connection.cpp:313-327 | what the locked scan leaves of the list and whose the connections it took are |
| ConnectionPool.CheckoutIs | src/http/http_connection.cpp:328-353 | what is passed over is gone and no longer counted; what was found is handed out, or one is made, counted and handed out, or the caller gives up |
| ConnectionPool.ReturnIs | src/http/http_connection.cpp:481-498 | a returned connection goes to the end of the list exactly if it is open, younger than allowed and below the request limit, else it is gone and no longer counted |
| ConnectionPool.NobodyWaits | src/http/http_connection.cpp:308-353 | no caller ever waits for another |
| ConnectionPool.HttpConnection.constructor | src/http/http_connection.cpp:13-17 | a connection remembers its creation time and has served nothing |
| ConnectionPool.HttpConnectionPool.constructor | src/http/http_connection.cpp:308-353 | a pool starts empty |
| ConnectionPool.HttpConnectionPool.ScanIdle | src/http/http_connection.cpp:313-327 | the loop under the lock drops the closed and overaged connections in front, takes out the first one still usable and leaves those behind it in the list; without a usable one the list is empty |
| ConnectionPool.HttpConnectionPool.GetConnection | src/http/http_connection.cpp:308-353 | first usable idle connection, else a new one, else none; list, count and checked-out set change accordingly |
| ConnectionPool.HttpConnectionPool.ReleasePtr | src/http/http_connection.cpp:481-498 | counts the request, then back to the end of the list or deleted and no longer counted |
| LogPattern.ScanItem | src/log.cpp:317-350 | the inner loop finds the item's name and braces, or the end of the pattern inside braces |
| LogPattern.ParsePattern | src/log.cpp:300-369 | the outer loop ends on every pattern with the specified list |
| LogPattern.Init | src/log.cpp:300-406 | items in order, unknown names replaced by an error text; m_error set exactly when a brace was left open or a name is unknown |
| LogPattern.OpenBrace | src/log.cpp:359-368 | a brace left open, for every literal in front and every text inside: the error text comes first, and the pending literal runs on over the item's own characters |
| LogPattern.BareItem | src/log.cpp:317-350 | letters and closing braces behind a percent sign, even none, are an item's name, up to any other character, which starts the next literal |
| LogPattern.AlphaIs | src/log.cpp:320-326 | the letters of a name are the two alphabets |
| LogPattern.ItemsAre | src/log.cpp:371-405 | the items are the twelve letters m p r c t n d f l T F N; any other name becomes an error text with the name in it |
| LogPattern.ParseGrows | src/log.cpp:300-369 | what has been pushed stays, and an error stays |
| LogPattern.RoundTripIff | src/log.cpp:300-369 | for every merged list, parsing its print gives it back exactly when no braces hold a closing brace and no literal behind an item without braces starts with a letter or brace |
| LogPattern.ErrorIffUnknown | src/log.cpp:391-405 | and then m_error stays false exactly when all names are known |
| UrlCoding.HexValue | src/util.cpp:115-132 | the table's values are below 16 |
| UrlCoding.UrlEncode | src/util.cpp:136-165 | the lazily copying encoder equals the byte-by-byte map |
| UrlCoding.UrlDecode | src/util.cpp:167-195 | the lazily copying decoder equals the plain left-to-right one |
| UrlCoding.EncodedPlain | src/util.cpp:136-165 | a text of unreserved bytes is returned as it is |
| UrlCoding.UnreservedIs | src/util.cpp:92-110 | the bytes left as they are: letters, digits and - . = _ ~ |
| UrlCoding.EscapeWritten | src/util.cpp:136-165 | any other byte becomes a percent sign and two upper-case digits, the high half first, but a blank a plus sign if asked for |
| UrlCoding.EscapeRead | src/util.cpp:167-195 | a percent sign and two digits of either case are read as the byte if the second is decimal, else as they stand; a plus sign is a blank if asked for |
| UrlCoding.DecodeEncode | src/util.cpp:136-195 | what comes back of any text, byte for byte: itself, or the undecoded escape |
| UrlCoding.RoundTripIff | src/util.cpp:177-181 | decoding undoes encoding, for both ways of writing a blank, exactly on the texts whose escaped bytes have a low half of at most 9 (section 2.1 of RFC 3986) |

## Left out

- System calls, context switching and their failures (`swapcontext`, `epoll_create`, sockets): inputs, or the flag `up` that says whether `epoll_ctl` succeeds.
- Liveness of plain task wake-ups: a task queued between the pool scan and the idle count gets no tickle.
- The resizing race of `addEvent`, which drops the read lock in between: growing the context table and registering are one step.
- The caller coroutine of `useCaller` as a coroutine object: the calling thread is a thread of the loop like the others, without the switch to and from its own stack.
- EventLoop keeps timers as a map from timers to calls and lets any of them expire at any time; that expiry is exact is proved in Timers and TimerHistory.
- TimerWakeup has one loop thread; with several, a tickle may be consumed by a thread other than the one that sleeps on the old deadline.
- An address is never given to a second timer; re-use of a freed timer's memory is not modelled.
- EventLoopInvariant.SpawnKeeps: schedules callbacks and coroutines that never ran; a coroutine that yielded in a hooked `sleep` or `usleep` and is scheduled by its timer is not modelled, so single wake-up is not shown across hooked sleeps.
- The hooked `connect`: the same wait pattern as doSocketIo.
- After the Yield in doSocketIo, `continue` tests `errno` again, which other coroutines of the thread may have changed: the model lets the call try again or end, either way.
- addEvent is called on threads that belong to a scheduler; on another thread the source stores a null scheduler, which triggerEvent would dereference.
- A negative or huge chunk size reaches arithmetic on `int`: the outcome is `Fault`, without saying what the C++ does then.
- The closing test of ByteArray::write that would enlarge `m_size` never applies; it is not modelled as a branch.
- Tasks pinned to a thread that does not exist stay queued for ever; no property speaks of them.
- The 64-bit counters of tasks, coroutines, stacks and pending events are unbounded, as is `m_offset` plus a length in ByteArray.
- ByteArray `clear`, `toHexString`, `getReadBuffers`, `getWriteBuffers` and the file operations.
- Floating-point readers and writers: they pass the bit pattern through the 32- and 64-bit integer ones.
- Header blocks split over several reads: `nread` accumulates over calls, so a block is assumed to arrive whole.
- Chunk extensions stored as response headers: the parser reports them like header fields; only their effect on framing is modelled.
- Trailers behind the last chunk: recvResponse never reads them.
- A field value that is empty after Connection, Content-Length or Transfer-Encoding: the generated machine leaves its own alternative there; the outcome is `Unmodelled`.
- The parser's fields `close` and `content_len` for a header block; the map entries the same lines set are modelled.
- Decompression of a received body, and cookies in dump.
- The table of standard reason phrases: a parameter of dump.
- The request side of HTTP (grammar, URI, query parameters, cookies), servlets, websockets.
- ChunkedBody.FixedIs: reads are assumed non-empty; at the end of the stream the loop of `readFixLength` spins like that of a chunk.
- ConnectionPool: `m_maxSize` is not modelled because no code reads it; a caller that never releases keeps its connection.
- ConnectionPool.HttpConnectionPool.GetConnection is one call at a time; interleaved callers are the transition system beside it.
- CoroutineThread.ThreadLocals: machine contexts (`running`, `saved`) are ghost fields; `Coroutine::reset` and coroutines shared between threads are left out.
- Bytes of 128 and above behind a percent sign in `UrlDecode`: a negative argument of `isxdigit` is undefined in C; the model treats them as no digits.
- The rendering of log items, appenders, configuration, address lookup, thread wrappers: I/O or thin wrappers.
