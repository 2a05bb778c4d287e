# RT-Thread kernel and Kconfig core, modelled in Dafny

This project models the uniprocessor kernel of RT-Thread 4.0 (scheduler, threads, timers, IPC objects and the three
memory allocators) and the expression and value core of the Kconfig library it carries, and proves what each of them
promises. `dafny verify dfyconfig.toml` checks everything.

Each component comes in two layers. A datatype with functions is the specification: one step of the component on
values, with lemmas for what every step keeps and for what holds over all runs. A class has the fields of the C or
Python object, and each of its methods works in place, with the loops of the original, and is proved to take the class
from the old specification state to the new one. What a specification step comes to is said once more without it, in
the files that end in Laws and in Scheduling and TimerStarts: these lemmas fix the whole new state, or which cases there
are and what each of them changes, in terms of the old state alone. Sections that run with interrupts disabled are single steps; any
other thread, interrupt or timeout may take kernel steps in between. rt_thread_startup, rt_thread_resume and the two
deletions consist of several sections with interrupts on in between, and each of these is a step of its own, besides
the call that nothing interrupts.

| files | component |
|---|---|
| Options, Seqs, Bits, RtList | optional values; sequences; words as naturals with their bits and the find-first-set table; intrusive circular lists, pointer by pointer |
| Scheduler, Threads, Steps, Waiting, Scheduling, Kernel | ready queues and the two-level bitmap, the thread state machine, wait lists, the outcome of every scheduling point, sleep and wake-up |
| Semaphore, Mutex, MutexPriorities, Event, Mailbox, MessageQueue, MessageReceivers | the IPC objects, under any interleaving |
| SemaphoreLaws, MutexLaws, EventLaws, MailboxLaws, MessageLaws | the outcome of each of their calls, as equations on the whole state |
| Ticks, Timers, TimerStarts, TimerOrder, TimerWheel | wrap-around ticks, timers on unbounded time, from the start to the call, the order of the calls, the skip list that refines them |
| Blocks, HeapData, SmallHeap, SmallHeapLaws, HeapMemory | tilings of a heap, the data of its blocks, the small heap, the outcome of its calls, its headers in an array of words |
| MemHeap, MemHeapLaws, MemHeapObject | the memory heap with its free list, the outcome of its calls, its two pointer rings |
| Pages, SlabZones, Slab, SlabLaws | page runs, the size classes, the slab allocator on top, and the outcome of its calls |
| KconfigExpr, KconfigGrammar, KconfigCache, KconfigLaws, Kconfig, KconfigExample | expressions printed, parsed and evaluated; the grammar; symbol values; what they are worth; the value cache and its invalidation; a configuration |

Conventions. Addresses are offsets, in words of four bytes in the two heaps (headers of 3 and 6 words, RT_ALIGN_SIZE 4)
and in pages for the page allocator. Ticks are explicit modulo 2^32, the mutex hold count modulo 2^8 and the semaphore
value modulo 2^16. Timers are followed in unbounded time, and the half-range tests on wrapped ticks are proved to agree
with it. Thread priorities run to 256 with the two-level bitmap (more than 32 priorities).

## Findings

Where a promise does not hold of the code, the code is modelled as it is, and a lemma gives the exact condition.

- A thread that holds several mutexes loses an inherited priority when it releases one of them: the priority recorded
  at that take is given back although a better thread waits for another (`Mutex.InheritanceHoldsIff`,
  `Mutex.NestedReleaseBreaksInheritance`).
- It can also keep one for good. A mutex taken while its thread is raised records the inherited priority; if it is
  released last, the thread owns nothing and stays raised (`MutexPriorities.OwnPriorityHoldsIff`,
  `MutexPriorities.CrossedReleasesLeaveOffBase`).
- The hold count of a mutex is a byte, and 256 takes by the owner wrap it to zero (`Mutex.RecursiveTakeAgreesIff`,
  `Mutex.HoldsWrapAround`); the semaphore value wraps at 65536 (`Semaphore.ReleaseIsExactIff`,
  `Semaphore.ReleaseWrapsAround`).
- rt_thread_resume tests the state of the thread without protection, takes it off its list in one section and queues
  it in another. If an interrupt resumes the same thread in between, its node is linked twice
  (`Threads.PlacementHoldsIff`, `Threads.InsertIsSafeIff`, `Steps.InterruptedResume`).
- rt_thread_detach and rt_thread_delete take the thread off its list, stop its timer and mark it closed in three
  sections. A timeout after the first queues the thread, which is then marked closed while queued
  (`Threads.MarkIsSafeIff`, `Steps.InterruptedDeletion`).
- A thread that makes a blocking call while the scheduler is locked goes on running; a second such call puts it on a
  list twice, or on two lists (`Threads.BlockIsSafeIff`, `Steps.BlocksTwiceFromStart`).
- A list of waiters by priority is not sorted anew when the priority of a waiter changes, so a release may grant a
  worse one first (`Semaphore.PriorityOrderHoldsIff`, `Semaphore.RaisedWaiterIsPassedOver`).
- A thread that waits on a semaphore and is resumed directly, without a release, returns from its take as if it had
  been granted (`Semaphore.StrayTakesSucceed`, `Semaphore.ResumedWaiterIsGranted`). So does one that waits for a
  mutex, without owning it (`Mutex.LeaverOwnsIff`, `Mutex.ResumedWaiterOwnsNothing`), and one that waits for events
  yields all it asked for (`Event.ResumedWaiterIsUnserved`).
- A mailbox receiver that was resumed for a mail and is deleted before it runs takes the wake-up with it
  (`Mailbox.DeletionKeepsWakeupsIff`, `Mailbox.DeletedReceiverLosesWakeup`).
- A one-shot timer restarted by its own timeout function ends linked but not marked activated, so it fires and cannot
  be stopped (`Timers.FlagsSurviveCallIff`, `Timers.RestartedOneShotCannotBeStopped`).
- rt_timer_stop clears the activated mark after it has enabled interrupts again. A start in between leaves the timer
  linked and not marked, so it cannot be stopped (`Timers.StopFlagsAgreeIff`, `Timers.StartInStopCannotBeStopped`).
- rt_timer_start reads the tick before it disables interrupts to link the timer. A timer linked at its deadline or
  later is called at the tick after the link, and calls may then come out of deadline order
  (`Timers.FiringsAreOnTime`, `TimerOrder.DeadlineOrderHoldsIff`, `Timers.LateLinkIsCalledLate`,
  `TimerOrder.LateLinkTurnsOrder`). Delayed so far that a listed deadline lies half the tick range ahead of its own,
  it is put behind that one (`Ticks.LaterIsSeenIff`).
- Two starts of one timer that cross link it twice, and what is left is no list: a one-shot timer that was the first
  one, alone with its deadline, stays first for good, and rt_timer_check does not end
  (`Timers.CrossedStartsLinkTwice`, `RtList.InsertIsSafeIff`, `RtList.RelinkedFirstStaysFirst`).
- The comment in mem.c calls lfree the pointer to the lowest free block. A realloc that shrinks a block below all free
  ones leaves it too high, and malloc no longer sees the space (`SmallHeap.StepKeepsLowestIff`,
  `SmallHeap.HiddenSpaceIsRefused`). The search limit also makes malloc refuse a last block that fits exactly
  (`SmallHeap.MallocIsFirstFit`).
- rt_memheap_alloc refuses a request that equals available_size although a free block of just that size is there
  (`MemHeap.AllocRefusesAFitIff`, `MemHeap.WholePoolIsRefused`).

## Model

| member | source | states |
|---|---|---|
| Bits.Ffs | src/kservice.c:1277-1291 | zero exactly for zero, else one more than the number of the least set bit of the 32-bit word |
| Bits.TableIsLowestBit | src/kservice.c:1247-1265 | all 255 table entries that are used hold the number of the least set bit of their index |
| Scheduler.ScheduleKeeps | src/scheduler.c:397-494 | a scheduling decision keeps the placement of every thread |
| Scheduler.ScheduleRunsBest | src/scheduler.c:397-494 | unlocked, with some thread ready, the thread that runs next is ready and no queued thread has a better priority; a ready caller goes on exactly if it is strictly better than all queued ones |
| Scheduler.QueueAfterSwitch | src/scheduler.c:397-494 | a switch takes the head off its queue, puts a ready caller at the end of its own, and touches no other |
| Scheduler.StartSchedulerKeeps | src/scheduler.c:254-277 | starting the scheduler keeps the placement of every thread |
| Scheduler.YieldRotates | src/thread.c:471-476 | one yield turns the ring of the running thread and its equals by one |
| Scheduler.YieldsRunEachOnce | src/thread.c:471-476 | n yields among n threads of the best priority run each exactly once, in queue order, and restore the queue |
| Scheduler.InsertKeeps | src/scheduler.c:644-677 | inserting a thread that is on no list gives it its one right place |
| Kernel.SetKeepsBitmap | src/scheduler.c:644-677 | setting the two bits keeps the two-level bitmap the exact index of the non-empty queues |
| Kernel.ClearKeepsBitmap | src/scheduler.c:740-770 | clearing the table bit, and the group bit only when the word becomes zero, keeps the index exact |
| Kernel.BitmapFindsHighest | src/scheduler.c:170-192 | the least bit of the least word is the best non-empty priority; the group word is zero exactly if nothing is ready |
| Kernel.Kernel.constructor | src/scheduler.c:199-247 | the initial kernel: no thread started, all queues empty, bitmap clear |
| Kernel.Kernel.HighestPriorityThread | src/scheduler.c:170-192 | by the bitmap alone: the head of the best non-empty queue and its priority |
| Kernel.Kernel.SchedulerStart | src/scheduler.c:254-277 | makes the best ready thread the running one and takes it off its queue |
| Kernel.Kernel.DoSchedule | src/scheduler.c:397-494 | the in-place scheduling decision is the specified one |
| Kernel.Kernel.InsertThread | src/scheduler.c:644-677 | marks the thread ready and appends it to its queue unless it runs; the bitmap follows |
| Kernel.Kernel.RemoveThread | src/scheduler.c:740-770 | takes the thread off its list; the bitmap follows |
| Kernel.Kernel.LeaveCritical | src/scheduler.c:859-881 | lowers the lock count, and reschedules when it reaches zero |
| Kernel.Kernel.Startup | src/thread.c:286-318 | a startup that nothing interrupts: the new thread gets its initial priority and masks, is made ready, and the scheduler is called if it runs |
| Kernel.Kernel.SuspendThread | src/thread.c:656-691 | suspends the caller if it is ready, cancelling its timer |
| Kernel.Kernel.UnlinkSection | src/thread.c:719-728 | the first section of a resume: the thread is off its wait list, its timer stopped, and still suspended |
| Kernel.Kernel.InsertSection | src/scheduler.c:644-677 | the second section of a resume, of a thread that is on no list and has no timer: ready, and on its queue unless it runs |
| Kernel.Kernel.ResumeIfSuspended | src/thread.c:701-735 | a resume that nothing interrupts, its two sections one after the other: makes a suspended thread ready, cancelling its timer, and does nothing to any other |
| Kernel.Kernel.Timeout | src/thread.c:744-766 | takes the timed-out thread off its wait list with the timeout error, makes it ready and reschedules |
| Kernel.Kernel.SleepSelf | src/thread.c:496-507 | the section of a sleep: the caller is suspended on no list with its timer running |
| Kernel.Kernel.SleepAndSchedule | src/thread.c:486-509 | a sleep up to its switch: the caller suspended, then the scheduling decision |
| Kernel.Kernel.WakeFromSleep | src/thread.c:511-513 | the end of a sleep: a timeout error is cleared, any other stays |
| Kernel.Kernel.RemoveSection | src/thread.c:338-342 | the first section of a deletion: off every list |
| Kernel.Kernel.StopTimerSection | src/thread.c:344-345 | the second section: the timer is stopped |
| Kernel.Kernel.MarkSection | src/thread.c:347-348 | the state write that follows, of a thread that is still on no list and has no timer |
| Kernel.Kernel.DetachThread | src/thread.c:329-366 | a detach that nothing interrupts, its sections one after the other: the thread is on no list, has no timer and is closed |
| Kernel.Kernel.ControlPriority | src/thread.c:571-612 | a ready thread moves to the queue of its new priority; the masks follow |
| Kernel.Kernel.SliceTick | src/clock.c:85-96 | the time slice counts down, and at zero is reloaded and the caller yields |
| Kernel.Kernel.BlockOn | src/ipc.c:79-122 | the caller is suspended and joins the list at its end or behind all waiters of no worse priority |
| Kernel.Kernel.FindPlace | src/ipc.c:96-117 | the loop finds the place of the caller in a wait list |
| Kernel.Kernel.ResumeFirst | src/ipc.c:133-146 | the head of the list becomes ready, nobody else moves |
| Kernel.Kernel.ResumeAll | src/ipc.c:156-184 | the loop releases every waiter with the error of a reset |
| Threads.PriorityPos | src/ipc.c:96-117 | the place is behind every waiter of no worse priority and before the first of a worse one |
| Threads.SuspendSelfKeeps | src/thread.c:656-691 | suspension keeps the placement invariant and leaves the thread on no list |
| Threads.ResumeKeeps | src/thread.c:701-735 | a resume that nothing interrupts keeps the placement invariant |
| Threads.StartKeeps | src/thread.c:286-318 | a startup that nothing interrupts keeps the placement invariant |
| Threads.SleepKeeps | src/thread.c:486-516 | sleeping keeps the placement invariant |
| Threads.ChangePriorityKeeps | src/thread.c:571-612 | a priority change in any state keeps the placement invariant |
| Threads.CloseKeeps | src/thread.c:329-366 | a deletion in any state that nothing interrupts keeps the placement invariant |
| Threads.BlockKeeps | src/ipc.c:79-122 | blocking on a list keeps the placement invariant |
| Threads.TimeSliceKeeps | src/clock.c:85-96 | the end of a time slice keeps the placement invariant |
| Threads.BlockIsSafeIff | src/ipc.c:79-122 | blocking keeps the invariant if and only if the caller is on no wait list already, which a blocking call made again while the scheduler is locked violates |
| Threads.InsertIsSafeIff | src/scheduler.c:644-677 | the second section of a resume keeps the placement if and only if the thread is, at that moment, on no list and without a timer |
| Threads.UnlinkIsSafeIff | src/thread.c:711-728 | the first section keeps it if and only if the thread is not on a ready queue, where somebody may have put it after the unprotected test of its state |
| Threads.MarkIsSafeIff | src/thread.c:338-348 | the last write of a deletion keeps it if and only if the thread is, at that moment, on no list and without a timer |
| Threads.WakeAllWakesTheWaiters | src/ipc.c:156-184 | exactly the waiters become ready, with the error set |
| Threads.StepKeeps | src/thread.c:656-766 | every kernel step and every section of a call keeps the placement invariant, under the conditions of the three rows above for the sections that have one |
| Threads.StepIsSafeIff | src/thread.c:286-766 | a possible step keeps the placement invariant if and only if it is safe in that sense |
| Threads.PlacementHoldsIff | src/thread.c:286-766 | over every run of possible steps, with the sections of startups, resumes and deletions interleaved in any way, every thread is placed right at every moment if and only if each step is safe when it is taken |
| Threads.EveryThreadIsInItsPlace | src/thread.c:744-766 | in every state a run of safe steps reaches: a started thread is on a ready queue, once and at its current priority, iff it is ready, not running and not just taken off for deletion; a suspended one is on at most one wait list; a linked thread timer belongs to a suspended thread |
| Steps.InterruptedResume | src/thread.c:719-731 | the failing run: an interrupt resumes the same thread between the two sections, and the second one links a queued node again |
| Steps.InterruptedDeletion | src/thread.c:338-348 | the failing run: a timeout between the sections of a deletion queues the thread, which is then marked closed |
| Steps.UndisturbedResumeIsSafe | src/thread.c:719-731 | whatever else runs between the two sections, a resume is safe if no step in between concerns that thread |
| Steps.UndisturbedDeletionIsSafe | src/thread.c:338-348 | likewise a deletion, in both of its gaps |
| Steps.BlocksTwiceFromStart | src/ipc.c:79-122 | from every initial state with a thread and two wait lists: the first thread to run enters a critical section, blocks, runs on through rt_schedule, and its next blocking call breaks the lists |
| Steps.StepRecords | src/thread.c:286-766 | what each step does to thread records, as a table: exactly one record changes, to exactly this |
| Steps.StepReadyQueues | src/scheduler.c:644-770 | what each step does to ready queues: its subject leaves its place and, if ready and not running, goes to the end of the queue of its priority; everything else stays |
| Steps.BestThreadRuns | src/scheduler.c:859-881 | a best ready thread runs after every unlocked scheduling point; nested critical sections and running slices switch nothing |
| Steps.StepWaiters | src/thread.c:656-766 | no kernel step but a block changes a wait list other than by taking the one leaving thread off it |
| Steps.StepPriorities | src/thread.c:286-318 | no kernel step but a priority change and a startup changes a priority |
| Steps.BlockEffect | src/ipc.c:79-122 | a block inserts the caller at its place, suspended, without error, with the timer if timed |
| Scheduling.ScheduleIs | src/scheduler.c:397-494 | the whole outcome of rt_schedule: nothing while locked, with nobody queued, or when the caller is ready and strictly better than all queued ones; else the first thread of the best queue runs, is off that queue, a ready caller is at the end of its own, and nothing else has changed |
| Scheduling.FirstOfBestRuns | src/scheduler.c:170-192 | when the caller is not ready or no better, the thread that runs is the first of the best queue, and those behind it keep their order |
| Scheduling.OneOutcome | src/scheduler.c:397-494 | that outcome is determined: two states that both are it are equal |
| Scheduling.StartIs | src/scheduler.c:254-277 | the start of the scheduler runs the first thread of the best queue and takes it off |
| Scheduling.CriticalIs | src/scheduler.c:804-881 | the lock count goes up and down, not below zero, and at zero the exit comes to what rt_schedule does |
| Scheduling.SliceIs | src/clock.c:85-96 | a tick takes one off the slice, an unsigned word; the last one reloads it and comes to what rt_schedule does |
| Scheduling.SliceEndYields | src/clock.c:85-96 | at the end of its slice a best thread gives way to the first of its equals and waits behind the last of them |
| Scheduling.TimeoutIs | src/thread.c:744-766 | a timed-out thread is off its wait list, ready with the timeout error, at the end of its queue unless it runs; then the scheduler is asked |
| Scheduling.BestTimeoutRuns | src/thread.c:744-766 | so a thread better than all others runs at once when its time is out |
| Scheduling.StartupIs | src/thread.c:286-318 | a started thread is ready at its initial priority, at the end of its queue; the scheduler is asked if it runs |
| Scheduling.AwakeIs | src/thread.c:511-513 | a sleeper that runs again clears a timeout error and keeps any other |
| Scheduling.StepLocks | src/scheduler.c:804-881 | no step but the critical sections changes the lock count |
| Scheduling.BlockIs | src/ipc.c:79-122 | a blocked caller is suspended without an error, its timer running or not, at the end of a first-come list or, on a priority list, behind the waiters of no worse priority in front and before the first that is worse; no other list or thread has changed |
| Scheduling.WakeFirstIs | src/ipc.c:133-146 | a resumed head of a list is ready with its timer stopped, at the end of the queue of its priority; no other list or thread has changed |
| Scheduling.WakeAllIs | src/ipc.c:156-184 | all waiters are ready with the error, their timers stopped, queued in the order of the list; no other list or thread has changed |
| Waiting.SortedInsert | src/ipc.c:96-117 | the insertion keeps a priority list sorted |
| Waiting.KernelStepOvertakesNobody | src/thread.c:701-735 | no kernel step lets a waiter overtake another |
| Waiting.BlockOvertakesIff | src/ipc.c:79-122 | a newcomer overtakes only on a priority list and only waiters of strictly worse priority if and only if only such waiters are behind the place it gets |
| Waiting.SortedFindsPlace | src/ipc.c:96-117 | which holds of every first-come list and of every sorted one |
| Waiting.ChangeKeepsSortedIff | src/thread.c:595-607 | the list is not sorted anew when the priority of a waiter changes: it stays sorted if and only if the new priority fits the place of the waiter |
| RtList.InsertKeepsRing | include/rtservice.h:58-65 | the four pointer writes turn a ring into the ring with the node at that place |
| RtList.RemoveKeepsRing | include/rtservice.h:86-92 | the two outer pointer writes turn a ring into the ring without the node |
| RtList.Links.InsertAfter | include/rtservice.h:58-65 | in-place insertion behind a node, pointer for pointer |
| RtList.Links.InsertBefore | include/rtservice.h:73-80 | in-place insertion before a node, pointer for pointer; before the head it appends |
| RtList.Links.Remove | include/rtservice.h:86-92 | in-place removal; the node is left a ring of its own |
| RtList.Links.IsEmpty | include/rtservice.h:98-101 | true exactly for a list without entries |
| RtList.Links.Len | include/rtservice.h:107-118 | the loop counts the entries |
| RtList.BeforeHeadAppends | include/rtservice.h:73-80 | inserting before the head of a list appends to it |
| RtList.InsertIsSafeIff | include/rtservice.h:58-65 | insertion behind a node leaves a ring around the same head if and only if the inserted node was not in the ring; linked a second time it leaves pointers that are a ring of no nodes at all |
| RtList.RelinkedFirstStaysFirst | include/rtservice.h:58-92 | the first node of a list, linked again behind itself, stays the first whenever it is removed |
| Semaphore.StepKeepsInv | src/ipc.c:321-512 | every operation and every kernel step between, priority changes of waiters included, keeps: waiters only at value zero, no error on a waiter, and the count law modulo 2^16 |
| Semaphore.Conservation | src/ipc.c:321-512 | value + successful takes = initial value + releases + takes that succeed without a release, over every run with timeouts, deletions and priority changes in which the count fits 16 bits |
| Semaphore.ReleaseIsExactIff | src/ipc.c:430-468 | a step keeps the law exactly unless it is a release without waiters at 65535 |
| Semaphore.ReleaseWrapsAround | src/ipc.c:430-468 | the failing input: a new semaphore of value 65535, released once, is at zero |
| Semaphore.WaitersOnlyAtZero | src/ipc.c:321-512 | in every reachable state threads wait only while the value is zero |
| Semaphore.CountsFollowCalls | src/ipc.c:430-468 | the counts of the law are true to the calls: one per release, one per take that succeeds or waiter released, one per waiter that returns without a release |
| Semaphore.StrayTakesSucceed | src/ipc.c:378-399 | a thread that waits, or was taken off the list in the middle of a resume or a deletion, is made ready without an error by somebody other than the semaphore, and so returns success, if and only if the step is counted as such |
| Semaphore.ResumedWaiterIsGranted | src/ipc.c:378-399 | the failing input: a waiter that somebody resumes returns success, and one more was granted than released |
| Semaphore.TakeOutcome | src/ipc.c:321-406 | a take succeeds exactly at a positive value; otherwise it fails with nothing changed or puts the caller to sleep |
| Semaphore.TimeoutConsumesNothing | src/ipc.c:378-399 | a timed-out take changes no count and leaves only the list |
| Semaphore.GrantsInOrder | src/ipc.c:430-468 | a release grants the first waiter; and no step lets a waiter be overtaken, but by a strictly better newcomer on a priority list, if and only if a newcomer finds only such waiters behind its place |
| Semaphore.StepKeepsOrderIff | src/thread.c:595-607 | a step of a priority semaphore keeps the waiters in priority order if and only if it does not change the priority of a waiter to one that does not fit its place |
| Semaphore.PriorityOrderHoldsIff | src/ipc.c:321-512 | over every run the waiters are in priority order at every moment if and only if no step is such a change |
| Semaphore.RaisedWaiterIsPassedOver | src/thread.c:595-607 | the failing input: the second waiter is raised above the first, and the release still grants the first |
| Semaphore.ResetOutcome | src/ipc.c:480-512 | a reset sends every waiter, and nobody else, away with an error and restarts the count |
| SemaphoreLaws.TakeIs | src/ipc.c:321-406 | the whole outcome of a take: the value one lower, or a failure that changes nothing, or the caller asleep in the place that the flag says and nothing else changed |
| SemaphoreLaws.ReleaseIs | src/ipc.c:430-468 | of a release: the first waiter resumed with the value unchanged, or the value one higher within 16 bits |
| SemaphoreLaws.ResetIs | src/ipc.c:480-512 | of a reset: all waiters away with an error, and the value set, cut to 16 bits |
| Semaphore.SemaphoreObject.Take | src/ipc.c:321-406 | the in-place take is the specified one |
| Semaphore.SemaphoreObject.Release | src/ipc.c:430-468 | the in-place release is the specified one |
| Semaphore.SemaphoreObject.Reset | src/ipc.c:480-512 | the in-place reset is the specified one |
| Mutex.SysStepKeeps | src/ipc.c:651-878 | over any number of priority mutexes: owned iff hold > 0 iff value = 0; waiters sorted; no waiter owns a mutex |
| Mutex.InheritanceHoldsIff | src/ipc.c:651-878 | over every run the owner of each mutex has at every moment a priority no worse than any waiter of it, if and only if every last release is safe: the priority given back is no worse than that of any waiter of another mutex the thread still holds |
| Mutex.ReleaseKeepsInheritanceIff | src/ipc.c:787-878 | a single release keeps inheritance if and only if it is safe in that sense |
| Mutex.NestedReleaseBreaksInheritance | src/ipc.c:825-836 | a concrete state in which releasing one of two held mutexes leaves an owner at a worse priority than its waiter |
| Mutex.PrioritiesComeBack | src/ipc.c:787-878 | a sufficient discipline: if threads hold one mutex at a time, then over every run, with hand-offs and timeouts, inheritance holds and a thread that owns none is at its own priority |
| MutexPriorities.StepKeepsRestIff | src/ipc.c:825-836 | a step keeps every thread that owns nothing at its own priority if and only if it is not a last release that leaves the caller without a mutex while the recorded priority is not its own |
| MutexPriorities.OwnPriorityHoldsIff | src/ipc.c:651-878 | over every run, with any nesting, every thread that owns nothing is at its own priority at every moment if and only if no step is such a release |
| MutexPriorities.NestingBringsPrioritiesBack | src/ipc.c:651-878 | a sufficient discipline: every thread releases last the mutex it took first, as when takes and releases nest |
| MutexPriorities.CrossedReleasesLeaveOffBase | src/ipc.c:693-836 | the failing runs: an owner raised through one mutex takes a second, which records the inherited priority, and releases the first and then the second, each safely for inheritance; it owns nothing and keeps the inherited priority |
| MutexPriorities.RaisedIsRight | src/ipc.c:725-733 | such an owner exists: thread 1 of priority 10, raised to 5 for thread 2 |
| Mutex.TakeKeepsInherited | src/ipc.c:651-776 | a take keeps inheritance: the owner is raised before the caller waits |
| Mutex.RecursiveTakeAgreesIff | src/ipc.c:678-682 | the owner takes again with owner and count still in agreement iff the byte-wide count is below 255 |
| Mutex.HoldsWrapAround | src/ipc.c:678-682 | the failing input: a thread that takes a free mutex 256 times owns it with a hold count of zero |
| Mutex.TakeOutcome | src/ipc.c:651-776 | the caller gets the mutex exactly if it is free or its own; else it fails or sleeps with the owner at least as good |
| Mutex.LeaverOwnsIff | src/ipc.c:746-776 | a step that takes a waiter off the list of a mutex makes it the owner if and only if it is a release of that mutex |
| Mutex.ResumedWaiterOwnsNothing | src/ipc.c:746-776 | the failing input: a waiter that somebody resumes returns success from its take and owns nothing |
| Mutex.ReleaseOutcome | src/ipc.c:787-878 | only the owner releases; the last release restores the recorded priority and hands the mutex to the first waiter or frees it |
| MutexLaws.TakeIs | src/ipc.c:651-776 | the whole outcome of a take: a free mutex becomes the own one with one hold and the priority recorded, an own one is held once more, another one is refused, or its owner gets the priority of the caller exactly if that is better and then the caller sleeps in the place that the flag says; with the error codes of the caller |
| MutexLaws.ReleaseIs | src/ipc.c:787-878 | of a release: an error for anybody but the owner, one hold less, or, with the last, the recorded priority back and the first waiter resumed as the owner with one hold and its own priority recorded, or the mutex free |
| Mutex.NextOwnerIsBest | src/ipc.c:838-858 | the waiter the mutex is handed to is no worse than any that stays |
| Mutex.MutexObject.constructor | src/ipc.c:527-547 | a new mutex is free, with value one and no holds |
| Mutex.MutexObject.TakeMutex | src/ipc.c:651-776 | the in-place take is the specified one |
| Mutex.MutexObject.ReleaseMutex | src/ipc.c:787-878 | the in-place release is the specified one |
| Event.NobodyEverSleepsSatisfied | src/ipc.c:1026-1274 | over every run no suspended waiter has its AND or OR condition met by the event set |
| Event.SendServesEveryWaiter | src/ipc.c:1026-1108 | one traversal serves every waiter: a released one got its whole set (AND) or a non-empty part (OR) of what was set, one left asleep is not satisfied by the bits that remain, and no bit given to a CLEAR waiter goes to a later one |
| Event.LostBitsWereTaken | src/ipc.c:1084-1096 | a bit that vanishes during a send was given to a released waiter that asked for CLEAR |
| Event.RecvYields | src/ipc.c:1124-1234 | a receive succeeds at once exactly if its condition is met, yields the whole set or a non-empty part, and clears what it asked for; otherwise it fails or waits with no bit changed |
| EventLaws.SendIs | src/ipc.c:1026-1108 | the whole outcome of a send: waiters are visited in the order of the list; one whose wish the bits at that moment meet is released with exactly those of its bits that are set, and takes them away if it clears; any other stays as it is; the released ones are queued in order; a send of nothing changes nothing |
| EventLaws.ReceiveIs | src/ipc.c:1124-1234 | of a receive: nothing asked for is an error; a wish that is met yields exactly those of its bits that are set; else a timeout, or the caller asleep with its wish in the place that the flag says |
| EventLaws.ResetIs | src/ipc.c:1246-1274 | of a reset: all bits cleared and all waiters away with an error |
| Event.ResumedWaiterIsUnserved | src/ipc.c:1211-1234 | the failing input: a waiter that somebody resumes yields all it asked for although the event set does not satisfy it |
| Event.EventObject.Send | src/ipc.c:1026-1108 | the in-place traversal, waking and clearing as it goes, is the specified one, and it asks for the scheduler exactly if somebody was released |
| Event.EventObject.Recv | src/ipc.c:1124-1234 | the in-place receive is the specified one |
| Event.EventObject.Reset | src/ipc.c:1246-1274 | the in-place reset is the specified one |
| Mailbox.NoWakeupIsLost | src/ipc.c:1439-1711 | over every run, with timeouts and resets: while a receiver is suspended, the entries are at most the receivers resumed and not yet run again, who are ready or in the middle of a resume; dually for senders and free slots |
| Mailbox.DeletionKeepsWakeupsIff | src/thread.c:329-366 | deleting a thread in the middle of a call keeps that if and only if it was not resumed to take a chance that a thread still asleep on its side is then missing |
| Mailbox.DeletedReceiverLosesWakeup | src/ipc.c:1542-1552 | the failing input: of two sleeping receivers the first is resumed by a mail and deleted before it runs, and the second sleeps on with the mail in the box |
| Mailbox.ReceivedIsPrefixOfSent | src/ipc.c:1439-1711 | between resets the received mails are a prefix of the sent ones, the ring holds the rest in order, and in_offset = (out_offset + entry) mod size |
| Mailbox.BoxStepKeeps | src/ipc.c:1439-1755 | every piece of a send, a receive, a reset and every kernel step between keeps the invariant |
| Mailbox.PutAppends | src/ipc.c:1532-1539 | writing at in_offset appends to the contents |
| Mailbox.GetRemovesOldest | src/ipc.c:1680-1688 | reading at out_offset takes the oldest mail |
| Mailbox.TransferDelivers | src/ipc.c:1680-1700 | a receive delivers the oldest mail, a send appends its own, and each resumes the first caller waiting on the other side |
| Mailbox.CallOutcome | src/ipc.c:1439-1711 | when a call transfers, is refused (with which error) and sleeps |
| MailboxLaws.SendIs | src/ipc.c:1439-1558 | the whole outcome of a send: with room the mail it was called with, and no other, is put behind all others and the first receiver is resumed; else it is refused with the error of a full mailbox, or sleeps with that mail |
| MailboxLaws.ReceiveIs | src/ipc.c:1587-1711 | of a receive: it yields the oldest mail and takes it out, and the first sender is resumed; else it is refused with a timeout, or sleeps |
| MailboxLaws.AgainIs | src/ipc.c:1470-1711 | of a call that runs again: the error that ended its sleep, or the mail it went to sleep with is stored, or the oldest is yielded; else it is refused, or sleeps again with the same mail |
| MailboxLaws.ResetIs | src/ipc.c:1723-1755 | of a reset: the mailbox is empty and the sleepers of both sides are away with an error, receivers first |
| Mailbox.MailboxObject.SendWait | src/ipc.c:1439-1558 | the in-place send up to its first sleep is the specified one |
| Mailbox.MailboxObject.SendGoesOn | src/ipc.c:1470-1558 | the send going on after a sleep, one round of its loop, is the specified one |
| Mailbox.MailboxObject.Receive | src/ipc.c:1587-1711 | the in-place receive up to its first sleep is the specified one |
| Mailbox.MailboxObject.ReceiveGoesOn | src/ipc.c:1616-1711 | the receive going on after a sleep, one round of its loop, is the specified one |
| Mailbox.MailboxObject.ResetBox | src/ipc.c:1723-1755 | both lists are released with an error and the ring emptied |
| MessageQueue.NodesAreConserved | src/ipc.c:1961-2323 | over every interleaving of the split critical sections and resets the free list, the queue and the nodes in the hands of senders and receivers partition the pool |
| MessageQueue.StepDelivers | src/ipc.c:1961-2264 | of nodes and data: a normal message goes behind, an urgent one in front of, all pending ones; a receive takes the first; nobody else touches the data of a node in hand |
| MessageQueue.DeliveryIsLinkOrder | src/ipc.c:1961-2264 | without urgent messages and resets, messages are received in the order they were linked |
| MessageReceivers.NoMessageIsOverslept | src/ipc.c:1961-2323 | over every run of the sections, with timeouts and resets: while a receiver is suspended, the queued messages are at most the receivers resumed and not yet run again, who are ready or in the middle of a resume |
| MessageReceivers.MqStepKeeps | src/ipc.c:1961-2323 | every section keeps the nodes conserved, the entry count the length of the queue, and the promise to waiting receivers |
| MessageReceivers.NewMqIsRight | src/ipc.c:1778-1825 | the invariant holds of a new message queue |
| MessageReceivers.ReceiveOutcome | src/ipc.c:2127-2264 | a receive takes the first node exactly if there is one and no timeout or reset ended its sleep; else it fails, taking nothing, or sleeps |
| MessageLaws.NodesMove | src/ipc.c:1961-2323 | each section moves one node, from the head of the free list to the sender, to the tail or the head of the queue, from its head to the receiver, and back to the head of the free list; the copy stores the message; a reset turns the queue onto the free list |
| MessageLaws.LinkIs | src/ipc.c:2002-2030 | the second section of a send links its node and resumes the first sleeping receiver |
| MessageLaws.ReceiveFromStart | src/ipc.c:2133-2247 | a receive takes the first node if there is one; else it leaves the lists alone, or sleeps |
| MessageLaws.ReceiveGoingOn | src/ipc.c:2171-2247 | likewise one that runs again, unless an error ended its sleep |
| MessageLaws.ClearIs | src/ipc.c:2277-2323 | a reset gives all queued nodes back and sends all receivers away with an error |
| MessageQueue.MessageQueueObject.constructor | src/ipc.c:1778-1825 | all nodes free, chained, nothing queued |
| MessageQueue.MessageQueueObject.TakeFreeNode | src/ipc.c:1981-1995 | the first section of a send |
| MessageQueue.MessageQueueObject.LinkAtEnd | src/ipc.c:2002-2018 | the second section of a send, on pointers |
| MessageQueue.MessageQueueObject.LinkAtFront | src/ipc.c:2090-2102 | the second section of an urgent send, on pointers |
| MessageQueue.MessageQueueObject.TakeFirstNode | src/ipc.c:2235-2247 | the first section of a receive; head and tail become null together |
| MessageQueue.MessageQueueObject.GiveNodeBack | src/ipc.c:2253-2257 | the second section of a receive |
| MessageQueue.MessageQueueObject.ResetQueue | src/ipc.c:2277-2323 | the loop returns every queued node to the free list |
| Ticks.HalfRangeTest | src/timer.c:366-375 | in the window of half the tick range the unsigned difference test decides the order of unbounded times |
| Ticks.HalfRangeWindowIsTight | src/timer.c:366-375 | one tick beyond the window, on either side, the test is wrong |
| Ticks.LaterIsSeenIff | src/timer.c:366-375 | the search of a start sees that a listed deadline is later than its own if and only if it is less than half the range later |
| Timers.FiringsAreOnTime | src/timer.c:494-553 | over every run, with the second section of a start delayed by up to any number of ticks that leaves the intervals within half the range, every call is made at exactly its deadline, or one tick after a link that did not come before it; and calls go by tick, within a tick by deadline, ties in start order |
| TimerOrder.StepKeepsOrderIff | src/timer.c:324-412 | an event keeps the calls in deadline order, ties in start order, and ahead of all that is listed, if and only if it is not a link of a timer with a deadline before that of a timer already called |
| TimerOrder.DeadlineOrderHoldsIff | src/timer.c:296-553 | over every run, from every state in that order, the order holds at every moment if and only if every link is in time in that sense when it is made |
| TimerOrder.PunctualLinkIsInTime | src/timer.c:324-412 | a link that does not come after its deadline is in time |
| TimerOrder.LateLinkTurnsOrder | src/timer.c:324-412 | the failing run: the start of a timer of one tick is held up while one of two ticks is started and called, and its call then comes second with the earlier deadline |
| Timers.LateLinkIsCalledLate | src/timer.c:324-412 | the failing input: a timer linked at its deadline or later is called by the next check, after it |
| Timers.CrossedStartsLinkTwice | src/timer.c:309-327 | two crossed starts of one timer, from any state: the first finds it listed when it comes to link it, which RtList.InsertIsSafeIff says breaks the list |
| Timers.LinkedTimerFires | src/timer.c:494-553 | a linked timer that nobody stops or restarts, however late it was linked, stays linked until it is due and is called at exactly that tick |
| Timers.OneShotFiresOnce | src/timer.c:494-553 | such a one-shot timer is called exactly once and is unlinked from then on |
| Timers.PeriodicTimerFires | src/timer.c:494-553 | such a periodic timer is called when it is due and then every period, without drift or gap |
| Timers.StoppedTimerIsSilent | src/timer.c:422-447 | a stopped timer is not called until somebody starts it again |
| Timers.FireHeadDue | src/timer.c:494-553 | each round of the check loop leaves strictly fewer due timers, whatever the called functions do, so it terminates |
| Timers.FlagsSurviveCallIff | src/timer.c:533-545 | after a call all ACTIVATED flags still agree with the list iff what the timeout function does would not leave its own timer linked as a one-shot, which is decided by its last start or stop and its last mode change |
| Timers.RestartedOneShotCannotBeStopped | src/timer.c:533-545 | a one-shot timer that restarts itself ends linked, without the flag, and a stop does nothing |
| Timers.StopFlagsAgreeIff | src/timer.c:435-444 | after the write that ends a stop all ACTIVATED flags agree with the list if and only if nobody has linked the timer since the section of the stop |
| Timers.StartInStopCannotBeStopped | src/timer.c:435-444 | the failing run: a start between the two halves of a stop leaves the timer linked without its flag, and a second stop does nothing |
| Timers.InsertKeepsOrder | src/timer.c:342-372 | insertion behind all deadlines no later keeps the list ordered by deadline and start |
| TimerStarts.StartSets | src/timer.c:296-412 | a start, from any state, sets the deadline to the tick plus the interval of the timer, whatever is listed, lists it in order and marks it; no other record changes and no other timer comes or goes |
| TimerStarts.BeginSets | src/timer.c:309-324 | likewise its first section, which takes the timer off the list and sets the deadline |
| TimerStarts.LinkSets | src/timer.c:327-396 | and its second, which lists it with that deadline |
| TimerStarts.StopSets | src/timer.c:422-447 | a stop takes a marked timer off the list and clears its mark; it leaves any other as it is |
| TimerStarts.ControlSets | src/timer.c:459-480 | control sets the interval for the next start, or the mode, and nothing else |
| TimerStarts.RearmSets | src/timer.c:533-545 | after its timeout function a timer that is then periodic and marked gets the deadline one interval from now; any other loses its mark |
| TimerStarts.StartedTimerFires | src/timer.c:296-553 | over every run: a timer started at a tick and then left alone is called at exactly that tick plus its interval, and is listed until then, whatever else is listed, started or called |
| TimerStarts.HeldUpTimerFires | src/timer.c:296-553 | likewise of a start held up between its sections, by the tick of the first; a link at the deadline or later makes it the tick after the link |
| TimerStarts.StartedOneShotFiresOnce | src/timer.c:296-553 | a one-shot timer started and left alone is called exactly once, then |
| TimerStarts.StartedPeriodicFires | src/timer.c:296-553 | a periodic one first then, and from there on at every multiple of its interval |
| TimerWheel.InsertKeepsRows | src/timer.c:342-391 | insertion into the lowest rows keeps every row sorted and each a subsequence of the row below, the bottom row being the plain insertion |
| TimerWheel.RemoveKeepsRows | src/timer.c:121-129 | removal from all rows keeps that |
| TimerWheel.RowsAreNested | src/timer.c:342-391 | each upper row is a subsequence of every lower one |
| TimerWheel.RowsAreSorted | src/timer.c:342-391 | every row is sorted in unbounded time |
| TimerWheel.Wheel.StartTimer | src/timer.c:296-412 | the skip-list start, on 32-bit ticks and for any number of levels, refines the stable sorted insertion |
| TimerWheel.Wheel.SearchRows | src/timer.c:342-372 | the nested search loops find the insertion point in every row |
| TimerWheel.Wheel.StopSection | src/timer.c:435-441 | the section of a stop takes the timer off every row |
| TimerWheel.Wheel.ClearActivated | src/timer.c:443-444 | the write that follows clears the flag |
| TimerWheel.Wheel.StopIfActive | src/timer.c:422-447 | a stop that nothing interrupts, its two parts one after the other: stops a timer whose flag is set and reports an error for any other |
| TimerWheel.Wheel.NextTimeout | src/timer.c:108-119 | the earliest deadline, or the maximal tick if nothing is linked |
| TimerWheel.Wheel.CheckTimers | src/timer.c:494-553 | the check loop on wrapped ticks refines the one on unbounded time |
| TimerWheel.Wheel.TickIncrease | src/clock.c:74-100 | the tick wraps around and the due timers are called |
| SmallHeap.StepKeeps | src/mem.c:272-609 | over malloc, realloc and free: headers tile the heap, no two neighbours are free, lfree is a free header or heap_end, used_mem is the sum of the used blocks |
| SmallHeap.MallocIsFirstFit | src/mem.c:272-410 | malloc takes the first fitting block from lfree below the limit, and fails exactly if there is none |
| SmallHeap.MallocKeeps | src/mem.c:272-410 | a block that was not in use comes into use, large enough, and no other changes |
| SmallHeap.MallocWastesLittle | src/mem.c:311-370 | the block exceeds the request by less than a header and a minimal block |
| SmallHeap.FreeKeeps | src/mem.c:546-609 | exactly the freed block goes out of use, and neighbours are merged |
| SmallHeap.PlugHolesKeeps | src/mem.c:156-194 | merging restores that no two neighbours are free, changing no used block |
| SmallHeap.ReallocKeeps | src/mem.c:421-510 | the block is replaced by one large enough at the same or a fresh place, or nothing changes |
| SmallHeap.ReallocWastesLittle | src/mem.c:471-509 | the new block, too, exceeds the request by less than a header and a minimal block |
| SmallHeapLaws.MallocFailsIff | src/mem.c:272-307 | malloc fails exactly for zero, for more than the heap, or when no free block from lfree on and below the limit has room |
| SmallHeapLaws.MallocTakesLowest | src/mem.c:291-390 | else it takes the lowest such block, cut exactly when the rest holds a header and a minimal block; lfree, if it was there, moves to the next free header, and used_mem and max_mem follow |
| SmallHeapLaws.FreeIs | src/mem.c:546-609 | a block given back below lfree makes lfree the start of the free block it becomes part of; above it lfree stays |
| SmallHeapLaws.ReallocFailsIff | src/mem.c:421-510 | realloc of a live block returns NULL exactly for zero, for more than the heap, or when the block can stay neither as it is nor cut and malloc refuses |
| SmallHeapLaws.ReallocStaysIff | src/mem.c:458-498 | it returns the same pointer exactly if the size is that of the block or leaves enough of it for another block |
| SmallHeapLaws.ReallocInPlaceIs | src/mem.c:458-498 | with its own size nothing changes; cut, the block ends behind the size, and lfree follows a free neighbour whose header moves |
| SmallHeapLaws.ReallocMoves | src/mem.c:499-510 | else it is a malloc of the size and then a free of the old block |
| SmallHeapLaws.ReallocOfNull | src/mem.c:421-446 | of NULL it is a malloc |
| SmallHeap.ShrinkKeepsLowestIff | src/mem.c:471-498 | a shrink keeps lfree lowest iff some free block lies below the shrunk one or right behind it |
| SmallHeap.StepKeepsLowestIff | src/mem.c:272-609 | a call keeps lfree the lowest free header iff it is not such a shrink |
| SmallHeap.LfreeStaysLowest | src/mem.c:272-609 | over every run without such shrinks lfree is the lowest free header |
| SmallHeap.MallocFailsOnlyWhenNothingFits | src/mem.c:291-307 | then malloc fails exactly if no free block below the limit fits |
| SmallHeap.HiddenSpaceIsRefused | src/mem.c:471-498 | the failing runs: two blocks are taken from an empty heap, the first is shrunk, and a request that only the space given up could meet is refused |
| SmallHeap.FreeUndoesMalloc | src/mem.c:546-609 | freeing what was just taken restores blocks, lfree and used_mem |
| SmallHeap.LiveDeterminesHeap | src/mem.c:156-194 | the used blocks determine the whole heap |
| SmallHeap.RunsAgree | src/mem.c:272-609 | two runs that leave the same blocks in use leave the same heap |
| SmallHeap.AllFreedIsInitial | src/mem.c:204-257 | with everything freed the heap is the initial one |
| SmallHeap.MaxMemIsPeak | src/mem.c:349-369 | max_mem is the most that was ever in use at any moment of any call |
| HeapMemory.Memory.constructor | src/mem.c:204-257 | the two headers of an empty heap |
| HeapMemory.Memory.HeapMalloc | src/mem.c:272-410 | on the array of words: the headers mirror the specified blocks, prev links included, and no used payload is written |
| HeapMemory.Memory.HeapFree | src/mem.c:546-609 | as for malloc, on the array of words |
| HeapMemory.Memory.Plug | src/mem.c:156-194 | as for malloc, on the array of words |
| HeapMemory.Memory.HeapRealloc | src/mem.c:421-510 | in addition the first min(old, new) words of the payload are preserved |
| HeapMemory.Memory.Search | src/mem.c:291-307 | the scan over headers is the first fit |
| HeapMemory.MirrorSplit | src/mem.c:329-348 | the five header writes of a split, and of the prev link behind it, mirror the split |
| HeapMemory.MirrorJoin | src/mem.c:165-193 | the two header writes of a merge mirror the merge |
| Blocks.LiveDeterminesBlocks | src/mem.c:156-194 | two tilings without free neighbours and with the same used blocks are equal |
| MemHeap.PoolIsAccountedFor | src/memheap.c:138-595 | over every run the blocks tile the pool in address order, none smaller than the minimum, no two neighbours free, the free list holds exactly the free ones, and available_size is the sum of their sizes |
| MemHeap.AllocKeeps | src/memheap.c:138-281 | alloc fails exactly if the size is not below available_size or no free block is large enough; else one fresh block comes into use |
| MemHeap.AllocRefusesAFitIff | src/memheap.c:155-183 | alloc refuses although a block fits iff a free block of exactly the size is all that is available |
| MemHeap.WholePoolIsRefused | src/memheap.c:155-183 | the failing input: an empty pool refuses a request for exactly the room of its one block |
| MemHeap.AllocWastesLittle | src/memheap.c:183-260 | the block exceeds the request by less than a header and a minimal block |
| MemHeap.FreeKeeps | src/memheap.c:495-595 | exactly the freed block goes out of use, merged with free neighbours on both sides |
| MemHeap.ReallocKeeps | src/memheap.c:284-492 | the block is replaced by one large enough, grown into its neighbour, cut, or moved, or nothing changes |
| MemHeap.ReallocWastesLittle | src/memheap.c:284-492 | and is at most a header and a minimal block larger than asked |
| MemHeapLaws.AllocFailsIff | src/memheap.c:138-281 | alloc fails exactly if the room wanted is not below available_size or no block on the free list has it |
| MemHeapLaws.AllocTakesFirstFit | src/memheap.c:169-260 | else it takes the first block on the free list with enough room, cut exactly when the rest holds a header and a minimal block; the rest becomes the head of the free list, which else keeps its order |
| MemHeapLaws.FreeIs | src/memheap.c:495-595 | a block given back becomes the head of the free list, or part of a free predecessor where that is; a free successor leaves the list |
| MemHeapLaws.ReallocFailsIff | src/memheap.c:284-417 | realloc of a live block returns NULL exactly for zero, or when the block is too small, its successor is not free with enough to spare, and an alloc of the size is refused |
| MemHeapLaws.ReallocStaysIff | src/memheap.c:326-417 | the pointer stays exactly if the block is large enough or its successor is free with enough to spare |
| MemHeapLaws.ReallocInPlaceIs | src/memheap.c:326-491 | in place the block ends behind the size, what is left becomes the head of the free list, and max_used_size follows; nothing changes if too little would be left over |
| MemHeapLaws.ReallocMoves | src/memheap.c:405-417 | else it is an alloc of the size and then a free of the old block |
| MemHeapLaws.ReallocOfNull | src/memheap.c:284-314 | of NULL it is an alloc |
| MemHeap.GrowKeeps | src/memheap.c:334-403 | growing into the free neighbour keeps the invariant |
| MemHeap.ShrinkKeeps | src/memheap.c:419-491 | cutting the block, merging the rest with a free neighbour, keeps the invariant |
| MemHeap.MaxUsedIsPeak | src/memheap.c:230-235 | max_used_size is the running maximum of pool_size - available_size |
| MemHeap.RunsAgree | src/memheap.c:138-595 | two runs that leave the same blocks in use leave the same blocks, free set and available_size |
| MemHeap.AllFreedIsInitial | src/memheap.c:50-121 | with everything freed the pool is the initial one |
| MemHeapObject.MemHeapObject.constructor | src/memheap.c:50-121 | the initial headers and free list, linked |
| MemHeapObject.MemHeapObject.AllocItem | src/memheap.c:138-281 | on the two pointer rings, with flags, the specified alloc, which writes no data of a block in use |
| MemHeapObject.MemHeapObject.FreeItem | src/memheap.c:495-595 | on the two pointer rings the specified free |
| MemHeapObject.MemHeapObject.ReallocItem | src/memheap.c:284-492 | on the two pointer rings the specified realloc; the first min(old, new) words of the block are carried over, and no data of another block in use is written |
| MemHeapObject.MemHeapObject.Search | src/memheap.c:169-183 | the loop over the free ring finds the first large enough |
| Pages.TakeKeeps | src/slab.c:236-270 | alloc takes exactly the first n pages of the first run long enough, keeps the list canonical, and fails exactly if there is none |
| Pages.FreeKeeps | src/slab.c:272-322 | free adds exactly the given pages and keeps the list sorted and merged |
| Pages.PagesDetermineList | src/slab.c:272-322 | the set of free pages determines the list |
| Pages.FreeUndoesAlloc | src/slab.c:272-322 | freeing what was allocated restores the identical list |
| Pages.FreesCommute | src/slab.c:272-322 | frees in either order give the identical list |
| Pages.EveryPageIsAccountedFor | src/slab.c:236-322 | over every run every page is free or held by exactly one caller, and with all given back the list is the initial one |
| Pages.PageAllocator.constructor | src/slab.c:327-334 | one run of all the pages |
| Pages.PageAllocator.AllocPages | src/slab.c:236-270 | the loop over the linked pages is the specified alloc |
| Pages.PageAllocator.FreePages | src/slab.c:272-322 | the loop over the linked pages is the specified free |
| SlabZones.ZoneIndexIsSmallestClass | src/slab.c:401-459 | zoneindex rounds up to the least of the 72 chunk sizes that holds the request, one size per index, wasting under 8 bytes or an eighth |
| SlabZones.SizesGrow | src/slab.c:401-459 | larger indices have larger chunks |
| SlabZones.Pow2Test | src/slab.c:631-638 | the bit trick is true exactly for powers of two |
| SlabZones.ZoneHoldsChunks | src/slab.c:628-648 | every zone has room for at least two chunks behind its header, all inside it |
| SlabZones.Pow2ChunksAreAligned | src/slab.c:631-648 | chunks of a power-of-two size up to a page are aligned to their size |
| Slab.TakeChunkKeeps | src/slab.c:539-568 | a chunk that was not live is handed out, and z_nfree stays the never-used ones plus the free list |
| Slab.GiveChunkKeeps | src/slab.c:830-846 | a live chunk goes to the free list, and z_nfree with it |
| Slab.AllFreeIff | src/slab.c:854-855 | z_nfree equals z_nmax iff no chunk is live |
| Slab.LiveIsFound | src/slab.c:795-832 | from the address of any live chunk or large block the page table leads back to it |
| Slab.LiveBlocksAreDisjoint | src/slab.c:478-667 | live chunks and large blocks do not overlap each other or a zone header |
| Slab.MallocKeeps | src/slab.c:478-667 | exactly one new block becomes live, large enough, all others stay as they were |
| Slab.MallocSizes | src/slab.c:478-667 | chunks of exactly the smallest class, or whole pages with less than one too many; failure only without a run of free pages long enough |
| Slab.FreeKeeps | src/slab.c:771-904 | exactly the freed block stops being live, retiring zones or not |
| SlabLaws.BaseIsLeast | src/slab.c:628-638 | chunks begin at the least place behind the header that is a multiple of a power-of-two size, or else of eight |
| SlabLaws.NMaxIsMost | src/slab.c:640-643 | a zone has as many chunks as fit |
| SlabLaws.ChunkFromList | src/slab.c:539-577 | malloc takes the next never-used chunk of the first zone on the list of the class or, when all were used, the first on its free list; with the last free chunk the zone leaves the list |
| SlabLaws.ChunkFromNewZone | src/slab.c:591-655 | with no free chunk in the class, the first chunk of a zone from the reserve or, if that is empty, in new pages, which the page table then leads to the zone; it fails exactly if there is no run of pages long enough then |
| SlabLaws.LargeIs | src/slab.c:493-521 | a large request takes its pages, rounded up, and is noted in the page table |
| SlabLaws.ChunkFreeIs | src/slab.c:830-904 | a chunk goes to the head of its zone's free list, a zone that had none to the head of its class's; but a zone without chunks in use goes into reserve if another zone of the class has a free chunk, or gives its pages back, as the page table then shows, if two are in reserve already |
| Slab.ZonesAreSound | src/slab.c:478-904 | over every run at most two free zones are kept, every zone is sound and every live block is found |
| Slab.SlabAllocator.MallocBytes | src/slab.c:478-667 | the in-place malloc returns the address of the specified block |
| Slab.SlabAllocator.FreeAddress | src/slab.c:771-904 | from the address alone the in-place free is the specified one |
| KconfigExpr.PrintedExpressionsParse | tools/kconfiglib.py:5059-5100 | every expression tree, printed and parsed without the m rewrite, gives itself with AND and OR re-associated to the right, and no token is left |
| KconfigExpr.PrintAndParseKeepsValue | tools/kconfiglib.py:4986-5044 | and the result has the same value under all symbol values |
| KconfigExpr.SamePrintIff | tools/kconfiglib.py:5059-5100 | two expressions print alike iff they are equal up to that re-association |
| KconfigExpr.RightAssocKeepsValue | tools/kconfiglib.py:4986-5044 | re-association keeps the value |
| KconfigExpr.Parser.Expr | tools/kconfiglib.py:2737-2777 | the recursive descent, advancing over the tokens, is the specified parse |
| KconfigExpr.Parser.AndExpr | tools/kconfiglib.py:2779-2787 | likewise for AND |
| KconfigExpr.Parser.Factor | tools/kconfiglib.py:2789-2825 | likewise for symbols, relations, NOT and parentheses |
| KconfigExpr.Strcmp | tools/kconfiglib.py:5292-5295 | -1, 0 or 1, and 0 exactly for equal strings |
| KconfigGrammar.ParsesIff | tools/kconfiglib.py:2737-2825 | the parser takes a sequence of tokens for an expression, and gives it a tree, exactly if the grammar says that it is one with that tree, with the m rewrite or without |
| KconfigGrammar.OneTree | tools/kconfiglib.py:2737-2767 | and the grammar gives it one tree only |
| KconfigLaws.ConnectivesAre | tools/kconfiglib.py:4986-5044 | NOT is the complement, AND the minimum and OR the maximum of n, m and y |
| KconfigLaws.StrcmpIsLexicographic | tools/kconfiglib.py:5292-5295 | the sign is that of the first character in which the strings differ |
| KconfigLaws.NumbersAreCompared | tools/kconfiglib.py:5013-5044 | each relation between symbols that are numbers, not both strings, compares the numbers |
| KconfigLaws.StringsAreCompared | tools/kconfiglib.py:5013-5044 | each relation between others compares the strings |
| KconfigCache.CurrentIsComputed | tools/kconfiglib.py:3444-3682 | recomputation from scratch is a fixed point: every value is what its rule gives under all the values |
| KconfigCache.CurrentTriLaws | tools/kconfiglib.py:3585-3662 | select bounds a value from below, m never reaches a bool symbol, the visibility bounds the user value, an invisible one ignores it |
| KconfigCache.CurrentNumLaws | tools/kconfiglib.py:3444-3559 | a range in force holds for an int or hex symbol, and a user value it allows is taken as written |
| KconfigLaws.TriIs | tools/kconfiglib.py:3585-3662 | the value of a bool or tristate symbol under all the values: its own or, if larger, the one it is selected to, with m for y where it is not tristate or implied by y; its own is the user value as far as the visibility lets it or else the larger of the default in force, as far as its condition lets it, and what implies it while its dependencies are met |
| KconfigLaws.OwnExists | tools/kconfiglib.py:3585-3662 | that describes exactly one value |
| KconfigLaws.DefaultCounts | tools/kconfiglib.py:3621-3627 | a symbol not set, selected or implied is worth the smaller of its first default with a condition that is met and that condition |
| KconfigLaws.NoDefaultIsN | tools/kconfiglib.py:3621-3627 | and n without such a default |
| KconfigLaws.OtherTriIs | tools/kconfiglib.py:3591-3601 | constants have their value, symbols of other types are n |
| KconfigLaws.VisibilityIs | tools/kconfiglib.py:5215-5242 | the visibility is the largest of the prompt conditions, with y for m where the symbol is not tristate |
| KconfigLaws.StringIs | tools/kconfiglib.py:3444-3582 | the string is n, m or y for a logical symbol, the name without a type, and for a string symbol the user value while visible or the string of the first default with a condition that is met |
| KconfigLaws.UnlimitedNumberIs | tools/kconfiglib.py:3473-3559 | an int or hex symbol without a range in force: the user value while visible, unless empty, or the default |
| KconfigLaws.UserNumberIs | tools/kconfiglib.py:3473-3520 | a user value in the first range with a condition that is met counts as written |
| KconfigLaws.LimitedNumberIs | tools/kconfiglib.py:3520-3559 | else the default counts, zero without one, moved to the nearer end of that range if it lies outside |
| KconfigCache.KeyDetermined | tools/kconfiglib.py:4986-5044 | a value depends only on what its short-circuiting evaluation reads and on its own user value |
| KconfigCache.ReadsAreMentioned | tools/kconfiglib.py:2827-2884 | what an evaluation reads is covered by _build_dep, by MODULES, or is of the symbol itself |
| KconfigCache.SurvivorUnchanged | tools/kconfiglib.py:4001-4030 | a value that the invalidation does not reach is not changed by the new user values |
| KconfigCache.InvalidationIsEnough | tools/kconfiglib.py:4001-4030 | although it stops at symbols without a cached visibility, the invalidation leaves only right values cached |
| KconfigCache.NoPromptNoEffect | tools/kconfiglib.py:4032-4052 | a user value of a symbol without a prompt affects no value, so nothing need be invalidated |
| KconfigExample.ExampleIsWellFormed | tools/kconfiglib.py:749-769 | the conditions on configurations are met: by one with the constants n, m and y, MODULES, a tristate, a bool and an int symbol, and by numbers in decimal and with 0x |
| KconfigExample.NumbersReadBack | tools/kconfiglib.py:5285-5291 | a number written as an int or a hex symbol writes it is read back, and no number is read from the empty string |
| KconfigExample.ExampleValues | tools/kconfiglib.py:3585-3662 | its values, with modules on and off: the default m, the promotion to y for lack of modules, and the selected bool symbol |
| Kconfig.Kconfig.TriValue | tools/kconfiglib.py:3585-3662 | the property returns the value recomputed from the user values, filling only right values in |
| Kconfig.Kconfig.StrValue | tools/kconfiglib.py:3444-3582 | likewise |
| Kconfig.Kconfig.NumStrVal | tools/kconfiglib.py:3473-3559 | likewise for int and hex symbols with ranges |
| Kconfig.Kconfig.Visibility | tools/kconfiglib.py:3675-3682 | likewise |
| Kconfig.Kconfig.ExprVal | tools/kconfiglib.py:4986-5044 | likewise for expressions, with the short circuits |
| Kconfig.Kconfig.SetValue | tools/kconfiglib.py:3713-3796 | exactly the values that fit the type are stored; the cache stays right |
| KconfigLaws.AcceptedIff | tools/kconfiglib.py:3756-3782 | which values set_value takes for which type, and what it stores for n, m and y |
| Kconfig.Kconfig.UnsetValue | tools/kconfiglib.py:3798-3805 | the user value is gone; the cache stays right |
| Kconfig.Kconfig.RecInvalidate | tools/kconfiglib.py:4001-4030 | terminates, and clears a set of symbols closed under cached dependents, of which each depends on the given one, directly or not, or on MODULES if that does |
| Kconfig.Kconfig.RecInvalidateIfHasPrompt | tools/kconfiglib.py:4032-4052 | after any change of one user value the cache is right again |
| Kconfig.Kconfig.InvalidateAll | tools/kconfiglib.py:2902-2916 | clears every defined symbol |
| Kconfig.BuildDep | tools/kconfiglib.py:2827-2884 | the dependents of each symbol are exactly the defined symbols that mention it |
| KconfigLaws.MentionedIff | tools/kconfiglib.py:2827-2884 | a symbol is mentioned exactly in the prompts, defaults, ranges and the three dependencies |
| KconfigLaws.MentionedIsPrinted | tools/kconfiglib.py:5244-5260 | and in an expression exactly where it is printed |
| Kconfig.MakeDependOn | tools/kconfiglib.py:5244-5260 | exactly the non-constant symbols of the expression gain the dependent |

## Left out

- The SMP halves of the scheduler, signals and the retry after -RT_EINTR, hooks, debug output, object names and the object registry.
- Context switches, stacks and the interrupt hardware; a section with interrupts disabled is one step, and so is an unprotected read or write of one field. The read of the state that begins a resume is folded into its first section, which may come at any later time.
- Soft timers with their thread, and rt_tick_set.
- Memory pools, devices, the idle thread, components, and of kservice.c everything but the find-first-set function.
- Timers with an interval of zero ticks: a periodic one never leaves the check loop.
- RT_TIMER_SKIP_LIST_MASK other than 1 and 3, the two values the comment in the source vouches for.
- The kernel, the IPC objects, the timers and the zone lists keep sequences where the source links nodes; RtList proves that the pointer primitives do to rings what these sequences do, and MemHeapObject, MessageQueue and Pages work on the links themselves.
- The connection of a thread's timer to the timer list: a thread carries whether its timer runs, and a timeout may come at any moment while it does.
- Kernel.Kernel.Startup: a call that nothing interrupts; its sections are steps of their own in Threads.
- Kernel.Kernel.ResumeIfSuspended: a call that nothing interrupts; see UnlinkSection and InsertSection for its halves.
- Kernel.Kernel.DetachThread: a call that nothing interrupts; see RemoveSection, StopTimerSection and MarkSection for its parts.
- Threads.ResumeKeeps: a call that nothing interrupts; Threads.StepIsSafeIff has its sections.
- Threads.StartKeeps: a call that nothing interrupts; Threads.StepIsSafeIff has its sections.
- Threads.CloseKeeps: a call that nothing interrupts; Threads.StepIsSafeIff has its sections.
- TimerWheel.Wheel.StopIfActive: a call that nothing interrupts; see StopSection and ClearActivated for its parts.
- How much time a blocked caller has left when it goes on: any value the caller computes is allowed.
- Mailbox.NoWakeupIsLost: its runs leave out deletions of threads in the middle of a mailbox call, whose exact effect is Mailbox.DeletionKeepsWakeupsIff, and writes by others to the error of such a thread.
- IPC objects are not deleted while in use; of create and init only the initial state is modelled.
- Mutexes with the FIFO flag, and threads that block while they own a mutex, in the claims about inheritance; the mutex object itself has both flags.
- A startup of a thread that owns a mutex, and rt_thread_control on priorities, in the claims about mutexes.
- MessageReceivers.NoMessageIsOverslept: states the waiting of receivers on values, as that of the receivers of a mailbox; MessageQueueObject has the nodes only.
- Small heap and memory heap: frees of addresses that are not live, sizes near 2^32, heaps too small for one minimal block, the alignment of the arguments of init, and calloc.
- MemHeapObject: the words of headers are not kept in the array of data; writing a new header overwrites its words there.
- The locks of the heaps, which are semaphores: each call is one step here, although rt_realloc of the small heap and of the memory heap gives the lock up before it allocates and copies, rt_memheap_alloc compares the size with available_size before it takes the lock, and rt_malloc of the slab gives it up around rt_page_alloc.
- Slab: rt_realloc, calloc, the statistics, the choice of the zone size at init, and the pages of the page table itself; a zone's chunk list and the zone lists are sequences.
- Kconfig: choices, warnings, which symbols are written out, assignable values, the tokenizer, the menu tree and all file input and output.
- Kconfig dependencies are acyclic and the symbols numbered along them, with MODULES below every tristate symbol; reading and writing numbers in a base are parameters.
