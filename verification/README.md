# Ambilight on a Nios II: kernel, drivers and drawing

The repository is an ambilight controller: a Nios II system that runs the uC/OS-II kernel and
Altera's hardware abstraction layer, grabs a video frame, averages blocks along its edges and
drives LEDs. This project models the parts of it whose behaviour is hard to see from one
function and proves what holds of them for all inputs and over all runs.

| files | what they model |
|---|---|
| `Words`, `PrioMap` | words as binary digits, the priority resolution table, and the two-level bitmaps as sets of priorities |
| `KernelSpec` | the kernel services on sets of ready and waiting tasks |
| `KernelData`, `Kernel` | the same services on the tables, linked lists and bitmaps, proved against `KernelSpec` |
| `KernelPend` | what `OSEventPendMulti` takes from semaphores, mailboxes and queues |
| `KernelRuns`, `KernelTheorems` | tasks, interrupt handlers and ticks interleaved one critical section at a time, the invariant, and what follows for every run |
| `KernelScheduling`, `KernelLosses`, `KernelExamples` | which task runs, and exactly when not the most urgent one; how tasks get lost, and exactly when; runs from `OSInit` into both |
| `KernelCounters` | the nesting counters and the count of context switches against the steps of a run |
| `KernelWalks` | a walk of `OSTimeTick` that is interrupted between two TCBs |
| `Rings`, `UartRuns`, `UartDriver` | the two circular buffers of the JTAG UART, its tasks and interrupt routine interleaved access by access, and the code on arrays |
| `Alarms`, `AlarmWalks` | alarms on a wrapping tick counter against timers in unbounded time; callbacks that stop alarms |
| `LineDrawing`, `BoxDrawing` | integer line drawing, and boxes by row pointers against single pixels |
| `EdgeBlocks` | the blocks along the edges of the frame |
| `IntegerPrinting` | two integer printers |
| `HeapLock`, `Clock` | the recursive heap lock; wall-clock time and sleeping |
| `Basics`, `Arithmetic` | optional values and words; products as repeated addition, for the proofs |

In `Kernel` a method's contract reads `Valid() && Abs() == F(old(Abs()))`: `Valid()` says that the
lists, the priority table and all bitmaps are consistent, `Abs()` reads them as a
`KernelSpec.State`, and `F` is the service of that name in `KernelSpec`. `KernelRuns.Next` is built
from the same functions, so the theorems about runs are about the methods. The runs also need a few
services from beside `os_core.c`; their methods are `OSTimeDly` and `OSTimeDlyResume`
(`UCOSII/src/os_time.c`, lines 44-67 and 167-210), `OSTaskSuspend` and `OSTaskResume`
(`UCOSII/src/os_task.c`, lines 941-991 and 790-834), and `OSSemPendWaits` and `OSSemPendResumed`
(`UCOSII/src/os_sem.c`, lines 312-352).

## What does not hold

Where the code does less than its documentation or its callers expect, the code is modelled as it
is and the exact condition is proved.

- `OSTaskResume` (`UCOSII/src/os_task.c`, lines 814-831) readies a task only if no bit of `OSTCBStat`
  is left, but a post to, or the timeout of, a pend on many events leaves bits behind. A task
  suspended and resumed between the end of its pend and its next run is in no list any more
  (`ResumeLosesExactly`, `PostSuspendResumeLoses`, `LossIsReachable`, `StuckForEver`).
- `OSEventPendMulti` on an empty list of events and without a timeout never returns: its task is in
  no list any more (`EmptyPendLosesExactly`, `EmptyPendIsReachable`). These two calls are the only
  steps that lose a task (`KeepStep`). With a timeout it returns, and stores a message, so its array
  of messages needs room for one entry even then (`OSEventPendMultiResumed`).
- The most urgent ready task runs, except that a task may call `OSTimeTick`, or post with
  `OS_POST_OPT_NO_SCHED` (`UCOSII/src/os_mbox.c`, line 555), which readies tasks and does not
  reschedule. `MostUrgentRuns` says exactly which tasks are overdue then, and `MostUrgentAlwaysRuns`
  that nothing else makes a task overdue. A call of `OSSchedUnlock` without a matching lock does not
  help them, and is harmless otherwise (`UnlockReschedulesExactly`, `OverdueIsReachable`).
- `__malloc_lock` does not notice that `OSSemPend` refuses to wait in an interrupt handler or with the
  scheduler locked (`UCOSII/src/os_sem.c`, lines 302-309). Two tasks may then be inside, or the
  semaphore may count to two (`SumStaysOneExactly`, `BothInside`, `CountOfTwo`).
- `alt_tick` never returns when a callback stops the alarm behind its own (`WalkEndsExactly`,
  `StopsNeighbour`).
- The receive interrupt of the JTAG UART stays off with room in the buffer exactly when a device has
  announced more data along with a byte that is not valid (`NothingStranded`, `MisledIsReachable`).
- An alarm started with the largest number of ticks is called back at the next tick, unless the
  counter has just reached its own largest value (`FirstFiring`).
- `settimeofday` multiplies in 32 bits. Once the product has wrapped around, times are wrong except
  for one wrap in 15625; and once the tick counter has wrapped around they are wrong unless a tick
  is a second (`SetThenGet`).
- `usleep` is too short when the microseconds below a second times the tick rate need more than 32
  bits (`SleepIsExact`).
- The area that `calculateEdgeBlocks` records for the bottom edge does not start where its blocks do,
  in every frame that is not empty (`BottomAreaIs`); the blocks themselves tile the edge (`EdgesTile`).

## Model

| member | source | states |
|---|---|---|
| `Words.OSUnMapTblIsLowest` | Qsys/software/mblight_main_bsp/UCOSII/src/os_core.c:38-55 | Every entry of the table but the first is the position of the lowest set bit of its index |
| `PrioMap.LayoutIs` | Qsys/software/mblight_main_bsp/UCOSII/src/os_core.c:1958-1969 | A priority is its row times the row's width plus its column; rows are 8 wide for an OS_LOWEST_PRIO of at most 63 and 16 above, and there is no row too many |
| `PrioMap.Insert` | Qsys/software/mblight_main_bsp/UCOSII/src/os_core.c:1023-1026 | Setting the two bits of a priority adds exactly it to the set a map stands for, and the group word again marks exactly the non-empty rows; 8-bit and 16-bit layouts |
| `PrioMap.Remove` | Qsys/software/mblight_main_bsp/UCOSII/src/os_core.c:1138-1142 | Clearing them removes exactly that priority and clears the group bit exactly when the row becomes empty |
| `PrioMap.Cleared` | Qsys/software/mblight_main_bsp/UCOSII/src/os_core.c:1339-1343 | A map of zero words is consistent and stands for the empty set |
| `PrioMap.FindBitIsLowest` | Qsys/software/mblight_main_bsp/UCOSII/src/os_core.c:1652-1669 | The table look-up finds the lowest bit of a word of either width, a byte at a time for 16 bits |
| `PrioMap.FindHighestIsMember` | Qsys/software/mblight_main_bsp/UCOSII/src/os_core.c:994-1011 | The two-level look-up yields a member of the set, for every non-empty map of either layout |
| `PrioMap.FindHighestIsLeast` | Qsys/software/mblight_main_bsp/UCOSII/src/os_core.c:994-1011 | No member comes before it, and a map with a member has a non-zero group word |
| `Kernel.OS_Kernel.OS_SchedNew` | Qsys/software/mblight_main_bsp/UCOSII/src/os_core.c:1646-1671 | OSPrioHighRdy becomes the least member of the ready set and nothing else changes |
| `Kernel.OS_Kernel.OS_Sched` | Qsys/software/mblight_main_bsp/UCOSII/src/os_core.c:1604-1625 | Switches to the most urgent ready task when both nesting counters are zero, otherwise changes nothing; the tables stay consistent |
| `Kernel.OS_Kernel.OSIntEnter` | Qsys/software/mblight_main_bsp/UCOSII/src/os_core.c:617-624 | The interrupt nesting grows by one up to 255, only while multitasking |
| `Kernel.OS_Kernel.OSIntExit` | Qsys/software/mblight_main_bsp/UCOSII/src/os_core.c:646-673 | The nesting shrinks by one and the outermost exit of an unlocked scheduler switches to the most urgent ready task |
| `Kernel.OS_Kernel.OSSchedLock` | Qsys/software/mblight_main_bsp/UCOSII/src/os_core.c:692-709 | OSLockNesting grows by one up to 255, only from task level of a running kernel |
| `KernelCounters.LockHolds` | Qsys/software/mblight_main_bsp/UCOSII/src/os_core.c:692-755 | After every run OSLockNesting is the depth of its calls of OSSchedLock not yet undone, counted from the steps alone, and while that depth is above zero no step changes the current task |
| `KernelCounters.HandlersHold` | Qsys/software/mblight_main_bsp/UCOSII/src/os_core.c:617-673 | After every run OSRunning and OSIntNesting are what the starts, entries and exits of the run add up to, and inside a handler only its last exit changes the current task |
| `KernelCounters.SwitchesAreChanges` | Qsys/software/mblight_main_bsp/UCOSII/src/os_core.c:1604-1625 | OSCtxSwCtr counts the changes of the current task, over every run |
| `KernelCounters.TicksLetThrough` | Qsys/software/mblight_main_bsp/UCOSII/src/os_core.c:863-888 | In the stepping states one tick, all ticks or none are let through |
| `Kernel.OS_Kernel.OSSchedUnlock` | Qsys/software/mblight_main_bsp/UCOSII/src/os_core.c:727-755 | The lock nesting shrinks, and only the call that brings it to zero at task level reschedules |
| `Kernel.OS_Kernel.OSStart` | Qsys/software/mblight_main_bsp/UCOSII/src/os_core.c:779-788 | The first task to run is the most urgent ready one; a second call does nothing |
| `Kernel.OS_Kernel.OS_EventTaskRdy` | Qsys/software/mblight_main_bsp/UCOSII/src/os_core.c:983-1037 | The most urgent waiter gets the message and the status, is ready unless suspended, and is in no wait list of its pend any more; OSTCBEventPtr of a pend on many names the posting event |
| `Kernel.OS_Kernel.OS_EventTaskWait` | Qsys/software/mblight_main_bsp/UCOSII/src/os_core.c:1055-1070 | The current task is in the event's wait set and not ready |
| `Kernel.OS_Kernel.OS_EventTaskWaitMulti` | Qsys/software/mblight_main_bsp/UCOSII/src/os_core.c:1089-1113 | The current task is in the wait set of every listed event and not ready, and what the events hold is untouched |
| `Kernel.OS_Kernel.OS_EventTaskRemove` | Qsys/software/mblight_main_bsp/UCOSII/src/os_core.c:1132-1143 | The task leaves the one wait set and no other set changes |
| `Kernel.OS_Kernel.OS_EventTaskRemoveMulti` | Qsys/software/mblight_main_bsp/UCOSII/src/os_core.c:1162-1190 | The task leaves the wait sets of all listed events, listed twice or not, and no other set changes |
| `Kernel.OS_Kernel.OSTimeTick` | Qsys/software/mblight_main_bsp/UCOSII/src/os_core.c:845-911 | Every task but the idle task is treated exactly once: the walk of the linked list ends at the idle task and has met all others; OSTime wraps at 32 bits |
| `Kernel.OS_Kernel.TickTcb` | Qsys/software/mblight_main_bsp/UCOSII/src/os_core.c:891-908 | The critical section of the loop has the effect of a single-task tick, the step TickTcb of the runs |
| `Kernel.OS_Kernel.TickEveryTcb` | Qsys/software/mblight_main_bsp/UCOSII/src/os_core.c:890-911 | The loop over the list has the effect of one tick on exactly the set of tasks without the idle task |
| `KernelData.AllDone` | Qsys/software/mblight_main_bsp/UCOSII/src/os_core.c:890-911 | When the loop meets the idle task at position k, the first k TCBs of the list are those of all other tasks |
| `Kernel.OS_Kernel.OS_TCBInit` | Qsys/software/mblight_main_bsp/UCOSII/src/os_core.c:1920-2018 | A free TCB, the first of the free list, becomes the head of the task list, is found under its priority and is ready; without a free TCB nothing changes |
| `KernelData.CreatedOk` | Qsys/software/mblight_main_bsp/UCOSII/src/os_core.c:1930-2013 | Taking a TCB keeps both lists linked, disjoint and together the whole table, keeps OSTaskCtr their count and the priority table exact, and adds just the one fresh task |
| `KernelData.ClearedIsValid` | Qsys/software/mblight_main_bsp/UCOSII/src/os_core.c:1498-1525 | The initialised tables are consistent: all TCBs are in the free list in order, no task exists and no map has a member |
| `Kernel.OS_Kernel.OS_InitRdyList` | Qsys/software/mblight_main_bsp/UCOSII/src/os_core.c:1329-1351 | The ready map is all zero |
| `Kernel.OS_Kernel.OS_InitTCBList` | Qsys/software/mblight_main_bsp/UCOSII/src/os_core.c:1498-1525 | Every TCB is cleared and linked to the next, the last one to none, and no priority is taken |
| `Kernel.OS_Kernel.InitIdle` | Qsys/software/mblight_main_bsp/UCOSII/src/os_core.c:554-580 | The kernel is exactly where the runs start: the idle task alone exists and is ready |
| `Kernel.OS_Kernel.OSInit` | Qsys/software/mblight_main_bsp/UCOSII/src/os_core.c:554-597 | With OS_TASK_STAT_EN the statistics task exists, too, next to the idle task in priority |
| `Kernel.OS_Kernel.OSEventPendMulti` | Qsys/software/mblight_main_bsp/UCOSII/src/os_core.c:306-466 | Up to OS_Sched: each error is returned under exactly its condition and consumes nothing; otherwise everything available is taken and reported, or, exactly when nothing is available, the task waits for all events: its OSTCBStat has gained OS_STAT_MULTI and the bit of a semaphore, mailbox or queue exactly if one is listed |
| `KernelPend.FlagsAreWaitingStat` | Qsys/software/mblight_main_bsp/UCOSII/src/os_core.c:379-463 | The bits collected from a list are those of the types of its events |
| `KernelPend.CheckIsExact` | Qsys/software/mblight_main_bsp/UCOSII/src/os_core.c:348-372 | A list passes the check if and only if all its events are semaphores, mailboxes and queues |
| `KernelPend.ListedTypes` | Qsys/software/mblight_main_bsp/UCOSII/src/os_core.c:348-372 | To the runs their types are the bits OS_STAT_SEM, OS_STAT_MBOX and OS_STAT_Q |
| `KernelPend.TypesAreEventTypes` | Qsys/software/mblight_main_bsp/UCOSII/src/os_core.c:348-372 | The types of all events of a table are types the runs are about |
| `Kernel.OS_Kernel.TakeNext` | Qsys/software/mblight_main_bsp/UCOSII/src/os_core.c:382-447 | One turn of that loop, for one listed event |
| `Kernel.OS_Kernel.TakeAvailable` | Qsys/software/mblight_main_bsp/UCOSII/src/os_core.c:379-448 | The loop over the events takes what the list is entitled to, fills both arrays in step and, if nothing was available, has collected the types of all events |
| `KernelPend.CollectTakesInOrder` | Qsys/software/mblight_main_bsp/UCOSII/src/os_core.c:379-448 | The messages returned for an event are its oldest ones, one for each time it is listed while there are any |
| `KernelPend.CollectConserves` | Qsys/software/mblight_main_bsp/UCOSII/src/os_core.c:379-448 | The messages returned for an event followed by those left in it are the ones it held |
| `KernelPend.CollectsSomething` | Qsys/software/mblight_main_bsp/UCOSII/src/os_core.c:450-455 | Something is returned at once exactly when a listed event holds something |
| `KernelPend.NothingAvailable` | Qsys/software/mblight_main_bsp/UCOSII/src/os_core.c:379-455 | Nothing is available exactly when every listed semaphore is zero, every mailbox empty and every queue without entries |
| `KernelPend.WhatIsTaken` | Qsys/software/mblight_main_bsp/UCOSII/src/os_core.c:384-440 | What is returned of an event: as many nulls as its counter and its listings allow, the message of a mailbox once, the oldest messages of a queue |
| `KernelPend.WhatIsLeft` | Qsys/software/mblight_main_bsp/UCOSII/src/os_core.c:384-440 | Counters and entries go down by as often as their event is listed but not below zero, and a listed mailbox is empty |
| `KernelPend.NothingLeft` | Qsys/software/mblight_main_bsp/UCOSII/src/os_core.c:457-463 | A pend that finds all its events empty takes nothing from any event |
| `KernelPend.DequeuedIsRest` | Qsys/software/mblight_main_bsp/UCOSII/src/os_core.c:419-431 | Taking the oldest message of a circular queue, with OSQOut wrapping around, leaves the others in order |
| `Kernel.OS_Kernel.OSEventPendMultiResumed` | Qsys/software/mblight_main_bsp/UCOSII/src/os_core.c:467-538 | After OS_Sched: number, error, event, message and terminator are those of the recorded outcome, and the task leaves all wait lists if nothing came |
| `KernelRuns.KeepStep` | Qsys/software/mblight_main_bsp/UCOSII/src/os_core.c:458-537 | Every enabled step of every task and interrupt handler keeps the invariant about phases, wait sets, ready set and recorded deliveries, and loses no task if and only if it is clean |
| `KernelTheorems.Reachable` | Qsys/software/mblight_main_bsp/UCOSII/src/os_core.c:554-596 | The invariant holds after every run from OSInit, and no task is lost while every OSTaskResume and every pend is clean |
| `KernelTheorems.RunExtends` | Qsys/software/mblight_main_bsp/UCOSII/src/os_core.c:554-596 | Nothing but an enabled step limits the runs |
| `KernelScheduling.MostUrgentRuns` | Qsys/software/mblight_main_bsp/UCOSII/src/os_core.c:1604-1671 | After every run, while task code runs with the scheduler enabled, the ready tasks more urgent than the running one are exactly those that task code has made ready by ticking or by posting without OS_Sched since the last rescheduling; with none of them the most urgent task runs |
| `KernelScheduling.MostUrgentAlwaysRuns` | Qsys/software/mblight_main_bsp/UCOSII/src/os_core.c:1604-1671 | Without such ticks and posts task code runs only in the most urgent ready task, over every run |
| `KernelScheduling.OverdueStep` | Qsys/software/mblight_main_bsp/UCOSII/src/os_core.c:646-673 | Every step keeps that; OS_Sched, the outermost OSIntExit and OSStart leave nothing overdue |
| `KernelScheduling.UnlockReschedulesExactly` | Qsys/software/mblight_main_bsp/UCOSII/src/os_core.c:727-755 | After every run, task code that calls OSSchedUnlock with the lock at most once taken leaves the most urgent task running if and only if it held the lock or nothing is overdue |
| `KernelExamples.OverdueIsReachable` | Qsys/software/mblight_main_bsp/UCOSII/src/os_core.c:837-911 | A run from OSInit after which something is overdue: a task has called OSTimeTick itself |
| `KernelTheorems.ReadyExactly` | Qsys/software/mblight_main_bsp/UCOSII/src/os_core.c:893-911 | With no task lost, a task is ready if and only if it is not delayed, not suspended and not waiting for an event that may still come |
| `KernelTheorems.MultiPendWaitsForAll` | Qsys/software/mblight_main_bsp/UCOSII/src/os_core.c:1089-1113 | In any reachable state a multi-pend without an event is in exactly the listed wait sets, and one with an event is in none |
| `KernelTheorems.MultiPendAnswer` | Qsys/software/mblight_main_bsp/UCOSII/src/os_core.c:467-537 | What a multi-pend is about to answer is the one event recorded for it or a timeout, and after its return it is in no wait set |
| `KernelTheorems.MultiPendDeliversOnce` | Qsys/software/mblight_main_bsp/UCOSII/src/os_core.c:458-537 | Over every interleaving between call and return at most one event is handed to the task and it is the answer, also when it comes after the timeout tick |
| `KernelTheorems.DelayCountsTicks` | Qsys/software/mblight_main_bsp/UCOSII/src/os_core.c:893-903 | Left alone, a delay goes down by exactly the number of times OSTimeTick has got to the TCB |
| `KernelTheorems.DelayEndsOnTime` | Qsys/software/mblight_main_bsp/UCOSII/src/os_core.c:890-911 | A delay or timeout of n ticks keeps the task unready until OSTimeTick has got to its TCB n-1 times, and the n-th time readies it unless it is suspended, whatever happens between two TCBs of a tick |
| `KernelTheorems.CallLasts` | Qsys/software/mblight_main_bsp/UCOSII/src/os_core.c:890-911 | From the call on: a delay or a pend with a timeout of n ticks that nothing else ends lasts exactly until OSTimeTick has got to the TCB n times |
| `KernelWalks.WalkMeetsAll` | Qsys/software/mblight_main_bsp/UCOSII/src/os_core.c:889-910 | A walk of OSTimeTick that other steps interrupt meets every task that existed when it began but the idle task, each once, in the order of the list |
| `KernelLosses.ResumeLosesExactly` | Qsys/software/mblight_main_bsp/UCOSII/src/os_core.c:1013-1026 | A post leaves bits in OSTCBStat, so OSTaskResume loses no task if and only if the task is not in a multi-pend that is already over |
| `KernelLosses.CleanUnlessOver` | Qsys/software/mblight_main_bsp/UCOSII/src/os_core.c:893-907 | In a reachable state exactly the tasks in a multi-pend that neither an event nor the clock can end any more have such bits left while they wait for nothing |
| `KernelLosses.PostSuspendResumeLoses` | Qsys/software/mblight_main_bsp/UCOSII/src/os_core.c:1013-1026 | Post, suspend, resume: the three calls that leave a task of a multi-pend in no list, by an interrupt handler or after a post without OS_Sched |
| `KernelLosses.PostRescheduleLoses` | Qsys/software/mblight_main_bsp/UCOSII/src/os_core.c:1013-1026 | So does a task whose post calls OS_Sched and is not switched away by it |
| `KernelExamples.LossIsReachable` | Qsys/software/mblight_main_bsp/UCOSII/src/os_core.c:1013-1026 | A run from OSInit that loses a task in this way |
| `KernelLosses.EmptyPendLosesExactly` | Qsys/software/mblight_main_bsp/UCOSII/src/os_core.c:458-466 | A multi-pend on an empty list of events leaves its task in no list if and only if it has no timeout |
| `KernelLosses.EmptyPendTimesOut` | Qsys/software/mblight_main_bsp/UCOSII/src/os_core.c:893-907 | With a timeout of n ticks the n-th tick readies the task unless it is suspended |
| `KernelExamples.EmptyPendIsReachable` | Qsys/software/mblight_main_bsp/UCOSII/src/os_core.c:458-466 | A run from OSInit that loses a task in this way |
| `KernelLosses.StuckForEver` | Qsys/software/mblight_main_bsp/UCOSII/src/os_core.c:1013-1026 | A task in no list never runs again, whatever happens |
| `KernelRuns.FinishViews` | Qsys/software/mblight_main_bsp/UCOSII/src/os_core.c:467-538 | What the return of a pend leaves of the task's own state, and that no other task's changes |
| `UartRuns.StepKeeps` | Qsys/software/mblight_main_bsp/drivers/src/altera_avalon_jtag_uart_init.c:105-196 | Every round of the interrupt routine and every access of a task keeps the invariant of both rings |
| `UartRuns.NothingLost` | Qsys/software/mblight_main_bsp/drivers/src/altera_avalon_jtag_uart_read.c:105-145 | After every interleaving, bytes handed out plus bytes buffered are the bytes accepted, and bytes sent plus bytes buffered are the accepted prefixes of the writes; a ring never holds more than its length less one |
| `UartRuns.NothingStranded` | Qsys/software/mblight_main_bsp/drivers/src/altera_avalon_jtag_uart_init.c:156-194 | A non-empty transmit ring has its interrupt enabled unless the writer is about to enable it; while the receive interrupt is off and no reader is about to enable it, the ring is full if and only if the routine has not been misled by a byte that is not valid and announces more data |
| `UartRuns.MisledIsReachable` | Qsys/software/mblight_main_bsp/drivers/src/altera_avalon_jtag_uart_init.c:125-163 | One round from the start turns the receive interrupt off for an empty ring |
| `UartRuns.RunExtends` | Qsys/software/mblight_main_bsp/drivers/src/altera_avalon_jtag_uart_init.c:105-196 | Nothing but an enabled step limits the runs |
| `UartRuns.ReceiveStops` | Qsys/software/mblight_main_bsp/drivers/src/altera_avalon_jtag_uart_init.c:125-163 | When the receive loop ends with data still announced, the ring is full if and only if the last byte was valid |
| `UartRuns.ReceiveTakes` | Qsys/software/mblight_main_bsp/drivers/src/altera_avalon_jtag_uart_init.c:125-154 | The receive loop takes the leading valid bytes that fit, in order, and ends with the announcement read last |
| `UartRuns.ReceiveRoundIs` | Qsys/software/mblight_main_bsp/drivers/src/altera_avalon_jtag_uart_init.c:122-164 | A round with RI appends exactly those bytes, and turns RE off if and only if the last read announced more data, or none was made for want of room |
| `UartRuns.FullTurnsOff` | Qsys/software/mblight_main_bsp/drivers/src/altera_avalon_jtag_uart_init.c:130-163 | A round that ends with the ring full and data announced leaves RE off |
| `UartRuns.SendMoves` | Qsys/software/mblight_main_bsp/drivers/src/altera_avalon_jtag_uart_init.c:169-181 | The transmit loop moves as many bytes as there are and as WSPACE allows, oldest first |
| `UartRuns.SendRoundIs` | Qsys/software/mblight_main_bsp/drivers/src/altera_avalon_jtag_uart_init.c:166-194 | After a round with WI, WE is off if and only if it was off before or fewer bytes were buffered than WSPACE |
| `UartRuns.RoundIs` | Qsys/software/mblight_main_bsp/drivers/src/altera_avalon_jtag_uart_init.c:114-194 | A round of the runs does the receive half exactly for RI and the transmit half exactly for WI |
| `UartRuns.WriterGoesOn` | Qsys/software/mblight_main_bsp/drivers/src/altera_avalon_jtag_uart_write.c:97-196 | In every state a writer inside its call has just one access to make next, except that one that has not written everything may go on or return |
| `UartRuns.ReaderGoesOn` | Qsys/software/mblight_main_bsp/drivers/src/altera_avalon_jtag_uart_read.c:111-196 | So has a reader, except that one that has found nothing may go on or give up |
| `UartRuns.SendKeeps` | Qsys/software/mblight_main_bsp/drivers/src/altera_avalon_jtag_uart_init.c:169-194 | The transmit loop moves bytes from the ring to the device in order, and stops early only when the ring is empty |
| `UartRuns.PublishInKeeps` | Qsys/software/mblight_main_bsp/drivers/src/altera_avalon_jtag_uart_write.c:100-127 | Moving tx_in over copied bytes appends exactly them, with a free-space computation from an old tx_out |
| `UartRuns.PublishOutKeeps` | Qsys/software/mblight_main_bsp/drivers/src/altera_avalon_jtag_uart_read.c:115-142 | Moving rx_out over copied bytes removes exactly them, with a snapshot of rx_in that is out of date |
| `Rings.ReadRun` | Qsys/software/mblight_main_bsp/drivers/src/altera_avalon_jtag_uart_read.c:118-124 | The run is never longer than what is buffered nor beyond the end of the buffer, and empty exactly when the ring is |
| `Rings.WriteRun` | Qsys/software/mblight_main_bsp/drivers/src/altera_avalon_jtag_uart_write.c:106-114 | The three-case run never fills the last slot nor passes the end of the buffer, and is empty exactly when the ring is full |
| `UartDriver.JtagUart.ReceiveLoop` | Qsys/software/mblight_main_bsp/drivers/src/altera_avalon_jtag_uart_init.c:125-154 | The loop on rx_buf and rx_in has the effect of the receive step |
| `UartDriver.JtagUart.SendLoop` | Qsys/software/mblight_main_bsp/drivers/src/altera_avalon_jtag_uart_init.c:169-181 | The loop on tx_buf and tx_out has the effect of the transmit step |
| `UartDriver.JtagUart.IrqRound` | Qsys/software/mblight_main_bsp/drivers/src/altera_avalon_jtag_uart_init.c:114-194 | One round of the routine takes exactly the interrupt step, whatever tasks are doing, and on the fields: which bytes are accepted and sent, and when RE and WE go off |
| `UartDriver.JtagUart.LookAtBoth` | Qsys/software/mblight_main_bsp/drivers/src/altera_avalon_jtag_uart_write.c:103-120 | Reading both indices and computing the run is the look of the writer's step machine, in any state of the interrupt routine |
| `UartDriver.JtagUart.CopyIn` | Qsys/software/mblight_main_bsp/drivers/src/altera_avalon_jtag_uart_write.c:122-122 | Copying one byte is its step |
| `UartDriver.JtagUart.MoveIn` | Qsys/software/mblight_main_bsp/drivers/src/altera_avalon_jtag_uart_write.c:126-126 | Moving tx_in is its step, however much the interrupt routine has taken meanwhile |
| `UartDriver.JtagUart.EnableTransmit` | Qsys/software/mblight_main_bsp/drivers/src/altera_avalon_jtag_uart_write.c:136-139 | So is enabling the interrupt |
| `UartDriver.JtagUart.LookAtOut` | Qsys/software/mblight_main_bsp/drivers/src/altera_avalon_jtag_uart_read.c:122-134 | Computing the run from an rx_in read earlier is the look of the reader's step machine |
| `UartDriver.JtagUart.CopyOut` | Qsys/software/mblight_main_bsp/drivers/src/altera_avalon_jtag_uart_read.c:136-136 | Copying one byte is its step |
| `UartDriver.JtagUart.MoveOut` | Qsys/software/mblight_main_bsp/drivers/src/altera_avalon_jtag_uart_read.c:140-140 | Moving rx_out is its step, however much the interrupt routine has added meanwhile |
| `UartDriver.JtagUart.EnableReceive` | Qsys/software/mblight_main_bsp/drivers/src/altera_avalon_jtag_uart_read.c:190-194 | So is enabling the interrupt |
| `UartDriver.JtagUart.Fill` | Qsys/software/mblight_main_bsp/drivers/src/altera_avalon_jtag_uart_write.c:100-127 | Uninterrupted, the copy loop accepts as many bytes as fit and appends exactly them |
| `UartDriver.JtagUart.Drain` | Qsys/software/mblight_main_bsp/drivers/src/altera_avalon_jtag_uart_read.c:113-143 | Uninterrupted, the copy loop hands out as many bytes as there are and fit, oldest first |
| `Alarms.StartTracks` | Qsys/software/mblight_main_bsp/HAL/src/alt_alarm_start.c:80-96 | A started alarm stands for its unbounded due tick if and only if nticks is not the largest word or the counter is at its largest value |
| `Alarms.TickTracks` | Qsys/software/mblight_main_bsp/HAL/src/alt_tick.c:99-139 | Every tick keeps alarm and unbounded timer together: they expire at the same tick and are re-armed alike |
| `Alarms.FirstFiring` | Qsys/software/mblight_main_bsp/HAL/src/alt_alarm_start.c:80-96 | The first callback comes nticks + 1 ticks after the start if and only if that condition holds |
| `Alarms.OnTimeForEver` | Qsys/software/mblight_main_bsp/HAL/src/alt_tick.c:87-141 | Then every callback comes exactly after the period returned before, across any number of wraps |
| `Alarms.KthFiring` | Qsys/software/mblight_main_bsp/HAL/src/alt_tick.c:113-139 | The k-th further callback is at the first one plus the sum of k periods |
| `Alarms.RunRefines` | Qsys/software/mblight_main_bsp/HAL/src/alt_tick.c:87-141 | Over every run of starts, stops and ticks with starts on time, the list makes the same callbacks in the same order as unbounded timers |
| `Alarms.AlarmTimer.alt_alarm_start` | Qsys/software/mblight_main_bsp/HAL/src/alt_alarm_start.c:64-113 | The alarm is in front of the list with its wrapped time and flag, or nothing changes without a system clock or without an alarm |
| `Alarms.AlarmTimer.alt_tick` | Qsys/software/mblight_main_bsp/HAL/src/alt_tick.c:87-141 | The walk over the list treats every alarm once, also when one is unregistered on the way |
| `AlarmWalks.WalkEndsExactly` | Qsys/software/mblight_main_bsp/HAL/src/alt_tick.c:99-141 | Whatever alarms callbacks unregister, the walk ends if and only if no turn unregisters the alarm it is going to look at next |
| `AlarmWalks.StopsNeighbour` | Qsys/software/mblight_main_bsp/HAL/src/alt_tick.c:99-141 | The callback of the first of two alarms that stops the second one makes the walk endless |
| `LineDrawing.DrawLine` | Qsys/software/mblight_main_bsp/drivers/src/altera_up_avalon_video_pixel_buffer_dma.c:511-598 | One pixel more than the larger of the two differences, from one endpoint to the other, each a neighbour of the one before, inside the box of the endpoints and within half a pixel of the ideal line; no intermediate value leaves 32 bits |
| `LineDrawing.OneTooFar` | Qsys/software/mblight_main_bsp/drivers/src/altera_up_avalon_video_pixel_buffer_dma.c:573-595 | The loop steps beyond the end of the shorter axis only when that is more than half as long as the longer one |
| `LineDrawing.PlotAlong` | Qsys/software/mblight_main_bsp/drivers/src/altera_up_avalon_video_pixel_buffer_dma.c:558-597 | The same for the loop along the longer axis |
| `LineDrawing.ErrorTurn` | Qsys/software/mblight_main_bsp/drivers/src/altera_up_avalon_video_pixel_buffer_dma.c:573-595 | One turn keeps the error term above -deltax and at most 0 |
| `LineDrawing.EndsThere` | Qsys/software/mblight_main_bsp/drivers/src/altera_up_avalon_video_pixel_buffer_dma.c:573-595 | At the end of the longer axis the other one is covered exactly |
| `BoxDrawing.FillBox` | Qsys/software/mblight_main_bsp/drivers/src/altera_up_avalon_video_dma_controller.c:165-256 | The row-pointer loops store what the single-pixel routine would store for every pixel of the box, row by row, in both address modes and all data widths, in the buffer chosen |
| `BoxDrawing.DrawBox` | Qsys/software/mblight_main_bsp/drivers/src/altera_up_avalon_video_dma_controller.c:123-258 | The box between any two corners is clipped to the screen and filled or outlined; it fails and stores nothing exactly when no pixel is on the screen |
| `BoxDrawing.ClippedIs` | Qsys/software/mblight_main_bsp/drivers/src/altera_up_avalon_video_dma_controller.c:136-163 | The clipped box has exactly the screen's pixels between the corners, each once |
| `BoxDrawing.AddressesDiffer` | Qsys/software/mblight_main_bsp/drivers/src/altera_up_avalon_video_dma_controller.c:83-121 | No two pixels of the screen share an address while the frame fits the address space |
| `BoxDrawing.PixelAddressIs` | Qsys/software/mblight_main_bsp/drivers/src/altera_up_avalon_video_dma_controller.c:100-113 | With consistent masks the address of a pixel on the screen is the start of the front or back buffer, plus its row's offset, plus its place in the row |
| `BoxDrawing.StoreIs` | Qsys/software/mblight_main_bsp/drivers/src/altera_up_avalon_video_dma_controller.c:83-121 | The store of a pixel has the data width and goes to start_address or back_buffer_start_address plus whole rows and whole pixels of that width |
| `BoxDrawing.WritesAreStores` | Qsys/software/mblight_main_bsp/drivers/src/altera_up_avalon_video_dma_controller.c:83-121 | So do the stores of any list of pixels on the screen |
| `BoxDrawing.DrawPixel` | Qsys/software/mblight_main_bsp/drivers/src/altera_up_avalon_video_dma_controller.c:83-121 | The boundary check and the one store |
| `BoxDrawing.ScreenFill` | Qsys/software/mblight_main_bsp/drivers/src/altera_up_avalon_video_dma_controller.c:403-405 | Every pixel of the screen is stored, each address once |
| `BoxDrawing.DrawHLine` | Qsys/software/mblight_main_bsp/drivers/src/altera_up_avalon_video_dma_controller.c:408-450 | A horizontal line stores what the single-pixel routine would |
| `BoxDrawing.DrawVLine` | Qsys/software/mblight_main_bsp/drivers/src/altera_up_avalon_video_dma_controller.c:452-504 | So does a vertical line, although it steps by offsets |
| `BoxDrawing.DrawRectangle` | Qsys/software/mblight_main_bsp/drivers/src/altera_up_avalon_video_dma_controller.c:506-514 | The outline is the four sides, corner pixels twice, each a store of its own pixel in the chosen buffer |
| `BoxDrawing.PerimeterIs` | Qsys/software/mblight_main_bsp/drivers/src/altera_up_avalon_video_dma_controller.c:506-514 | The four sides hold exactly the pixels of the box on its border |
| `EdgeBlocks.Edges.CalculateEdgeBlocks` | Qsys/software/mblight_main/mblight.c:322-405 | The four arrays hold the blocks the next rows are about, for every frame whose sides are below 2^31 and every number of LEDs the arrays have room for, and the four edges their areas and LED counts |
| `EdgeBlocks.BlocksLieAlong` | Qsys/software/mblight_main/mblight.c:322-405 | Between the corners every block lies along its edge of the picture and is as deep as the edge's size says |
| `EdgeBlocks.CornersTouch` | Qsys/software/mblight_main/mblight.c:322-405 | Each corner block touches the two sides of the picture that meet there |
| `EdgeBlocks.BlockSizes` | Qsys/software/mblight_main/mblight.c:322-405 | The blocks of an edge are equal parts of it, and its two corners share the rest, the second one with the odd pixel |
| `EdgeBlocks.AreasAre` | Qsys/software/mblight_main/mblight.c:329-392 | The areas of the left, top and right edge span their side of the picture; that of the bottom edge is placed by the width of its blocks |
| `EdgeBlocks.BottomAreaIs` | Qsys/software/mblight_main/mblight.c:367-371 | The area of the bottom edge starts where its blocks do if and only if the frame has no width |
| `EdgeBlocks.EdgesTile` | Qsys/software/mblight_main/mblight.c:333-404 | The side blocks follow each other and sum exactly to the frame height, and both rows with their corners follow each other and sum exactly to the frame width |
| `EdgeBlocks.IdsAreLeds` | Qsys/software/mblight_main/mblight.c:334-386 | Going around the picture the block numbers are 0, 1, 2 and so on up to the number of LEDs |
| `EdgeBlocks.PlaceInOnlyOne` | Qsys/software/mblight_main/mblight.c:333-404 | In such a tiling no place lies in two blocks |
| `EdgeBlocks.PlaceInOne` | Qsys/software/mblight_main/mblight.c:333-404 | and every place lies in one |
| `IntegerPrinting.PrintInteger` | Qsys/software/mblight_main_bsp/HAL/src/alt_log_printf.c:205-296 | For every word and each of d, i, u, o, x and X: the digits are the positional notation of the number without leading zeros, laid out with sign and padding |
| `IntegerPrinting.PrintedRoundTrip` | Qsys/software/mblight_main_bsp/HAL/src/alt_log_printf.c:205-296 | What is printed reads back as the number, and its length is the larger of the field width and the natural length |
| `IntegerPrinting.LayoutIs` | Qsys/software/mblight_main_bsp/HAL/src/alt_log_printf.c:257-296 | The field is filled with zeros behind the sign, or with spaces before it, and the digits beyond 9 are capital letters exactly for %X |
| `IntegerPrinting.ConversionIs` | Qsys/software/mblight_main_bsp/HAL/src/alt_log_printf.c:300-317 | The base of each conversion, and two's complement for %d and %i only |
| `IntegerPrinting.CountDigits` | Qsys/software/mblight_main_bsp/HAL/src/alt_log_printf.c:247-255 | The place value found is the largest one not above the number and its product never overflows |
| `IntegerPrinting.PrintDigits` | Qsys/software/mblight_main_bsp/HAL/src/alt_log_printf.c:281-295 | Dividing by falling place values yields the notation |
| `IntegerPrinting.RepChar` | Qsys/software/mblight_main_bsp/HAL/src/alt_log_printf.c:106-110 | r copies of the character, none for a negative r |
| `IntegerPrinting.Notation` | Qsys/software/mblight_main_bsp/HAL/src/alt_log_printf.c:247-295 | The digits stand for the number and have no leading zero, the number zero aside |
| `IntegerPrinting.PrintHex` | Qsys/software/mblight_main_bsp/HAL/src/alt_printf.c:84-113 | Nibble scanning yields the hexadecimal notation of every word |
| `IntegerPrinting.NaturalIsUnique` | Qsys/software/mblight_main_bsp/HAL/src/alt_printf.c:84-113 | A number has only one notation without leading zeros |
| `IntegerPrinting.HexPrintersAgree` | Qsys/software/mblight_main_bsp/HAL/src/alt_printf.c:84-113 | Both printers print the same for %x without a field width |
| `HeapLock.SumStaysOneExactly` | Qsys/software/mblight_main_bsp/UCOSII/src/alt_malloc_lock.c:63-148 | In every interleaving of paired calls, the semaphore's count plus the tasks that own the heap or are about to post is one for the whole run if and only if no pend of the run is refused |
| `HeapLock.ExactlyOne` | Qsys/software/mblight_main_bsp/UCOSII/src/alt_malloc_lock.c:63-148 | Until a pend is refused at most one task is inside, exactly the owner re-enters without blocking, and nobody waits while the semaphore is free |
| `HeapLock.BothInside` | Qsys/software/mblight_main_bsp/UCOSII/src/alt_malloc_lock.c:102-104 | A run into a state with two tasks inside: the second one has allocated with the scheduler locked |
| `HeapLock.CountOfTwo` | Qsys/software/mblight_main_bsp/UCOSII/src/alt_malloc_lock.c:102-104 | A run after which the semaphore's count is two and nobody is inside |
| `HeapLock.StepKeeps` | Qsys/software/mblight_main_bsp/UCOSII/src/alt_malloc_lock.c:63-148 | Every single access but a refused pend, the unprotected assignments included, keeps one owner at most |
| `HeapLock.MallocLock.TryToReenter` | Qsys/software/mblight_main_bsp/UCOSII/src/alt_malloc_lock.c:89-98 | In every state the runs keep, the test singles out exactly the owner, and counts its recursion |
| `HeapLock.MallocLock.Release` | Qsys/software/mblight_main_bsp/UCOSII/src/alt_malloc_lock.c:125-143 | The semaphore is to be posted exactly when the last level is released |
| `Clock.SetThenGet` | Qsys/software/mblight_main_bsp/HAL/src/alt_gettod.c:79-106 | For every time from 1970 on, every tick it is set at and every number of ticks until it is read, the time reads back exactly if and only if the tick counter has not wrapped around, or its ticks are seconds, and the lost high words of the 32-bit product are a multiple of 15625; time zero read at once aside |
| `Clock.RestIsRightExactly` | Qsys/software/mblight_main_bsp/HAL/src/alt_settod.c:82-84 | That condition is exactly when the wrapped product has the right rest after division by a million |
| `Clock.SmallProducts` | Qsys/software/mblight_main_bsp/HAL/src/alt_settod.c:82-84 | It holds while the product fits 32 bits |
| `Clock.Normalise` | Qsys/software/mblight_main_bsp/HAL/src/alt_gettod.c:89-106 | The two loops compute the normal form, clamping times before 1970 to zero |
| `Clock.WallClock.SetTimeOfDay` | Qsys/software/mblight_main_bsp/HAL/src/alt_settod.c:69-95 | Whatever tick gettimeofday is called at, it will return the time set plus the ticks in between if and only if that condition holds; without a system clock nothing changes |
| `Clock.WallClock.GetTimeOfDay` | Qsys/software/mblight_main_bsp/HAL/src/alt_gettod.c:70-119 | The sum in normal form and the time zone, or an error |
| `Clock.Usleep` | Qsys/software/mblight_main_bsp/HAL/src/alt_usleep.c:82-101 | The delays are at most 0xffff each and add up to the computed ticks |
| `Clock.SleepIsExact` | Qsys/software/mblight_main_bsp/HAL/src/alt_usleep.c:82-101 | Ticks and busy rest add up to the requested time if and only if the product of the rest below a second and the tick rate fits 32 bits |

## Left out

- Pointers to control blocks are indices into their tables, and a control block is one record in its table; `Kernel` updates the tables in place, but aliasing between fields of one block is not modelled.
- Kernel.OS_Kernel.OSTimeTick: proved when nothing interrupts it. Walks interrupted between two TCBs are proved on the list of priorities (`KernelWalks`).
- Kernel.OS_Kernel.OS_TCBInit: one step of a run, although the new TCB is for a moment in neither list; stack, options, extension and profiling fields of the TCB are not modelled.
- Kernel.OS_Kernel.OSInit: the statistics task is a task like any other; flags, queues, memory partitions, timers and the free list of event control blocks are not initialised.
- Kernel.OS_Kernel.OSEventPendMulti: null pointers as arguments, which it rejects first, are not modelled. Its list of events is a value; a call that gives the same array for the list and for the events that are ready, and so clears its own list, is not modelled.
- Alarms.AlarmTimer.alt_tick: callbacks return a number; `AlarmWalks` has callbacks that stop alarms, but not their due times. Callbacks that start alarms are not modelled, nor is starting an alarm that is already in the list.
- UartDriver.JtagUart.Fill: the loop as a whole, like that of `Drain`, is proved only when nothing interrupts it; its single accesses are proved in any state.
- Of the services beside `os_core.c`, the error codes are only told apart as success and failure, `OSTaskSuspend` takes a priority but not `OS_PRIO_SELF`, and the part of `OSSemPend` that does not block is left out.
- A context switch sets the current TCB and priority; stacks, registers and the assembly are not modelled.
- Task and event names, hooks, what the statistics task computes, profiling counters, mutexes, event flags, task deletion and priority changes.
- UART: blocking, host-inactivity timeouts, event-flag wake-ups and the FIFO-full reset. A reader or writer that has to wait may go on or give up at any time. One reader and one writer at a time: callers whose pend on `read_lock` or `write_lock` is refused, because the scheduler is locked, and who go on nevertheless are not modelled.
- `LineDrawing.DrawLine` records the plotted pixels; the frame-buffer address of `helper_plot_pixel` is not modelled. Lines are excluded whose loop would overflow in its step after the last pixel: those that end at the largest `int` along the longer axis, or at the end of `int` along a shorter axis more than half as long.
- `BoxDrawing`: masks are given by their number of ones, and are wide enough for the resolution.
- EdgeBlocks.Edges.CalculateEdgeBlocks: products of 2^31 and more, which overflow an `int` in frames with a side of that length, are taken as the numbers they are.
- `EdgeBlocks`: `calibrate`, `getAverages` and the other routines of the application.
- `IntegerPrinting`: the parsing of format strings and the `%c` and `%s` conversions; the field width is a parameter.
- `HeapLock`: calls before multitasking has started, calls that are not paired, calls of interrupt handlers, which act under the priority of the interrupted task, aborted pends, and a task whose priority changes while it holds the heap.
- Clock.SetThenGet: the time of day stays three seconds below the largest one a signed 32-bit `tv_sec` can hold, in the year 2038; times before 1970 are not set.
- The DMA controller's own line routine, character drawing, buffer swapping, audio and video configuration and the hardware description files.
