# Pintos (KAIST): a verified model

This project models the hard parts of the KAIST edition of the Pintos kernel and proves what they are for: the
scheduler and its locks in every interleaving, the in-place list sort that they rest on, page tables, the
allocators, eviction to swap, the file system, and the library algorithms.

* **Lists** (`KernelList.dfy`, `StableOrder.dfy`): `list.c` on heap nodes with `prev` and `next`, through
  `list_splice` to the natural merge sort.
* **Scheduler** (`Scheduler.dfy`, `SchedulerSteps.dfy`, `SchedulerRuns.dfy`): threads, semaphores, locks and the
  timer as a state machine. A region that runs with interrupts off is one step, and steps interleave freely.
  `KernelSteps.dfy` (with `ThreadLists.dfy`) has the same regions as methods on thread and semaphore structures, the
  ready, sleep, destruction and waiter lists being the linked lists of `KernelList.dfy`; each is proved to take its
  step. `SchedulerEffects.dfy` says what the steps come to for the threads. `Donation.dfy` has nested priority donation
  on thread and lock objects, `ProcessWait.dfy` the wait/exit handshake and `WaitHistory.dfy` what its calls return, told
  by the events of a run alone.
* **Arithmetic** (`Arithmetic64.dfy`): 64-bit division from 32-bit division.
* **Memory** (`PageEntry.dfy`, `PageTable.dfy`, `Bits.dfy`, `Bitmaps.dfy`, `Palloc.dfy`, `Malloc.dfy`,
  `MallocEffects.dfy`, `Vm.dfy`, `VmEffects.dfy`): four-level page tables as a map, the first-fit page allocator, the
  size-class allocator that shares its pool with other clients, eviction to swap as something no process can see.
* **File system** (`InodeData.dfy`, `FileSystem.dfy`, `FileEffects.dfy`, `Volume.dfy`): reads and writes by sector
  chunks as one flat sequence, the whole file system as a state machine, what it is for its callers (a map from names to
  files, and files that cannot be written while somebody denies it), and the operations in place that refine it. This is
  the original file system, not the one under EFILESYS.
* **Library** (`HashTable.dfy`, `Stdlib.dfy`, `Stdio.dfy`, `Atoi.dfy`, `Strings.dfy`, `ArgStack.dfy`): the rehashing
  hash table, heap sort and binary search, integer printing and parsing, `strtok_r` and the argument stack.

`Sequences.dfy` has what all of them say about sequences.

Operations that change state are methods on classes or arrays, proved against functions on values; the properties of
runs are lemmas about those functions. Memory that may run out, callbacks and user programs are parameters.

Where code and comments disagree the model follows the code: `malloc` gives requests above 1 kB pages of their own
(the comment says 2 kB); `bitmap_scan_and_flip` for no bits returns the start index (the comment says 0);
`__umoddi3` and `__moddi3` truncate to 32 bits; a comparison function passed to `list_sort` in `refresh_priority`
belongs to another list. Properties that turned out false have an exact condition: `UmodIsRemainder` and
`SmodIsRemainder`, `DonationKeepsOrderExactly` and `DonationKeepsNextExactly` (with the run `DonationBreaksOrder`),
`DonationCovers`, `BigPagesSuffice`, `AddIsSoundExactly` (with `ShortReads`), `FailedCreateLeaksExactly`,
`AlignedExactly`, `PrintThenParse` and `FieldWidth`.

## Model

| member | source | states |
|---|---|---|
| `KernelList.Kinds` | pintos-kaist/lib/kernel/list.c:37-54 | is_head, is_interior and is_tail, from the null links alone, tell head, interior elements and tail of every well-formed chain apart |
| `KernelList.Insert` | pintos-kaist/lib/kernel/list.c:156-165 | four pointer writes put the element between its neighbours of a well-formed doubly linked chain and leave a well-formed chain of exactly the old elements and the new one |
| `KernelList.Remove` | pintos-kaist/lib/kernel/list.c:240-246 | unlinks exactly the element, returns its successor, and the rest is a well-formed chain in the same order |
| `KernelList.Splice` | pintos-kaist/lib/kernel/list.c:167-190 | moves exactly the range, in order, to before the destination, within one list or between two, and both lists stay well-formed; an empty range moves nothing |
| `KernelList.FindEndOfRun` | pintos-kaist/lib/kernel/list.c:333-350 | the maximal nondecreasing run at the front: it is a run, and the element after it, if any, is less than its last |
| `KernelList.InplaceMerge` | pintos-kaist/lib/kernel/list.c:352-375 | through list_splice on the pointers, two adjacent runs become their stable merge, what is around them untouched |
| `KernelList.MergeRuns` | pintos-kaist/lib/kernel/list.c:393-409 | merging two runs is a stable reordering and adds at most one run to those put out so far |
| `KernelList.SortTurn` | pintos-kaist/lib/kernel/list.c:394-409 | one turn of the pass takes two maximal runs (the next one starts with a descent) and merges them, or finds that only one is left |
| `KernelList.SortPass` | pintos-kaist/lib/kernel/list.c:389-411 | a pass is a stable reordering, and unless it puts out one run the number of maximal runs has strictly fallen |
| `KernelList.SortChain` | pintos-kaist/lib/kernel/list.c:381-413 | terminates because the number of maximal runs falls with each pass; the chain is then well-formed, sorted, and a stable permutation, for every strict weak order |
| `KernelList.List.Sort` | pintos-kaist/lib/kernel/list.c:377-413 | list_sort: sorted, stable, a permutation, and therefore the one sequence that insertion in order would also give |
| `KernelList.List.InsertOrderly` | pintos-kaist/lib/kernel/list.c:415-431 | list_insert_ordered puts the element before the first that it is less than, so behind its equals |
| `KernelList.List.ReverseInPlace` | pintos-kaist/lib/kernel/list.c:309-319 | swapping the links of all elements and of the sentinels leaves a well-formed list of the reversed sequence |
| `KernelList.List.PushBack` | pintos-kaist/lib/kernel/list.c:201-204 | list_push_back appends |
| `KernelList.List.PushFront` | pintos-kaist/lib/kernel/list.c:192-198 | list_push_front puts the element before all others |
| `KernelList.List.PopFront` | pintos-kaist/lib/kernel/list.c:248-255 | list_pop_front returns and removes the first element |
| `StableOrder.MergeKeepsClasses` | pintos-kaist/lib/kernel/list.c:352-375 | merging sorted sequences keeps the order within every class of equivalent elements |
| `StableOrder.InsertOrderedStable` | pintos-kaist/lib/kernel/list.c:415-431 | inserting into a sorted list is a stable sort of the list with the element at its back |
| `StableOrder.SortedStableUnique` | pintos-kaist/lib/kernel/list.c:377-413 | a sorted stable permutation is unique, so sortedness and stability say exactly which sequence a sort gives |
| `Arithmetic64.Divl` | pintos-kaist/lib/arithmetic.c:21-36 | the divl instruction: floor of the quotient, and a trap exactly when the divisor is zero or the quotient needs more than 32 bits |
| `Arithmetic64.Nlz` | pintos-kaist/lib/arithmetic.c:38-67 | shifting a nonzero 32-bit word left by the result puts its highest bit at bit 31, so the result is the number of leading zeros |
| `Arithmetic64.EstimateIsClose` | pintos-kaist/lib/arithmetic.c:92-115 | with the divisor cut to its 32 highest bits, the quotient is the true one or one more |
| `Arithmetic64.WideQuotient` | pintos-kaist/lib/arithmetic.c:105-108 | the divl of the wide branch does not trap, and with the two shifts it divides by the cut divisor |
| `Arithmetic64.Corrected` | pintos-kaist/lib/arithmetic.c:109-113 | the subtraction, multiplication and comparison, in wrap-around arithmetic, pick the true quotient from an estimate that is right or one too large |
| `Arithmetic64.NarrowUdiv64` | pintos-kaist/lib/arithmetic.c:74-90 | long division with two divl: neither traps and the result is the floor, for every 64-bit dividend and every nonzero 32-bit divisor |
| `Arithmetic64.WideUdiv64` | pintos-kaist/lib/arithmetic.c:91-115 | the floor of the quotient for every divisor of more than 32 bits that is at most the dividend |
| `Arithmetic64.Udiv64` | pintos-kaist/lib/arithmetic.c:69-116 | floor(n / d) for every 64-bit n and d, with a trap only for d = 0 |
| `Arithmetic64.TruncationTowardZero` | pintos-kaist/lib/arithmetic.c:125-133 | what truncation toward zero means: the remainder is smaller than the divisor and has the sign of the dividend |
| `Arithmetic64.MagnitudeFits` | pintos-kaist/lib/arithmetic.c:128-133 | the quotient of the magnitudes is 2^63 for INT64_MIN / 1 and INT64_MIN / -1 only |
| `Arithmetic64.Sdiv64` | pintos-kaist/lib/arithmetic.c:125-133 | the quotient truncated toward zero for every n and d, except INT64_MIN / -1, which gives INT64_MIN |
| `Arithmetic64.Umod64` | pintos-kaist/lib/arithmetic.c:118-123 | the remainder, cut to the 32 bits of the return type |
| `Arithmetic64.Smod64` | pintos-kaist/lib/arithmetic.c:135-140 | the remainder of truncated division, cut to the 32 bits of the return type, also where the subtraction wraps |
| `Arithmetic64.UmodIsRemainder` | pintos-kaist/lib/arithmetic.c:167-171 | __umoddi3 is the 64-bit remainder for every n if and only if d <= 2^32 |
| `Arithmetic64.SmodIsRemainder` | pintos-kaist/lib/arithmetic.c:155-159 | __moddi3 is the signed remainder for every n if and only if the magnitude of d is at most 2^31 |
| `SchedulerSteps.StepKeepsInv` | pintos-kaist/threads/synch.c:108-324 | every step of every thread keeps the invariant: lists agree with statuses, one thread runs, semaphore and lock accounts balance, sleepers and ready list are in order |
| `SchedulerSteps.WakeSleepersExactly` | pintos-kaist/threads/thread.c:374-391 | the loop wakes exactly the sleepers that are due although it stops at the first later one, and the invariant holds after it |
| `SchedulerSteps.YieldIsUnblock` | pintos-kaist/threads/thread.c:333-352 | yielding is joining the ready list as an unblocked thread does, and then scheduling |
| `SchedulerSteps.ScheduleKeepsLists` | pintos-kaist/threads/thread.c:764-800 | schedule: exactly one thread runs afterwards, it waits in no list, and every list agrees with the statuses again |
| `SchedulerSteps.ReapKeepsLists` | pintos-kaist/threads/thread.c:747-762 | freeing the pages of dead threads takes exactly these threads away and no list refers to them |
| `SchedulerSteps.SleepKeepsLists` | pintos-kaist/threads/thread.c:248-260 | where thread_block is called to sleep or to wait, the thread is in exactly one list, as schedule needs |
| `SchedulerSteps.DownKeepsInv` | pintos-kaist/threads/synch.c:115-125 | a turn of sema_down keeps the invariant, whether it blocks or takes the value |
| `SchedulerSteps.UnblockKeepsOrder` | pintos-kaist/threads/thread.c:270-284 | thread_unblock puts the thread behind its equals and before lower priorities |
| `SchedulerRuns.BootOk` | pintos-kaist/threads/thread.c:148-162 | the invariant holds in the state in which thread_start leaves the kernel |
| `SchedulerRuns.RunKeepsInv` | pintos-kaist/threads/thread.c:748-800 | the invariant holds in every reachable state, whatever the interleaving |
| `SchedulerRuns.EveryThreadIsInOnePlace` | pintos-kaist/threads/thread.c:254-372 | one thread runs, and every other one is once in exactly the list that its status and its wait name; idle may be READY and unlisted |
| `SchedulerRuns.MutualExclusion` | pintos-kaist/threads/synch.c:259-324 | for every lock, value + number of owners = 1, two owners are the same thread, and a holder is that owner |
| `SchedulerRuns.NoLostWakeup` | pintos-kaist/threads/synch.c:108-180 | while a semaphore has waiters, at least as many woken threads as its value are running or ready and about to test it again |
| `SchedulerRuns.Conservation` | pintos-kaist/threads/synch.c:108-180 | over every run, value = initial value + ups - completed downs, for every semaphore, those inside locks too |
| `SchedulerRuns.OnlyTicksWakeSleepers` | pintos-kaist/threads/thread.c:354-391 | no step but the timer interrupt takes a thread off the sleep list or changes its wake-up tick |
| `SchedulerRuns.WokenExactlyWhenDue` | pintos-kaist/devices/timer.c:93-148 | a thread that slept at tick s until w is unblocked by the interrupt of tick max(w, s + 1), never earlier or later, also for w <= s |
| `SchedulerRuns.NextIsMaximal` | pintos-kaist/threads/thread.c:636-647 | in every run the next thread is not below any READY thread that was not raised while READY, and has waited longer than those of its priority |
| `SchedulerRuns.UnraisedStayInOrder` | pintos-kaist/threads/thread.c:270-284 | in every run, whatever is donated to whom, the READY threads that were not raised since they were put on the list stay in order among themselves, by priority and then by arrival |
| `SchedulerRuns.RaisedWasDonatedTo` | pintos-kaist/threads/thread.c:467-498 | who counts as raised has been donated to in the run while it was READY, and nobody else |
| `SchedulerRuns.PreemptedIsMaximal` | pintos-kaist/threads/thread.c:529-546 | after check_and_preempt no READY thread is above the running one, but one that was raised where it stands |
| `SchedulerRuns.DonationKeepsNextExactly` | pintos-kaist/threads/thread.c:482-486 | a donation to a READY thread leaves the next thread highest if and only if the first does not fall below the second and no other rises above the first |
| `SchedulerRuns.DonationKeepsOrderExactly` | pintos-kaist/threads/thread.c:482-486 | a donation to a READY thread leaves the whole ready list in order if and only if the thread still belongs between its neighbours |
| `SchedulerRuns.DonationBreaksOrder` | pintos-kaist/threads/thread.c:467-498 | a concrete run from boot after which the next thread has not the highest priority, because donation does not move the holder |
| `SchedulerRuns.UpWakesMaximal` | pintos-kaist/threads/synch.c:163-173 | sema_up wakes a waiter of maximal priority even where priorities changed after the waiters were queued, and only that one |
| `SchedulerEffects.PreemptingStepsRunHighest` | pintos-kaist/threads/thread.c:529-546 | after sema_up, lock_release, thread_create and thread_set_priority by any thread but idle, no READY thread is above the running one, unless it was raised where it stands |
| `SchedulerEffects.PreemptsForHigher` | pintos-kaist/threads/thread.c:529-546 | these steps take the CPU from a thread only to give it to a higher one, and leave it READY |
| `SchedulerEffects.HighestRuns` | pintos-kaist/threads/thread.c:529-546 | between two timer interrupts, and while nobody is donated to, the running thread is over every run one that no READY thread is above |
| `SchedulerEffects.SliceExactly` | pintos-kaist/threads/thread.c:164-183 | at the end of a time slice another thread takes over if and only if a READY one is not below, and it is the first of the list; from idle whatever is READY takes over |
| `SchedulerEffects.RoundRobin` | pintos-kaist/threads/thread.c:333-352 | threads of one priority take turns: after n time slices the queue has turned by n places, so each runs once before the first runs again |
| `SchedulerEffects.BlocksExactly` | pintos-kaist/threads/synch.c:108-126 | the CPU is given up exactly by thread_sleep, thread_exit, idle and sema_down at value 0, to the next thread of the list; a thread that exits is queued to be freed, except main |
| `SchedulerEffects.DeadAreFreed` | pintos-kaist/threads/thread.c:753-759 | the page of a thread that has exited is freed when a thread next exits or its time slice ends |
| `SchedulerEffects.UpStepWakesHighest` | pintos-kaist/threads/synch.c:153-180 | a sema_up wakes exactly one waiter of maximal priority, which is READY or runs at once; all others wait on, and no other status changes but those of the two threads between which it switches |
| `SchedulerEffects.StatusesStay` | pintos-kaist/threads/thread.c:248-352 | no step but the timer interrupt and sema_up changes the status of a thread that neither ran before nor runs after |
| `SchedulerEffects.ThreadsChangeExactly` | pintos-kaist/threads/thread.c:354-407 | every step changes priority, wake-up tick and what is waited for of exactly the thread that it is about, to exactly what it says, and keeps all other threads that have not exited |
| `SchedulerEffects.CreatedThread` | pintos-kaist/threads/thread.c:207-246 | a new thread has the priority asked for, and runs at once or is READY |
| `SchedulerEffects.ValuesChangeExactly` | pintos-kaist/threads/synch.c:79-180 | a semaphore comes with sema_init alone, with the value asked for (1 in a lock) and no waiters; ups and completed downs alone change it then |
| `SchedulerEffects.LocksChangeExactly` | pintos-kaist/threads/synch.c:243-324 | who owns a lock is who completed the down of its semaphore until the up; the holder is set and cleared by lock_acquire, lock_try_acquire and lock_release alone |
| `SchedulerEffects.SleepLasts` | pintos-kaist/devices/timer.c:93-148 | a thread that calls thread_sleep for tick w at tick s is asleep up to the interrupt of tick max(w, s + 1), which makes it READY |
| `KernelSteps.RaiseLast` | pintos-kaist/threads/synch.c:164-174 | unblocking before raising the value, as the source does, and raising first give the same state |
| `KernelSteps.LetGoIsReady` | pintos-kaist/threads/synch.c:317-324 | a thread about to raise its lock's semaphore owns that lock, so that raising it lets no second owner in |
| `KernelSteps.Kernel.constructor` | pintos-kaist/threads/thread.c:136-139 | after the list_init calls the lists are empty, well-formed and share no node |
| `KernelSteps.Kernel.Start` | pintos-kaist/threads/thread.c:141-165 | thread_init and thread_start leave the kernel in the state in which the runs begin, and the invariant holds of its structures |
| `KernelSteps.Kernel.InsertInto` | pintos-kaist/threads/thread.c:280-280 | list_insert_ordered of a thread's only list_elem, on the linked nodes: every list of the kernel stays well-formed, no two share a node, and every node of a thread is in at most one of them |
| `KernelSteps.Kernel.AppendTo` | pintos-kaist/threads/thread.c:787-794 | list_push_back of that element, on the linked nodes: every list of the kernel stays well-formed, no two share a node, and every node of a thread is in at most one of them |
| `KernelSteps.Kernel.SortList` | pintos-kaist/threads/synch.c:170-170 | list_sort of a waiter list, on the linked nodes: every list of the kernel stays well-formed, no two share a node, and every node of a thread is in at most one of them |
| `KernelSteps.Kernel.PopFrom` | pintos-kaist/threads/thread.c:642-647 | list_pop_front, which leaves the thread on no list, on the linked nodes: every list of the kernel stays well-formed, no two share a node, and every node of a thread is in at most one of them |
| `KernelSteps.Kernel.FreePage` | pintos-kaist/threads/thread.c:755-759 | the page of a thread can be freed without breaking a list only when no list has its list_elem |
| `KernelSteps.Kernel.InsertReady` | pintos-kaist/threads/thread.c:279-280 | the insertion into the ready list relinks heap nodes, and as a sequence of threads the list is that of the state machine |
| `KernelSteps.Kernel.FreeDead` | pintos-kaist/threads/thread.c:755-759 | the loop that pops and frees one dead thread a turn comes to the removal of all of them, and never frees a thread that a list still has |
| `KernelSteps.Kernel.CheckSleepList` | pintos-kaist/threads/thread.c:375-391 | the loop that pops, unblocks and looks again comes to the waking of all due sleepers |
| `KernelSteps.Kernel.RaiseSema` | pintos-kaist/threads/synch.c:163-174 | sort, pop, unblock and raise, on linked waiters in the order of the source, come to the one step of the state machine |
| `KernelSteps.Kernel.ThreadSleep` | pintos-kaist/threads/thread.c:355-372 | thread_sleep on thread structures and linked lists refines its step of the state machine: no link is corrupted, no freed thread is touched, and the invariant holds again |
| `KernelSteps.Kernel.TimerInterrupt` | pintos-kaist/devices/timer.c:139-148 | timer_interrupt with thread_check_sleep_list on thread structures and linked lists refines its step of the state machine: no link is corrupted, no freed thread is touched, and the invariant holds again |
| `KernelSteps.Kernel.ThreadCreate` | pintos-kaist/threads/thread.c:225-246 | thread_create on a page that it has got, up to its return or preemption on thread structures and linked lists refines its step of the state machine: no link is corrupted, no freed thread is touched, and the invariant holds again |
| `KernelSteps.Kernel.ThreadExit` | pintos-kaist/threads/thread.c:316-331 | thread_exit on thread structures and linked lists refines its step of the state machine: no link is corrupted, no freed thread is touched, and the invariant holds again |
| `KernelSteps.Kernel.EndTimeSlice` | pintos-kaist/threads/thread.c:164-183 | the yield at the end of a time slice on thread structures and linked lists refines its step of the state machine: no link is corrupted, no freed thread is touched, and the invariant holds again |
| `KernelSteps.Kernel.IdleBlock` | pintos-kaist/threads/thread.c:563-573 | the thread_block in the loop of idle on thread structures and linked lists refines its step of the state machine: no link is corrupted, no freed thread is touched, and the invariant holds again |
| `KernelSteps.Kernel.SetOwnPriority` | pintos-kaist/threads/thread.c:393-407 | thread_set_priority on thread structures and linked lists refines its step of the state machine: no link is corrupted, no freed thread is touched, and the invariant holds again |
| `KernelSteps.Kernel.ChangePriority` | pintos-kaist/threads/thread.c:482-496 | the write of a priority by donate_priority on thread structures and linked lists refines its step of the state machine: no link is corrupted, no freed thread is touched, and the invariant holds again |
| `KernelSteps.Kernel.Init` | pintos-kaist/threads/synch.c:79-85 | sema_init on thread structures and linked lists refines its step of the state machine: no link is corrupted, no freed thread is touched, and the invariant holds again |
| `KernelSteps.Kernel.SemaDown` | pintos-kaist/threads/synch.c:108-126 | sema_down up to where it blocks or returns on thread structures and linked lists refines its step of the state machine: no link is corrupted, no freed thread is touched, and the invariant holds again |
| `KernelSteps.Kernel.SemaDownAgain` | pintos-kaist/threads/synch.c:116-124 | the re-test of a woken thread on thread structures and linked lists refines its step of the state machine: no link is corrupted, no freed thread is touched, and the invariant holds again |
| `KernelSteps.Kernel.SemaTryDown` | pintos-kaist/threads/synch.c:128-151 | sema_try_down, with its result on thread structures and linked lists refines its step of the state machine: no link is corrupted, no freed thread is touched, and the invariant holds again |
| `KernelSteps.Kernel.SemaUp` | pintos-kaist/threads/synch.c:153-180 | sema_up with its preemption on thread structures and linked lists refines its step of the state machine: no link is corrupted, no freed thread is touched, and the invariant holds again |
| `KernelSteps.Kernel.LockAcquire` | pintos-kaist/threads/synch.c:279-279 | the sema_down of lock_acquire on thread structures and linked lists refines its step of the state machine: no link is corrupted, no freed thread is touched, and the invariant holds again |
| `KernelSteps.Kernel.LockTryAcquire` | pintos-kaist/threads/synch.c:293-300 | the sema_try_down of lock_try_acquire, with its result on thread structures and linked lists refines its step of the state machine: no link is corrupted, no freed thread is touched, and the invariant holds again |
| `KernelSteps.Kernel.BecomeHolder` | pintos-kaist/threads/synch.c:281-303 | setting the holder on thread structures and linked lists refines its step of the state machine: no link is corrupted, no freed thread is touched, and the invariant holds again |
| `KernelSteps.Kernel.LockRelease` | pintos-kaist/threads/synch.c:317-322 | clearing the holder on thread structures and linked lists refines its step of the state machine: no link is corrupted, no freed thread is touched, and the invariant holds again |
| `KernelSteps.Kernel.LockReleaseUp` | pintos-kaist/threads/synch.c:323-324 | the sema_up of lock_release on thread structures and linked lists refines its step of the state machine: no link is corrupted, no freed thread is touched, and the invariant holds again |
| `Donation.DonatePriority` | pintos-kaist/threads/thread.c:467-498 | every thread ends with the maximum of its old priority and what reaches it along the first eight holders of the chain; all else is unchanged, on any waits-for graph, cyclic ones included |
| `Donation.DonatedAlongAcyclicChain` | pintos-kaist/threads/thread.c:476-496 | on an acyclic chain the i-th holder gets the maximum of the old priorities of the donor and of the first i holders |
| `Donation.DonationCovers` | pintos-kaist/threads/thread.c:474-496 | after donation every holder has at least the priority of every thread waiting on its lock if and only if the chain ends or closes within eight holders, or nothing more than the ninth already has was passed on |
| `Donation.AcquireDonates` | pintos-kaist/threads/synch.c:266-277 | the donation step of lock_acquire keeps that cover under exactly this condition |
| `ProcessWait.StepKeepsInv` | pintos-kaist/userprog/process.c:399-450 | every step of parents and children keeps the invariant of the wait/exit handshake |
| `ProcessWait.RunKeepsInv` | pintos-kaist/userprog/process.c:399-450 | the invariant holds in every interleaving |
| `ProcessWait.EveryRunFromBoot` | pintos-kaist/userprog/process.c:399-450 | so it holds in every history from the first process on |
| `ProcessWait.StatusDeliveredAtMostOnce` | pintos-kaist/userprog/process.c:399-423 | process_wait delivers a status at most once per child, it is the one recorded at its exit, and every other call returns -1; that it is the argument of exit is ReturnsAreAsTold |
| `ProcessWait.RepeatedWaitReturnsMinusOne` | pintos-kaist/userprog/process.c:399-419 | once a child's exit_sema has been raised, waiting for it again returns -1 at once and changes nothing, also before the first call has returned |
| `ProcessWait.FreedOnlyAfterRelease` | pintos-kaist/userprog/process.c:443-449 | the page of an exited thread is freed only after its parent has read the status, unlinked it and raised exit_sema; no list has it any more, and a parent still in process_wait only has the final status left to return |
| `ProcessWait.WaitedChildExists` | pintos-kaist/userprog/process.c:406-419 | from where process_wait finds the child up to its sema_up, the child exists |
| `WaitHistory.ReturnsAreAsTold` | pintos-kaist/userprog/process.c:399-423 | in every run from the first process, what process_wait returns is what the events alone say: -1 for who is not, or no longer, a child, and otherwise the status with which the child exited |
| `WaitHistory.DeliveredWasExit` | pintos-kaist/userprog/syscall.c:102-108 | whatever status is delivered, the child has called exit with it (0 where it exited without), and the caller is the parent that waited for it |
| `WaitHistory.ExitsOnce` | pintos-kaist/userprog/process.c:425-450 | no thread exits twice, so that status is the one of its only exit |
| `WaitHistory.NobodyIsStuck` | pintos-kaist/userprog/process.c:406-450 | in every reachable state each thread can take a step, but a parent whose child has not come to the sema_up of its exit, and a child whose parent has not come to the sema_up of process_wait |
| `PageEntry.EncodedIsDecoded` | pintos-kaist/include/threads/pte.h:29-43 | or-ing flags into a page address and masking them out again gives both back |
| `PageEntry.StoredWords` | pintos-kaist/threads/mmu.c:241-241 | the word of a leaf is the physical page with P and U, and with W if and only if the page is to be writable; that of a table has P, W and U |
| `PageEntry.ClearingKeepsTheRest` | pintos-kaist/threads/mmu.c:257-261 | clearing the present bit of an entry keeps the address and the other flags |
| `PageEntry.PtovKeepsFlags` | pintos-kaist/threads/mmu.c:121-146 | adding KERN_BASE to an entry before testing its flags, as the functions that visit entries do, does not change the flags |
| `PageEntry.IndicesOfAddress` | pintos-kaist/include/threads/pte.h:25-29 | the address put together from four indices has these indices |
| `PageEntry.AddressOfIndices` | pintos-kaist/include/threads/pte.h:25-29 | the indices of an address below 2^48 give back its page |
| `PageEntry.SameIndicesSamePage` | pintos-kaist/include/threads/pte.h:25-29 | two addresses have the same four indices if and only if they are in one page |
| `PageTable.AddingKeepsTree` | pintos-kaist/threads/mmu.c:15-24 | adding an empty table keeps the tables a tree with no table reached twice |
| `PageTable.AddingKeepsLeaves` | pintos-kaist/threads/mmu.c:15-24 | adding an empty table maps and unmaps nothing |
| `PageTable.LeafWriteChangesOneKey` | pintos-kaist/threads/mmu.c:233-244 | writing one last-level entry changes the map from indices to entries at exactly its key |
| `PageTable.LeafDecidesAccess` | pintos-kaist/threads/mmu.c:15-89 | the tables never stand in the way: a user program may read or write a page if and only if its leaf entry says so |
| `PageTable.OtherSpacesUntouched` | pintos-kaist/threads/mmu.c:56-101 | an address space that shares only kernel tables sees nothing of what is done for an address below 2^39 |
| `PageTable.CreatedIsTree` | pintos-kaist/threads/mmu.c:91-101 | a new address space maps exactly what the base table maps |
| `PageTable.VisitedExactlyMapped` | pintos-kaist/threads/mmu.c:103-156 | an entry is visited if and only if following its indices from the table leads to it |
| `PageTable.LeavesOnce` | pintos-kaist/threads/mmu.c:103-156 | no entry is visited twice |
| `PageTable.Mmu.Create` | pintos-kaist/threads/mmu.c:91-101 | pml4_create: a copy of the base table, or null exactly when no page can be had |
| `PageTable.Mmu.PgdirWalk` | pintos-kaist/threads/mmu.c:11-29 | returns the entry, creating its table when asked; without a page, or when not asked, nothing changes |
| `PageTable.Mmu.PdpeWalk` | pintos-kaist/threads/mmu.c:31-56 | as the level below; a failure below gives back exactly the page that this level allocated and zeroes the entry |
| `PageTable.Mmu.Pml4eWalk` | pintos-kaist/threads/mmu.c:58-89 | a walk creates exactly the missing tables, or fails, exactly when they cannot all be had, with memory and free pages as before |
| `PageTable.Mmu.GetPage` | pintos-kaist/threads/mmu.c:209-222 | the mapped frame and offset, or null exactly when the address is not mapped |
| `PageTable.Mmu.SetPage` | pintos-kaist/threads/mmu.c:224-244 | succeeds exactly when the missing tables can be had, and then changes exactly one key of the map, to the word that names the page and lets users read it, and write it if and only if rw; a failure changes nothing |
| `PageTable.Mmu.ClearPage` | pintos-kaist/threads/mmu.c:246-263 | the key of the address is unmapped and no other key changes |
| `PageTable.Mmu.PtForEach` | pintos-kaist/threads/mmu.c:103-118 | visits the present entries of one table in order, up to the first that the callback refuses |
| `PageTable.Mmu.PgdirForEach` | pintos-kaist/threads/mmu.c:120-131 | the same for a page directory |
| `PageTable.Mmu.PdpForEach` | pintos-kaist/threads/mmu.c:133-144 | the same for a page-directory-pointer table |
| `PageTable.Mmu.Pml4ForEach` | pintos-kaist/threads/mmu.c:146-156 | visits exactly the mapped entries, each once and with the address that its indices stand for, up to the first that the callback refuses |
| `PageTable.Mmu.PtDestroy` | pintos-kaist/threads/mmu.c:158-166 | gives back the frames of the present entries and the table, and nothing else |
| `PageTable.Mmu.PgdirDestroy` | pintos-kaist/threads/mmu.c:168-176 | gives back everything below the directory and the directory, where nothing of it is shared or free |
| `PageTable.Mmu.PdpeDestroy` | pintos-kaist/threads/mmu.c:178-186 | the same one level up |
| `PageTable.Mmu.Pml4Destroy` | pintos-kaist/threads/mmu.c:188-200 | of a consistent address space whose user frames are its own, gives back exactly the tables and frames below root index 0, and the root, each once and none of them free before; kernel tables stay |
| `PageTable.EmptyRootIsConsistent` | pintos-kaist/threads/mmu.c:91-101 | a root in a page just handed out is an address space without mappings, which is where the steps begin |
| `PageTable.EachPageOnce` | pintos-kaist/threads/mmu.c:158-200 | in a tree of tables whose frames are mapped once below it and are no tables, destroying gives back no page twice |
| `PageTable.FreesExactly` | pintos-kaist/threads/mmu.c:158-186 | it gives back exactly the tables and frames whose indices start with those of the table |
| `PageTable.FreesAreUsed` | pintos-kaist/threads/mmu.c:158-186 | nothing that it gives back is free already, so the assertion of palloc_free_page holds |
| `PageTable.UserPagesExactly` | pintos-kaist/threads/mmu.c:188-200 | for a whole address space these are the root and what is below root index 0, and nothing of the kernel |
| `Bits.TestOfBit` | pintos-kaist/lib/kernel/bitmap.c:178-185 | and-ing a word with a one-bit mask is nonzero if and only if the bit is set |
| `Bitmaps.Bitmap.Mark` | pintos-kaist/lib/kernel/bitmap.c:141-151 | sets exactly one bit of the bit array that the words stand for |
| `Bitmaps.Bitmap.Reset` | pintos-kaist/lib/kernel/bitmap.c:153-163 | clears exactly one bit |
| `Bitmaps.Bitmap.Flip` | pintos-kaist/lib/kernel/bitmap.c:165-177 | flips exactly one bit |
| `Bitmaps.Bitmap.Test` | pintos-kaist/lib/kernel/bitmap.c:179-185 | reads the bit |
| `Bitmaps.Bitmap.SetMultiple` | pintos-kaist/lib/kernel/bitmap.c:197-208 | sets exactly the range |
| `Bitmaps.Bitmap.Contains` | pintos-kaist/lib/kernel/bitmap.c:227-241 | true if and only if some bit of the range has the value |
| `Bitmaps.Bitmap.Scan` | pintos-kaist/lib/kernel/bitmap.c:264-283 | the first group of that many bits with the value, or the error value exactly when there is none |
| `Bitmaps.Bitmap.ScanAndFlip` | pintos-kaist/lib/kernel/bitmap.c:285-298 | finds as scan does and flips exactly the group; no bits at all are found at the start index, where the comment says 0 |
| `Palloc.Pages.GetMultiple` | pintos-kaist/threads/palloc.c:256-285 | the first free run of the pool, now used, or null exactly when there is none; the other pool is unchanged |
| `Palloc.Pages.FreeMultiple` | pintos-kaist/threads/palloc.c:299-323 | the pool is found from the address, and exactly the pages of the request become free |
| `Palloc.Pages.TakeAndGiveBack` | pintos-kaist/threads/palloc.c:263-323 | what was taken can be given back, and then both pools are as before |
| `Palloc.Pool.PageNumbers` | pintos-kaist/threads/palloc.c:350-358 | page_from_pool holds for the pages of the pool and no others, and pg_no of a page is its index |
| `Malloc.InitDescs` | pintos-kaist/threads/malloc.c:67-80 | malloc_init makes exactly seven descriptors, 16 to 1024 bytes, although its comment says up to 2 kB |
| `Malloc.SevenSizes` | pintos-kaist/threads/malloc.c:67-80 | sizes double, and every arena has room for at least three blocks behind its header |
| `Malloc.BigPagesSuffice` | pintos-kaist/threads/malloc.c:99-113 | the pages of a big block hold the request if and only if the 64-bit sum does not wrap, that is size + 4119 < 2^64 |
| `Malloc.NewArenaKeepsInv` | pintos-kaist/threads/malloc.c:121-135 | a new arena keeps the invariant: each free list has exactly the non-live blocks of its arenas once, free_cnt is their number, arenas are apart |
| `Malloc.PopKeepsInv` | pintos-kaist/threads/malloc.c:138-143 | taking a block off a free list keeps it |
| `Malloc.PushKeepsInv` | pintos-kaist/threads/malloc.c:218-222 | giving a block back keeps it |
| `Malloc.DropKeepsInv` | pintos-kaist/threads/malloc.c:221-231 | an arena all of whose blocks are free leaves the lists and is freed, so no fully free arena survives |
| `Malloc.GotKeepsInv` | pintos-kaist/threads/palloc.c:263-285 | what any other client takes from the pool is apart from every arena and big block: the heap keeps its invariant |
| `Malloc.GivenKeepsInv` | pintos-kaist/threads/palloc.c:299-323 | and so it does when that client gives its pages back |
| `Malloc.MallocedIsOneMore` | pintos-kaist/threads/malloc.c:82-144 | malloc adds exactly one live block of at least the size and moves no other; or it fails and the heap is as it was |
| `Malloc.StepKeepsInv` | pintos-kaist/threads/malloc.c:82-240 | every call of malloc, free and realloc, and every palloc call of others, keeps the invariant |
| `Malloc.RunKeepsInv` | pintos-kaist/threads/malloc.c:82-240 | so it holds over every history, however these calls are mixed |
| `Malloc.InitialOk` | pintos-kaist/threads/malloc.c:67-80 | and it holds after malloc_init, whatever pages are in use |
| `Malloc.RegionsApart` | pintos-kaist/threads/malloc.c:82-240 | blocks in use, arena headers and the pages of others are pairwise disjoint |
| `Malloc.HistoryKeepsApart` | pintos-kaist/threads/malloc.c:82-240 | over every history, all live regions are pairwise disjoint and apart from headers, and each block has at least the requested size |
| `Malloc.HistoryKeepsBooks` | pintos-kaist/threads/malloc.c:41-53 | over every history, each free list has exactly the unused blocks of its arenas, once each, free_cnt counts them, and no arena is wholly free |
| `Malloc.FreedKeepsInv` | pintos-kaist/threads/malloc.c:200-240 | free takes exactly the block out of use and keeps the invariant |
| `MallocEffects.ChangesExactly` | pintos-kaist/threads/malloc.c:82-240 | every call changes the blocks in use exactly as it promises: one more that was not in use, one fewer, one for another, or none on failure |
| `MallocEffects.NoPageIsLost` | pintos-kaist/threads/malloc.c:200-240 | after every history the pages in use are those of the beginning, those of arenas with a block in use and of big blocks, and those that others have; when all is given back the pool is as it was |
| `Malloc.Heap.FindDesc` | pintos-kaist/threads/malloc.c:94-98 | the smallest descriptor that satisfies the request, if any does |
| `Malloc.Heap.MallocBig` | pintos-kaist/threads/malloc.c:99-113 | a request above 1 kB gets pages of its own |
| `Malloc.Heap.Refill` | pintos-kaist/threads/malloc.c:117-135 | an empty free list is refilled with all blocks of one new page, or nothing changes |
| `Malloc.Heap.Malloc` | pintos-kaist/threads/malloc.c:82-144 | null exactly when nothing is asked for or no block of the size and no page can be had; otherwise one more live block of at least the requested size, everything else in place |
| `Malloc.Heap.Free` | pintos-kaist/threads/malloc.c:200-240 | exactly the block goes; an arena that is now unused gives its page back, a big block all its pages |
| `Malloc.Heap.Realloc` | pintos-kaist/threads/malloc.c:176-197 | a new block of the size replaces the old one, size 0 frees, and on failure nothing changes; the bytes copied fit both blocks |
| `Malloc.Heap.BlockSize` | pintos-kaist/threads/malloc.c:166-174 | block_size is the usable size: that of the descriptor, or of the pages behind the header |
| `Malloc.Heap.BlockToArena` | pintos-kaist/threads/malloc.c:242-257 | the arena of every live block is the page that its address is in, and the assertions hold |
| `Malloc.Heap.RefusesExactly` | pintos-kaist/threads/malloc.c:86-119 | what malloc tests along the way is exactly whether a block can be handed out |
| `Malloc.Heap.GetPages` | pintos-kaist/threads/palloc.c:256-285 | palloc_get_multiple by thread.c, mmu.c and others: the pages belong to the client and the heap keeps its invariant |
| `Malloc.Heap.FreePages` | pintos-kaist/threads/palloc.c:299-323 | palloc_free_multiple of such pages: they are free again and no block is touched |
| `Vm.EvictFails` | pintos-kaist/vm/vm.c:200-238 | eviction fails exactly when there is no frame to take or no free swap slot |
| `Vm.EvictedKeepsContents` | pintos-kaist/vm/anon.c:96-128 | evicting a page changes the contents of no page, the evicted one included |
| `Vm.FaultIsInvisible` | pintos-kaist/vm/vm.c:444-477 | a handled fault maps the page and leaves the contents of every page as they were; it panics exactly without a frame |
| `Vm.StoreKeepsInv` | pintos-kaist/vm/vm.c:444-477 | a store changes one byte of one page; page and frame links stay mutual inverses and each set swap bit belongs to one evicted page |
| `Vm.StepIsInvisible` | pintos-kaist/vm/vm.c:248-285 | one access, with whatever faults and evictions it causes, reads or writes one array of bytes per page |
| `Vm.RunsAreInvisible` | pintos-kaist/vm/vm.c:200-285 | over every run a page reads back its contents with exactly the stores of the run applied |
| `VmEffects.StoreEnds` | pintos-kaist/vm/vm.c:375-400 | a store to a mapped page goes through if and only if the page is writable, and otherwise kills the process and changes nothing; on a page not in memory the fault comes first |
| `VmEffects.LoadEnds` | pintos-kaist/vm/vm.c:375-400 | a load goes through on every page that is mapped or can be |
| `VmEffects.PermissionsStay` | pintos-kaist/vm/vm.c:444-477 | a page is made once, with the permission asked for, and no step takes it away or changes its permission |
| `VmEffects.StoresAsAsked` | pintos-kaist/vm/vm.c:444-477 | over every run, a store to a page in memory goes through if and only if the page was asked for as writable, whatever has been evicted and brought back since |
| `VmEffects.FaultIsFifo` | pintos-kaist/vm/vm.c:198-285 | the page brought in is last in line; where one has to make room it is the first, and all others move up |
| `VmEffects.EvictedInTurn` | pintos-kaist/vm/vm.c:198-285 | over every run, the page that is i-th in line stays where it is for i evictions, and the next one takes it |
| `Vm.Machine.WriteSlot` | pintos-kaist/vm/anon.c:110-118 | eight sector writes put a page into its swap slot and leave every other sector, in place: the new state is that of the specification whose invisibility is proved |
| `Vm.Machine.ReadSlot` | pintos-kaist/vm/anon.c:72-80 | eight sector reads give back the page written to the slot, in place: the new state is that of the specification whose invisibility is proved |
| `Vm.Machine.AnonSwapOut` | pintos-kaist/vm/anon.c:96-128 | anon_swap_out: a free slot is taken and filled and the links are cut, or it fails with nothing changed, in place: the new state is that of the specification whose invisibility is proved |
| `Vm.Machine.EvictFrame` | pintos-kaist/vm/vm.c:200-238 | vm_evict_frame with the FIFO victim, in place: the new state is that of the specification whose invisibility is proved |
| `Vm.Machine.ObtainFrame` | pintos-kaist/vm/vm.c:240-285 | vm_get_frame: a free frame or an evicted one, in place: the new state is that of the specification whose invisibility is proved |
| `Vm.Machine.LoadPage` | pintos-kaist/vm/anon.c:38-87 | the first swap_in initialises the page; a later one reads its slot back and frees it, in place: the new state is that of the specification whose invisibility is proved |
| `Vm.Machine.DoClaimPage` | pintos-kaist/vm/vm.c:444-477 | vm_do_claim_page: link, map and load, in place: the new state is that of the specification whose invisibility is proved |
| `Strings.Strchr` | pintos-kaist/lib/string.c:99-113 | the first occurrence of the character, the terminator included |
| `Strings.StrTok` | pintos-kaist/lib/string.c:185-254 | the first word of the text is cut off in place, what is left has exactly the other words, and nothing but delimiters has been overwritten; without a word nothing changes |
| `Strings.WordsOfSpaced` | pintos-kaist/lib/string.c:185-217 | whatever words a line is put together from, with spaces between and around them, are its words |
| `ArgStack.Split` | pintos-kaist/userprog/process.c:353-363 | for a line of at most 64 words parse points to exactly its words, in order |
| `ArgStack.Stack.PushStrings` | pintos-kaist/userprog/process.c:297-308 | the strings with their terminators lie one below the other under the old rsp, and argv points to them |
| `ArgStack.Stack.PushPointers` | pintos-kaist/userprog/process.c:318-326 | below a null, the pointers in order |
| `ArgStack.PaddingAligns` | pintos-kaist/userprog/process.c:310-316 | (int) rsp % 8 bytes of padding align the stack if and only if the address, cut to an int, is not negative or needs none |
| `ArgStack.AlignedExactly` | pintos-kaist/userprog/process.c:310-330 | the final rsp is a multiple of 8 under exactly that condition |
| `ArgStack.Stack.ArgumentStack` | pintos-kaist/userprog/process.c:295-331 | the program reads at rsp + 8 exactly the words, then a null; strings lie above the pointers, the return address is 0, and no byte outside the pushed region changes |
| `ArgStack.PassArguments` | pintos-kaist/userprog/process.c:353-380 | for every command line of at most 64 words that fits the stack: rdi is their number, rsi is rsp + 8, rsp is aligned, and the words are read back |
| `InodeData.ReadAt` | pintos-kaist/filesys/inode.c:179-226 | reads exactly max(0, min(size, length - offset)) bytes of the flat contents, at any alignment; without a bounce buffer a prefix |
| `InodeData.WriteAt` | pintos-kaist/filesys/inode.c:228-288 | writes exactly that many bytes, every other byte of the file and every other sector unchanged; nothing when writes are denied |
| `InodeData.ChunkFits` | pintos-kaist/filesys/inode.c:189-201 | a chunk stays within one sector, and is positive exactly while something is left |
| `InodeData.WriteUpdatesContent` | pintos-kaist/filesys/inode.c:228-288 | on the contents, a write is the update of one flat sequence |
| `InodeData.WriteLeavesOthers` | pintos-kaist/filesys/inode.c:228-288 | a write leaves the contents of every extent that shares no sector |
| `InodeData.WriteThenRead` | pintos-kaist/filesys/inode.c:179-288 | reading what was just written gives the data back |
| `FileSystem.FormatEstablishesInv` | pintos-kaist/filesys/filesys.c:106-123 | formatting succeeds exactly when the disk has room for the free map and the root directory, and establishes the invariant |
| `FileSystem.AddIsSoundExactly` | pintos-kaist/filesys/directory.c:120-163 | after dir_add names are unique and no entry in use is lost if and only if its reads went as far as the entry of the name, if any, and as far as the first free slot or the end |
| `FileSystem.ShortReads` | pintos-kaist/filesys/directory.c:79-98 | two directories on which a read that comes up short makes dir_add write a name twice, or over an entry in use |
| `FileSystem.StepKeepsInv` | pintos-kaist/filesys/filesys.c:56-104 | every operation keeps the invariant: headers and extents of live inodes are disjoint and marked, nothing else is marked but what leaked, names are unique, counts agree with the open files; of a create, given that its directory reads go as far as AddIsSoundExactly asks |
| `FileSystem.RunKeepsInv` | pintos-kaist/filesys/filesys.c:56-104 | so it holds over every history |
| `FileSystem.FailedCreateLeaksExactly` | pintos-kaist/filesys/filesys.c:64-69 | a failed create leaves the free map as it was if and only if the data sectors were not allocated or are none; otherwise exactly they stay marked |
| `FileSystem.LiveUntilEnd` | pintos-kaist/filesys/inode.c:146-176 | an inode stays reachable, with its header, until the last close of a removed one or the removal of one nobody has open |
| `FileSystem.FreedExactly` | pintos-kaist/filesys/inode.c:148-169 | a step frees exactly the sectors of the inode that it ends: a removed file keeps its own until its last close |
| `FileSystem.ContentKept` | pintos-kaist/filesys/inode.c:148-288 | every file but the one written keeps its contents, a removed one that is open included |
| `FileSystem.OpenFileSurvives` | pintos-kaist/filesys/directory.c:165-199 | over every history in which a file stays open and its inode is not written, its contents stay, whatever is removed, created or written |
| `FileSystem.WriteIsFlat` | pintos-kaist/filesys/file.c:98-110 | file_write replaces the bytes at the position, up to the end of the file, unless an opener denies writes, and moves the position past them |
| `FileSystem.DeniedAtMostOpen` | pintos-kaist/filesys/inode.c:290-307 | deny_write_cnt never exceeds open_cnt, so the assertions of inode_deny_write and inode_allow_write hold |
| `FileEffects.CreateMakes` | pintos-kaist/filesys/filesys.c:56-73 | filesys_create succeeds if and only if memory, sectors and a slot are there and the name is valid and new; then it has made a file of that name with as many zero bytes as asked, and all other names stay |
| `FileEffects.FormattedIsEmpty` | pintos-kaist/filesys/filesys.c:106-123 | a formatted disk has no names and no open files, and room in its directory |
| `FileEffects.RemoveUnnames` | pintos-kaist/filesys/filesys.c:93-104 | filesys_remove takes exactly the name away, if its entry is read; open files stay |
| `FileEffects.NamesStay` | pintos-kaist/filesys/filesys.c:56-104 | no other step changes a name |
| `FileEffects.FilesChangeExactly` | pintos-kaist/filesys/file.c:13-165 | every call changes the open files exactly as it says: the file that has the name, at position 0; a copy with its position and denial; closed, denied, allowed, moved |
| `FileEffects.DenyStopsWrites` | pintos-kaist/filesys/file.c:125-134 | after file_deny_write the file denies, and nothing can be written to its inode through any file |
| `FileEffects.AllowLetsWrite` | pintos-kaist/filesys/file.c:136-146 | file_allow_write takes back this denial alone, and writes go through again unless another file denies |
| `FileEffects.DeniedUntilAllowed` | pintos-kaist/filesys/file.c:125-146 | over every run from a denial until the same file allows or is closed, no write to the inode transfers a byte, and its contents stay |
| `FileEffects.DenyHolds` | pintos-kaist/filesys/file.c:125-134 | so it is from the call of file_deny_write on |
| `Volume.FileSys.Format` | pintos-kaist/filesys/filesys.c:106-123 | do_format on a blank disk: the state from which the runs begin; on the fields in place, the new state is exactly that of the state machine |
| `Volume.FileSys.FreeMapAllocate` | pintos-kaist/filesys/free-map.c:21-37 | free_map_allocate: the first fit, marked; undone when the map cannot be written; on the fields in place, the new state is exactly that of the state machine |
| `Volume.FileSys.FreeMapRelease` | pintos-kaist/filesys/free-map.c:39-45 | free_map_release, with its assertion; on the fields in place, the new state is exactly that of the state machine |
| `Volume.FileSys.FindName` | pintos-kaist/filesys/directory.c:74-98 | lookup, with a read that may come up short at any entry; on the fields in place, the new state is exactly that of the state machine |
| `Volume.FileSys.DirAdd` | pintos-kaist/filesys/directory.c:120-163 | dir_add: true exactly when the name is valid and not found, a slot is found and the entry can be written; short reads included; on the fields in place, the new state is exactly that of the state machine |
| `Volume.FileSys.InodeCreate` | pintos-kaist/filesys/inode.c:62-97 | inode_create; on the fields in place, the new state is exactly that of the state machine |
| `Volume.FileSys.InodeOpen` | pintos-kaist/filesys/inode.c:99-130 | inode_open: the search along the list of open inodes finds exactly the inodes in memory, and each is in the list once; on the fields in place, the new state is exactly that of the state machine |
| `Volume.FileSys.InodeClose` | pintos-kaist/filesys/inode.c:146-169 | inode_close; on the fields in place, the new state is exactly that of the state machine |
| `Volume.FileSys.FileOpen` | pintos-kaist/filesys/file.c:13-38 | file_open; without memory the inode is closed again; on the fields in place, the new state is exactly that of the state machine |
| `Volume.FileSys.FileDenyWrite` | pintos-kaist/filesys/file.c:125-134 | file_deny_write; on the fields in place, the new state is exactly that of the state machine |
| `Volume.FileSys.FileAllowWrite` | pintos-kaist/filesys/file.c:136-146 | file_allow_write; on the fields in place, the new state is exactly that of the state machine |
| `Volume.FileSys.FileClose` | pintos-kaist/filesys/file.c:60-68 | file_close; on the fields in place, the new state is exactly that of the state machine |
| `Volume.FileSys.FileReopen` | pintos-kaist/filesys/file.c:41-46 | file_reopen; on the fields in place, the new state is exactly that of the state machine |
| `Volume.FileSys.FileDuplicate` | pintos-kaist/filesys/file.c:48-58 | file_duplicate; on the fields in place, the new state is exactly that of the state machine |
| `Volume.FileSys.FileWrite` | pintos-kaist/filesys/file.c:98-110 | file_write; on the fields in place, the new state is exactly that of the state machine |
| `Volume.FileSys.Create` | pintos-kaist/filesys/filesys.c:56-73 | filesys_create with its rollback, keeping the invariant exactly where AddIsSoundExactly allows it; on the fields in place, the new state is exactly that of the state machine |
| `Volume.FileSys.Open` | pintos-kaist/filesys/filesys.c:75-91 | filesys_open, with its rollback; on the fields in place, the new state is exactly that of the state machine |
| `Volume.FileSys.Remove` | pintos-kaist/filesys/filesys.c:93-104 | filesys_remove; on the fields in place, the new state is exactly that of the state machine |
| `Volume.FileSys.FileRead` | pintos-kaist/filesys/file.c:76-86 | the contents from the position on, up to the size or the end of the file, and the position moves past them |
| `Volume.FileSys.ReadDir` | pintos-kaist/filesys/directory.c:201-216 | the next name in use, skipping exactly the free slots before it, or none at the end or at a read that comes up short |
| `Volume.OpenedAndClosed` | pintos-kaist/filesys/file.c:33-36 | closing the inode again after a failed file_open leaves the state as before |
| `HashTable.PowerTest` | pintos-kaist/lib/kernel/hash.c:304-314 | turn_off_least_1bit gives 0 for exactly the powers of two |
| `HashTable.TopIsLargest` | pintos-kaist/lib/kernel/hash.c:338-343 | clearing lowest bits until one is left gives the largest power of two not above the number |
| `HashTable.IdealLoad` | pintos-kaist/lib/kernel/hash.c:331-343 | the ideal number of buckets is a power of two, at least 4, and leaves fewer than 4 elements per bucket |
| `HashTable.IdealBuckets` | pintos-kaist/lib/kernel/hash.c:334-343 | the loop of rehash computes it |
| `HashTable.NotInBucketNotInTable` | pintos-kaist/lib/kernel/hash.c:279-302 | an equivalent element can only be in the bucket that is searched |
| `HashTable.Table.Find` | pintos-kaist/lib/kernel/hash.c:121-126 | the equivalent element, or null exactly when the table has none |
| `HashTable.Table.Insert` | pintos-kaist/lib/kernel/hash.c:88-103 | adds the element unless an equivalent one is there, which is returned with the contents unchanged |
| `HashTable.Table.Replace` | pintos-kaist/lib/kernel/hash.c:105-119 | the element is in the table afterwards and the one equivalent to it, returned, is not |
| `HashTable.Table.Delete` | pintos-kaist/lib/kernel/hash.c:128-143 | exactly the equivalent element goes |
| `HashTable.Table.Rehash` | pintos-kaist/lib/kernel/hash.c:316-383 | same contents in the ideal number of buckets, each element where its hash masks to; a failed allocation changes nothing |
| `HashTable.Iterator.Next` | pintos-kaist/lib/kernel/hash.c:195-217 | iteration yields each element exactly once, and then null |
| `Stdlib.Heapify` | pintos-kaist/lib/stdlib.c:93-123 | restores the 1-based heap order below the start, moving no element outside the range |
| `Stdlib.RootIsMaximum` | pintos-kaist/lib/stdlib.c:146-151 | the root of a heap is a maximum |
| `Stdlib.BuildHeap` | pintos-kaist/lib/stdlib.c:142-144 | the first loop makes the whole array a heap |
| `Stdlib.Sort` | pintos-kaist/lib/stdlib.c:125-152 | sorted, and a permutation of the input, for every total preorder |
| `Stdlib.BinarySearch` | pintos-kaist/lib/stdlib.c:172-207 | terminates and returns an element that compares equal, or null exactly when there is none |
| `Atoi.Atoi` | pintos-kaist/lib/stdlib.c:7-41 | the number that the string stands for, whenever a 32-bit int can hold it, INT_MIN included, in wrap-around arithmetic |
| `Atoi.PrintThenParse` | pintos-kaist/lib/stdio.c:429-510 | printing an int and reading it back gives it again, for every flags, width and precision, if and only if the grouping flag does not meet a magnitude of a thousand or more |
| `Atoi.PrintAndParse` | pintos-kaist/lib/stdio.c:42-49 | the same through vsnprintf_helper and atoi, for output that fits the buffer |
| `Atoi.NumeralDenotes` | pintos-kaist/lib/stdio.c:466-477 | in any base with distinct digits the numeral denotes the value |
| `Atoi.GroupingAddsCommas` | pintos-kaist/lib/stdio.c:470-477 | without its commas a grouped numeral is the plain one |
| `Atoi.DigitsDenote` | pintos-kaist/lib/stdio.c:466-488 | in each of the four bases of printf, and with every flag and precision, the digits printed denote the value |
| `Atoi.GroupsCutShort` | pintos-kaist/lib/stdlib.c:35-36 | a grouped numeral of a thousand or more is read as less than it denotes |
| `Stdio.FillDigits` | pintos-kaist/lib/stdio.c:466-477 | the digits and commas of every 64-bit value take at most 44 of the 64 bytes |
| `Stdio.FormatInteger` | pintos-kaist/lib/stdio.c:429-510 | the output is sign, prefix, zeros, digits and padding in order, and no write leaves the digit buffer, for every value, base, width and precision |
| `Stdio.FieldWidth` | pintos-kaist/lib/stdio.c:490-509 | the field is exactly as wide as asked unless more is needed, if and only if not both minus and zero are set with padding; then the padding is there twice |
| `Stdio.PaddingSide` | pintos-kaist/lib/stdio.c:490-509 | padding goes in front as spaces, behind with the minus flag, and with the zero flag as zeros between sign and digits |
| `Stdio.SignComesFirst` | pintos-kaist/lib/stdio.c:448-459 | a signed conversion starts with the minus of a negative number, and otherwise with the plus or space asked for |
| `Stdio.DigitCount` | pintos-kaist/lib/stdio.c:479-488 | as many digits as the precision asks for, and more only if the number needs them |
| `Stdio.CommasBetweenGroups` | pintos-kaist/lib/stdio.c:466-477 | commas stand before every third digit from the right, every fourth one of a hexadecimal numeral, and nowhere else |
| `Stdio.Sink.Put` | pintos-kaist/lib/stdio.c:42-49 | vsnprintf_helper: the buffer holds the prefix that fits, the length counts all |
| `Stdio.Sink.PutRepeated` | pintos-kaist/lib/stdio.c:512-517 | output_dup writes the character that many times |

## Left out

- Priority after a release: `refresh_priority` sorts donations by a comparison for another list member, so "the maximum of all waiters" is not kept; any new priority is allowed there (`Donate`, `SetPriority`).
- Condition variables: `cond_wait` compares semaphores whose waiter lists are still empty.
- Scheduler: starts after `thread_start`; `sema_up` and `sema_try_down` from interrupt handlers and the MLFQS stubs are not modelled, and `SemaDown` returns where the thread blocks.
- KernelSteps.Kernel.ThreadCreate: models `thread_create` for a page that could be had; a failing page or file table, and the first frames of the thread, are not part of this model, and its `thread_unblock` and `check_and_preempt` are one step.
- KernelSteps.Kernel.Start: that idle runs once and blocks is taken as done, not executed.
- KernelSteps.Kernel.EndTimeSlice: may come at any time; the count to TIME_SLICE that asks for it is not modelled.
- KernelSteps.Kernel.SetOwnPriority: takes the result of `refresh_priority` as a parameter.
- KernelSteps.Kernel.ChangePriority: writes one priority; the chain that `donate_priority` follows is in Donation, and other threads may run between two of its writes.
- KernelSteps.Kernel.LockRelease: `remove_with_lock` and `refresh_priority`, which come before it, are left out.
- KernelSteps: a lock is a value next to its semaphore structure; threads and semaphores are heap objects, and freeing a thread takes it out of the table of threads.
- Donation: threads and locks only; that donation happens with interrupts on is covered by the separate `Donate` step of the scheduler.
- Donation.AcquireDonates: models the writes of `lock_acquire` that change a priority or a wait; the insertion into the holder's list of donations, which only `refresh_priority` reads, is left out.
- ProcessWait: only successful forks; the failing fork, where the status is set after the parent was woken, and fork's copy of the address space are left out.
- PageTable: frames and free pages are sets of page addresses; the accessed and dirty bits, `pml4_activate` and the TLB are left out.
- PageTable.OtherSpacesUntouched: stated for addresses below 2^39, where user tables are not shared with the kernel.
- PageTable.Mmu.PtForEach: the callback is a function of the entry and its address; one that changes the tables during the visit is not covered, here and in the three functions above it.
- PageTable.Mmu.PtDestroy: asks its caller that nothing of the subtree is shared, used again or free; `Pml4Destroy` derives this from the consistency of the address space.
- PageTable.Mmu.PgdirDestroy: asks the same of its caller.
- PageTable.Mmu.PdpeDestroy: asks the same of its caller.
- PageTable.Mmu.Pml4Destroy: asks that no frame is mapped twice in the user half, since `pml4_set_page` leaves this to its callers; the assertion that the root is not the base table is taken as the condition that it is consistent and its own.
- Palloc.Pages.GetMultiple: the clearing of the pages under PAL_ZERO and the panic under PAL_ASSERT are left out.
- Malloc: the bytes in blocks are not modelled, only the regions; `calloc` is `malloc` and a product. Other clients are modelled on the kernel pool, which the heap uses.
- Malloc.Heap.Realloc: requires new size + 4119 < 2^64, the condition that `BigPagesSuffice` proves necessary for a block to be big enough.
- Vm: one process; eviction clears the current thread's mapping, not the owner's. File-backed pages, mmap, stack growth and the initial bytes of fresh stack pages are left out.
- Vm.Machine.LoadPage: an initializer of a page that fails is left out.
- InodeData.WriteAt: the branch that fills a bounce buffer with zeros cannot be reached in the source and is not modelled.
- FileSystem: directory entries are records, not bytes, and the free map's own file is not stored. The root directory has 16 slots and does not grow.
- FileSystem.RunKeepsInv: the histories are those in which the directory reads of a create go as far as `AddIsSoundExactly` proves necessary; where they do not, names may double, as `ShortReads` shows.
- Volume.FileSys.FileOpen: file structures are numbered by the caller instead of allocated.
- HashTable: `hash_clear`, `hash_destroy` and `hash_apply`; buckets are sequences, the lists under them are in KernelList.
- Stdio: `__vprintf`'s parsing of format strings, strings and characters; conversions start at `format_integer`, and lengths are not cut to an int.
- Atoi.Atoi: says nothing about strings whose number does not fit an int, where C leaves the result undefined.
- ArgStack.Split: a line of more than 64 words writes past the end of `parse` in the source; the model requires at most 64.
- ArgStack: the stack is memory that is already mapped; loading the executable is left out.
- Inline assembly, interrupt stubs, the context switch, drivers, the boot loader, system-call dispatch, the FAT stubs and the page cache.
