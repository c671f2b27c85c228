# A verified model of the XinOS kernel

XinOS is a small RISC-V kernel: a two-level heap allocator, a preemptive scheduler with ageing
priorities, sleep timers, trap entry in assembly, and a `printf`. This project models these parts
in Dafny and proves what they promise, over every input and every run. `dafny verify
dfyconfig.toml` checks all of it.

## What is modelled

**Heap** (`os/page.c`). `PageTable`, `BlockTable` and `Heap` are the code in place: arrays of
descriptor bytes, the 820 bytes at the end of every page, the ten-bit usage counter packed into
the last of them, and the loops that walk them. `Runs`, `BlockCount` and `HeapState` say what the
methods do as functions and relations, and the method contracts tie the two together.
`HeapSafety`, `HeapSteps`, `HeapRuns` and `HeapAnyFree` prove what holds over whole runs,
`HeapChoice` which memory is picked and when there is none, `HeapAsWritten` and `HeapDoubleFree`
exactly when the code as written keeps it.
`HeapLayout` is the address arithmetic of `page_init`, `Memcpy` the copy routine.

**Scheduler and timers** (`os/sched.c`, `os/timer.c`, `os/trap.c`, `os/syscall.c`). `TaskList` and
`TimerList` are the intrusive linked lists, relinked in place; `Kernel` holds both with `cur_task`,
`_ticks` and `_cur_task_start_tick`; `TrapHandler` is the dispatch. `SortedLists` and `RunQueue`
are the sequences they refine, and `Machine` is the state machine of all events. `MachineInv`,
`Fairness`, `MachineFairness`, `ExactWaits`, `Timeslices`, `TaskLives`, `Lateness`, `SleepToHart` and
`Callbacks` prove the invariant, the bounds, and what becomes of each task and timer.

**Contexts** (`os/entry.S`). `Hart` executes the instruction sequences of `trap_vector` and
`switch_to`; `Processor` does it in place. `Trap` decodes causes. `ContextRuns` proves that a hart
that switches between contexts behaves like one register file per task. `KernelRuns` puts scheduler
and hart together: the registers on the hart are those of the context the scheduler chose.

**Formatter** (`os/printf.c`). `Numbers` and `Format` say what a format renders to, and `Renderings`
what each directive's text means; `Printf` is the loop that writes it into a bounded buffer;
`Console` is the measure-then-write pair of passes.

## Where the code and its own comments disagree

The model follows the code.

- `os/page.c:450-459`: the scan of a block window starts at the block that was already checked, so
  the last block of the window is never read. `BlockTable.Code` selects the scan as written or as
  intended (as `page_alloc` does it at 234-242). Exact condition and input:
  `HeapAsWritten.AsWrittenSmallMallocSafeIff`, `BlockCount.AsWrittenScanOverlaps`.
- `os/page.c:588-590`: the comment wants the last page of a multi-page allocation, the code
  recomputes the page of the freed pointer. Selected by the same `Code`. Exact condition and input:
  `HeapAsWritten.AsWrittenFreeSafeIff`, `HeapAsWritten.AsWrittenFreeDropsLiveBlock`.
- `os/page.c:527-530`: pages are counted in an int, so that in the 64-bit build a request of
  more than 2 to the power of 43 less 4096 bytes asks for too few pages. Selected by the same `Code`.
  Exact condition and input: `HeapAsWritten.AsWrittenLargeMallocSafeIff`, `HeapAsWritten.AsWrittenHugeRequest`.
- `os/page.c:312`: the block table begins at byte 3275, one byte into the payload; the comment at
  480-481 wants the last 820 bytes. In the heap model payload and table are separate.
  `HeapLayout.AsWrittenTableOverlapsIff` says exactly which requests share a byte with the table as
  written, `HeapLayout.AsWrittenWholePage` what the shared byte of malloc(3276) does.
- `os/page.c:546` and `552`: `free` lets `_alloc_end` through.
  `Heap.Heap.FreeAcceptsOneTooMany` shows that this is the one accepted address without a descriptor;
  what `free` then does to the byte behind the table is not modelled.
- `os/page.c:577`: a pointer into a free page makes the search for a LAST page run on. Exact
  condition: `HeapDoubleFree.DoubleFreeSafeIff`.
- `os/entry.S:110-139`: the 64-bit restore, which is the default build, does not load `t6`. Both
  builds are modelled. Exact condition and input: `ContextRuns.SwitchedBack`,
  `ContextRuns.AsWritten64LosesT6`.
- `os/trap.c:43-44`: `MXLEN` is 32 in the 64-bit build too; `Trap.CauseDecodes` shows that codes
  below bit 31 are still told apart, `Trap.LargeCodeMistaken` which are not.
- `os/printf.c:17-21`: the least long has no negative, so `%d` of it is not a number
  (`Numbers.DecimalInvertible`).
- `os/sched.c:86-87`: ageing ends at 256. `Fairness.ReturnedAbove256Iff` says exactly which tasks
  above 256 are ever returned, `ExactWaits.SecondStarves` shows one that is not.
- `os/sched.c:198-204` never sets the state of a new task. The machine takes it as RUNNING, which is
  0; `MachineInv.AsWrittenCreateSafeIff` shows exactly which other values keep the invariant.

## Assumptions

Each handler and each kernel routine called by a task is atomic, and a pending software interrupt
is taken before the next instruction and before a timer interrupt, though an external interrupt may
come first (section 3.1.9 of the RISC-V Privileged Specification, version 1.12). `malloc` of control
blocks succeeds. The record of a task that exited keeps its contents for as long as `cur_task` points
to it, which after the last exit is until `schedule` next finds a task: `timer_handler` reads its
timeslice at every tick. A callback timer of a task that exited likewise reads the state in the freed
record. A task deletes only callback timers that exist, and passes no NULL function to
`timer_create`. Both passes of the formatter see the same arguments, though the `va_list` is used
twice. Tick counts, deadlines, ids and `pos` in the formatter do not wrap around. Contexts do not
overlap, C code writes no context but through `do_syscall` and `task_create`, and `schedule` and
`back_os` pass `switch_to` the context of the task or kernel that they chose.

## Model

| member | source | states |
|---|---|---|
| Runs.MarkKeepsWellFormed | os/page.c:244-254 | marking a free window as a run keeps the descriptor table well formed and leaves exactly the flags of one allocation |
| Runs.WalkStaysInRun | os/page.c:292-303 | on a well-formed table the clearing walk, which has no bound of its own, ends on the LAST member of the run it started in, inside the table and before any other run |
| Runs.FreeKeepsWellFormed | os/page.c:276-303 | a free at the head of a run, in the middle of one or at a free member keeps the table well formed |
| Runs.FreeClearsExactSuffix | os/page.c:276-303 | a free clears exactly the suffix of the one run it lies in, leaves the rest of that run ending in LAST, and changes nothing else |
| Runs.FreeWholeRun | os/page.c:264-304 | freeing a run from its first member leaves every other member alone |
| Runs.MarkFreeRoundTrip | os/page.c:215-304 | page_free of what page_alloc returned restores every flag |
| PageTable.PageAlloc | os/page.c:215-261 | returns the least index that starts n consecutive free pages and marks exactly those; NULL, changing nothing, exactly if there is no such index or n < 1 |
| PageTable.SetRun | os/page.c:244-254 | the FIRST, TAKEN and LAST assignments together mark one run |
| PageTable.PageFree | os/page.c:264-304 | the loop does what FreeRun says, at any page from which the walk stays in the table, which on a well-formed table is every page |
| BlockTable.PackUnpack | os/page.c:420-431 | the bytes of a table are determined by the 819 block flags and the ten-bit count |
| BlockTable.UnpackPack | os/page.c:420-431 | any six-bit flags of the last block and any ten-bit count can be stored together and read back |
| BlockTable.UnpackFlag | os/page.c:337-340 | setting a flag, block 818's own included, leaves the count and every other block alone |
| BlockTable.IncreasedMeans | os/page.c:373-392 | the increment adds one to the ten-bit count and touches no block flag |
| BlockTable.DecreasedMeans | os/page.c:398-414 | the decrement takes one off the ten-bit count and touches no block flag |
| BlockTable.IncreaseUsage | os/page.c:373-392 | the carry and the byte increment, in place |
| BlockTable.DecreaseUsage | os/page.c:398-414 | the borrow and the byte decrement, in place |
| BlockTable.Usage | os/page.c:420-431 | the value computed from the two bytes is the count the table means |
| BlockTable.MallocInit | os/page.c:358-367 | the table means 819 free blocks and count 0 |
| BlockTable.TryMalloc | os/page.c:434-476 | finds the least block the scan accepts, marks and counts exactly the blocks of the request, and returns NULL, changing nothing, exactly if the scan accepts none |
| BlockTable.TakeBlocks | os/page.c:460-471 | marking block by block with an increment each equals marking the run and adding its length |
| BlockTable.Seal | os/page.c:603-613 | the block before a mid-run free becomes LAST |
| BlockTable.FreeBlocks | os/page.c:600-635 | the clearing loop does what Release says, keeping the counter bits of block 818, whenever the walk ends among the blocks |
| BlockCount.CountReachesZero | os/page.c:636-641 | the count is 0 if and only if no block is taken |
| BlockCount.FreshFits | os/page.c:502-514 | a freshly initialised page satisfies every request of 1 to 3276 bytes at block 0 |
| BlockCount.TakeKeepsTable | os/page.c:460-471 | taking a free window keeps the table sound and its count equal to the number of taken blocks |
| BlockCount.ReleaseKeepsTable | os/page.c:595-641 | a free at any block keeps the table sound, never reaches byte 819, clears the rest of one run and takes its length off the count |
| BlockCount.AsWrittenTakeKeepsTableIff | os/page.c:446-472 | a window accepted by the scan as written keeps the table sound if and only if its last block, which the scan does not read, is free |
| BlockCount.AsWrittenScanOverlaps | os/page.c:450-459 | two one-block requests, a free and a two-block request on which the scan as written breaks the table |
| BlockCount.ReleaseReachesZeroIff | os/page.c:615-637 | any bytes whose walk stops, freed from block 0, end with count 0 if and only if their ten-bit count is the length of the run they spell |
| HeapState.SizesCover | os/page.c:525-538 | whole pages and tail blocks together cover the requested size, and a tail fits in the blocks of a page |
| HeapState.LittleIsWasted | os/page.c:491-538 | at most three bytes of a request are wasted, or the rest of one page when what is left beside whole pages exceeds 3276 bytes |
| HeapSafety.GrantIsApart | os/page.c:486-541 | memory taken from free pages and free blocks overlaps no live allocation |
| HeapSafety.GrantKeepsInv | os/page.c:486-541 | handing it out keeps the invariant of descriptors and live allocations |
| HeapSafety.ReclaimKeepsInv | os/page.c:543-643 | giving back exactly one live allocation keeps the invariant |
| HeapSteps.MallocGrants | os/page.c:486-541 | malloc with the intended scan only hands out free memory, for every size |
| HeapSteps.FreeReclaims | os/page.c:543-643 | free with the intended tail page gives back exactly the memory of the allocation, a tail that shares its page with others included |
| HeapSteps.MallocFreeRoundTrip | os/page.c:486-643 | from any sound heap free(malloc(size)) restores every page flag and every block table in use |
| HeapChoice.SmallFailsIff | os/page.c:491-516 | for 1 to 3276 bytes malloc returns NULL if and only if every page is taken and no malloc page has enough free blocks in a row, for the scan as written and as intended |
| HeapChoice.SmallPicksLeast | os/page.c:491-516 | otherwise it takes the first page that is free or a malloc page with room, in a malloc page the least window, takes the blocks of the window, and changes no other page or block |
| HeapChoice.LargeFailsIff | os/page.c:517-530 | above 3276 bytes it returns NULL if and only if no ceil(size / 4096) pages in a row are free |
| HeapChoice.LargePicksLeast | os/page.c:517-530 | otherwise it takes the first such pages |
| HeapChoice.NeverBoth | os/page.c:486-541 | NULL and a pointer exclude each other, and 0 bytes are never granted |
| HeapChoice.TwoSmall | os/page.c:491-516 | two malloc(4) on an empty heap return the first two blocks of its first page |
| HeapRuns.StepKeepsInv | os/page.c:215-643 | every call of malloc, free, page_alloc and page_free, and every write by a user, keeps the invariant |
| HeapRuns.HeapSafe | os/page.c:215-643 | at every point of every run the live allocations lie inside the heap and no two share a byte |
| HeapRuns.NothingLeaks | os/page.c:543-643 | once everything handed out is freed every page is free again |
| HeapRuns.MallocIsFresh | os/page.c:486-541 | in every run malloc returns memory apart from all live allocations |
| HeapAnyFree.FreeKeeps | os/page.c:543-643 | free of any block of any taken page keeps the descriptors of the heap sound |
| HeapAnyFree.FreeInsideRun | os/page.c:595-641 | free at any block of a malloc page clears exactly the rest of its run, ends the part in front with LAST, takes their number off the count, and gives the page back if and only if no block is left |
| HeapAnyFree.FreeOfFreeBlock | os/page.c:595-641 | free of a block that is free changes nothing |
| HeapAnyFree.PageFreeKeeps | os/page.c:264-304 | page_free of any page, malloc pages and the inside of runs included, keeps them sound |
| HeapAnyFree.WalksStayInside | os/page.c:292-303 | in every run with frees from anywhere, page walks end inside the page table, block walks before the counter byte, and every count is the number of taken blocks and above 0 |
| HeapDoubleFree.DoubleFreeSafeIff | os/page.c:574-592 | free of a pointer into a free page keeps the heap sound if and only if the next LAST page is not a malloc page, and then changes nothing |
| HeapAsWritten.AsWrittenSmallMallocSafeIff | os/page.c:446-472 | malloc as written keeps the heap sound if and only if the unread block of the window is free |
| HeapAsWritten.AsWrittenSmallMallocOverlaps | os/page.c:446-472 | otherwise it returns memory that a live allocation owns |
| HeapAsWritten.AsWrittenLargeMallocSafeIff | os/page.c:517-538 | above 3276 bytes malloc as written keeps the heap sound if and only if the page count fits in an int |
| HeapAsWritten.AsWrittenHugeRequest | os/page.c:527-530 | 2 to the power of 44 and 4096 bytes are handed out on a heap of one page |
| HeapAsWritten.AsWrittenFreeSafeIff | os/page.c:574-641 | free as written of an allocation with a tail keeps the heap sound if and only if nobody else has blocks in the tail page and the last two bytes of the first page hold the length of the run that the bytes before them spell |
| HeapAsWritten.AsWrittenFreeDropsOthers | os/page.c:590-641 | when they empty but somebody else has blocks in the tail page, that allocation loses its page |
| HeapAsWritten.AsWrittenFreeLeaks | os/page.c:590-641 | when they do not, the tail blocks stay taken without an owner |
| HeapAsWritten.AsWrittenFreeDropsOther | os/page.c:590-641 | every allocation with blocks in the tail page of one whose first page spells a run loses them |
| HeapAsWritten.AsWrittenFreeDropsLiveBlock | os/page.c:590 | malloc(4100), malloc(4) and free of the first: a run that takes the page from under the second |
| Heap.Heap.constructor | os/page.c:187-202 | page_init leaves every page descriptor 0 |
| Heap.Heap.Malloc | os/page.c:486-541 | the code takes the step of HeapState.Malloc, or finds no room and changes nothing; HeapChoice says which memory that is and when there is none |
| Heap.Heap.SmallMalloc | os/page.c:491-516 | the page loop for 1 to 3276 bytes: HeapChoice.SmallPicksLeast and SmallFailsIff say what it finds |
| Heap.Heap.OnePage | os/page.c:517-524 | 3277 to 4096 bytes: the same as page_alloc(1) |
| Heap.Heap.LargeMalloc | os/page.c:525-538 | whole pages by first fit, and the rest in the first blocks of the last page |
| Heap.Heap.Free | os/page.c:543-643 | wherever in the heap the pointer lies, the code takes the step of HeapState.Free as long as no walk leaves its table |
| Heap.Heap.FreePages | os/page.c:574-592 | a pointer into a page that is not a malloc page |
| Heap.Heap.FillTail | os/page.c:531-538 | the last page becomes a malloc page with the rest in its first blocks |
| HeapState.NextLastOfTaken | os/page.c:577 | from a taken page of a well-formed table the unbounded search ends at the end of its own run |
| Heap.Heap.FindLast | os/page.c:577 | the unbounded search ends at the first LAST page |
| Heap.Heap.WalkStopsWhenSound | os/page.c:615-635 | on a sound heap the block walk of free stays among the blocks |
| Heap.Heap.AddressRoundTrip | os/page.c:318-326 | the address malloc returns leads free back to the same page and block |
| Heap.Heap.AddressesApart | os/page.c:318-326 | in every run the byte ranges at the returned addresses lie between _alloc_start and _alloc_end and do not meet |
| Heap.Heap.FreeAcceptsOneTooMany | os/page.c:546-552 | of the addresses free accepts exactly _alloc_end lies outside the page table |
| Heap.Heap.FreeAddress | os/page.c:543-643 | free by address: panic exactly outside the accepted range |
| Heap.Heap.PageFreeAddress | os/page.c:264-304 | page_free by address ignores everything outside the heap and keeps the table well formed |
| HeapLayout.MaskTakesOffRemainder | os/page.c:113-118 | masking with ~4095 takes off the remainder of a 32-bit and of a 64-bit word |
| HeapLayout.AlignPageIsLeast | os/page.c:112-125 | in either build alignment is the least page multiple at or above its argument, or 0 if the sum wraps |
| HeapLayout.PagesFillHeap | os/page.c:187-205 | for a heap of 8 pages to 128 MB the pages handed out end exactly at the heap end and the descriptors end at or below the first of them |
| HeapLayout.SmallHeapWraps | os/page.c:189 | the page count wraps if and only if there are fewer than 8 pages |
| HeapLayout.AsWrittenTableOverlapsIff | os/page.c:310-313 | the bytes of a request and the table as written meet if and only if the request ends with the last payload byte of the page |
| HeapLayout.AsWrittenHitsBlock0 | os/page.c:310-313 | the one byte they then share is the last of the request and the descriptor of block 0 |
| HeapLayout.AsWrittenWholePage | os/page.c:310-313 | the last byte of malloc(3276) is the descriptor of its own first block, which the next request gets if and only if the user clears the TAKEN bit there |
| HeapLayout.AsWrittenTableMeetsBlocksIff | os/page.c:310-313 | whole block windows meet it if and only if they include block 818 |
| HeapLayout.TableIsSeparate | os/page.c:480-481 | the intended table shares no byte with any payload and fills the page |
| Memcpy.MovedAt | os/page.c:645-678 | the destination holds the old source bytes and no other byte changes |
| Memcpy.Memcpy | os/page.c:645-678 | in every overlap the copy is memmove; it panics, changing nothing, exactly if the destination leaves the heap |
| Memcpy.CopyUp | os/page.c:665-669 | forwards for a destination below the source |
| Memcpy.CopyDown | os/page.c:670-676 | backwards for a destination above the source |
| RunQueue.InsertKeeps | os/sched.c:36-69 | insertion keeps the queue sorted and ids distinct, and everything behind the new task has a greater priority value |
| RunQueue.PopKeeps | os/sched.c:72-99 | pop_task keeps the queue sorted and the relative order of all other tasks |
| TaskList.TaskList.Insert | os/sched.c:36-69 | the linked list after insert_task is the sequence with the task filed behind equal priorities |
| TaskList.TaskList.Pop | os/sched.c:72-99 | returns the first awake task, aged and filed again, or NULL exactly if all sleep; no record is lost |
| TaskList.TaskList.Remove | os/sched.c:152-169 | task_exit takes out exactly its own record |
| TaskList.TaskList.FindSlot | os/sched.c:56-62 | the walk of insert_task ends at the slot of the priority |
| TaskList.TaskList.FindAwake | os/sched.c:76-82 | the walk of pop_task ends at the first awake task |
| TimerList.TimerList.Insert | os/timer.c:118-140 | the linked list after insert_timer is the sequence with the timer filed behind equal deadlines |
| TimerList.TimerList.Delete | os/timer.c:169-188 | timer_delete takes out exactly its own record, and does nothing without a timer or with an empty list |
| Fairness.PopProgress | os/sched.c:72-99 | a pop that returns another task takes exactly one off the wait of an awake task of priority at most 256 |
| Fairness.InsertProgress | os/sched.c:36-69 | a filed task lengthens the wait only if its priority value is lower, and then by the gap |
| Fairness.ExitProgress | os/sched.c:148-169 | the exit of another task never lengthens a wait |
| Fairness.StateProgress | os/sched.c:134 | sleeping and waking of others do not move anybody |
| Fairness.WaitIsExact | os/sched.c:72-99 | while the tasks ahead stay awake a task is returned after exactly the sum of max(1, p - q) other pops |
| Fairness.StarvesAbove256 | os/sched.c:72-99 | above priority 256 a task is never returned while somebody awake has a lower priority value, above 256 or not |
| Fairness.LeadIsExact | os/sched.c:72-99 | above 256 a task that nobody awake beats is returned after exactly as many others as are awake ahead of it |
| Fairness.ReturnedAbove256Iff | os/sched.c:72-99 | an awake task above 256 is ever returned if and only if no awake task has a lower priority value |
| ExactWaits.SecondStarves | os/sched.c:72-99 | of two tasks created with priorities 300 and 301 the second is never returned |
| ExactWaits.WaitIsExactInRuns | os/sched.c:35-169 | in runs of the machine a software interrupt switches to a waiting task if and only if exactly its wait has passed it over, while those ahead stay awake and none exits or is created ahead, whatever happens behind it |
| ExactWaits.SwitchesWhenOver | os/sched.c:102-120 | schedule picks a task with nobody asleep ahead if and only if its wait is 0 |
| Fairness.ConvergesExactly | os/sched.c:72-99 | exactly the sum of 256 - p pops bring all awake tasks to 256 |
| Fairness.RoundRobin | os/sched.c:72-99 | from then on n pops return each task once in queue order and restore the queue |
| MachineInv.StepKeeps | os/timer.c:118-247 | every event keeps the invariant of both lists, the running context and the timeslice |
| MachineInv.AsWrittenCreateSafeIff | os/sched.c:198-212 | task_create in memory whose state reads as st keeps the invariant if and only if st is not SLEEPING |
| MachineInv.AsWrittenCreateLosesTask | os/sched.c:198-212 | a first task that reads as SLEEPING has no timer and is not found by schedule |
| MachineInv.SleepingIffOneTimer | os/timer.c:191-232 | in every reachable state a task sleeps if and only if exactly one timer without a function names it |
| MachineInv.NeverCallsNull | os/timer.c:198-207 | timer_check never calls a NULL function |
| MachineInv.NeverRunsSleeper | os/sched.c:102-120 | a task on the hart without a switch pending is cur_task and awake |
| Lateness.NeverEarly | os/timer.c:191-216 | no sleeper is woken before its deadline |
| Lateness.MovesUp | os/timer.c:191-216 | once its deadline is reached each further tick moves a sleeper up by one, and no later insertion overtakes it |
| Lateness.WokenAfterThoseAhead | os/timer.c:191-232 | it is woken by exactly the tick that follows one tick for each sleep timer ahead |
| Lateness.FewAhead | os/sched.c:190-191 | at most MAX_TASK_NUM - 1 sleep timers are ahead of one |
| Lateness.SleepIsBounded | os/timer.c:118-232 | sleep(n) at tick t0 ends at tick max(t0 + n, t0 + 1) + A, with A the sleep timers ahead just before, at most 9 |
| SleepToHart.HasHartInTime | os/timer.c:236-246 | if the kernel yields between ticks, a waiting task has the hart within the longest timeslice times its wait and what later creations add to it |
| SleepToHart.SleeperHasHart | os/timer.c:118-247 | so a task that calls sleep(n) at tick t0 has had the hart before the tick count exceeds max(t0 + n, t0 + 1) + A plus that product, with A at most 9 |
| SleepToHart.WithinStep | os/timer.c:236-246 | each event adds at most one timeslice of ticks, and only a software interrupt adds it |
| Callbacks.ScanIs | os/timer.c:194-213 | one scan calls the expired callbacks in front of the first sleep or unexpired timer, each once and in list order, and ends on that sleep if it has expired |
| Callbacks.ReachedIff | os/timer.c:194-213 | a timer is reached if and only if it has expired and only callbacks are in front of it |
| Callbacks.CalledEveryTick | os/timer.c:191-216 | over runs a callback that was not deleted is called at exactly the ticks at or after its deadline at which no sleep is in front of it |
| Callbacks.CreatedIsListed | os/timer.c:144-166 | timer_create files one timer with a new number, due n ticks from now, behind everything due by then, and changes nothing else |
| Callbacks.DeleteRemoves | os/timer.c:169-188 | timer_delete takes out the named timer and nothing else |
| Callbacks.DeletedIsGone | os/timer.c:169-188 | over runs a deleted timer is never in the list again |
| MachineFairness.WaitBoundsSwitches | os/sched.c:35-99 | over any interleaving of events the software interrupts that pass an awake task over are bounded by its wait plus what later creations add |
| MachineFairness.NoStarvation | os/sched.c:35-99 | beyond that bound the task has had the hart |
| MachineFairness.TimesliceBound | os/timer.c:237-246 | a task switched in at tick s is off the hart by tick s + max(1, timeslice) |
| Timeslices.QuietTick | os/timer.c:232-246 | a tick at which no sleep is over changes neither list and sends cur_task back to the kernel exactly when the tick count reaches start + timeslice, which is also when start moves |
| Timeslices.DueTick | os/timer.c:221-231 | a tick at which one is over takes out the first sleep timer, of least deadline: its task becomes RUNNABLE and cur_task, the kernel runs, start does not move, every other record and timer stays |
| Timeslices.QuietIff | os/timer.c:191-216 | a tick takes a sleep timer out if and only if some sleep is over |
| Timeslices.StaysIff | os/timer.c:236-246 | in every run a task on the hart at a tick that takes no timer out stays if and only if the tick comes before start + timeslice; otherwise start is that tick |
| Timeslices.OnHartIff | os/timer.c:236-246 | until the next switch and while nobody is due, a task that was switched in is on the hart if and only if no tick has come since or the tick count is below start + timeslice |
| TaskLives.SwitchPicks | os/sched.c:102-120 | a software interrupt switches to the first awake task of least priority value; with everybody asleep it forgets cur_task, with nobody queued it keeps it, and the kernel runs |
| TaskLives.YieldSwitches | os/sched.c:123-128 | after task_yield the next event is the switch |
| TaskLives.CreateFiles | os/sched.c:188-215 | below ten tasks task_create files one record with a number never used before, the given priority and timeslice, behind everybody of at most that priority value; at ten it changes nothing |
| TaskLives.AgeingIsExact | os/sched.c:72-99 | over runs a task created with priority p and switched to n times has priority min(p + n, 256), or p if that is 256 or more, and the timeslice it was created with |
| TaskLives.ExitRemoves | os/sched.c:148-173 | task_exit takes the record of the running task out of the queue, keeps the others in order and asks for a switch |
| TaskLives.ExitedIsGone | os/sched.c:148-173 | the next event is that switch, and from then on the task is neither in the queue nor on the hart |
| TaskLives.ListedUntilExit | os/sched.c:35-173 | over runs a task is in the queue exactly until it exits: no event loses it or brings it back |
| Kernel.Kernel.Schedule | os/sched.c:102-120 | schedule takes the step of the machine |
| Kernel.Kernel.SoftInt | os/trap.c:30-37 | the software interrupt handler takes the step of the machine |
| Kernel.Kernel.TimerCheck | os/timer.c:191-216 | calls the expired callbacks and deletes and returns the first expired sleeper, if there is one |
| Kernel.Kernel.TimerHandler | os/timer.c:219-247 | timer_handler takes the step of the machine, which Timeslices.QuietTick and DueTick describe in full |
| Kernel.Kernel.Wake | os/timer.c:225-231 | a woken task becomes RUNNABLE and cur_task, and the kernel context runs |
| Kernel.Kernel.Preempt | os/timer.c:236-246 | the timeslice check: Timeslices.StaysIff says exactly when a task leaves the hart |
| Kernel.Kernel.TimerCreate | os/timer.c:144-166 | a new timer is filed by its deadline |
| Kernel.Kernel.TimerDelete | os/timer.c:169-188 | exactly the named callback timer goes; NULL is ignored |
| Kernel.Kernel.TaskDelay | os/sched.c:132-144 | task_delay takes the step of the machine |
| Kernel.Kernel.TaskExit | os/sched.c:148-173 | task_exit takes the step of the machine: TaskLives.ExitRemoves says what is left |
| Kernel.Kernel.TaskCreate | os/sched.c:188-215 | task_create takes the step of the machine; -1 exactly if there are ten tasks |
| Kernel.Kernel.Take | os/trap.c:39-87 | the kernel in memory takes any enabled event as the machine does and stays in the invariant |
| TrapHandler.TrapHandler | os/trap.c:39-87 | each cause leads to the event, return address and a0 that EventIff and OutcomeIs list |
| TrapHandler.EventIff | os/trap.c:46-84 | interrupt 3 is a switch, interrupt 7 a tick, an environment call with 1 in a7 a sleep for a0 ticks, and no other cause is an event, in both builds |
| TrapHandler.OutcomeIs | os/trap.c:42-86 | interrupts resume where they hit, environment calls four bytes further with 0 for sleep and -1 for any other number, and every other exception panics |
| TrapHandler.DoSyscall | os/syscall.c:9-27 | sleep puts the task to sleep and returns 0, any other number returns -1 and changes nothing |
| Trap.CauseDecodes | os/trap.c:43-46 | interrupt bit and code are recognised in both builds for every code below bit 31 |
| Trap.DispatchIff | os/trap.c:46-81 | interrupts 3, 7 and 11 and exceptions 8, 9 and 11 lead to their handlers, other interrupts are ignored, other exceptions panic, each if and only if |
| Trap.LargeCodeMistaken | os/trap.c:44 | in the 64-bit build an exception is taken for an interrupt if and only if its code needs bit 31 |
| Hart.EntrySaves | os/entry.S:181-204 | trap entry stores all 31 registers and the pc in the context of mscratch, touches no other memory, restores mscratch and passes the three arguments |
| Hart.ExitRestores | os/entry.S:206-211 | trap exit resumes that context at the address the handler returned |
| Hart.SwitchRestores | os/entry.S:219-249 | switch_to resumes the context it is given and leaves mscratch pointing to it |
| ContextRuns.StepSimulates | os/entry.S:181-249 | every step of the hart is one step of a machine in which each context has its own registers |
| ContextRuns.RunSimulates | os/entry.S:181-249 | so at every point of every run mscratch points to the running context and all others are in memory unchanged |
| ContextRuns.SwitchedBack | os/entry.S:76-140 | a task switched out finds all registers and its pc as trapped, in the 32-bit build always, in the 64-bit build if and only if its t6 held the address of its context |
| ContextRuns.TrapReturns | os/trap.c:70-86 | an ecall resumes at epc + 4 with its result in a0, any other trap that returns where it hit, with the other registers unchanged |
| ContextRuns.AsWritten64LosesT6 | os/entry.S:110-139 | an external interrupt that overwrites t6 in the 64-bit build |
| KernelRuns.StepKeeps | os/sched.c:102-120 | every step of scheduler and hart together keeps both invariants and the tie between cur_task, mscratch and the live registers |
| KernelRuns.ChosenHasContext | os/sched.c:118-119 | whoever the scheduler switches to has a context |
| KernelRuns.HartRunsChosen | os/sched.c:102-120 | at every point of every run the live registers are those of the context the scheduler made current, and unless a switch is pending that is the kernel or an awake task |
| KernelRuns.SchedulerRuns | os/trap.c:39-87 | the scheduler's part of every run is a run of the scheduling machine, so the bounds on waiting, sleeping and running hold |
| KernelRuns.TrapIs | os/trap.c:46-84 | what each trap of the hart is to the scheduler, by mcause, a7 and a0: a sleep call sleeps for a0 ticks |
| KernelRuns.ParkedReturns | os/sched.c:118-119 | a queued task that is off the hart gets all registers and its pc back when it is next switched to |
| KernelRuns.WaitsAndReturns | os/sched.c:72-120 | an awake task of priority at most 256 that is off the hart gets it before more software interrupts pass it over than its wait allows, with all registers and its pc as they were, t6 excepted in the 64-bit build |
| KernelRuns.SleeperLeaves | os/sched.c:132-144 | after a sleep call only other interrupts come before the switch that takes the hart from the sleeper |
| KernelRuns.SleepReturns | os/syscall.c:16-27 | sleep returns behind its ecall with 0 in a0 and every other register as it was, whatever happens meanwhile; only t6 is lost in the 64-bit build |
| Processor.Processor.Run | os/entry.S:5-38 | executing a sequence instruction by instruction, in place |
| Processor.Processor.Enter | os/entry.S:181-203 | trap entry in place: the interrupted context is in memory, nothing else changed |
| Processor.Processor.Leave | os/entry.S:205-211 | trap exit in place |
| Processor.Processor.SwitchTo | os/entry.S:219-249 | switch_to in place |
| Processor.Processor.Trap | os/entry.S:181-249 | a whole trap, from the hardware's part to mret, is one step of the machine with separate registers |
| Numbers.DecimalInvertible | os/printf.c:15-42 | %d reads back as its argument, and consists of digits behind the sign, if and only if it is not the least long |
| Numbers.DecimalCanonical | os/printf.c:28-37 | no leading zero, and 0 renders as nothing |
| Numbers.DecimalInjective | os/printf.c:15-42 | no two longs render alike |
| Numbers.HexInvertible | os/printf.c:63-81 | %x reads back as the two's complement of its argument |
| Numbers.HexInjective | os/printf.c:63-81 | no two numbers of one width render alike |
| Numbers.HexAt | os/printf.c:69-71 | the shifted nibble at position i is digit i from the right |
| Format.PlainText | os/printf.c:113-124 | text without a % renders as itself and takes no argument |
| Format.SpellRoundTrip | os/printf.c:11-124 | every list of pieces without a literal % is what some format says, and taking that format apart gives the list back |
| Format.SayableIff | os/printf.c:109-116 | a list of pieces is sayable by a format if and only if it contains no literal %, since a second % is skipped |
| Format.RenderingNoNul | os/printf.c:6-135 | no rendering contains a NUL |
| Renderings.Concatenates | os/printf.c:6-135 | two formats one after the other, the first not ending inside a directive, render to their texts one after the other |
| Renderings.UnknownSkipped | os/printf.c:109-110 | a character that means nothing inside a directive can be left out, a second % included |
| Renderings.StringIs | os/printf.c:82-96 | %s renders as its argument |
| Renderings.DecimalIs | os/printf.c:15-42 | the rendering of %d and %ld reads back as the argument, with a minus sign exactly for negative ones and digits without leading zero behind it, except for the least long; 0 renders as nothing |
| Renderings.HexadecimalIs | os/printf.c:63-81 | the rendering of %x and %lx is 8 lower-case digits for an int and 2 * sizeof(long) for a long, and reads back as the two's complement |
| Renderings.PointerIs | os/printf.c:48-62 | %p is 0x and the rendering of %lx |
| Renderings.LetterIs | os/printf.c:98-107 | %c takes no argument and renders as c |
| Renderings.Between | os/printf.c:6-135 | between two texts without % each directive renders as it does alone |
| Renderings.TimeLine | os/printf.c:82-96 | the format of elapsed_time renders as the time and a newline |
| Printf.Vsnprintf | os/printf.c:6-135 | the result is the length of the rendering whatever the buffer; the buffer gets the rendering cut to n - 1 and a NUL, and nothing at or above n is written; Renderings says what the rendering is |
| Printf.WrittenAt | os/printf.c:126-134 | which character each position of a buffer ends up with: text, NUL or what was there |
| Printf.PutDigits | os/printf.c:28-38 | the fill from the right writes the digits in order |
| Printf.PutHex | os/printf.c:66-77 | the digits from the highest down |
| Printf.Directive | os/printf.c:11-112 | one character after a %, literally: what it puts out is what Renderings says of that directive, unknown characters are skipped |
| Console.GuardIs | os/printf.c:141-142 | the size guard with int wrap-around, in closed form |
| Console.Console.Vprintf | os/printf.c:137-150 | sends exactly the rendering if and only if it is shorter than 1023 characters; otherwise the error message, unless the length wraps around |

## Left out

- HeapAsWritten.AsWrittenFreeSafeIff: assumes that the walk over the user's bytes stops inside the first page; as written it may run on into the next, whose bytes are not modelled.
- Heap.Heap.Free: pointers for which a walk leaves its table are excluded: into the block table of a malloc page, or with no LAST page behind them.
- Heap.Heap.FreeAddress: the same pointers, and `_alloc_end` itself.
- MachineFairness.NoStarvation: stated for priorities up to 256; above that Fairness.ReturnedAbove256Iff and Fairness.LeadIsExact say over pops when and after how many a task is returned.
- TimerList.TimerList.Delete: a timer that is not in a non-empty list, for which the code follows a NULL pointer, is excluded.
- Kernel.Kernel.TimerCheck: callbacks are logged, their bodies are not run.
- Format.Fits: what va_arg demands of callers is a precondition; a wrong argument type has no defined meaning in C.
- User data in the heap is not modelled byte by byte; only the last 820 bytes of a page are, since free as written reads them.
- Stack slots of tasks (`os/sched.c:203`, `232`): they are indexed by the number of live tasks and stay distinct only until the first exit.
- Preemption inside malloc, task_exit or timer_delete called from a task: the code takes no lock.
- mstatus, privilege modes, mie and mtvec: hardware state that none of the claims needs.
- `os/uart.c`, `os/plic.c`, the CLINT registers, `os/start.S`: device input and output; the serial line is the sequence of characters sent, a software interrupt is a flag.
- `os/lock.c`, elapsed_time, the test printers, panic's loop and `exercise/`: easy members or demonstration code.
