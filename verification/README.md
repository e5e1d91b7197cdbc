# Verified model of the teaching kernel

The project models the state machines and arithmetic cores of a small x86 teaching kernel and proves
what they keep over every input and every run.

| modules | part of the kernel |
|---|---|
| `FreeList`, `PageAllocator`, `Arena`, `ArenaCode`, `MemoryMap` | page and slice allocator, and its construction at boot (`kmem.c`) |
| `QueueSpec`, `PcbQueue` | the linked process queues (`procs.c`) |
| `Scheduler` | dispatching, the 3-tick quantum and the clock interrupt (`procs.c`, `clock.c`) |
| `ProcTable`, `ProcTree`, `ProcWakeups`, `ProcMemory`, `ProcRuns`, `ProcHistory`, `ProcFates`, `ProcReturns`, `ProcWitness`, `Lifecycle` | fork, exec, exit, waitpid and kill over the process table (`procs.c`, `syscalls.c`, `user.c`) |
| `StackSetup` | the initial stack of a process (`user.c`) |
| `Console` | the scrolling window (`cio.c`) |
| `DrawLine`, `LineRange` | line drawing (`vga_graphics.c`) |
| `Convert`, `BlockMove` | number conversion and overlapping moves (`klibc.c`) |
| `Checksum` | the Internet checksum (`ipv4.c`) |

Code that updates state in place is modelled by classes and by methods over arrays: `Kmem` keeps the
`Blockinfo` headers of free pages and free slices in one memory keyed by address, `Queue` links `Pcb` objects
through `next`, `Cpu` is the interrupt handler, `Code` loops over the process table on top of `Kmem`, `Screen`
owns the video memory. `ArenaCode.Clients.Perform` and `Lifecycle.Code.Perform` carry out any operation of
the allocator and any event of the life cycle in code and compute exactly the step that the theorems about
runs speak of.
Each of these methods is proved to compute a function on values (`AllocRest`, `Release`, `Enqueue`, `Tick`,
`Zombify`, `Type`, ...). The theorems about those functions never mention the code: a canonical form fixed
by the set of free bytes, a stable sort fixed by its keys, a geometric line, an unbounded sheet of paper.

Main results:

* **Allocator.** Over every run of allocations and legal frees the list stays ordered, disjoint and
  coalesced, the counters are right, and no byte is lost or handed out twice (`RunsAreSafe`). The list is
  fixed by the free bytes alone (`Canonical`), so the order and the granularity of frees do not matter
  (`FreesCommute`, `PageByPage`). First fit fails exactly when no run of that many free pages exists
  (`FirstFitExact`).
* **Life cycle.** Over every run the parent tree reaches init, no two stacks overlap, and free pages plus
  recorded stack pages are constant (`RunsKeepTreeAndMemory`). Over every run, however long, each termination
  is delivered at most once and otherwise still held (`RunsDeliverOnce`), with its status and only to the
  parent at that moment (`DeliveredToParent`, `DeliveredStatus`). Nobody ever waits for a child that is already
  a zombie exactly when no wait of the run misses (`WakeupsExact`); no wait misses while no fork reuses a pid
  that is still in use (`RunsLoseNoWakeup`), which holds until the 32-bit counter wraps around
  (`FewForksAreFresh`). What every call returns, and in which state it leaves everybody, is stated in the fields
  of the table (`StepAnswers`, `ForkExact`, `ExecExact`, `WaitEffect`, `KillMarks`, `CpuExact`).
* **Scheduling.** The linked queues stay sorted. A peer with `i` peers ahead runs after exactly the rest of the
  quantum plus `3 * i` ticks (`RoundRobin`), and so it does when the interrupt handler runs on the linked
  queues (`PeerRuns`); an interrupt wakes exactly the sleepers whose wakeup time has come (`ClkIsr`).
* **Stack builder.** The started program reads back the longest prefix of the arguments that fits a page
  (`StackSetup`, `LongestPrefix`).
* **Console.** For every text the window is a view of the end of an unbounded sheet (`Print`), on which text
  is wrapped (`TextIsWrapped`) and divided into lines (`LinesEffect`, `ReturnThenLine`).
* **Arithmetic.** `DrawLine` against the geometric line, and exactly when it overflows (`OverflowExact`);
  `RoundTrip` including the most negative number; `Memmove` and `Blkmov` for every overlap;
  `ChecksumVerifies` and `ChecksumSwaps`.

Where the code does not do what its comments suggest, the model follows the code and an exact condition is
proved:

* `add_block` neither merges nor checks for overlap: the boot list is in order exactly when the usable blocks
  do not overlap (`BootOrdered`), and then coalesced exactly when no block ends where another one starts
  (`BootCoalesced`).
* On a list that is only ordered, first fit wrongly returns NULL exactly when every block is too small but
  some group of touching blocks is not (`WrongNull`, with an instance in `TouchingBlocksMissRun`).
* Clipping wraps for a region whose end passes 2^64 (`ClipInRange`, with an instance in `WrappedRegion`).
* The slice counter is the list length plus four for every carved page (`StepCounts`).
* A wait for any child reports `E_NO_CHILDREN` exactly when no table entry, used or stale, names the caller
  as its parent (`WaitExact`, `WaitWithoutChildren`). The kernel reaches a state in which a process waits
  without having children (`StaleEntryBlocks`), and there it stays until it is killed (`StuckForEver`).
* A wakeup is lost exactly by a wait for a pid that two children have, of which the first in the table is alive
  and another one is a zombie (`StepWakes`). The kernel reaches such a state after the pid counter has wrapped
  around (`LostWakeup`).
* The first event that touches a process marked as killed ends it exactly when it is a schedule; a dispatch
  removes the mark (`MarkedFate`), and the kernel reaches a state where a killed process runs (`LostKill`).
* A process that was marked reports whatever its table entry held (`DeliveredStatus`, `StaleStatus`), which is
  not EXIT_KILLED in general (`KilledReportsZero`).
* A kill ends the caller and spares the victim exactly when the victim is found in state Running
  (`KillEffect`), as a sleeping process is; the kernel reaches such a state (`KillerDies`).
* The guard of the queue insertion recognizes every member except the last one, and inserting that one again
  links it to itself (`GuardMissesTail`, `Insert`).
* A serialised IP header passes the receiver's test exactly when the sum of its words is a multiple of 257,
  because words are summed in host order and the result is stored high byte first (`StoredHeaderVerifies`); an
  ordinary header fails (`OrdinaryHeaderFails`).
* The argument loop of the stack builder stays within its ten-element arrays exactly when there are at most
  ten arguments or fewer than ten fit a page (`ArraysSuffice`, with an instance in `ElevenAreTooMany`).

## Model

| member | source | states |
|---|---|---|
| `FreeList.Canonical` | kmem.c:594-687 | two coalesced lists with the same free bytes are the same list |
| `FreeList.AllocCorrect` | kmem.c:492-559 | an allocation removes exactly the returned pages, all of them free before, keeps order and coalescing, and changes nothing when it fails |
| `FreeList.FirstFitExact` | kmem.c:505-559 | on a coalesced list NULL is returned if and only if no such run of free pages exists, otherwise the lowest run |
| `FreeList.TouchingBlocksMissRun` | kmem.c:505-520 | two touching free pages do not serve a request for two |
| `FreeList.WrongNull` | kmem.c:505-520 | on any ordered list: NULL is returned although the pages are free and contiguous if and only if every block is too small and some group of touching blocks is not |
| `FreeList.ReleaseCorrect` | kmem.c:594-687 | a free adds exactly the freed bytes and pages and keeps the list ordered and coalesced |
| `FreeList.AllocThenRelease` | kmem.c:524-553 | allocating and freeing the same block restores the list |
| `FreeList.FreesCommute` | kmem.c:618-686 | any two sequences of frees that return the same bytes give the same list |
| `FreeList.PageByPage` | kmem.c:572-594 | freeing page by page equals one multi-page free |
| `FreeList.AddToCoalesced` | kmem.c:254-278 | adding one block to a coalesced list keeps it coalesced if and only if it touches no free block |
| `FreeList.PagesBounded` | kmem.c:680-687 | the pages on the list fit below the highest address, so the counter cannot wrap |
| `PageAllocator.Kmem.FindFit` | kmem.c:505-520 | the search loop stops at the first block that is large enough and its predecessor |
| `PageAllocator.Kmem.PageAlloc` | kmem.c:492-559 | the in-place code returns and leaves what first fit on the list of blocks says, and the slice headers in the same memory are untouched |
| `PageAllocator.Kmem.FindGap` | kmem.c:618-632 | the search loop stops between the last block below the address and the first at or above it |
| `PageAllocator.Kmem.PageFreeMulti` | kmem.c:594-687 | the in-place insertion with merging on both sides leaves the released list, and the slice headers in the same memory are untouched |
| `PageAllocator.Kmem.AddBlock` | kmem.c:199-280 | whole pages are inserted by address, overlapping others or not; smaller pieces are ignored |
| `PageAllocator.Kmem.CarveSlices` | kmem.c:705-721 | a page becomes four slices on the front of the list, none of them on the page list; the counter grows by eight |
| `PageAllocator.Kmem.SliceAlloc` | kmem.c:731-752 | the first slice is taken, after carving a page if there was none; both lists stay valid |
| `PageAllocator.Kmem.SliceFree` | kmem.c:765-775 | a slice that overlaps no free page and no free slice goes to the front; the page headers in the same memory are untouched |
| `Arena.RunsAreSafe` | kmem.c:492-775 | every run of page and slice operations keeps the free list coalesced and counted, everything held disjoint, and every byte accounted for |
| `Arena.EverythingReturned` | kmem.c:594-687 | when the bytes in use are those in use before the run, carved pages included, the free list is the same |
| `Arena.HeldApart` | kmem.c:492-559 | two live blocks never overlap |
| `Arena.SlicesApart` | kmem.c:705-775 | two slices, free or held, never overlap |
| `Arena.StepCounts` | kmem.c:717-774 | the slice counter is the list length plus four per carved page, modulo 2^32 |
| `Arena.AllocPagesEffect` | kmem.c:492-559 | the client holds one more block, which was free, exactly when there are that many contiguous free pages |
| `Arena.FreePagesEffect` | kmem.c:594-687 | exactly the bytes of the held block become free |
| `Arena.AllocSliceEffect` | kmem.c:731-752 | the first free slice is taken, or a free page is carved into four; it fails exactly when there is neither |
| `Arena.FreeSliceEffect` | kmem.c:765-775 | a held slice becomes the first free one |
| `ArenaCode.Clients.Perform` | kmem.c:492-775 | every client operation, performed on the linked lists in memory, is the step of the run model |
| `ArenaCode.Clients.PerformAll` | kmem.c:492-775 | so is every sequence of operations |
| `MemoryMap.ClipKeepsManagedBytes` | kmem.c:391-440 | a region that does not wrap keeps exactly its bytes in the managed range |
| `MemoryMap.ClipInRange` | kmem.c:391-440 | the kept part is inside the managed range if and only if the region does not wrap from below the upper to above the lower limit |
| `MemoryMap.WrappedRegion` | kmem.c:391-440 | a region that wraps around keeps almost 4GB |
| `MemoryMap.BootList` | kmem.c:320-441 | the list of disjoint blocks is in address order and covers and counts exactly the usable pages |
| `MemoryMap.BootOrdered` | kmem.c:199-280 | for any blocks, the boot list is in order if and only if no two of them overlap |
| `MemoryMap.BootCoalesced` | kmem.c:254-278 | for disjoint blocks it is coalesced if and only if no block ends where another one starts |
| `MemoryMap.KmInit` | kmem.c:320-444 | the boot loop builds that list in memory; the allocator is valid if and only if the usable blocks do not overlap; for regions that do not wrap, a byte is free if and only if it lies in the whole pages of the managed part of a region of type 1 with flag bit 0 set and bit 1 clear |
| `MemoryMap.MapSupplies` | kmem.c:352-440 | the boot list holds exactly the bytes that the usable regions supply, in terms of the region fields |
| `QueueSpec.EnqueueSorted` | procs.c:130-179 | insertion keeps the key order |
| `QueueSpec.EnqueueStable` | procs.c:130-179 | among equal keys the newcomer is last and the others keep their order |
| `QueueSpec.StableSortUnique` | procs.c:130-179 | sorted contents are fixed by the order within each key |
| `QueueSpec.ArrivalsAreStablySorted` | procs.c:679-752 | a queue holds the stable sort of its arrivals |
| `PcbQueue.Queue.FindPrev` | procs.c:130-179 | the last PCB of the leading run with keys not above the given one |
| `PcbQueue.Queue.Insert` | procs.c:679-752 | the linked insertion is the ordered insertion; the newcomer stands behind exactly those whose wakeup time, priority or pid is at most its own, or last in a FIFO queue; a PCB with a successor is refused, and the last PCB of the queue, which is not, becomes its own successor |
| `PcbQueue.Queue.InFieldOrder` | procs.c:130-179 | the PCBs of a queue are in ascending order of wakeup time, priority or pid |
| `PcbQueue.Queue.GuardMissesTail` | procs.c:685-689 | the guard misses a member of the queue if and only if it is the last one |
| `PcbQueue.Queue.Remove` | procs.c:764-795 | the first PCB is taken and the rest stays sorted; an empty queue reports it |
| `PcbQueue.Queue.RemoveThis` | procs.c:811-880 | exactly the named PCB is taken and the rest stays sorted; absence and emptiness are reported |
| `PcbQueue.Queue.Peek` | procs.c:892-904 | the first PCB, left in place |
| `Scheduler.RoundRobin` | clock.c:117-126 | a peer with i peers ahead is dispatched after exactly the remaining ticks plus 3 * i, not before, and only its priority runs meanwhile |
| `Scheduler.WithinQuantum` | clock.c:117-126 | within its quantum a process only loses ticks |
| `Scheduler.LowerPriorityNeverRuns` | procs.c:147-162 | with nobody to wake, the running priority never changes |
| `Scheduler.TicksConserve` | clock.c:117-126 | ticks neither lose nor duplicate processes |
| `Scheduler.WakeAllIsDuePrefix` | clock.c:93-114 | the wake loop takes the leading due sleepers and enqueues them in wakeup order |
| `Scheduler.WakeExact` | clock.c:85-114 | exactly the due sleepers leave, the rest stay in order, and the ready queue is the stable merge |
| `Scheduler.Cpu.Schedule` | procs.c:917-939 | a process that has not been killed becomes ready behind its peers |
| `Scheduler.Cpu.DispatchNext` | procs.c:946-961 | the head of the ready queue runs with a full quantum |
| `Scheduler.Cpu.WakeDue` | clock.c:93-114 | the loop over the linked queues terminates and computes the wake function |
| `Scheduler.Cpu.WakeExpired` | clock.c:93-114 | a sleeper stays asleep if and only if its wakeup time is above the clock, and otherwise is ready |
| `Scheduler.Cpu.ClkIsr` | clock.c:84-126 | the interrupt handler advances the time, wakes exactly the sleepers whose wakeup time is not above it, performs one tick and leaves everything ready for the next interrupt |
| `Scheduler.Cpu.Interrupts` | clock.c:84-126 | n interrupts with nobody asleep are n ticks |
| `Scheduler.Cpu.PeerRuns` | clock.c:117-126 | by the handler on the linked queues, a peer with i peers ahead has the CPU after the remaining ticks plus 3 * i interrupts |
| `ProcTree.ReachesInit` | procs.c:364-402 | from every process in use, parents lead to init through living processes in use |
| `ProcTree.ReparentTree` | procs.c:373-402 | after reparenting nobody names the victim as parent, although the loop skips the victim's own parent |
| `ProcTree.ZombifyTree` | procs.c:349-511 | a termination keeps the tree |
| `ProcTree.ZombieHasNoChildren` | procs.c:364-402 | zombies have no children in use |
| `ProcTree.ForkTree` | syscalls.c:364-366 | a child hangs below its creator |
| `ProcWakeups.GiveToInitWakes` | procs.c:404-448 | zombies inherited by a waiting init wake it |
| `ProcWakeups.ZombifyWakes` | procs.c:349-511 | a termination loses no wakeup |
| `ProcWakeups.WaitpidWakes` | syscalls.c:154-263 | a process blocks only when no matching zombie exists |
| `ProcWakeups.HandOver` | syscalls.c:265-285 | handing a status over moves it from those held to those delivered, once |
| `ProcWakeups.ZombifyLedger` | procs.c:349-511 | a termination is recorded once and is then held or delivered |
| `ProcMemory.CleanUpMem` | procs.c:527-544 | reclaiming an entry returns exactly its stack |
| `ProcMemory.ForkMem` | syscalls.c:301-325 | fork conserves pages, on the failure paths too |
| `ProcMemory.ExecMem` | syscalls.c:410-423 | exec conserves pages although it holds two stacks for a while |
| `ProcMemory.WaitpidMem` | syscalls.c:265-285 | reaping conserves pages |
| `ProcHistory.KillEffect` | syscalls.c:706-757 | the caller ends and the victim is untouched if and only if the victim is Running; the victim ends or is marked and the caller is spared if and only if it is Ready, Sleeping, Blocked or Waiting |
| `ProcWitness.KillerDies` | syscalls.c:726-735 | a run from boot reaches a state in which one user process sleeps in state Running; when the other one kills it, the killer ends |
| `ProcFates.MarkedFate` | procs.c:952-960 | whatever else happens, the first event that touches a marked process ends it if and only if it is a schedule, and lets it run if and only if it is a dispatch |
| `ProcWitness.LostKill` | procs.c:952-960 | a run from boot in which a process killed while ready runs afterwards |
| `ProcHistory.WaitExact` | syscalls.c:154-252 | each of the four results of a wait, if and only if: bad parameter, no children, reaping a matching zombie child, blocking |
| `ProcReturns.StepAnswers` | procs.c:420-495 | in every step each process that is told of a termination returns the pid reported and, if it was waiting, is ready; nobody else's return value changes except the caller's |
| `ProcReturns.WaitEffect` | syscalls.c:154-289 | in each of the four cases of a wait: what is returned, who waits for what, what is reclaimed, who has the CPU |
| `ProcReturns.ForkExact` | syscalls.c:309-380 | fork succeeds exactly when two contiguous pages are free; the child is a ready child of the caller with the next pid and returns 0, the caller returns its pid; otherwise only E_NO_PROCS is returned |
| `ProcReturns.ForkWithoutEntry` | syscalls.c:309-314 | without a table entry only E_NO_PROCS is returned |
| `ProcReturns.ExecExact` | syscalls.c:410-437 | exec leaves the caller ready on a new stack that was free, gives the old one back and changes nothing else |
| `ProcReturns.KillRefused` | syscalls.c:694-709 | E_FAILURE for a reserved pid and E_NOT_FOUND for one that nobody has, and nothing else |
| `ProcReturns.KillMarks` | syscalls.c:717-733 | a dead victim is left alone, a ready, sleeping or blocked one is marked, and the call succeeds |
| `ProcReturns.KillOfWaiter` | syscalls.c:745-750 | the kill of a waiting process succeeds |
| `ProcReturns.KillSelf` | syscalls.c:683-691 | a process that kills itself ends with EXIT_KILLED |
| `ProcReturns.ReclaimExact` | procs.c:322-338 | reclaiming an entry frees exactly its stack, of two pages when no size is recorded |
| `ProcReturns.StateEffect` | procs.c:917-961 | blocking, scheduling and dispatching change the state of one process and nothing else |
| `ProcReturns.CpuExact` | procs.c:946-961 | who has the CPU after a step |
| `ProcRuns.RunsKeepTreeAndMemory` | procs.c:291-338 | over every run the tree is kept, stacks overlap neither each other nor free memory, and pages are conserved |
| `ProcRuns.StepWakes` | syscalls.c:170-263 | one step of any kind loses a wakeup if and only if it is a wait that misses |
| `ProcRuns.WakeupsExact` | procs.c:373-511 | over every run, no wakeup is lost in any state if and only if no wait of the run misses |
| `ProcRuns.RunsLoseNoWakeup` | procs.c:373-511 | in no state of a run in which no fork reuses a pid in use does anybody wait for a zombie child |
| `ProcRuns.RunsDeliverOnce` | syscalls.c:265-285 | over every run, without bound, every termination is recorded once and then held by a zombie or delivered, at most once |
| `ProcRuns.FewForksAreFresh` | syscalls.c:364 | no fork reuses a pid in use until the 32-bit counter has wrapped around |
| `ProcWitness.LostWakeup` | syscalls.c:364 | a run from boot, once around the pid counter, that loses a wakeup |
| `ProcHistory.StepTells` | procs.c:420-495 | every step, of whatever kind, makes at most two deliveries, to different processes, each with the status the zombie holds or the step records, to the parent of the process it reports |
| `ProcHistory.DeliveredToParent` | procs.c:420-495 | over every run each delivery was made by one of its steps, to the parent at that moment, with that status |
| `ProcFates.StepEnds` | procs.c:349-511 | exactly the victim of an event ends in its step; everybody else lives on with the same status in the entry |
| `ProcFates.StepRecords` | syscalls.c:107-113 | a step records its victim with the argument of the exit, with EXIT_KILLED for a kill that takes effect at once, and with the status in the entry for a marked process |
| `ProcFates.DeliveredStatus` | syscalls.c:107-113 | over every run since boot, each delivered status is the one so recorded when the process ended |
| `ProcFates.StaleStatus` | procs.c:923-926 | while a process lives nothing writes the status in its entry, so a marked process reports what the entry held at its creation |
| `ProcFates.ForkKeepsStatus` | syscalls.c:364-369 | a new process inherits the status left in its entry |
| `ProcWitness.KilledReportsZero` | procs.c:923-926 | a run from boot in which a killed process is recorded with status 0 |
| `ProcRuns.BootOrderly` | kernel.c:341-368 | the table with only init satisfies everything the runs need |
| `ProcRuns.WaitWithoutChildren` | syscalls.c:207-239 | without children in use, the wait fails if and only if no entry at all names the caller, otherwise it blocks |
| `ProcWitness.StaleEntryBlocks` | syscalls.c:216 | a run from boot reaches a state where a process whose only child was reaped waits without children |
| `ProcHistory.StuckForEver` | syscalls.c:254-263 | such a process waits for ever unless it is killed |
| `Lifecycle.Code.CleanUp` | procs.c:527-544 | the stack goes back to the page allocator, the entry becomes unused |
| `Lifecycle.Code.ReparentChildren` | procs.c:373-402 | the loop hands every child to init and finds the last zombie among them |
| `Lifecycle.Code.Zombify` | procs.c:349-511 | the code computes the termination step, and its recursion with the scheduler ends |
| `Lifecycle.Code.Schedule` | procs.c:917-939 | a killed process is terminated, any other becomes ready |
| `Lifecycle.Code.FindProc` | procs.c:555-573 | the first entry in use with the pid; no entry has pid 0 |
| `Lifecycle.Code.ScanChildren` | syscalls.c:212-230 | the any-child scan finds the first zombie child and whether any entry names the caller |
| `Lifecycle.Code.Exit` | syscalls.c:100-122 | exit, by init too, is the termination step with the given status |
| `Lifecycle.Code.Waitpid` | syscalls.c:135-289 | the code computes the wait step on all paths |
| `Lifecycle.Code.Kill` | syscalls.c:672-767 | the code computes the kill step on all paths, by init too |
| `Lifecycle.Code.Fork` | syscalls.c:301-380 | the code computes the fork step, with or without memory for a stack |
| `Lifecycle.Code.Exec` | syscalls.c:393-438 | the code swaps the stack for a new one, failing exactly when there is no room |
| `Lifecycle.Code.Perform` | syscalls.c:100-767 | every event of a run, carried out in code, is the step of the run model |
| `Lifecycle.Code.PerformAll` | syscalls.c:100-767 | so is every run |
| `StackSetup.LongestPrefix` | user.c:78-90 | a prefix is kept if and only if its NUL-terminated total is at most a page |
| `StackSetup.LayoutFits` | user.c:162-218 | strings, vector, argc and context are disjoint and inside the two pages, and argc is 16-byte aligned |
| `StackSetup.StringsTight` | user.c:93-190 | the strings start at the highest multiple of four at which they fit |
| `StackSetup.VectorTight` | user.c:212-218 | argc is at the highest multiple of sixteen at which the vector fits |
| `StackSetup.LittleEndian` | user.c:220-250 | words are read least significant byte first |
| `StackSetup.EndsAtNul` | user.c:101-110 | strings are read up to the first NUL |
| `StackSetup.CountArgs` | user.c:78-90 | the loop counts the longest prefix and its bytes, in as many rounds as `Rounds` says |
| `StackSetup.ArraysSuffice` | user.c:66-90 | the loop writes at most ten elements of its arrays if and only if there are at most ten arguments or fewer than ten fit a page |
| `StackSetup.ElevenAreTooMany` | user.c:66-90 | eleven empty arguments exceed the arrays |
| `StackSetup.CopyStrings` | user.c:101-110 | each string is in the buffer at its recorded offset |
| `StackSetup.WriteVector` | user.c:220-250 | argc, argv, the entries and the NULL are in place and nothing else changed |
| `StackSetup.WriteContext` | user.c:267-290 | entry point, segments and flags are set, the other registers are left as they were |
| `StackSetup.ArgumentsBack` | user.c:162-250 | reading argc, argv and the strings yields the serialised arguments and argv ends with NULL |
| `StackSetup.StackSetup` | user.c:38-302 | the program that resumes from the context finds the kept arguments, its return address and an aligned stack; bytes below the context are unchanged |
| `Console.TextIsWrapped` | cio.c:230-236 | character i of printable text is in cell i after the cursor, counted along the rows, and the cursor follows the last |
| `Console.GlyphExact` | cio.c:108-121 | a cell shows the character with its attributes, or white on black without any |
| `Console.NewlineEffect` | cio.c:211-222 | a newline blanks the rest of the row and goes to the left edge of the next |
| `Console.ReturnEffect` | cio.c:224-226 | a carriage return goes to the left edge of the row and changes no cell |
| `Console.LinesEffect` | cio.c:211-236 | lines shorter than the rows, with newlines between them: each one but the last fills a row of its own, padded with blanks; the cursor follows the last; all other rows are as before |
| `Console.ReturnThenLine` | cio.c:224-236 | after any text, a carriage return and a short line: the line stands at the left edge of the same row and all other cells are as before |
| `Console.Screen.Scroll` | cio.c:299-333 | rows move up, blanks come in, cells outside the region stay; the cursor goes home when the whole region is cleared |
| `Console.Screen.ClearScroll` | cio.c:274-286 | the region is blank, the rest unchanged |
| `Console.Screen.PutChar` | cio.c:201-238 | one character on the screen is one character on the paper it shows; the cursor stays in the region or at the left edge one row below |
| `Console.Screen.Print` | cio.c:265-271 | for every text the window is a view of the end of the unbounded paper, and cells outside the region never change |
| `Console.Screen.SetScroll` | cio.c:147-156 | the region is the one asked for, clamped to the screen and to its own upper left corner |
| `Console.Screen.MoveTo` | cio.c:161-165 | the cursor goes where asked, clamped to the region |
| `Console.Screen.PutCharAt` | cio.c:170-199 | a newline erases to the border of the region from either side and never crosses it |
| `Console.Screen.View` | cio.c:201-238 | every state of the screen shows some paper |
| `DrawLine.DrawLine` | vga_graphics.c:137-159 | absent overflow, exactly the on-screen points of a line are painted: it has max(dx, dy) + 1 points from endpoint to endpoint, one major step each, within half a pixel |
| `DrawLine.Advance` | vga_graphics.c:146-157 | one round computes the next point and error, and every value it computes fits 32 bits |
| `LineRange.Visits` | vga_graphics.c:146-157 | the error term runs through every multiple of the greatest common divisor of the lengths in its range |
| `LineRange.OverflowExact` | vga_graphics.c:137-159 | no intermediate value of any round overflows if and only if the lengths of the line satisfy a condition on their extremes |
| `LineRange.DiagonalsFit` | vga_graphics.c:137-159 | a diagonal never overflows, however long |
| `LineRange.DrawSafeLine` | vga_graphics.c:137-159 | under that condition on the endpoints the code paints the line |
| `DrawLine.StaysBetween` | vga_graphics.c:148-157 | the coordinates of all points lie between those of the endpoints |
| `DrawLine.NextOk` | vga_graphics.c:146-157 | the error-term tests keep the point within half a pixel and the error equal to its geometric meaning |
| `DrawLine.MajorCoordinate` | vga_graphics.c:137-159 | point i of a line is i steps along the major axis |
| `DrawLine.PutPixel` | vga_graphics.c:88-95 | one on-screen pixel changes, off-screen points change nothing |
| `Convert.RoundTrip` | klibc.c:662-687 | text of a number parses back to it if and only if it is a signed 32-bit number |
| `Convert.NoLeadingZero` | klibc.c:118-131 | only zero starts with a zero |
| `Convert.DecimalFits` | klibc.c:91-104 | the text with its NUL fits 12 bytes |
| `Convert.ValueOfDigits` | klibc.c:265-274 | the digits denote the number, without any bound |
| `Convert.Cvtdec0` | klibc.c:118-131 | the recursion writes the digits of the magnitude, the most negative number included |
| `Convert.Cvtdec` | klibc.c:91-104 | the buffer holds the decimal text and a NUL |
| `Convert.DecimalShape` | klibc.c:91-131 | a minus sign for a negative number and then only digits |
| `Convert.Cvtuns` | klibc.c:244-251 | the buffer holds the digits of every unsigned 32-bit value |
| `Convert.PrintUnsigned` | klibc.c:244-274 | every unsigned 32-bit value fits an 11-byte buffer and its text denotes it |
| `Convert.Str2int` | klibc.c:662-687 | for every 32-bit radix, wrapping at every step gives the value of the leading digits modulo 2^32, with the sign |
| `Convert.LongestDigits` | klibc.c:676-683 | the digits that are read are the longest prefix of digits |
| `Convert.DigitsOfRadix` | klibc.c:664-681 | for a radix up to 80 the digits are the characters from '0' on |
| `Convert.LeadingDigit` | klibc.c:676-683 | the value is positional, for every radix |
| `Convert.DigitText` | klibc.c:676-687 | text of digits means its value modulo 2^32 |
| `Convert.NegatedText` | klibc.c:667-687 | a minus sign negates, in every radix |
| `Convert.PrintAndParse` | klibc.c:91-104 | printing into 12 bytes and parsing gives the number back |
| `BlockMove.Memmove` | klibc.c:429-449 | the destination holds the old source and all other bytes are unchanged, for every overlap |
| `BlockMove.Blkmov` | klibc.c:25-55 | the word-wise path has the same effect |
| `BlockMove.MovedBytes` | klibc.c:429-449 | which byte ends where |
| `Checksum.Calculate` | ipv4.c:5-27 | for every buffer whose sum fits 32 bits the loops compute the checksum with at most two rounds of folding |
| `Checksum.OddIsPadded` | ipv4.c:14-17 | a left-over byte counts as if a zero byte followed it |
| `Checksum.WordSums` | ipv4.c:7-12 | the sums are those of the words, low or high byte first |
| `Checksum.TwoRounds` | ipv4.c:20-23 | a 32-bit sum is folded after two rounds |
| `Checksum.ChecksumVerifies` | ipv4.c:20-26 | the sum and its checksum fold to 0xFFFF |
| `Checksum.ChecksumSwaps` | ipv4.c:9-26 | byte-swapping all words, of even or odd buffers, byte-swaps the checksum |
| `Checksum.StoredHeaderVerifies` | ipv4.c:105-108 | the stored header verifies if and only if the sum of its words is a multiple of 257 |
| `Checksum.OrdinaryHeaderFails` | ipv4.c:105-108 | an ordinary 20-byte header that does not verify |

## Left out

- Queue membership over the life cycle: `pcb_zombify` schedules a waiting parent without taking it off the waiting queue (procs.c:461-495) and `sys_waitpid` reclaims a zombie that stays on the zombie queue (syscalls.c:265-285), so the queues do not mirror the states; the life cycle is modelled on the table and the queues are modelled with membership as a precondition.
- The status that `sys_kill` returns from the waiting queue for a waiting victim (syscalls.c:749) is taken to be success, since that queue is not part of the life-cycle model.
- The pointer through which an exit status is returned: a delivery is recorded in a log instead of being stored in the parent's memory, and a NULL pointer makes no difference.
- Contents of memory under the allocator: clearing of pages, slices and stacks, and the copying and EBP relocation of stacks in fork.
- ProcRuns.RunsKeepTreeAndMemory: init does not exit and is not killed, as the kernel assumes; after a kernel panic the model leaves the state as it is.
- Scheduler.Cpu.ClkIsr: sleepers and the running process have not been killed, because the scheduler would then terminate them, which the life-cycle model covers.
- Scheduler.Cpu.WakeDue: sleepers have not been killed, for the same reason.
- Scheduler.Cpu.Schedule: the process has not been killed; `Lifecycle.Code.Schedule` models the other case.
- Scheduler.Cpu.ClkIsr: the wakeup comparison is on the 32-bit clock, so a sleep across its wrap-around is compared as the code does.
- PcbQueue.Queue.FindPrev: one loop with the ordering's key stands for the three copies in the source.
- PageAllocator.Kmem.AddBlock: no block on the list starts at the same address, since the code would then link the block to itself; nor within the 8 bytes of another header, which the model keeps apart and the code would overwrite.
- MemoryMap.KmInit: the usable regions start at different addresses, for the same reason.
- PageAllocator.Kmem.SliceFree: what is freed overlaps neither list, as for any free of memory that is held.
- StackSetup.CountArgs: the local arrays suffice, see `ArraysSuffice`; otherwise the code writes past them.
- StackSetup.StackSetup: the local arrays suffice, see `ArraysSuffice`.
- DrawLine.DrawLine: signed overflow, which C leaves undefined, does not occur; `OverflowExact` says when.
- `serial` and `born` in the process table are history only and have no counterpart in the source.
- `cvthex`, `cvtbin`, `cvtoct`, `sprint` and the string functions: they would only add easy members, and `cvtoct` does not print the value.
- Console input, the input ring, `cio_printf` and the full-screen clear: easy members or device behaviour.
- Circles and rectangles in `vga_graphics.c`: the circle's decision variable has no error bound.
- Serial, network, sound, PCI and DMX drivers, interrupt stubs and boot code: hardware behaviour is not visible in the code.
- Debug output, tracing, the shell and the user programs.
- Which ready process a dispatch takes in the life-cycle runs: any of them; the order is in `Scheduler`.
- The priority that a child inherits in fork: priorities are in `Scheduler` only.
