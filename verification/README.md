# A model of the kernel and its user library

These Dafny modules model the hard parts of a small x86 kernel and of the library that its programs use, and prove what they are
meant to keep. `dafny verify dfyconfig.toml` checks everything.

## What is modelled

- **The heap** of `lib/malloc.c`, `lib/free.c` and `lib/realloc.c`, on bytes. `BlockHeap.dfy` has the info table as the source
  lays it out, three shared words an entry, and relinks it in the source's order of reads and writes; the table may grow and move.
  `Heap.dfy` adds the fragments, whose list nodes lie in the free fragments themselves. Addresses are numbers: block b begins at
  4096 * b, and the list heads lie below the first block. `FreeList.dfy`, `Blocks.dfy`, `Chains.dfy`, `Fragments.dfy` and
  `HeapStates.dfy` hold the lemmas about one step each, and `HeapRuns.dfy` the result about whole runs: the heap refines a map
  from the pointers held to the bytes left there.
- **The kernel's tables** (`Resources.dfy`) and **block pools** (`KernelMemory.dfy`, `BlockUses.dfy`): free lists threaded
  through free entries and blocks, refining a finite map and a partition of pages.
- **Tasks** (`SchedulerStates.dfy`, `Schedulers.dfy`): the task list, the switch, the preemption, creation and removal, and the
  calls and interrupts that only change states. A call up to the switch is one step, since system calls run behind interrupt gates.
- **Ports and semaphores** (`PortStates.dfy`, `SemStates.dfy`, `KernelStates.dfy`, `Kernel.dfy`): the structures by address, with
  their chains, counts and identifiers, over the three parts above. `port_recv` is two steps, before and after it sleeps. Every
  operation requires the kernel's invariant `Valid` and keeps it. `KernelSteps.dfy` says what each call, timer tick and interrupt
  does, as a relation between the views before and after it, and what follows for chains of such steps; `KernelRuns.dfy` starts
  at boot, takes any sequence of them, and proves that the kernel goes through such a chain; `KernelCases.dfy` has two runs from
  boot on which the kernel does not do what its comments promise.
- **Frames and page tables** (`FirstFit.dfy`, `PageTables.dfy`, `Ownership.dfy`, `Frames.dfy`): the bitmap and its search, mapping
  and unmapping, `brk`, and the memory side of processes and tasks. `Memory.Valid` says that every frame a program maps is in
  use and is mapped in one place only; every operation keeps it.
- **The Internet checksum** (`Checksums.dfy`) and the reply that uses it, against RFC 1071 and RFC 791.
- **Section files** (`IniFiles.dfy`): the scanner that cuts a buffer up in place, the printer, and the lookups.

What the environment decides becomes a parameter or a free choice: whether and where the system grants memory to the heap, which
page the frame allocator returns to the kernel's pools, what a fresh page holds, and which event comes next.

## Where the code and its comments differ

- `lib/malloc.h:20-22` says that a block is freed once all its fragments are. `lib/free.c:94-95` keeps it if it is the only block
  of its type, and so does the model (`Heaps.Heap.Free`).
- `lib/malloc.h:11-12` expects contiguous memory from the system. `lib/memory.c:14-16` moves the break up when memory is
  returned, and so does the model; memory handed out lies at the break, above everything held, until the end of memory.
- `kernel/port.h:41` says that a port's count is one for the owner and one for each slave. A slave that is destroyed is not counted
  off its master (`kernel/port.c:36-52`). `PortStates.DestroyKeepsExact` and `PortStates.StepKeepsExact` say exactly when a step
  keeps the count right, `PortStates.CountOverRun` what it is after any run, `PortStates.ExcessStays` that a master whose slave
  was destroyed can never be destroyed itself, and `KernelCases.StuckMaster` is a run from boot that ends there.
- `kernel/port.c:182-184` wakes the owner if it sleeps on the port that the message named, not on the port that got it. A
  message to a slave leaves the owner of the master asleep: `Kernels.Kernel.PortSend` and `KernelStates.SendWakeup` say exactly
  when that happens, and `KernelCases.WakeupLost` is a run from boot that ends there.
- `srv/ne2000/ne2k.c:340` sums the IP header with the message. `Checksums.HeaderDropsOut` says exactly when that is right.
- `kernel/mem.c:34-36` does not notice when no frame is left. `Frames.Memory.BrkStep` says what happens then.

## Model

| member | source | states |
|---|---|---|
| `BlockHeaps.BlockHeap.constructor` | lib/malloc.c:70-87 | a new heap holds no block, and the list is entry 0 alone |
| `BlockHeaps.BlockHeap.FindPredecessor` | lib/free.c:35-44 | the search, in either direction, ends at the closest list entry below the block |
| `BlockHeaps.BlockHeap.LinkRegion` | lib/free.c:46-58 | the region's blocks become free; it is one cluster with its predecessor, or a new entry, and no other header changes |
| `BlockHeaps.BlockHeap.AbsorbNext` | lib/free.c:60-69 | afterwards no two clusters touch, and the list is one ascending circle again |
| `BlockHeaps.BlockHeap.ReleaseTail` | lib/free.c:71-82 | the cluster goes back to the system exactly if it has at least eight blocks and ends both the heap and the break; then nothing else changes hands, and the break moves up by as much |
| `BlockHeaps.BlockHeap.FreeBlocks` | lib/free.c:31-86 | the region's blocks join the free ones; the tail of the heap is given back if and only if the free blocks around the region reach the break and are at least eight; all other regions keep their headers; the search position is the cluster that holds the region |
| `BlockHeaps.BlockHeap.Sbrk` | lib/malloc.h:11-13 | the system fails without effect or returns the blocks at the break |
| `BlockHeaps.BlockHeap.GiveBack` | lib/memory.c:14-16 | a negative request moves the break up by its size |
| `BlockHeaps.BlockHeap.EnoughEntries` | lib/malloc.c:104-106 | the doubling loop ends with a table that reaches the limit and, if it grew, is less than twice as long as that |
| `BlockHeaps.BlockHeap.CopyTable` | lib/malloc.c:107-118 | the longer table has the same entries, and the old table's blocks are a region |
| `BlockHeaps.BlockHeap.MoveTable` | lib/malloc.c:107-120 | the old table's blocks end up free, and no other block changes hands |
| `BlockHeaps.BlockHeap.Morecore` | lib/malloc.c:91-125 | it asks for the blocks and perhaps for a longer table, and fails exactly if one of these is refused, without effect; else the new blocks lie above everything held and inside the table's reach |
| `BlockHeaps.BlockHeap.FindFit` | lib/malloc.c:194-197 | the circular search terminates; it finds the first entry, going round from the search position, that is large enough, or else none is |
| `BlockHeaps.BlockHeap.ExtendLast` | lib/malloc.c:201-212 | it asks only if the last cluster ends both heap and break, and then for what that is short of; it fails without effect exactly if refused, and else that cluster, looked up again after the table may have moved, is large enough |
| `BlockHeaps.BlockHeap.Take` | lib/malloc.c:223-248 | the blocks handed out are the front of the cluster; the rest stays on the list, and the search goes on behind them |
| `BlockHeaps.BlockHeap.ClaimFresh` | lib/malloc.c:213-219 | a region of fresh blocks from the break, disjoint from every other, unless the system refuses |
| `BlockHeaps.BlockHeap.AllocBlocks` | lib/malloc.c:193-251 | the system is asked only when no n consecutive blocks are free, and the request fails only when it has just refused n blocks or a longer table; a last cluster that ends heap and break is extended in place, and otherwise new blocks come from the break; with room, the first cluster that fits is used, from its front |
| `BlockHeaps.BlockHeap.ShrinkRegion` | lib/realloc.c:56-64 | the first n blocks stay, the others are freed, and the tail is given back exactly when it can be |
| `BlockHeaps.BlockHeap.Unfree` | lib/realloc.c:79-90 | after a failed growth the same blocks belong to the same regions and the same blocks are free as before, also when the free had merged both neighbours |
| `BlockHeaps.BlockHeap.Regrow` | lib/realloc.c:68-91 | growth fails only if there is no room even with the region's own blocks free, and then nothing has changed; otherwise the region was replaced by one of n blocks |
| `BlockHeaps.TailCluster` | lib/free.c:71-74 | the test on the cluster's size and end says exactly that the free blocks around b reach the break and are at least eight |
| `FreeList.LinkedInsert` | lib/free.c:53-57 | linking an entry in keeps the list one ascending circle whose next and prev are inverse |
| `FreeList.LinkedRemove` | lib/malloc.c:241-244 | so does taking an entry out |
| `FreeList.LinkedMove` | lib/malloc.c:229-237 | so does replacing an entry by its tail |
| `FreeList.CoveredBy` | lib/free.c:39-50 | a block is free exactly if the closest cluster below it reaches it |
| `FreeList.ClustersGrow` | lib/free.c:47-50 | growing a cluster over a freed region covers just that region's blocks |
| `FreeList.ClustersAbsorb` | lib/free.c:63-69 | absorbing the next cluster leaves the free blocks as they are and no two clusters touching |
| `FreeList.ClustersSplit` | lib/malloc.c:226-238 | splitting a cluster hands out just its first n blocks |
| `Blocks.InsertStep` | lib/free.c:51-58 | linking a region in as a cluster of its own keeps all of the block invariant |
| `Blocks.TakeSplitStep` | lib/malloc.c:226-248 | so does splitting a cluster |
| `Blocks.ReleaseStep` | lib/free.c:75-81 | so does giving a cluster up |
| `Blocks.ExtendStep` | lib/malloc.c:209-210 | so does stretching the last cluster over fresh blocks |
| `Blocks.NoClusterFits` | lib/malloc.c:195-197 | if every entry is too small, no n consecutive blocks are free |
| `Blocks.OneHome` | lib/malloc.h:18-22 | every block held lies in exactly one cluster or exactly one region, never in both |
| `Blocks.Coalesced` | lib/free.c:60-69 | no cluster ends where another begins |
| `Blocks.CanonicalList` | lib/free.c:35-69 | which blocks are free alone determines the list, its sizes and its links |
| `Blocks.OneCircle` | lib/malloc.c:194-197 | following next from entry 0 visits every entry once, in ascending order, and returns |
| `Chains.LinkStores` | lib/free.c:111-116 | the four stores put the node into the chain behind a given one, and write only to the three nodes concerned |
| `Chains.UnlinkStores` | lib/free.c:101-103 | the two stores take a stretch of nodes out of the chain |
| `Fragments.FragIndex` | lib/malloc.c:161-163 | a fragment's address determines its index in its block |
| `HeapStates.PopStep` | lib/malloc.c:155-163 | popping the first fragment keeps every block's free fragments one run of length nfree from first on |
| `HeapStates.JoinStep` | lib/free.c:107-117 | so does linking a fragment in behind the first of its block |
| `HeapStates.OpenStep` | lib/free.c:118-131 | so does starting a block's run at the front of the list |
| `HeapStates.BreakStep` | lib/malloc.c:170-186 | so does breaking a block up |
| `HeapStates.ReclaimStep` | lib/free.c:94-105 | cutting a whole run out leaves all other runs as they are |
| `HeapStates.OthersAreFree` | lib/free.c:94-97 | with all but one fragment free, every other fragment of the block is in the run (a pigeonhole argument) |
| `HeapStates.ReclaimEffect` | lib/free.c:94-105 | the pointer freed was the only live one into the block, and no byte of any other live pointer changes |
| `HeapStates.LiveApart` | lib/malloc.h:18-22 | two live regions never overlap |
| `HeapStates.UnheldApart` | lib/malloc.c:156-158 | list nodes never lie in anything a program holds |
| `HeapStates.WriteKeepsChains` | lib/malloc.h:18-22 | writing into what one holds leaves all lists alone |
| `Heaps.BlockifyExact` | lib/malloc.h:29-29 | the 32-bit rounding is exact if and only if the size is at most 0xFFFFF000; beyond that it yields 0 blocks |
| `Heaps.Heap.constructor` | lib/malloc.c:70-87 | at first no pointer is live |
| `Heaps.Heap.LinkAfter` | lib/free.c:111-116 | the node is linked in behind node s of the chain |
| `Heaps.Heap.UnlinkRun` | lib/free.c:101-103 | the run of n nodes is out of the chain |
| `Heaps.Heap.PopFragment` | lib/malloc.c:151-163 | the first fragment of the list is handed out, and its block's counters follow |
| `Heaps.Heap.BreakBlock` | lib/malloc.c:170-186 | all fragments but the first are the list, in descending order |
| `Heaps.Heap.FragmentLog` | lib/malloc.c:145-147 | the loop computes the least logarithm whose power holds the size |
| `Heaps.Heap.MallocFragment` | lib/malloc.c:142-187 | a free fragment is used before a block is broken up, and a block comes from the system only when none is free |
| `Heaps.Heap.MallocLarge` | lib/malloc.c:188-251 | the pointer is new, block-aligned and has room for n blocks; all others keep their lives, capacities and bytes |
| `Heaps.Heap.Malloc` | lib/malloc.c:128-252 | on success one new pointer is live, with the least power of two or the least number of blocks that holds the request, and nothing else changes; the heap grows only when no cluster fits, and a request fails only when the system has just refused |
| `Heaps.FitsMeans` | lib/malloc.c:138-193 | what is handed out holds the request, is less than twice what a small one needs and less than a block more than a large one needs |
| `Heaps.Heap.EndOfRun` | lib/free.c:99-100 | the walk of (BLOCKSIZE >> type) - 1 steps ends right behind the block's run |
| `Heaps.Heap.ReleaseRun` | lib/free.c:94-105 | exactly the block's fragments leave the list |
| `Heaps.Heap.OpenRun` | lib/free.c:118-132 | the fragment is the first of the list and of its block |
| `Heaps.Heap.JoinRun` | lib/free.c:107-117 | the fragment is in the list right behind the first of its block |
| `Heaps.Heap.Free` | lib/free.c:19-135 | the pointer is no longer live and all others keep lives, capacities and bytes; its block is free again if and only if it was a region, or a fragment whose siblings are free in a block that can be spared; where it went is exact in all four branches |
| `Heaps.Heap.Memcpy` | lib/string.c:110-119 | the bytes arrive and nothing else is written |
| `Heaps.Heap.Memmove` | lib/string.c:70-95 | the old bytes arrive also when source and destination overlap, either way |
| `Heaps.Heap.MoveTo` | lib/realloc.c:104-113 | the first k bytes move to a new pointer, or nothing happens |
| `Heaps.Heap.GrowLarge` | lib/realloc.c:68-94 | the bytes survive although the region was freed first; when there is no room, pointers, free blocks and bytes are as before |
| `Heaps.Heap.ResizeLarge` | lib/realloc.c:53-95 | a region shrinks or stays in place, and moves only to grow |
| `Heaps.Heap.Realloc` | lib/realloc.c:26-116 | in all five cases the first min(old room, new size) bytes are kept and every other pointer is untouched; a call fails only when the system has just refused, and leaves everything as it was |
| `HeapRuns.Step` | lib/memory.c:35-58 | each call, and each write by the client, refines one step of a map from pointers to byte strings; a request is refused only if as many blocks as it takes are nowhere free in a row and the system refused |
| `HeapRuns.Run` | lib/memory.c:35-58 | any run of malloc, free, realloc, writes and foreign sbrk calls is a run of that map, what is handed out never overlaps, and no request fails if the system grants all it is asked for |
| `Resources.ResourceTable.constructor` | kernel/resource.c:21-35 | all identifiers from 1 on are free |
| `Resources.ResourceTable.Find` | kernel/resource.c:37-42 | it sees exactly the live binding of the right type |
| `Resources.ResourceTable.New` | kernel/resource.c:44-59 | it returns 0 exactly when the table is full, and else a fresh nonzero identifier that is bound to the data |
| `Resources.ResourceTable.Delete` | kernel/resource.c:61-68 | the identifier, if it named anything, names nothing |
| `Resources.Popped` | kernel/resource.c:48-56 | taking the first free entry keeps the free list acyclic, ending at 0, and complete |
| `Resources.Pushed` | kernel/resource.c:63-67 | so does putting an entry back |
| `KernelMemory.SizeMapIsTight` | kernel/memory.c:153-161 | the class chosen is the smallest whose blocks are large enough |
| `KernelMemory.BlockPools.constructor` | kernel/memory.c:207-214 | every pool starts with one whole page to shave |
| `KernelMemory.BlockPools.Alloc` | kernel/memory.c:216-248 | the block was in use nowhere; the one freed last goes first, and a page is taken only with the last block of the current one |
| `KernelMemory.BlockPools.Free` | kernel/memory.c:250-260 | the block is the head of its pool's free chain |
| `KernelMemory.LiveBlocksDisjoint` | kernel/memory.c:179-195 | blocks in use share no byte, across all seven pools, and each lies within one page |
| `KernelMemory.Conserved` | kernel/memory.c:216-260 | used + free + fresh is the number of pages times 4096 / size, and every block of the pages is in exactly one of the three |
| `BlockUses.BlockStore.TakePage` | kernel/port.c:154-159 | a large message's page comes from the pool or is new |
| `BlockUses.BlockStore.GivePage` | kernel/port.c:251-254 | the page is the first of the pool |
| `Schedulers.Scheduler.RemoveTask` | kernel/task.c:162-178 | the task's slot is empty, and MaxUsedProc still bounds every occupied slot |
| `Schedulers.Scheduler.AddTask` | kernel/task.c:127-150 | the task gets the first empty slot, if there is one |
| `Schedulers.Scheduler.WakeSleepers` | kernel/task.c:229-236 | every timer sleeper is ready, wherever it is listed |
| `Schedulers.Scheduler.CleanUpTask` | kernel/task.c:383-388 | the slot and the identifier are free, and nobody else's identifier changes |
| `Schedulers.Scheduler.Advance` | kernel/task.c:240-293 | one round of the search goes to the next slot, buries a dead task there, and stops if its task can run |
| `Schedulers.Scheduler.SwitchTask` | kernel/task.c:220-324 | the search terminates; the next runnable slot in cyclic order runs, the dead tasks passed are removed, and exactly one task is running; on every 101st tick the timer sleepers become ready, and no other task changes state |
| `SchedulerStates.SwitchFindsFirst` | kernel/task.c:240-293 | no task between the old slot and the new one could run, and of these the dead ones are removed |
| `SchedulerStates.TimerRunsOut` | kernel/task.c:225-237 | a switch leaves a timer sleeper asleep if and only if the count is still below 100 |
| `Schedulers.Scheduler.PreemptTask` | kernel/task.c:180-218 | the task given runs at once, the one that ran is ready, and no other task or slot changes |
| `Schedulers.Scheduler.CreateTask` | kernel/task.c:106-115 | the new task, at a new address or that of a buried one, is ready, has an identifier if one is left, and is listed in the first empty slot if there is one |
| `Schedulers.Scheduler.Sleep` | kernel/syscall.c:17-30 | the current task waits for the timer and the next one runs |
| `Schedulers.Scheduler.Terminate` | kernel/syscall.c:337-354 | the current task is dead and the next one runs; the idle task cannot end |
| `Schedulers.Scheduler.HandleIrq` | kernel/syscall.c:147-164 | the task is the handler of the interrupt, if the number is from 1 to 15 |
| `Schedulers.Scheduler.SleepForIrq` | kernel/syscall.c:166-184 | only a task that handles an interrupt goes to sleep |
| `Schedulers.Scheduler.IrqDispatch` | kernel/int.c:29-49 | a handler asleep on its interrupt runs at once, and otherwise nothing happens |
| `SchedulerStates.OneRunning` | kernel/task.c:295-298 | between steps a task is running if and only if it is the one in the current slot |
| `SchedulerStates.SwitchKeepsOk` | kernel/task.c:220-324 | a switch keeps the scheduler's invariant |
| `SchedulerStates.PreemptKeepsOk` | kernel/task.c:180-218 | so does a preemption of a ready task |
| `SchedulerStates.SearchEnds` | kernel/task.c:288-298 | what the search arrives at is the switch specified |
| `SchedulerStates.SwitchBringsNearer` | kernel/task.c:240-293 | each switch runs a waiting task or brings the search nearer to it |
| `SchedulerStates.ReadyTaskRuns` | kernel/task.c:240-298 | in every run, a ready task runs within 1024 switches, counted from any time since which nothing was preempted |
| `SchedulerStates.TimerSleeperWakes` | kernel/task.c:225-237 | in every run, with preemptions or not, and from any time on, a task stays on the timer for less than 101 switches |
| `Kernels.Kernel.AddTail` | kernel/queue.c:42-58 | the node is behind all others on the next chain |
| `Kernels.Kernel.RemoveHead` | kernel/queue.c:60-83 | the first node is gone and its block is free |
| `Kernels.Kernel.SemCreate` | kernel/sem.c:10-16 | a new semaphore with its count, an empty queue and a fresh identifier, or 0 when the table is full |
| `Kernels.Kernel.SemAcquire` | kernel/sem.c:23-41 | a positive count goes down, or the current task waits behind all others and another runs |
| `Kernels.Kernel.SemRelease` | kernel/sem.c:43-61 | the task that has waited longest runs at once, or else the count goes up |
| `SemStates.SemCreateKeeps` | kernel/sem.c:10-16 | creation keeps the invariant of all semaphores |
| `SemStates.PassKeeps` | kernel/sem.c:31-32 | so does an acquire that need not wait |
| `SemStates.WaitKeeps` | kernel/sem.c:33-38 | so does one that waits, and it joins the end of its queue only |
| `SemStates.RaiseKeeps` | kernel/sem.c:53-53 | so does a release with nobody waiting |
| `SemStates.HandKeeps` | kernel/sem.c:53-58 | so does one that wakes the first waiter, and all other waiters keep their order |
| `SemStates.CountBalance` | kernel/sem.c:10-61 | with initial count n >= 0 the queue has max(0, -count) waiters, and completed acquires less releases are n - max(count, 0), at most n |
| `SemStates.WaitersAreSleepers` | kernel/sem.c:34-38 | the waiters are exactly the tasks asleep on that semaphore's identifier |
| `SemStates.WokenInOrder` | kernel/sem.c:33-58 | over any chain of steps, the tasks that joined a semaphore's queue are those that its releases woke, in the same order, followed by those that still wait |
| `SemStates.HistoryOverRun` | kernel/sem.c:10-61 | the initial count, the completed acquires and the releases of a semaphore are what the log of any chain of steps says |
| `SemStates.BalanceOverRun` | kernel/sem.c:10-61 | over any chain of steps, completed acquires less releases are the initial count less the count and the queue's length; from n >= 0 the queue is as long as the count is below zero, and at most n acquires are not paid for by a release |
| `Kernels.Kernel.PortCreate` | kernel/port.c:20-34 | a new port with an empty queue, no master and count 1, named by a fresh identifier or by 0 when the table is full |
| `Kernels.Kernel.PortDestroy` | kernel/port.c:36-52 | the four outcomes; a port goes only if it counts no slave |
| `Kernels.Kernel.PortOption` | kernel/port.c:59-95 | every outcome and effect; the panic branch is never reached |
| `Kernels.OptionMeans` | kernel/port.c:59-95 | only the owner of a port sets its options, only to a master that it owns too, and the option is set as asked |
| `Kernels.Kernel.Relink` | kernel/port.c:81-91 | the new master counts one more and the old one one less, also when they are one port, the master is stored, and no other field of any port changes |
| `Kernels.Kernel.Admit` | kernel/port.c:113-147 | the order of the refusals, that of a foreign source port among them; what is admitted goes to a port that is not itself slaved |
| `Kernels.Kernel.PortSend` | kernel/port.c:100-194 | a message is accepted if and only if the current task or one with its parent owns the source, both ports take messages from it, the port that gets it is no slave, and the size is 1 to 4096; then exactly that queue grows by exactly this message; a wakeup is lost if and only if the owner sleeps on the master while the message was addressed to a slave |
| `Kernels.Kernel.PortRecv` | kernel/port.c:197-261 | the oldest message of the port, with the source, addressed port and sender that it was queued with and its first min(size, length) bytes; the other queues stay; on an empty port the task sleeps and another runs |
| `Kernels.Kernel.PortResume` | kernel/port.c:216-261 | a task that wakes inside port_recv tests the queue again, and then learns the same of the oldest message |
| `Kernels.Kernel.TakeBlocks` | kernel/port.c:149-160 | header and payload are blocks nobody uses, of the class or the page pool that the size calls for |
| `Kernels.Kernel.GiveBlocks` | kernel/port.c:246-255 | both go back where they came from |
| `Kernels.Kernel.CopyOut` | kernel/port.c:233-235 | the buffer has the first bytes of the message and is otherwise unchanged |
| `PortStates.SendKeeps` | kernel/port.c:149-179 | a send keeps every invariant of ports and messages and appends to one queue |
| `PortStates.ReceiveKeeps` | kernel/port.c:228-244 | so does a receive, which takes off the front of one queue |
| `PortStates.SendKeepsQueues` | kernel/port.c:172-179 | every chain has length msgcount, ends at last, and shares no message with another |
| `PortStates.SlaveKeepsMasters` | kernel/port.c:71-92 | refcount is at least one plus the number of live slaves, whatever the old and the new master are |
| `PortStates.DestroyKeepsMasters` | kernel/port.c:43-48 | a port of count 1 is nobody's master, so no slaved field dangles when it goes |
| `PortStates.CreateKeepsMasters` | kernel/port.c:24-33 | a recycled identifier is nobody's master |
| `PortStates.ReceivedInOrder` | kernel/port.c:100-261 | over any run of the ports, what was sent to a live port is what was received from it followed by what waits on it, in the order of sending |
| `PortStates.CountOverRun` | kernel/port.c:30-93 | over any run, the count of a named port is one, its slaves, and those of its slaves that were destroyed |
| `PortStates.StepKeepsExact` | kernel/port.c:36-93 | if every count is one and the number of slaves, a step keeps that if and only if it does not destroy a slave of a live master |
| `PortStates.DestroyKeepsExact` | kernel/port.c:43-48 | destroying a port keeps every count exact if and only if the port has no master |
| `PortStates.ExcessStays` | kernel/port.c:43-51 | a port that counts more than its slaves is destroyed by no run |
| `PortStates.NothingLost` | kernel/port.c:36-52 | a run that destroys no port with waiting mail loses no message |
| `KernelStates.MasterFound` | kernel/port.c:84-87 | a nonzero slaved field names a live port, so the panic cannot happen |
| `KernelStates.SendWakeup` | kernel/port.c:182-191 | if no wakeup was lost before the send, one is afterwards exactly when the owner sleeps on the master and the message named a slave |
| `KernelStates.LiveBlocks` | kernel/port.c:149-160 | where no message was lost, the blocks in use are exactly the ports, the headers and small payloads of the messages that wait, the semaphores, their queues and nodes |
| `KernelStates.LivePages` | kernel/port.c:154-159 | and each page taken for large messages either carries one that waits or is in the pool |
| `Kernels.Kernel.MasterlessWakes` | kernel/port.c:182-191 | where no port has a master, no send loses a wakeup |
| `KernelRuns.Boot` | kernel/kinit.c:73-79 | after boot every invariant holds, the idle task runs, and there are no identifiers, ports or messages |
| `KernelSteps.ReadyBeforeTicks` | kernel/task.c:240-298 | over any run of calls, ticks and interrupts, a ready task runs before there were 1024 timer ticks without a preemption |
| `KernelSteps.AwakeBeforeTicks` | kernel/task.c:225-237 | over any run, preemptions or not, a task is on the timer for less than 101 timer ticks |
| `KernelSteps.AsleepUntil` | kernel/task.c:225-237 | over any run, a task on the timer stays there as long as the switches since then have not taken the count beyond 100 |
| `KernelSteps.RunSigned` | kernel/port.c:118-166 | over any run, all that is received from a port or waits on it carries the number of its sender and a source port that the sender or a task with its parent owned when it was sent |
| `KernelSteps.RunPromises` | kernel/int.c:52-62 | any run keeps the order of messages and of semaphore waiters, the truth of sources and senders, the meaning of port counts, the balance of semaphores, and the turns of ready tasks and timer sleepers |
| `KernelRuns.Take` | kernel/int.c:52-62 | every system call and interrupt, in any order, keeps every invariant, and does to names, ports, semaphores, tasks, receivers and handlers what the event and the state before it determine: which message, waiter and port, which tasks change, and then a switch (a timer tick always), a preemption, or neither |
| `KernelRuns.Run` | kernel/int.c:52-62 | from any state, the views before, between and after the steps are each led to the next by what its event does, and all invariants hold in each; all that `RunPromises` says follows; blocks are the live ones if no port with waiting mail is destroyed; no wakeup is lost if no port gets a master |
| `KernelCases.WakeupLost` | kernel/port.c:182-191 | from boot: two tasks of one process, two ports, one slaved to the other, a receive on the master and a send to the slave, after which the receiver sleeps although the message waits |
| `KernelCases.StuckMaster` | kernel/port.c:36-52 | from boot: two ports, one slaved to the other and destroyed, after which the other has no slave, counts two and cannot be destroyed |
| `FirstFit.FindFrames` | kernel/mem.c:87-100 | the least start below 16384 - n of n free frames, although the search jumps, or there is none |
| `FirstFit.FramesShort` | kernel/mem.c:87-105 | where the search finds nothing, one of any n frames in a row is in use |
| `FirstFit.FindSlots` | kernel/mem.c:215-228 | the same for the slots of a table |
| `FirstFit.SkipAhead` | kernel/mem.c:88-93 | jumping past a taken place misses no run |
| `FirstFit.SameUses` | kernel/mem.c:276-312 | the bits determine the bytes |
| `PageTables.TakeFrames` | kernel/mem.c:87-102 | the frames found are set in the bitmap and no other bit changes; on failure none does |
| `PageTables.SetThenCleared` | kernel/mem.c:95-96 | setting free bits and clearing them gives the same bytes |
| `PageTables.MappedThenZeroed` | kernel/mem.c:258-258 | mapping free slots and clearing them gives the same table |
| `Frames.Memory.AllocPages` | kernel/mem.c:69-127 | first fit in frames and in slots, and every entry maps its frame |
| `Frames.Memory.Unmap` | kernel/mem.c:241-273 | the slots are cleared up to the first that is clear already |
| `Frames.Memory.FreePages` | kernel/mem.c:130-165 | the slots and bits cleared, up to the first that is clear already; a misaligned address changes nothing |
| `Frames.Memory.AllocateAndFree` | kernel/mem.c:69-165 | allocating and freeing leaves bitmap and table exactly as they were |
| `Frames.Memory.CreatePageTable` | kernel/mem.c:315-341 | a new address space on two pages of its own |
| `Frames.Memory.CreateProcess` | kernel/task.c:326-373 | entry by entry, the new table maps the image and video memory and nothing else, and every frame keeps one owner; it fails only when two neighbouring frames or kernel slots are not left |
| `Frames.Memory.FindStack` | kernel/task.c:64-72 | the highest two neighbouring free slots |
| `Frames.Memory.MapStack` | kernel/task.c:54-77 | two free frames are mapped there, and no other entry changes; it fails only when two neighbouring frames or slots are not left |
| `Frames.Memory.CreateTask` | kernel/task.c:28-77 | a task more is counted, and mapped entries are unchanged; it fails only when kernel pages, frames or stack slots are short |
| `Frames.Memory.BrkStep` | kernel/mem.c:34-36 | the slot maps the first free frame; without one the page at address 0 moves there instead |
| `Frames.Memory.Brk` | kernel/mem.c:17-44 | every page up to the address is mapped, entries that were mapped are unchanged, and so are those above |
| `Frames.Memory.EmptySpace` | kernel/task.c:403-416 | exactly the frames of that address space, without video memory, are free |
| `Frames.Memory.CleanUp` | kernel/task.c:392-428 | with its last task an address space frees the frame of every slot outside video memory, its own two pages and a page of the task, and no other |
| `Ownership.MappedOnce` | kernel/task.c:408-416 | a frame other than video memory is mapped by one slot of one address space, and its bit is set |
| `Ownership.MapUser` | kernel/mem.c:186-190 | mapping free frames in free slots keeps that |
| `Ownership.UnmapUser` | kernel/task.c:413-414 | so does freeing a frame with the slot that maps it |
| `Ownership.UnmapHigh` | kernel/mem.c:153-163 | so does freeing kernel pages |
| `Ownership.NewProcess` | kernel/task.c:354-357 | so does a process's table |
| `Checksums.IpChksum` | srv/ne2000/ne2k.c:292-303 | the loop computes the checksum of RFC 1071 over the whole words |
| `Checksums.WorkedExample` | srv/ne2000/ne2k.c:292-303 | the numerical example of section 3 of RFC 1071 |
| `Checksums.FoldReduces` | srv/ne2000/ne2k.c:297-301 | the end-around-carry sum is the residue modulo 0xFFFF from 1 to 0xFFFF, and 0 only of 0 |
| `Checksums.ByteOrderIndependent` | srv/ne2000/ne2k.c:292-303 | summing in the other byte order gives the checksum with its bytes exchanged, section 2(B) of RFC 1071 |
| `Checksums.HeaderVerifies` | srv/ne2000/ne2k.c:327-330 | a header with its checksum stored sums to zero, section 3.1 of RFC 791 |
| `Checksums.HeaderDropsOut` | srv/ne2000/ne2k.c:340-340 | the sum over IP header and message is that of the message alone exactly if the message is not all zeros |
| `Checksums.OddLastByte` | srv/ne2000/ne2k.c:296-297 | dropping an odd last byte agrees with section 4.1 of RFC 1071 exactly if that byte is zero |
| `Checksums.HandleIcmp` | srv/ne2000/ne2k.c:305-347 | the reply packet, byte for byte: from this host to the sender of the request, with its identifier, number and data; the header verifies, and over whole words the message does if and only if it is not all zeros |
| `Checksums.ReplyVerifies` | srv/ne2000/ne2k.c:319-340 | a reply has a correct header checksum, and over its whole words a correct message checksum exactly if the message is not all zeros there |
| `IniFiles.PrintSections` | util/bootmaker.c:77-88 | what it prints is the text of the sections, which begins with the first name in brackets on a line of its own and then name, = and value of the first pair |
| `IniFiles.Advance` | util/bootmaker.c:132-198 | one turn of the switch on the buffer refines one step of the scanner |
| `IniFiles.LoadIni` | util/bootmaker.c:116-204 | fails exactly if a pair comes before any section; otherwise the offsets into the buffer that the scanner has cut up are the sections that the machine reads |
| `IniFiles.RoundTrip` | util/bootmaker.c:77-204 | loading what was printed gives the sections back, each with its pairs reversed |
| `IniFiles.TwiceIsIdentity` | util/bootmaker.c:77-204 | doing it twice is the identity |
| `IniFiles.ReadsItems` | util/bootmaker.c:132-198 | from the start of a line on, the scanner reads what the lines of any text say, by their first character, first ] and first = |
| `IniFiles.SectionPairs` | util/bootmaker.c:187-194 | any loaded text has the sections its lines name, and each holds the pairs of its lines, the last one first |
| `IniFiles.SameString` | util/bootmaker.c:211-211 | the comparison of a string in the buffer with a name |
| `IniFiles.GetVal` | util/bootmaker.c:207-223 | the offset of the value of the first pair in the stored order that has the name, found exactly if there is one |
| `IniFiles.LookupFindsLastLine` | util/bootmaker.c:116-223 | loading any text without a pair before its first section and looking a name up finds in the buffer the value of a line of that section with the name behind which no line has it, and finds one exactly if there is one |

## Left out

- Heaps.Heap.Malloc: sizes above 0xFFFFF000, for which the 32-bit rounding wraps to 0 blocks; `Heaps.BlockifyExact` says exactly which.
- Heaps.Heap.Free: pointers other than null and live ones, for which the source promises nothing.
- Heaps.Heap.Realloc: the same sizes and the same pointers.
- BlockHeaps.BlockHeap.Morecore: the system returns block-aligned memory here, so the second request of `align` never happens.
- BlockHeaps.BlockHeap.CopyTable: the info table is an array of its own, with the blocks it occupies recorded, and is not spelled out in bytes.
- Kernels.Kernel.PortRecv: the idle task, which never receives, sleeps or waits on a semaphore; the same holds of `PortResume`, `SemAcquire`, `Sleep` and `SleepForIrq`.
- Kernels.Kernel.PortResume: a program that changes its own message header while it sleeps in `port_recv`.
- Kernels.Kernel.PortSend: the checks that the header and the buffer lie in user memory.
- KernelMemory.BlockPools.Alloc: a frame allocator that has run out; the source does not handle it.
- Schedulers.Scheduler.WakeSleepers: an empty slot below MaxUsedProc, which the source reads through a null pointer, is skipped.
- Schedulers.Scheduler.SwitchTask: the segment set-up, the far call and the check of the instruction pointer; the task chosen simply runs.
- Schedulers.Scheduler.SleepForIrq: the interrupt mask.
- Frames.Memory.Brk: too few free frames for the pages asked for, of which `Frames.Memory.BrkStep` treats one step.
- Frames.Memory.CreateTask: running on with a null object or stack when memory has run out; the model returns failure there.
- Frames.Memory.CreateProcess: images that reach video memory, or whose frames another process maps already.
- Frames.Memory.FreePages: addresses of user pages, which no caller passes, and stretches that leave the kernel's table.
- Frames.Memory.AllocPages: the halt when the kernel's table is full is an outcome, after which nothing is said to run.
- Frames.Memory.AllocPages: page counts above 1024, for which the source's unsigned loop bound wraps and the search reads past the table.
- Checksums.HandleIcmp: a request whose length field exceeds the packet, or is too small for its two headers, which the source copies all the same.
- IniFiles.LoadIni: a pair before the first section, which the source adds to a section that was never set; the model stops and says so.
- Integer widths of the kernel's counters and identifiers: they are unbounded here.
- The port, message, semaphore and node structures are maps from addresses to records, so two names of one structure are one key; the byte layout inside a structure is not modelled.
- The lock around the heap's calls; the unlocked functions are modelled, and the two inner calls of the locked `free` stand for `__free`.
- Changing a port's owner, `sem_destroy`, which is empty, and `queue_addHead` and `queue_removeTail`, which semaphores do not use.
- Ending another task, giving up an interrupt, and the namer's calls.
- The object allocator's handle lists, shared segments and the unfinished byte allocator.
- The other pages of a dead task, which stay allocated in the source too.
- Console, keyboard, network and disk servers apart from the checksum and the ping reply, and the UDP sender.
- Reading the section file, running out of memory while loading it, and writing the boot image.
- Number formatting, and boot code, descriptor tables, assembly stubs and the debugger.
