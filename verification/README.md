# Verified models of NaiLong-Kernel

A Dafny model of the parts of the kernel whose correctness spans several functions, a loop or
every interleaving, with proofs. `dafny verify dfyconfig.toml` checks everything.

- **The lock-free ring** (`MpmcQueue.dfy`, `MpmcLimits.dfy`): any number of threads push, pop and
  ask for the size; every atomic access is a step and a weak compare-and-swap may fail for no
  reason. Every run is explained by an atomic bounded FIFO queue.
- **The run queue of one core** (`RunQueue.dfy`, `RunQueueInv.dfy`, `RunQueueEffects.dfy`,
  `RunQueueTheorems.dfy`, `RunQueueLimits.dfy`, `TaskManager.dfy`): Schedule, TickUpdate, Sleep,
  Block, Wakeup and AddTask over the RealTime (FIFO), Normal (round robin) and Idle policies. The class works in place; its methods are proved
  against specification functions, and the theorems are about all runs of these.
- **The CFS policy** (`Cfs.dfy`, `CfsSleepers.dfy`): the heap, the charging of ticks, and fairness over
  all runs, without and with tasks that sleep.
- **The spin lock** (`SpinLock.dfy`): a step machine over any number of cores.
- **Page tables** (`PageTable.dfy`, `PageTree.dfy`, `PageMap.dfy`, `PageShape.dfy`, `PageClone.dfy`,
  `PageLeak.dfy`, `PageFree.dfy`, `AddressSpaces.dfy`, `PageLimits.dfy`, `PageFrames.dfy`,
  `PageSupply.dfy`, `VirtualMemory.dfy`): tables are words in memory, for any number of levels, with
  the RISC-V entry format. All directories together refine independent finite maps, each with the
  shape of its tables, through maps, unmaps, clones, destructions and failing allocations; the
  specification tells every result, and every leak, from these and the arguments. What the
  allocator returns is an argument of every call: null, or an aligned page that is not live.
- **The boot allocator** (`Bits.dfy`, `Bmalloc.dfy`): bump allocation in 64-bit arithmetic and the
  saved pointer in front of an aligned block.
- **Flattened device trees** (`FdtBytes.dfy`, `FdtTree.dfy`, `FdtRoundTrip.dfy`, `FdtBlob.dfy`,
  `Flattree.dfy`): the printer and the parser of dtc, for whole blobs of versions 16 and 17
  (sections 5.2 to 5.6 of the Devicetree Specification).
- **libfdt's walk and full check** (`LibFdt.dfy`, `LibFdtProofs.dfy`,
  `LibFdtWalk.dfy`, `FdtCheck.dfy`): what the walk visits in a blob that dtc wrote, and which bytes
  of any version the check accepts.
- **Overlay phandles** (`Overlay.dfy`, `OverlayProofs.dfy`, `OverlayNames.dfy`,
  `OverlayApply.dfy`): the renaming of
  an overlay's phandles and of the references to them, on trees. A phandle is the word in a
  property of its node, so that a reference into that property changes it.

Code that updates fields becomes a class with a `View()` whose methods equate the new view with a
specification function of the old one. `Basics.dfy`, `Arith.dfy` and `Bits.dfy` hold what several
components share.

## Where the code does less than it says

- The ring's `static_assert`s admit a capacity of one, where a second push overwrites the first
  item. The bound on the fill holds exactly for capacities of two or more
  (`MpmcLimits.OverfillsExactlyAtCapacityOne`).
- `pop` is documented to return false on an empty queue. It also does so while a published item
  waits behind a ticket whose producer has not finished (`MpmcLimits.PopCanMissAnItem`); the exact
  condition is `MpmcQueue.PopFailsExactly`, and with no ticket in flight it is "empty"
  (`MpmcQueue.QuietFailures`). A `push` likewise reports a full queue while a consumer that took its
  ticket has not released its cell (`MpmcLimits.PushCanMissRoom`, `MpmcQueue.PushFailsExactly`).
- `Sleep` and `Block` assert that the current task is Running. That holds exactly from the first
  Schedule of the core on (`RunQueueTheorems.EntryAssertionExact`): the idle task starts as Ready.
- `Sleep` computes its deadline in 64 bits; it is the exact one if and only if nothing wraps
  (`RunQueueTheorems.DeadlineExact`).
- Round robin bounds the waiting of a Normal task only while no RealTime task is ready or running.
  If no sleeping RealTime task is due in time, the bound holds for every run of ticks if and only if
  no RealTime task runs or is ready (`RunQueueLimits.BoundedWaitingExactly`);
  `RunQueueLimits.NormalTaskStarves` is a run from boot in which a Normal task waits for ever.
- The vruntime spread keeps its bound exactly if the next tick of the running task keeps it, which
  is what every pick arranges; a task that runs further ahead is charged before it is preempted
  (`Cfs.BoundExactly`, with `CfsSleepers.WokenFarBehind` as a run that breaks it).
- The recorded smallest vruntime never goes down while a fixed set of tasks is runnable
  (`Cfs.MinNeverFalls`). Once sleepers return, a Schedule keeps it exactly if at most one runnable task
  is behind it (`Cfs.MinGrowsExactly`); `CfsSleepers.MinCanFall` is a run
  that lowers it.
- What a tick costs is rounded down, so that shares follow the weights only up to the remainder of
  1024000 by the weight (`Cfs.DeltaExact`, `Cfs.WeightedShare`).
- A tick that wakes a sleeper does not charge the running task: a vruntime is the service received
  exactly if no such tick fell on the task (`CfsSleepers.ServiceExactly`).
- `UnLock` reads the saved interrupt state after it has cleared the flag, so that another core may
  have replaced it: `SpinLock.PairRestoresExactly` is the exact condition and
  `SpinLock.InterruptsCanStayOff` a run that leaves a core with its interrupts off.
- `AllocImpl` compares a wrapped sum with the end of the arena: the block it returns lies in the
  arena if and only if the sum did not wrap (`Bmalloc.InsideIffNoWrap`, with
  `Bmalloc.HugeRequestSucceeds` as the input that shows it). `aligned_alloc` adds to the request
  first, and that sum may wrap too: payload and saved pointer lie in the used part of the arena if
  and only if neither sum wrapped (`Bmalloc.AlignedInsideIffNoWrap`,
  `Bmalloc.HugeAlignedRequestSucceeds`).
- A clone that fails frees the table it was filling but not the finished tables below it. It leaves
  the memory as it was if and only if the pages run out at once, or along the first entries of the
  one table below the root in which they do (`AddressSpaces.CloneExactly`); over every run nothing is
  leaked exactly if no clone of the run fails otherwise (`AddressSpaces.RunRefines`), and
  `PageLimits.FailedCloneLeaks` is one that does.
- A clone that copies its mappings shares the frames, so that destroying both directories with their
  pages frees every mapped frame twice (`PageFrames.ClonedFramesFreedTwice`); a frame is freed once
  exactly if it is mapped once in the two together (`PageFrames.FreedOnceExactly`).
- `MapPage` without the valid bit in `flags` succeeds and leaves the page unmapped
  (`PageShape.MapPageExactly`); `MapMMIO` covers its range if and only if no sum wraps
  (`PageMap.RangeCovers`).
- Overlay application shifts a reference once for every time the local fixups list it. What it then
  names is decided exactly by `OverlayProofs.LocalReferenceExactly`; a reference listed twice stops
  naming its node (`OverlayProofs.ReferenceListedTwice`, `OverlayProofs.ListedOften`).
- A `__fixups__` entry may point into a node's own phandle property and give it a phandle of the base
  (`OverlayProofs.PhandleResolvedInBase`); that is the only way for a node that is not merged to be
  captured (`OverlayProofs.CapturedExactly`).
- `fdt_check_full` accepts what dtc writes exactly if the root has no name or was deleted
  (`LibFdtProofs.CheckFullExact`).

## Model

| member | source | states |
|---|---|---|
| MpmcQueue.SlotIsMask | 3rd/MPMCQueue/include/MPMCQueue.hpp:95-95 | for every capacity that is a power of two, the cell the model uses for a ticket is the one the mask `pos & (Capacity - 1)` selects |
| MpmcQueue.StepInv | 3rd/MPMCQueue/include/MPMCQueue.hpp:87-181 | every step of every thread keeps the ring invariant: the sequence number of each cell encodes its phase and the tickets in flight own their cells |
| MpmcQueue.RunInv | 3rd/MPMCQueue/include/MPMCQueue.hpp:42-181 | the ring invariant holds after every schedule of any number of threads |
| MpmcQueue.NoLossNoDuplication | 3rd/MPMCQueue/include/MPMCQueue.hpp:87-181 | after every run, tail <= head <= tail + capacity, a popped item is the one pushed under the same ticket, no ticket is popped twice, and every ticket below the tail was delivered once its move is done |
| MpmcQueue.CellsAreExclusive | 3rd/MPMCQueue/include/MPMCQueue.hpp:94-180 | no two threads are ever inside the write or move window of the same cell |
| MpmcQueue.CountersGrow | 3rd/MPMCQueue/include/MPMCQueue.hpp:94-180 | head, tail and every sequence number never go down |
| MpmcQueue.PushFailsExactly | 3rd/MPMCQueue/include/MPMCQueue.hpp:161-180 | a push gives up if and only if its ticket is still the head and the cell's previous ticket is not released |
| MpmcQueue.PopFailsExactly | 3rd/MPMCQueue/include/MPMCQueue.hpp:92-112 | a pop gives up if and only if its ticket is still the tail and not published |
| MpmcQueue.QuietFailures | 3rd/MPMCQueue/include/MPMCQueue.hpp:87-181 | with no ticket in flight, a push fails exactly when full and a pop exactly when empty |
| MpmcQueue.SizeIsSafe | 3rd/MPMCQueue/include/MPMCQueue.hpp:132-136 | size never exceeds the number of items when it reads the tail, and is exact if head did not move |
| MpmcQueue.StepRefines | 3rd/MPMCQueue/include/MPMCQueue.hpp:87-181 | each step is one legal operation of an atomic bounded FIFO queue, or none |
| MpmcQueue.RunSimulated | 3rd/MPMCQueue/include/MPMCQueue.hpp:87-181 | the effects of a run are legal for the atomic queue and leave it as the ring is |
| MpmcQueue.PopsExplained | 3rd/MPMCQueue/include/MPMCQueue.hpp:87-113 | what each thread's pops return is what the atomic queue handed it, in order, up to its one call in flight |
| MpmcQueue.PushesExplained | 3rd/MPMCQueue/include/MPMCQueue.hpp:156-181 | what each thread's pushes report as accepted is what the atomic queue took from it, in order |
| MpmcQueue.Linearizable | 3rd/MPMCQueue/include/MPMCQueue.hpp:42-181 | from an empty ring of capacity two or more, every run of any number of threads is explained by one atomic FIFO queue of that capacity |
| MpmcLimits.CapacityOneOverwrites | 3rd/MPMCQueue/include/MPMCQueue.hpp:29-31 | a run at capacity one in which a second push overwrites an item nobody popped |
| MpmcLimits.OverfillsExactlyAtCapacityOne | 3rd/MPMCQueue/include/MPMCQueue.hpp:29-31 | no run overfills the ring if and only if its capacity is at least two |
| MpmcLimits.PopCanMissAnItem | 3rd/MPMCQueue/include/MPMCQueue.hpp:87-113 | a run in which a pop reports empty although a later ticket is published |
| MpmcLimits.PushCanMissRoom | 3rd/MPMCQueue/include/MPMCQueue.hpp:156-181 | a run in which a push reports a full queue of two although only one place is taken |
| RunQueueInv.ScheduleInv | src/task/schedule.cpp:27-123 | from any orderly run queue Schedule completes and leaves one task running, every other in its place |
| RunQueueInv.TickInv | src/task/tick_update.cpp:8-66 | a tick, with any order of equal deadlines, completes and keeps the invariant; `RunQueueEffects.TickEffect` says what it does |
| RunQueueInv.WakeupInv | src/task/wakeup.cpp:10-54 | draining a resource's waiting list keeps the invariant; `RunQueueEffects.WakeupEffect` says whom it wakes |
| RunQueueInv.AddTaskInv | src/task/task_manager.cpp:68-130 | adding a task keeps the invariant |
| RunQueueInv.OpInv | src/task/schedule.cpp:27-123 | every operation a caller may make completes, its assertions hold, and it keeps the invariant |
| RunQueueInv.RunInv | src/task/task_manager.cpp:38-66 | the invariant holds after every run from the initial state of a core |
| RunQueueEffects.WakeupEffect | src/task/wakeup.cpp:29-50 | exactly the tasks blocked on the resource become ready and blocked on nothing, the ready lists are the old ones followed by the waiters of each policy in waiting order, the entry is gone, and no other task, list or counter changes |
| RunQueueEffects.ScheduleEffect | src/task/schedule.cpp:27-123 | a running task goes to the end of its list, the front of the best nonempty list is taken, or else idle, and runs with its default slice and one more context switch; nothing else changes |
| RunQueueEffects.WakeAllJoins | src/task/tick_update.cpp:17-41 | exactly the sleepers whose deadline is reached leave the heap, each once, and join their ready lists in that order |
| RunQueueEffects.TickEffect | src/task/tick_update.cpp:8-66 | the clock moves on, exactly the due sleepers wake, the running task pays one tick, and Schedule follows if and only if a sleeper was due or the slice is used up |
| RunQueueEffects.TickReschedules | src/task/tick_update.cpp:43-66 | if a sleeper was due, no ready task has a better policy than the running one afterwards; the number of schedules grows by one if a sleeper was due or the slice was used up, and else stays |
| RunQueueEffects.BlockEffect | src/task/block.cpp:10-38 | the caller is Blocked on the resource at the end of its waiting list, the other waiting lists stay, and another task runs |
| RunQueueEffects.SleepEffect | src/task/sleep.cpp:16-62 | the caller joins the sleepers and another task runs; Sleep(0) only reschedules |
| RunQueueEffects.AddEffect | src/task/task_manager.cpp:68-130 | the new task is ready at the end of the list of its policy and nothing else changes |
| RunQueueEffects.SliceLasts | src/task/tick_update.cpp:43-66 | through any number of ticks smaller than what is left of its slice, with nobody due, the running task keeps the core and nothing is scheduled |
| RunQueueEffects.DispatchedSlice | src/task/schedule.cpp:95-123 | a dispatched task keeps the core for exactly its default slice when nobody wakes, and one tick if that is zero |
| RunQueueTheorems.OnePlace | src/task/schedule.cpp:27-123 | under the invariant a task occurs once over the ready lists, the sleep heap, the waiting lists and the core together, where its status says |
| RunQueueTheorems.EveryTaskInOnePlace | src/task/schedule.cpp:27-123 | after every run each added task is in exactly one place, and only the current task is Running |
| RunQueueTheorems.NoRunGetsStuck | src/task/schedule.cpp:27-123 | after every run every permitted call completes: the conditions that Schedule, Sleep, Block and Wakeup assert, of the task picked, the current task and the waiters, all hold, and a tick can always drain its due sleepers |
| RunQueueTheorems.EntryAssertionExact | src/task/block.cpp:14-16 | after every run the current task is Running, as Sleep and Block assert, if and only if the core has scheduled at least once |
| RunQueueTheorems.BestPolicyFirst | src/task/schedule.cpp:50-110 | the pick loop ends and runs a ready task of the best policy, though the Idle scheduler never gives up its task |
| RunQueueTheorems.BoundedWaiting | src/task/rr_scheduler.cpp:19-58 | a task at index k of the Normal queue runs within (k + 1) * slice ticks whatever else happens, while no RealTime task is ready or running |
| RunQueueTheorems.RealTimeKeepsCore | src/task/fifo_scheduler.cpp:25-51 | through any number of ticks the core stays with RealTime tasks once one runs |
| RunQueueLimits.RealTimeHoldsCore | src/task/fifo_scheduler.cpp:25-51 | from a running RealTime task, with no other ready and nobody asleep, any number of ticks can follow and leave it running and the Normal queue as it was |
| RunQueueLimits.BoundedWaitingExactly | src/task/rr_scheduler.cpp:19-58 | in a reached state whose sleeping RealTime tasks are not due within (k + 1) * slice ticks, every run of ticks gives the task at index k the core within so many if and only if no RealTime task runs or is ready |
| RunQueueLimits.NormalTaskStarves | src/task/schedule.cpp:50-71 | a RealTime and a Normal task are added at boot: after one Schedule the Normal one waits through any number of ticks |
| RunQueueTheorems.CeilTicksIsLeast | src/task/sleep.cpp:41-57 | the tick count of a sleep is the least one that lasts as long as asked |
| RunQueueTheorems.DeadlineExact | src/task/sleep.cpp:41-57 | the deadline is now plus that count if and only if the 64-bit sums do not wrap |
| RunQueueTheorems.NoneDueAfterTick | src/task/tick_update.cpp:17-41 | after every tick no sleeper has a deadline at or before the clock |
| RunQueueTheorems.SleepsUntil | src/task/tick_update.cpp:17-41 | a sleeper stays asleep through every run that ends before its deadline |
| RunQueueTheorems.SleepIsExact | src/task/sleep.cpp:16-62 | a task that goes to sleep in a reachable state becomes ready on precisely the tick that completes its sleep |
| TaskManagerModel.TaskManager.constructor | src/task/task_manager.cpp:38-66 | a core starts with its idle task and empty queues, which satisfies the invariant |
| TaskManagerModel.TaskManager.Enqueue | src/task/rr_scheduler.cpp:19-27 | a task goes to the end of its policy's list with its slice refilled as the policy says |
| TaskManagerModel.TaskManager.Dequeue | src/task/rr_scheduler.cpp:33-44 | a task leaves its policy's list and the others keep their order |
| TaskManagerModel.TaskManager.WithoutFirst | src/task/rr_scheduler.cpp:33-44 | the scan removes the first occurrence only |
| TaskManagerModel.TaskManager.WithoutAll | src/task/fifo_scheduler.cpp:34-37 | list removal drops every occurrence |
| TaskManagerModel.TaskManager.PickNext | src/task/fifo_scheduler.cpp:43-51 | the front of the policy's list leaves it |
| TaskManagerModel.TaskManager.PickLoop | src/task/schedule.cpp:50-71 | the nested loop computes the specified pick and terminates |
| TaskManagerModel.TaskManager.RequeueCurrent | src/task/schedule.cpp:35-48 | a current task that still runs goes back to its list as ready |
| TaskManagerModel.TaskManager.SwitchTo | src/task/schedule.cpp:110-123 | the next task runs with a full slice and the counters move |
| TaskManagerModel.TaskManager.Schedule | src/task/schedule.cpp:27-123 | the in-place Schedule does what the specification function does and keeps the invariant |
| TaskManagerModel.TaskManager.WakeDue | src/task/tick_update.cpp:20-41 | the loop pops exactly the due sleepers, in an order the heap allows |
| TaskManagerModel.TaskManager.TickUpdate | src/task/tick_update.cpp:8-66 | the in-place tick is the specified tick for that order, whose effect is `RunQueueEffects.TickEffect` |
| TaskManagerModel.TaskManager.Sleep | src/task/sleep.cpp:16-62 | the in-place Sleep is the specified one, with ms = 0 as a yield; its assertion of a running current task holds |
| TaskManagerModel.TaskManager.Block | src/task/block.cpp:10-38 | the current task joins the resource's waiting list and another runs; its assertion of a running current task holds |
| TaskManagerModel.TaskManager.Wakeup | src/task/wakeup.cpp:10-54 | the loop drains the list in order and erases the entry, with the effect of `RunQueueEffects.WakeupEffect` |
| TaskManagerModel.TaskManager.AddTask | src/task/task_manager.cpp:68-130 | a new task becomes ready in its policy's list |
| Cfs.CfsScheduler.Enqueue | src/task/cfs_scheduler.cpp:32-49 | a new task starts at the smallest vruntime, a zero weight becomes the default |
| Cfs.CfsScheduler.Dequeue | src/task/cfs_scheduler.cpp:55-82 | rebuilding the heap removes the task and keeps every other |
| Cfs.CfsScheduler.PickNext | src/task/cfs_scheduler.cpp:88-105 | a task of least vruntime leaves the heap and the smallest vruntime is recorded |
| Cfs.CfsScheduler.OnTick | src/task/cfs_scheduler.cpp:111-130 | the running task pays 1024000 / weight rounded down (`Cfs.DeltaExact`), and is preempted exactly if the head lags by more than the granularity |
| Cfs.SpreadStaysBounded | src/task/cfs_scheduler.cpp:32-130 | for a closed set of runnable tasks the vruntime spread never exceeds max(initial, granularity + costliest tick), through any run |
| Cfs.BoundExactly | src/task/cfs_scheduler.cpp:111-130 | that bound holds on every run if and only if the next tick of the running task keeps it |
| CfsSleepers.WokenFarBehind | src/task/cfs_scheduler.cpp:32-49 | a run from boot in which a task sleeps and is woken far behind the running one: the next tick breaks the bound |
| Cfs.MinGrowsExactly | src/task/cfs_scheduler.cpp:88-105 | Schedule does not lower the recorded smallest vruntime if and only if at most one runnable task is behind it |
| CfsSleepers.MinCanFall | src/task/cfs_scheduler.cpp:97-102 | a run from boot in which two tasks sleep and are woken, and the recorded smallest vruntime falls |
| Cfs.MinNeverFalls | src/task/cfs_scheduler.cpp:88-130 | while a fixed set of tasks is runnable the recorded smallest vruntime never goes down, over any run |
| Cfs.VruntimeIsService | src/task/cfs_scheduler.cpp:111-130 | over any run a vruntime grows by exactly the ticks the task got times what a tick costs it |
| Cfs.ProportionalShare | src/task/cfs_scheduler.cpp:88-130 | over any run the weighted ticks of two runnable tasks differ by a constant, however long the run |
| Cfs.DeltaExact | src/task/cfs_scheduler.cpp:116-116 | the cost of a tick is the largest number whose product with the weight is at most 1024000 |
| Cfs.WeightedShare | src/task/cfs_scheduler.cpp:88-130 | in ticks and weights alone: over any run the ticks of two runnable tasks are in proportion to their weights up to a constant and the remainder that rounding loses |
| Cfs.NewTaskFits | src/task/cfs_scheduler.cpp:32-49 | a task that was never charged is queued without widening the spread of the vruntimes |
| CfsSleepers.EventClosed | src/task/tick_update.cpp:17-41 | with tasks that leave, are woken or are woken by a tick, every event keeps each runnable task queued once or running |
| CfsSleepers.ServiceExactly | src/task/tick_update.cpp:51-55 | over any run with sleepers a vruntime grows by the ticks the task ran times what one costs if and only if no tick that woke a task fell on it, or its ticks cost nothing |
| Cfs.PickFair | src/task/cfs_scheduler.cpp:88-105 | every pick leaves the state the bound starts from |
| SpinLock.StepInv | src/include/spinlock.hpp:36-80 | every step keeps: at most one holder, the flag set exactly while there is one, the core id naming only the holder |
| SpinLock.MutualExclusion | src/include/spinlock.hpp:36-80 | after every interleaving at most one core holds the lock, the flag is set exactly then, and the holder has interrupts off |
| SpinLock.LockVerdict | src/include/spinlock.hpp:36-59 | Lock takes the flag only if nobody holds it and reports a recursive lock exactly if the calling core is the holder |
| SpinLock.UnlockVerdict | src/include/spinlock.hpp:65-80 | UnLock goes on exactly if the calling core is the holder, and otherwise fails and changes nothing |
| SpinLock.HoldIsKept | src/include/spinlock.hpp:36-80 | only the holder ends its hold, by clearing the flag, and nobody else changes the lock meanwhile |
| SpinLock.SavedWhileHeld | src/include/spinlock.hpp:36-59 | from its save until it clears the flag, nobody replaces the interrupt state a holder saved |
| SpinLock.RunRemembers | src/include/spinlock.hpp:36-80 | from the call of Lock until the core clears the flag, under any schedule, the core is taking the lock with the interrupt state it found or holds it with that state saved |
| SpinLock.PairRestoresExactly | src/include/spinlock.hpp:36-80 | in every reached state and under any schedule, a core that calls Lock and later UnLock ends with the interrupt state it had at the call of Lock if and only if between its clearing of the flag and its read no other core saved, or the last saved the same |
| SpinLock.InterruptsCanStayOff | src/include/spinlock.hpp:71-79 | a run of two cores that leaves one with its interrupts off |
| SpinLock.PairRestores | src/include/spinlock.hpp:36-80 | a core that takes a free lock and gives it back undisturbed leaves the lock free and its interrupt flag as it was |
| PageMap.EncodeRoundTrip | 3rd/cpu_io/include/riscv64/virtual_memory.hpp:93-117 | an entry reads back as its frame and attribute bits, and is valid exactly if the flags carry the valid bit |
| PageMap.SamePage | 3rd/cpu_io/include/riscv64/virtual_memory.hpp:125-128 | two addresses take the same path exactly when they lie on the same page of the address space |
| PageShape.FindExactly | src/virtual_memory.cpp:345-384 | an allocating search succeeds if and only if the pages given suffice for the tables that are missing on its path, takes that many, keeps the tables a tree and every translation unchanged, enters what it could even when it fails, and ends at the leaf table when it succeeds |
| PageShape.MapPageExactly | src/virtual_memory.cpp:112-148 | a map succeeds if and only if the pages given suffice for the missing tables, and then sets one page of the finite map and no other; a failed one leaves every translation; the tables stay a tree and nothing outside it changes |
| PageMap.UnmapPageRefines | src/virtual_memory.cpp:154-174 | unmapping succeeds exactly for a mapped page and removes that page only |
| PageMap.GetMappingRefines | src/virtual_memory.cpp:180-197 | a lookup answers as the finite map does |
| PageMap.RemapIsSilent | src/virtual_memory.cpp:124-140 | repeating a mapping writes and allocates nothing |
| PageShape.MapRangeExactly | src/virtual_memory.cpp:90-106 | the pages of the range are mapped to themselves up to the first for which the pages given do not suffice, and the call succeeds if and only if there is none; the tables stay a tree |
| PageMap.RangeMapped | src/virtual_memory.cpp:90-106 | in a range no longer than the address space every page ends up mapped to itself |
| PageMap.RangeElsewhere | src/virtual_memory.cpp:90-106 | pages outside the range keep their translation |
| PageMap.RangeCovers | 3rd/cpu_io/include/riscv64/virtual_memory.hpp:164-175 | the page range covers every byte asked for if and only if no 64-bit sum wraps |
| PageLeak.CloneFromExactly | src/virtual_memory.cpp:291-339 | cloning a table succeeds if and only if the pages given suffice for every table below it, takes that many and builds a tree of fresh tables of the same shape with the source's valid leaf entries, or none; on failure it says exactly when a table is left behind; nothing else changes |
| PageFree.FreeTableDone | src/virtual_memory.cpp:255-285 | exactly the reachable tables are removed, each freed once, with the mapped frames once per valid leaf entry if asked for |
| AddressSpaces.CloneExactly | src/virtual_memory.cpp:222-249 | a clone succeeds if and only if the pages given suffice for the root and every table below it; one that fails leaves the memory as it was if and only if the pages ran out at once or along the first entries of the table below the root in which they did |
| AddressSpaces.CloneRefines | src/virtual_memory.cpp:222-249 | a successful clone adds a directory with the same shape and the same finite map or an empty one; a failed one changes no directory; no live table is written |
| PageLimits.FailedCloneLeaks | src/virtual_memory.cpp:312-325 | three levels and three pages: the clone fails, frees its root and its middle table, and leaves a leaf table live that no directory reaches |
| AddressSpaces.DestroyRefines | src/virtual_memory.cpp:203-216 | destroying removes one directory and leaves the others as they were, without a leak |
| AddressSpaces.DestroyFreesOnce | src/virtual_memory.cpp:203-216 | each reachable table, the root included, is freed exactly once |
| PageFrames.FramesCounted | src/virtual_memory.cpp:255-285 | a frame is freed with its directory if some walk ends at it, and at most once if and only if no two walks do |
| PageFrames.FreedOnceExactly | src/virtual_memory.cpp:203-216 | destroying two directories with their pages frees a frame at most once if and only if it is mapped at most once in both together |
| PageFrames.ClonedFramesFreedTwice | src/virtual_memory.cpp:203-249 | after a clone that copies mappings, destroying both with pages frees every mapped frame more than once |
| AddressSpaces.CloneThenDestroy | src/virtual_memory.cpp:203-249 | destroying a fresh clone restores the memory from before |
| AddressSpaces.OpRefines | src/virtual_memory.cpp:112-249 | every operation returns and does to all directories what the specification tells from the finite maps, the shapes and the arguments alone, and leaves every table owned if and only if every table was and it is no clone that leaks |
| AddressSpaces.RunRefines | src/virtual_memory.cpp:112-249 | over every run of maps, unmaps, clones and destructions the directories and all results are those of the specification, and no table is leaked if and only if none was and no clone of the run leaks |
| AddressSpaces.LookupAfterRun | src/virtual_memory.cpp:180-197 | after any run a lookup in any directory answers as its finite map does, so that work on one copy never shows in another |
| VirtualMemoryModel.VirtualMemory.FindPageTableEntry | src/virtual_memory.cpp:345-384 | the level loop computes the specified search and reads live tables only |
| VirtualMemoryModel.VirtualMemory.MapPage | src/virtual_memory.cpp:112-148 | the in-place map is the specified one |
| VirtualMemoryModel.VirtualMemory.UnmapPage | src/virtual_memory.cpp:154-174 | the in-place unmap is the specified one |
| VirtualMemoryModel.VirtualMemory.GetMapping | src/virtual_memory.cpp:180-197 | the lookup is the specified one and changes nothing |
| VirtualMemoryModel.VirtualMemory.MapMMIO | src/virtual_memory.cpp:90-106 | the address loop maps the specified range |
| VirtualMemoryModel.VirtualMemory.RecursiveFree | src/virtual_memory.cpp:255-285 | the recursion and its entry loop free as specified and never read a freed table |
| VirtualMemoryModel.VirtualMemory.DestroyPageDirectory | src/virtual_memory.cpp:203-216 | the root is freed last; a null root does nothing |
| VirtualMemoryModel.VirtualMemory.RecursiveClone | src/virtual_memory.cpp:291-339 | the recursion and its entry loop clone as specified and read live tables only |
| VirtualMemoryModel.VirtualMemory.ClonePageDirectory | src/virtual_memory.cpp:222-249 | the in-place clone, with the destruction of an unfinished copy, is the specified one |
| Bits.PowerTest | 3rd/bmalloc/src/include/bmalloc.hpp:161-167 | the bit test accepts exactly the powers of two |
| Bits.AndMask | 3rd/bmalloc/src/include/bump.hpp:70-72 | masking with the complement of 2^j - 1 drops the remainder |
| Bits.AndRemainder | 3rd/MPMCQueue/include/MPMCQueue.hpp:164-164 | masking with 2^k - 1 leaves the remainder |
| Bmalloc.AllocExact | 3rd/bmalloc/src/include/bump.hpp:63-93 | without a wrap an allocation succeeds exactly when the aligned block fits, returns it, and keeps used + free equal to the length |
| Bmalloc.InsideIffNoWrap | 3rd/bmalloc/src/include/bump.hpp:74-82 | a block that is handed out lies in the arena if and only if the sum did not wrap |
| Bmalloc.HugeRequestSucceeds | 3rd/bmalloc/src/include/bump.hpp:74-82 | a 16-byte arena hands out almost 2^64 bytes |
| Bmalloc.CallocTest | 3rd/bmalloc/src/include/bmalloc.hpp:65-71 | the overflow test refuses exactly the products that do not fit in a word |
| Bmalloc.CallocZeroes | 3rd/bmalloc/src/include/bmalloc.hpp:58-84 | an overflowing product is refused without a trace and a block handed out reads as zero |
| Bmalloc.AlignedExact | 3rd/bmalloc/src/include/bmalloc.hpp:161-196 | the payload is aligned and inside the raw block, and the raw pointer is saved in the eight bytes before it |
| Bmalloc.AlignedInsideIffNoWrap | 3rd/bmalloc/src/include/bmalloc.hpp:161-196 | of every request an arena grants, payload and saved pointer lie in its used part if and only if no sum wrapped |
| Bmalloc.HugeAlignedRequestSucceeds | 3rd/bmalloc/src/include/bmalloc.hpp:173-190 | an arena that ends at 32 grants all but 4096 bytes at address 4096 and saves a pointer at 4088 |
| Bmalloc.OpSafe | 3rd/bmalloc/src/include/bmalloc.hpp:39-196 | every allocation and every client write keeps the blocks disjoint and the saved pointers intact; allocations touch no older block |
| Bmalloc.RunSafe | 3rd/bmalloc/src/include/bmalloc.hpp:39-196 | this holds over every run whose sums do not wrap |
| Bmalloc.ArenaGuarantees | 3rd/bmalloc/src/include/bmalloc.hpp:39-224 | from a fresh arena, every block lies inside it and is aligned, any two are disjoint, aligned_free recovers the raw pointer, and used + free is the length |
| PageSupply.PagesAreFresh | src/virtual_memory.cpp:312-313 | whatever was allocated and written before, the pages `aligned_alloc(4096, 4096)` goes on to return are what the page-table theorems ask of a supply |
| Bmalloc.Allocator.constructor | 3rd/bmalloc/src/include/bump.hpp:35-38 | the arena starts empty |
| Bmalloc.Allocator.AllocImpl | 3rd/bmalloc/src/include/bump.hpp:63-93 | the in-place allocation is the specified one |
| Bmalloc.Allocator.ZeroedAlloc | 3rd/bmalloc/src/include/bmalloc.hpp:58-84 | the in-place calloc is the specified one |
| Bmalloc.Allocator.AllocAligned | 3rd/bmalloc/src/include/bmalloc.hpp:161-196 | the in-place aligned_alloc is the specified one |
| Bmalloc.Allocator.FreeAligned | 3rd/bmalloc/src/include/bmalloc.hpp:207-224 | aligned_free hands on the saved pointer |
| FdtBytes.BigEndianAt | 3rd/dtc/data.c:158-185 | for any width, byte i of a written number is its digit of weight 256 to the power n - 1 - i |
| FdtBytes.WordBytes | 3rd/dtc/libfdt/libfdt_env.h:31-54 | the four bytes of a word, and the word that any four bytes stand for, most significant byte first |
| FdtTree.ChunkBytes | 3rd/dtc/flattree.c:236-292 | the bytes of each token: tags 1, 3, 2 and 9, then a name and its terminator, or a length, a name offset and a value, with zeroes up to a word |
| FdtBlob.StartsWithMagic | 3rd/dtc/flattree.c:314-344 | every blob starts with the bytes d0 0d fe ed |
| FdtTree.InsertReads | 3rd/dtc/flattree.c:221-234 | inserting a string only extends the table, by nothing if it stands there already, even as a tail; the least such offset is returned and reads back as the string |
| FdtRoundTrip.PropsRead | 3rd/dtc/flattree.c:662-682 | the reader takes up the written properties with their names and bytes, in order |
| FdtRoundTrip.NodeRead | 3rd/dtc/flattree.c:731-790 | reading a flattened node gives the live node, whatever follows it and however the strings block grew |
| FdtRoundTrip.KidsRead | 3rd/dtc/flattree.c:731-790 | the reader takes up the written children in order |
| FdtBlob.ReserveRead | 3rd/dtc/flattree.c:685-711 | the written reserve list reads back up to its first entry of size zero |
| FdtBlob.HeaderRead | 3rd/dtc/flattree.c:314-344 | every header field reads back, and the blocks stand where it says |
| FdtBlob.StructRead | 3rd/dtc/flattree.c:236-292 | the structure block, followed by anything, reads as the live tree and its END |
| FdtBlob.BlobRoundTrip | 3rd/dtc/flattree.c:346-431 | compiling and reading back gives the live tree, the reserve list and the boot CPU, in versions 16 and 17 and with any padding; a deleted root gives nothing |
| Flattree.Flattener.StringtableInsert | 3rd/dtc/flattree.c:221-234 | the search loop is the specified insertion |
| Flattree.Flattener.FlattenTree | 3rd/dtc/flattree.c:236-292 | the recursion appends exactly the specified tokens and extends the strings block |
| Flattree.Flattener.FlattenProperty | 3rd/dtc/flattree.c:256-275 | one property appends its token, padded to four bytes |
| Flattree.Flattener.FlattenProperties | 3rd/dtc/flattree.c:256-275 | the property loop appends the live properties in order |
| Flattree.Flattener.FlattenChildren | 3rd/dtc/flattree.c:287-289 | the child loop appends the live children in order |
| Flattree.Flattener.EmitAlign | 3rd/dtc/data.c:221-225 | zeroes up to the next multiple of four |
| Flattree.FlattenReserveList | 3rd/dtc/flattree.c:294-312 | the entries and the extra slots in order |
| Flattree.DtToBlob | 3rd/dtc/flattree.c:346-431 | the assembled blob is the specified one |
| Flattree.Inbuf.Name | 3rd/dtc/flattree.c:607-625 | the string loop reads the specified string and realigns |
| Flattree.Inbuf.Value | 3rd/dtc/flattree.c:627-642 | reads the specified bytes and realigns |
| Flattree.TableString | 3rd/dtc/flattree.c:644-661 | the loop reads the specified string of the table |
| Flattree.Inbuf.Property | 3rd/dtc/flattree.c:663-682 | reads the specified property |
| Flattree.Inbuf.UnflattenTree | 3rd/dtc/flattree.c:731-790 | the do-while loop and its recursion read the specified node, and terminate |
| LibFdt.OffsetPtr | 3rd/dtc/libfdt/fdt.c:140-160 | a pointer that is not null lies, with its length, inside the blob, although the sums wrap at 32 bits |
| LibFdt.NextTag | 3rd/dtc/libfdt/fdt.c:162-221 | a next offset that is no error lies behind the tag and inside the blob, and a reported tag has its fields there |
| LibFdtProofs.TokenTag | 3rd/dtc/libfdt/fdt.c:162-221 | at every token dtc writes, the tag is the token's and the next offset is that of the next token |
| LibFdtProofs.NodeTokenTags | 3rd/dtc/flattree.c:236-292 | the written tags are those of the live tree in preorder |
| LibFdtProofs.TagsVisited | 3rd/dtc/libfdt/fdt.c:162-221 | following the next offsets over a version 17 blob below INT_MAX bytes visits exactly the preorder tags of the live tree and then END |
| LibFdtProofs.CheckHeaderExact | 3rd/dtc/libfdt/fdt.c:52-138 | for any header the check passes exactly if every block lies in the blob by plain arithmetic, although the code tests wrapping sums |
| LibFdtProofs.CheckedIsBalanced | 3rd/dtc/libfdt/fdt_check.c:13-96 | any blob of any version that passes the full check has tags that close what they open, never go below the root, and end with the only END; `LibFdtWalk.AcceptsExactly` is the exact condition |
| LibFdtProofs.HeaderFine | 3rd/dtc/libfdt/fdt.c:89-138 | fdt_check_header accepts what dtc writes |
| LibFdtProofs.ReserveFine | 3rd/dtc/libfdt/fdt_ro.c:189-199 | fdt_num_mem_rsv counts the entries up to the first of size zero |
| LibFdtProofs.CheckFullExact | 3rd/dtc/libfdt/fdt_check.c:13-96 | for every tree and every option, the full check of the version 17 blob returns 0 if the root is nameless or deleted, and else BADSTRUCTURE |
| LibFdtWalk.PtrExactly | 3rd/dtc/libfdt/fdt.c:140-160 | for any header, offset and length the tests on wrapping sums amount to one bound on the plain sum |
| LibFdtWalk.NextTagExactly | 3rd/dtc/libfdt/fdt.c:162-221 | for any bytes, the tag and the next offset are those of the item that the bytes form: a name up to its first zero byte, a property with its value, or a bare tag, inside the structure block, with the offset rounded up to a word |
| LibFdtWalk.CheckStringExactly | 3rd/dtc/libfdt/fdt_ro.c:38-97 | a name offset is accepted exactly if a zero byte follows inside the strings block; else the error is the one for an offset beyond it or for a missing terminator |
| LibFdtWalk.CheckPropExactly | 3rd/dtc/libfdt/fdt_check.c:84-89 | a property is accepted exactly if its name ends inside the strings block, and each refusal has its error |
| LibFdtWalk.CheckRootExactly | 3rd/dtc/libfdt/fdt_check.c:58-75 | a root is accepted exactly if its name is empty, or up to version 15 a path that ends with a slash |
| LibFdtWalk.CountReserveExactly | 3rd/dtc/libfdt/fdt_ro.c:189-199 | the count is n if and only if entry n is the first of size zero and lies in the blob |
| LibFdtWalk.LoopExactly | 3rd/dtc/libfdt/fdt_check.c:37-95 | from any offset, depth and expectation of the end, the loop returns 0 if and only if an accepted walk starts there |
| LibFdtWalk.AcceptsExactly | 3rd/dtc/libfdt/fdt_check.c:13-96 | for any bytes of any version, the full check returns 0 if and only if the blob is aligned, its blocks lie in it, the reserve list ends, and the items follow each other up to END, nested, with one nameless root at most and every property named in the strings block |
| LibFdtWalk.PropertiesNamed | 3rd/dtc/libfdt/fdt_check.c:84-89 | a blob is refused if its walk meets a property whose name offset is not below the size of the strings block, or has no zero byte behind it there |
| FdtCheck.FdtNextTag | 3rd/dtc/libfdt/fdt.c:162-221 | the loop over the name computes the specified tag and offset |
| FdtCheck.FdtNumMemRsv | 3rd/dtc/libfdt/fdt_ro.c:189-199 | the counting loop is the specified one and terminates |
| FdtCheck.FdtCheckTags | 3rd/dtc/libfdt/fdt_check.c:37-95 | the loop with its depth counter is the specified check and terminates; `LibFdtWalk.LoopExactly` says which walks it accepts |
| FdtCheck.FdtCheckFull | 3rd/dtc/libfdt/fdt_check.c:13-96 | the whole check is the specified one, which accepts what `LibFdtWalk.AcceptsExactly` says |
| OverlayProofs.AdjustExact | 3rd/dtc/libfdt/fdt_overlay.c:101-158 | shifting succeeds exactly if every phandle property is well formed and stays below the reserved value, and then moves all of the overlay and nothing else |
| OverlayProofs.CellPushed | 3rd/dtc/libfdt/fdt_overlay.c:509-612 | whatever a local reference holds, the take-overs send it along with the nodes they visit |
| OverlayProofs.PhandlePushed | 3rd/dtc/libfdt/fdt_overlay.c:509-612 | whatever the order of the take-overs, the phandle of a node goes where the references to it go |
| OverlayProofs.NodeOrder | 3rd/dtc/libfdt/fdt_overlay.c:654-698 | the recursion over the matching nodes is such a sequence of take-overs; `OverlayNames.VisitsAreMerges` says which nodes match |
| OverlayProofs.AllProper | 3rd/dtc/libfdt/fdt_overlay.c:713-745 | over all fragments no overlay node is visited twice, and each gets a phandle of the base |
| OverlayProofs.LocalReferenceExactly | 3rd/dtc/libfdt/fdt_overlay.c:1048-1070 | for any targets and external references, a local reference listed k times goes on naming its node if and only if its value shifted k times and the node's shifted phandle are sent to the same phandle; no reference stands in a phandle property |
| OverlayProofs.LocalReferencesKept | 3rd/dtc/libfdt/fdt_overlay.c:1048-1070 | with unique nonzero phandles, a reference listed once, or k times with (k - 1) * delta a multiple of 2^32, goes on naming its node, however often others are listed; no reference stands in a phandle property |
| OverlayProofs.ListedOften | 3rd/dtc/libfdt/fdt_overlay.c:201-269 | if no visited node gives up a phandle for one of the base, that condition is also necessary |
| OverlayProofs.ReferenceListedTwice | 3rd/dtc/libfdt/fdt_overlay.c:238-245 | an overlay whose reference is listed twice and ends at 11 while its node ends at 6 |
| OverlayProofs.PhandleEnds | 3rd/dtc/libfdt/fdt_overlay.c:1048-1070 | where the phandle of a node ends none of whose phandle properties holds a reference, in terms of the visits |
| OverlayProofs.CapturedExactly | 3rd/dtc/libfdt/fdt_overlay.c:330-352 | of a node that is not merged, the phandle ends above every phandle of the base if and only if no external reference was written over it |
| OverlayProofs.PhandleResolvedInBase | 3rd/dtc/libfdt/fdt_overlay.c:330-352 | an overlay in which one was, and the node ends with the phandle of another node of the base |
| OverlayProofs.ExternalReferencesKept | 3rd/dtc/libfdt/fdt_overlay.c:654-698 | external references outside phandle properties and not also listed as local are not touched |
| OverlayNames.MatchesExactly | 3rd/dtc/libfdt/fdt_ro.c:15-36 | a name with a unit address matches only itself, one without also every node that adds one |
| OverlayNames.FindBaseExactly | 3rd/dtc/libfdt/fdt_overlay.c:683-683 | the lookup in the base gives the first child whose name matches, and none if and only if no child matches |
| OverlayNames.FindShapeExactly | 3rd/dtc/libfdt/fdt_overlay.c:254-258 | the same of the lookup in the overlay |
| OverlayNames.VisitsAreMerges | 3rd/dtc/libfdt/fdt_overlay.c:654-745 | over all fragments, a node is visited with a base phandle if and only if the names from `__overlay__` down to it lead, first match by first match, from the target to a base node with that phandle |
| OverlayNames.MaxPhandleExactly | 3rd/dtc/libfdt/fdt_ro.c:114-140 | the largest phandle is that of some node of the base, and no node has a larger one |
| OverlayNames.NoCapture | 3rd/dtc/libfdt/fdt_overlay.c:1048-1070 | a node none of whose phandle properties holds a reference ends with a phandle exactly if it had one; it is above the phandle of every base node or that of a base node the names lead to, and if they lead to one with a phandle it is that one |
| OverlayNames.LocalsExactly | 3rd/dtc/libfdt/fdt_overlay.c:201-269 | the walk over the local fixups succeeds if and only if every list is whole and names a property and every fixup node has its counterpart; it then handles exactly the listed cells, once for each offset |
| OverlayApply.Blob.AddOffsetTo | 3rd/dtc/libfdt/fdt_overlay.c:101-121 | one phandle property is shifted as specified, or the specified error is returned and nothing changes |
| OverlayApply.Blob.AddOffsets | 3rd/dtc/libfdt/fdt_overlay.c:142-148 | one node's phandle properties are shifted as specified, or the specified error is returned |
| OverlayApply.Blob.AdjustNodePhandles | 3rd/dtc/libfdt/fdt_overlay.c:136-158 | the recursion and its child loop shift as specified |
| OverlayApply.Blob.UpdateReferences | 3rd/dtc/libfdt/fdt_overlay.c:201-269 | the walk over the fixups rewrites exactly the listed cells, for the shift and for the replacement alike, and refuses ragged lists and missing properties and nodes |
| OverlayApply.Blob.AdjustConflictingPhandle | 3rd/dtc/libfdt/fdt_overlay.c:509-533 | both phandle properties that hold a word are overwritten |
| OverlayApply.Blob.PreventOverwriteNode | 3rd/dtc/libfdt/fdt_overlay.c:654-698 | the recursion takes over base phandles as specified, at the nodes of `OverlayNames.VisitsAreMerges` |
| OverlayApply.Blob.ApplyTo | 3rd/dtc/libfdt/fdt_overlay.c:1040-1070 | the phases in order are the specified renaming |

## Left out

- Exit, ReapTask, Clone and Wait of the task manager, and the task control block's destructor: Exit wakes waiters under a lock that Wakeup takes again, and Clone marks a task ready before AddTask asserts that it is not.
- The mutex: the failed exchange lies outside the interrupt-off region, so no wakeup guarantee holds.
- SpinLock.PairRestores: the pair is undisturbed; under contention the interrupt flag need not come back, which `SpinLock.PairRestoresExactly` states exactly.
- The context switch, and the interrupt window of Schedule between unlocking and switching: every run-queue operation is one step.
- Load balancing, CPU affinity, the pid table, per-policy statistics and the idle time counter: single-branch bookkeeping.
- The wrap of 64-bit ring counters and vruntimes, and weak memory order: counters are natural numbers and atomic accesses are sequentially consistent.
- The TLB and the entry formats of x86-64 and AArch64: the RISC-V format stands for them; a null table pointer inside a tree cannot occur and has no branch.
- PageFree.FreeTableDone: when frames are freed with a directory, no live table may lie in one of them, because the code would hand that table to `aligned_free` as a frame and again as a table.
- AddressSpaces.DestroyRefines: asks the same of the caller.
- Constructing VirtualMemory maps physical memory at boot through MapMMIO; only MapMMIO is modelled.
- realloc, the other allocators and the locks of bmalloc: the bump allocator reports every block size as 0.
- Cfs.ProportionalShare: the set of runnable tasks is fixed; with sleepers shares are not proportional, because a task that slept keeps its vruntime and ticks that wake a task are not charged (`CfsSleepers.ServiceExactly`).
- CfsSleepers.ServiceExactly: a task leaves only while another is queued, so that the core never idles; no task is at vruntime zero, which Enqueue takes for a new one.
- RunQueueLimits.BoundedWaitingExactly: a RealTime task that sleeps and is due before the bound is excluded; whether the waiting task runs before it depends on the slices still to be used up.
- Bmalloc.AlignedExact: asks that no sum wraps; `Bmalloc.AlignedInsideIffNoWrap` is the statement without that.
- FdtBlob.FromBlob: blobs of versions before 16 are not read, and versions 1 to 3 are not written; labels and markers of the live tree carry no bytes of the blob.
- LibFdt.CheckFull: unfinished sequential-write blobs and builds with relaxed checks are not modelled.
- OverlayProofs.LocalReferencesKept: cells are words at offsets and do not overlap in part. A local fixup for a phandle property is excluded because the walk over the overlay shifts that fixup's own offset by the same delta (it, too, is a property of that name), so that the write goes elsewhere.
- OverlayNames.NoCapture: excludes references into the phandle properties of the node; `OverlayProofs.CapturedExactly` says what they do.
- OverlayApply.Blob.UpdateReferences: offsets beyond a property, which the code does not check, have no branch, and reading errors of a damaged blob have none.
- OverlayApply.Blob.PreventOverwriteNode: the base is a tree and a lookup in it does not fail for other reasons than a missing name.
- OverlayApply.Blob.ApplyTo: the targets of fragments and the values of external references are parameters; a fragment whose target cannot be resolved for another reason than a missing node, and the errors of symbol resolution, are not modelled.
- Overlay merging and symbol updates.
- Architecture code, drivers, OpenSBI calls, logging, the ELF and FDT wrappers, dtc's checks, YAML and command-line tools.
