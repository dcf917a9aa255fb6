# RT-Thread kernel core: a verified model

The MLX90640 application is a board support project around the RT-Thread kernel. This project
models the parts of that kernel on which everything else rests, proves what they promise, and
names the places where the code does less than it seems to.

| part | source | modules |
|---|---|---|
| Mutexes with transitive priority inheritance | ipc.c | PriorityInheritance, MutexOperations, MutexRuns, MutexTwoStep, MutexHolds, MutexKernel, MutexCounterexamples |
| Doubly linked lists | rtservice.h | RtList |
| memheap allocator, one heap and all of them | memheap.c | HeapBlocks, HeapMemory, HeapRuns, HeapSizes, MemHeap, MemHeaps |
| Small-memory allocator | mem.c | SmallBlocks, SmallRuns, SmallSizes, SmallBytes, SmallMem |
| Message queue, mailbox, event, memory pool | ipc.c, mempool.c | WaitQueue, BoundedDeque, SinglyLinked, MessageQueue, MessageQueueCalls, MessageQueueObject, Mailbox, MailboxCalls, MemPool, MemPoolCalls, EventObject |
| Uniprocessor scheduler and time slices | scheduler_up.c, clock.c, kservice.c | Bits, ReadyTable, UpScheduler, UpCalls, RoundRobin, UpKernel |
| Multiprocessor scheduler and its locks | scheduler_mp.c, cpu.c | SmpScheduler, SmpRuns, SmpCalls, SmpKernel, SmpCounterexamples |
| Formatted output | kservice.c | NumberText, NumberLayout, Printf, PrintfText |

Each part has the same build. A datatype holds the abstract state; functions on it are the
critical sections of the code; lemmas prove that every one of them keeps the invariant, and a run
lemma (`EveryRun` and its like) draws the conclusion for every reachable state. Beside that stands
a class with the fields of the C structure. Its methods have the branches and loops of the C
functions, update the fields in place, and are proved to take the abstract state exactly where the
functions say. A third kind of module (`MutexHolds`, `HeapSizes`, `SmallSizes`, `PrintfText` and those
ending in `Calls`) says what the functions mean without naming them: counts of calls, sizes of blocks, the
messages callers pass, the texts of conversions. Locks, interrupt masking and context switches are atomic steps; the interleaving
between steps is arbitrary.

`dafny verify dfyconfig.toml` checks everything.

## What to know before reading

- Sizes are those of the 32-bit target: headers of 24 bytes (memheap) and 16 bytes (mem.c),
  alignment 8, 32 priorities, 32-bit `int` and `long`.
- Lower numbers are more urgent priorities.
- `thread.c` is used through what its functions do to the state shown here: suspend, resume,
  time-out, change of priority, yield.
- Reading a thread's priority in a wait list is a parameter (`priority: Tid -> nat`) in
  `WaitQueue.ListSuspend`; the step machines allow every place in the list.
- Flag words of the event object are sets of bit numbers; `&`, `|` and `& ~` are intersection,
  union and difference.
- `locks` and `preempts` in `SmpScheduler.Thread` count calls that have not been undone. The kernel
  does not store them; the accounting law is about them.

## Where the code surprises

- A take that times out compares priorities only when it runs again (`ipc.c:1320`). If it was
  boosted in between, the owner keeps the old boost, and keeps it even after it has released the
  mutex: `MutexCounterexamples.BoostOutlivesMutex` is such a run. `MutexOperations.CleanUpExact`
  gives the exact condition under which the cleanup is right, and `MutexTwoStep.EveryRunUrgent`
  what is left of inheritance in every run: a thread may be too urgent, never not urgent enough.
- Threads that deadlock on each other keep a boost after its originator has left:
  `MutexCounterexamples.DeadlockKeepsBoost`. Otherwise a boost always has a blocked originator:
  `MutexRuns.PriorityHasReason`.
- `rt_schedule` on one processor does not clear the yield mark of a thread that stays on
  (`scheduler_up.c:339-343`), so a slice that ends without peers costs the thread a later turn:
  `RoundRobin.MarkCostsTurn`, and `RoundRobin.AloneCostsTurn` for one state. The multiprocessor
  scheduler does clear it.
- The two corrections of `lfree` inside `plug_holes` never act (`SmallBlocks.JoinBase`), and neither
  does the correction of `scheduler_lock_nest` to 0 in `rt_exit_critical` (`SmpRuns.ExitInv`).
- The comment on `rt_vsnprintf` says that the number of characters written is returned. The code
  returns the length of the unlimited output, as section 7.19.6.12 of ISO C99 asks.
- A field width in `%s` also limits the string, which C does not ask for: `Printf.ShownWhole` says
  exactly when the whole string is shown, `Printf.WidthCuts` shows `%3s` cutting one.
- A precision of 0 suppresses every number, not only 0 (`PrintfText.NothingShown`), and `#` puts its
  prefix in front of 0 as well (`PrintfText.PrefixedZero`); C asks for neither.
- Threads that wait for a memory pool are put at the front of its list (`mempool.c:354`), so the last
  sleeper is woken first: `MemPoolCalls.LastSleeperFirst`.
- `rt_mp_init` with a region smaller than one block writes its list terminator in front of the
  region: `MemPool.InitInside` gives the exact condition, `MemPool.TooSmallRegion` one region.
- `rt_memheap_init` does not check that its region holds two headers: `HeapBlocks.InitFits` and
  `HeapBlocks.InitTooSmall`.
- A wait and a send on the same event do not always commute: a waiter woken by the same send may
  clear a flag that a later receive would have seen. `EventObject.WaitCommutesWithSend` gives the
  exact condition, `EventObject.WaitDiffers` an event at which they differ.
- `rt_smem_realloc` to a smaller size can return null: a block too small to be cut in two is
  allocated anew, which fails in a full heap although the block already holds the size.
  `SmallRuns.ReallocFails` gives the exact condition, `SmallRuns.ShrinkRefused` a heap.
- `rt_schedule` inside nested calls of `rt_cpus_lock` still switches, because they count once in
  `scheduler_lock_nest`; the spinlock goes with the CPU and may be given up in the middle of the
  outer call: `SmpRuns.SwitchIsSafe`, and `SmpCounterexamples.SwitchInsideLock` for a run.
- `rt_scheduler_do_irq_switch` asserts only that `cpus_lock_nest` is positive, but its decrements
  are right if and only if exactly one lock is outstanding (`SmpRuns.IrqSwitchInv`,
  `SmpCounterexamples.IrqSwitchInsideLock`). Interrupts are off inside `rt_cpus_lock`, which is what
  keeps the count at one there; interrupt masks are not part of this model.

## Model

| member | source | states |
|---|---|---|
| MutexRuns.EveryRunInherits | MLX90640/rt-thread/src/ipc.c:751-845 | In every run of take, nested take, release, timeout and unrelated sleeping, every thread runs at the minimum of its own priority and the cached priorities of the mutexes it holds, every cached priority is the minimum over that mutex's sorted waiters, and the last thread of any blocking chain is at least as urgent as the first. |
| MutexRuns.ChainUrgent | MLX90640/rt-thread/src/ipc.c:792-845 | Along a chain of blocked threads of any length the final owner is at least as urgent as the first waiter. |
| MutexRuns.PriorityHasReason | MLX90640/rt-thread/src/ipc.c:769-789 | The partner of inheritance: a boosted priority always comes from somewhere. It is the initial priority of a thread transitively blocked on the boosted one, unless the chain of blockers runs into a cycle. |
| MutexCounterexamples.DeadlockKeepsBoost | MLX90640/rt-thread/src/ipc.c:792-845 | The exception is real: a run after which two deadlocked threads keep a boost whose originator has timed out and left. |
| MutexCounterexamples.StuckChain | MLX90640/rt-thread/src/ipc.c:1341-1350 | In that state no thread blocked on the boosted one has the boosted priority as its own. |
| PriorityInheritance.Propagate | MLX90640/rt-thread/src/ipc.c:792-845 | Propagation terminates on every wait-for graph, cyclic or not, and restores the whole invariant. |
| PriorityInheritance.RoundMovesSum | MLX90640/rt-thread/src/ipc.c:802-844 | A round that goes on moves the sum of current_priority strictly: down and never below 0 when raising, up and never above the sum of init_priority when lowering. |
| PriorityInheritance.PropagateRound | MLX90640/rt-thread/src/ipc.c:802-844 | One round ends in a consistent state or hands the same situation, in the same direction, to the next owner. |
| PriorityInheritance.PropagateMoves | MLX90640/rt-thread/src/ipc.c:792-845 | One call moves every thread's priority in one direction only. |
| PriorityInheritance.PropagateShape | MLX90640/rt-thread/src/ipc.c:792-845 | Propagation changes priorities and queue order only: owners, holds, waiter sets and wait-for edges stay. |
| PriorityInheritance.BestPriorityBound | MLX90640/rt-thread/src/ipc.c:769-789 | The loop over the taken list computes a lower bound that is attained: a minimum. |
| PriorityInheritance.InsertSorted | MLX90640/rt-thread/src/ipc.c:153-178 | Insertion before the first less urgent waiter keeps the queue sorted. |
| PriorityInheritance.RequeueCached | MLX90640/rt-thread/src/ipc.c:812-822 | Taking a blocked thread out of its mutex queue and putting it back at its new priority restores order and cached priority. |
| MutexOperations.TakeFreeInv | MLX90640/rt-thread/src/ipc.c:1218-1235 | Taking a free mutex keeps the invariant. |
| MutexOperations.TakeBlocked | MLX90640/rt-thread/src/ipc.c:1249-1279 | Blocking on a held mutex, with all the propagation it causes, keeps the invariant. |
| MutexOperations.ReleaseFreeInv | MLX90640/rt-thread/src/ipc.c:1466-1532 | Giving up the last hold of a mutex nobody waits for keeps the invariant, although the priority is recomputed only when it equals the mutex priority. |
| MutexOperations.HandOverInv | MLX90640/rt-thread/src/ipc.c:1466-1526 | Handing a mutex to its first waiter keeps the invariant. |
| MutexOperations.NewOwnerBest | MLX90640/rt-thread/src/ipc.c:1489-1523 | The new owner needs no boost: it was the most urgent waiter. |
| MutexOperations.CleanUpExact | MLX90640/rt-thread/src/ipc.c:1309-1350 | The cleanup of a take that was cut short restores the invariant if and only if the mutex is free, or the guard of its update holds, or no waiter left is more urgent than the owner and the owner does not run on the stale cached priority alone (the cached priority differs from the owner's, or equals the new head's, or the owner's initial one, or is cached in another mutex it holds). |
| MutexOperations.ExpireThenCleanUp | MLX90640/rt-thread/src/ipc.c:1301-1361 | When nothing happens between the timer and the cleanup, that condition holds and the invariant is restored. |
| MutexCounterexamples.CleanUpTooLate | MLX90640/rt-thread/src/ipc.c:1320-1350 | When the leaving thread is boosted between the timer and its cleanup, the owner keeps a priority for which there is no waiter left. |
| MutexCounterexamples.Overtake | MLX90640/rt-thread/src/ipc.c:1249-1279 | One step of that run: another thread blocks on a mutex the expired thread holds and boosts it. |
| MutexCounterexamples.NestedReached | MLX90640/rt-thread/src/ipc.c:1218-1279 | The state before it is reached from freshly initialised threads and mutexes by three takes. |
| MutexCounterexamples.FinishLate | MLX90640/rt-thread/src/ipc.c:1320-1350 | Another step: the cleanup skips its update and the owner stays boosted with nobody waiting. |
| MutexCounterexamples.BoostOutlivesMutex | MLX90640/rt-thread/src/ipc.c:1301-1480 | A whole run, from initialisation on, after which a thread holds no mutex, blocks nobody and still runs at 10 instead of 20. |
| MutexRuns.TakeStep | MLX90640/rt-thread/src/ipc.c:1175-1281 | Every outcome of a take (recursion, overflow of the hold count, free, no waiting, blocking) keeps the invariant. What each outcome does to owner and hold is MutexHolds.HoldCounts, to the caller MutexHolds.TakeWaits. |
| MutexRuns.ReleaseStep | MLX90640/rt-thread/src/ipc.c:1426-1543 | Every outcome of a release (not the owner, nested, last hold with and without waiters) keeps the invariant. |
| MutexRuns.TimeoutStep | MLX90640/rt-thread/src/ipc.c:1301-1361 | A timed-out take keeps the invariant. |
| MutexHolds.HoldCounts | MLX90640/rt-thread/src/ipc.c:1203-1543 | In every run, hold of a mutex is the number of takes of its owner that succeeded since it became the owner, up to the limit of 255, less the number of its releases since then; the count looks at calls and owners only. |
| MutexHolds.OwnerLeaves | MLX90640/rt-thread/src/ipc.c:1466-1532 | After every run a mutex leaves its owner at one step only, the owner's release when that count stands at one; it then belongs to the first waiter, or to nobody if there is none. |
| MutexHolds.TakesAndReleases | MLX90640/rt-thread/src/ipc.c:1175-1543 | A free mutex taken k times in a row (k up to 255) is still owned after j < k releases, with hold k - j; the k-th release frees it or hands it to the first waiter. |
| MutexHolds.TakeWaits | MLX90640/rt-thread/src/ipc.c:1238-1279 | A take of a mutex owned by somebody else leaves the caller asleep among the waiters, or changes nothing if it does not wait. |
| MutexHolds.ReleaseWakes | MLX90640/rt-thread/src/ipc.c:1486-1526 | The last release wakes the first waiter, who runs with the mutex on its taken list; the others wait on in their order. |
| MutexHolds.TimeoutLeaves | MLX90640/rt-thread/src/ipc.c:1301-1361 | A take that times out leaves its caller running and off the queue, and takes nobody else off it. |
| MutexHolds.TwoHoldCounts | MLX90640/rt-thread/src/ipc.c:1175-1543 | Both statements about counts and owners hold when other threads run between the expiry of a take and its cleanup. |
| MutexTwoStep.EveryRunUrgent | MLX90640/rt-thread/src/ipc.c:751-1543 | With the expiry of a take and its cleanup as separate steps, in every run: every queue is sorted, every cached priority is at least as urgent as the head of its queue, every thread at least as urgent as its own priority and what its mutexes cache, and the last thread of a chain of blocked threads at least as urgent as everyone in it. |
| MutexTwoStep.Propagate | MLX90640/rt-thread/src/ipc.c:792-845 | Propagation terminates on every wait-for graph also when it meets stale boosts, and restores that weaker invariant. |
| MutexTwoStep.WeakRound | MLX90640/rt-thread/src/ipc.c:802-844 | A round may turn a raise into a lowering, but never a lowering into a raise, so the direction changes at most once. |
| MutexTwoStep.PropagateShape | MLX90640/rt-thread/src/ipc.c:792-845 | Also then it changes priorities and queue order only. |
| MutexTwoStep.TakeBlocked | MLX90640/rt-thread/src/ipc.c:1249-1279 | Blocking on a held mutex keeps the weaker invariant, with both tests of the code before the propagation. |
| MutexTwoStep.HandOverWeak | MLX90640/rt-thread/src/ipc.c:1466-1526 | So does the hand-over to the first waiter. |
| MutexTwoStep.ExpireWeak | MLX90640/rt-thread/src/thread.c:131-160 | So does the expiry: the cached priority goes stale in the urgent direction only. |
| MutexTwoStep.CleanUp | MLX90640/rt-thread/src/ipc.c:1309-1350 | So does the cleanup, whatever has happened since the expiry. |
| MutexTwoStep.LastReleaseDrops | MLX90640/rt-thread/src/ipc.c:1466-1480 | Giving back its last mutex brings a thread down to its initial priority if and only if it ran on the priority cached there, or unboosted. |
| MutexTwoStep.PropagateAgrees | MLX90640/rt-thread/src/ipc.c:792-845 | With the inheritance equations in force the loop does what PriorityInheritance.Propagate says. |
| MutexTwoStep.TakeAgrees | MLX90640/rt-thread/src/ipc.c:1175-1281 | And a take is the take of MutexRuns. |
| MutexTwoStep.ReleaseAgrees | MLX90640/rt-thread/src/ipc.c:1426-1543 | A release is the release of MutexRuns. |
| MutexTwoStep.TimeoutAgrees | MLX90640/rt-thread/src/ipc.c:1301-1361 | An expiry followed at once by its cleanup is the one timeout step of MutexRuns. |
| MutexKernel.Kernel.ListInsert | MLX90640/rt-thread/src/ipc.c:153-178 | The search loop puts the thread exactly where InsertByPriority puts it. |
| MutexKernel.Kernel.MutexUpdatePriority | MLX90640/rt-thread/src/ipc.c:751-766 | The cached priority is set to that of the first waiter, or to 0xff without waiters. |
| MutexKernel.Kernel.GetMutexPriority | MLX90640/rt-thread/src/ipc.c:769-789 | The loop returns the best priority the thread inherits, a bound that is attained. |
| MutexKernel.Kernel.UpdatePriority | MLX90640/rt-thread/src/ipc.c:792-845 | The while loop refines Propagate and leaves the invariant. |
| MutexKernel.Kernel.Take | MLX90640/rt-thread/src/ipc.c:1175-1281 | The in-place code up to its first rt_schedule is TakeStep, with the status the code returns; MutexHolds says what TakeStep comes to. |
| MutexKernel.Kernel.Release | MLX90640/rt-thread/src/ipc.c:1426-1543 | The in-place code is ReleaseStep; it fails exactly for a thread that is not the owner. |
| MutexKernel.Kernel.WakeFirst | MLX90640/rt-thread/src/ipc.c:1486-1526 | The in-place hand-over. |
| MutexKernel.Kernel.TakeTimeout | MLX90640/rt-thread/src/ipc.c:1301-1361 | Expiry and cleanup in place are TimeoutStep. |
| RtList.InsertAfterRing | MLX90640/rt-thread/include/rtservice.h:58-65 | Inserting after a node of a ring gives the ring with the new node behind it. |
| RtList.InsertBeforeRing | MLX90640/rt-thread/include/rtservice.h:73-80 | Inserting before the head appends to the list. |
| RtList.UnlinkRing | MLX90640/rt-thread/include/rtservice.h:86-92 | The two writes of a removal give the ring without the node. |
| RtList.RemoveInserted | MLX90640/rt-thread/include/rtservice.h:58-92 | Removing a node just inserted restores the ring and leaves the node in a ring of its own. |
| RtList.RingFrame | MLX90640/rt-thread/include/rtservice.h:47-92 | Writing links of nodes outside a ring leaves the ring alone. |
| RtList.ListLen | MLX90640/rt-thread/include/rtservice.h:107-118 | The loop counts the nodes other than the head. |
| HeapRuns.EveryRun | MLX90640/rt-thread/src/memheap.c:79-719 | After any sequence of alloc, realloc and free: blocks tile the pool at aligned addresses, free neighbours are merged, the free list holds each free block once, every block has at least MINIALLOC bytes, available_size is the sum of the free blocks, max_used_size is the running maximum, and with nothing live the pool is one free block. |
| HeapRuns.AllocExact | MLX90640/rt-thread/src/memheap.c:197-309 | An allocation succeeds if and only if the adjusted size is strictly below available_size and some free block holds it; it then returns a new block of at least the adjusted size and less than a header and a minimal block more, and moves no other. |
| HeapSizes.AllocSizes | MLX90640/rt-thread/src/memheap.c:226-309 | A free block with room for a header and a minimal block more is cut: the block given out has exactly the adjusted size, the rest is free and first in the free list, and available_size falls by the adjusted size and one header. Otherwise the block is given out whole and available_size falls by its size. |
| HeapSizes.ReallocSizes | MLX90640/rt-thread/src/memheap.c:362-585 | Every realloc that succeeds leaves a block of at least the adjusted size and at most a header and a minimal block more; in place it has exactly that size unless nothing was changed. |
| HeapSizes.StaysInPlace | MLX90640/rt-thread/src/memheap.c:393-448 | A block that is large enough is never moved; one followed by a free block with which it has more than the size and MINIALLOC together grows in place to exactly the size. |
| HeapSizes.ResizeAccounts | MLX90640/rt-thread/src/memheap.c:388-541 | Growing in place takes the difference from available_size; cutting the end off gives back the difference, less a header if the end does not merge with a free neighbour. |
| HeapSizes.FreedIsNext | MLX90640/rt-thread/src/memheap.c:594-719 | A block freed behind a used one heads the free list, so it is what the next allocation it is large enough for returns. |
| HeapRuns.ReallocFails | MLX90640/rt-thread/src/memheap.c:362-585 | A realloc of a live block to a nonzero size returns null if and only if the block is too small, cannot grow into the next one, and no free block can serve the size. |
| HeapRuns.ReallocIsSteps | MLX90640/rt-thread/src/memheap.c:362-585 | Every realloc is a resize in place or an allocation and a free, so the runs cover it. |
| HeapBlocks.RequestLeast | MLX90640/rt-thread/src/memheap.c:196-199 | A request is served with the least aligned size that holds it and 12 bytes. |
| HeapRuns.RunPeak | MLX90640/rt-thread/src/memheap.c:285-297 | max_used_size is the running maximum of pool_size - available_size. |
| HeapRuns.NothingLive | MLX90640/rt-thread/src/memheap.c:642-708 | Coalescing is total: with every block freed the pool is one free block of pool_size - 2 * RT_MEMHEAP_SIZE. |
| HeapBlocks.InitInv | MLX90640/rt-thread/src/memheap.c:79-154 | Initialisation establishes the invariant. |
| HeapBlocks.InitFits | MLX90640/rt-thread/src/memheap.c:79-154 | The two headers written by initialisation lie in the region, one behind the other, if and only if the aligned size is at least two headers; the code does not check. |
| HeapBlocks.InitTooSmall | MLX90640/rt-thread/src/memheap.c:93-142 | A region of 40 bytes at which they overlap. |
| HeapBlocks.FirstFitExact | MLX90640/rt-thread/src/memheap.c:221-232 | The search finds the first fitting block of the free list, or none fits. |
| HeapBlocks.SplitInv | MLX90640/rt-thread/src/memheap.c:239-291 | Splitting a free block keeps the invariant. |
| HeapBlocks.WholeInv | MLX90640/rt-thread/src/memheap.c:292-312 | Using a free block whole keeps the invariant. |
| HeapBlocks.FreeInv | MLX90640/rt-thread/src/memheap.c:594-719 | Freeing with both merges keeps the invariant. |
| HeapBlocks.GrowInv | MLX90640/rt-thread/src/memheap.c:414-484 | Growing into the next free block keeps the invariant. |
| HeapBlocks.ShrinkInv | MLX90640/rt-thread/src/memheap.c:504-585 | Giving back the end of a block, merged with a free successor, keeps the invariant. |
| HeapMemory.PayloadAvoidsHeaders | MLX90640/rt-thread/src/memheap.c:42-44 | No payload byte of a block belongs to any header. |
| HeapMemory.PayloadsDisjoint | MLX90640/rt-thread/src/memheap.c:42-44 | Payloads of different blocks do not overlap. |
| HeapMemory.ContentsStep | MLX90640/rt-thread/src/memheap.c:187-719 | An operation that writes headers only keeps the bytes of every live block but the one it works on. |
| HeapMemory.SameButIff | MLX90640/rt-thread/src/memheap.c:187-719 | That is equality of the maps from live blocks to contents, apart from one key. |
| HeapMemory.CopyContents | MLX90640/rt-thread/src/memheap.c:494-499 | The copy of a moving realloc changes the contents of its target only, and the bytes arrive. |
| MemHeap.RtMemHeap.constructor | MLX90640/rt-thread/src/memheap.c:79-154 | Links, marks and counters are set up for one free block and the tailer. |
| MemHeap.RtMemHeap.Alloc | MLX90640/rt-thread/src/memheap.c:187-347 | In-place search, split and relinking take the heap exactly where the Alloc step of HeapRuns says, max_used_size included; null if and only if the adjusted size is not below available_size or no free block holds it; the block is new and the first that fits, and every other live block keeps its bytes. How large that block is, and what is left, is HeapSizes.AllocSizes. |
| MemHeap.RtMemHeap.Search | MLX90640/rt-thread/src/memheap.c:221-232 | The free-list loop stops at the first fitting block. |
| MemHeap.RtMemHeap.Free | MLX90640/rt-thread/src/memheap.c:594-719 | Marking, merging and relinking in place: the heap after the Free step, the block gone and every other live block with its bytes. |
| MemHeap.RtMemHeap.MergeLeft | MLX90640/rt-thread/src/memheap.c:647-664 | The merge with a free predecessor. |
| MemHeap.RtMemHeap.MergeRight | MLX90640/rt-thread/src/memheap.c:666-684 | The merge with a free successor. |
| MemHeap.RtMemHeap.RemoveNext | MLX90640/rt-thread/src/memheap.c:46-54 | Taking a block out of both lists. |
| MemHeap.RtMemHeap.GrowBlock | MLX90640/rt-thread/src/memheap.c:431-483 | Growing in place rewrites both lists as GrowAt says. |
| MemHeap.RtMemHeap.ShrinkBlock | MLX90640/rt-thread/src/memheap.c:520-575 | Shrinking in place rewrites both lists as ShrinkAt says. |
| MemHeap.RtMemHeap.Realloc | MLX90640/rt-thread/src/memheap.c:362-585 | The heap after ReallocStep, with the null result of ReallocFails; a non-null result holds the first min(old, new) bytes on the grow, shrink, unchanged and copy paths; a null result for a nonzero size changes nothing; other live blocks keep their bytes. |
| MemHeap.RtMemHeap.ReallocMove | MLX90640/rt-thread/src/memheap.c:493-501 | The allocate, copy and free path. |
| MemHeap.RtMemHeap.CopyPayload | MLX90640/rt-thread/src/memheap.c:494-499 | The copy loop. |
| MemHeap.RtMemHeap.CopyFrom | MLX90640/rt-thread/src/memheap.c:848-851 | The copy loop between two heaps. |
| MemHeaps.MemheapAlloc | MLX90640/rt-thread/src/memheap.c:773-808 | Over any number of heaps with pools apart: the system heap is asked first and then the others in list order; null if and only if none of them can serve the adjusted size, and then nothing changes; otherwise the first one that can gives the block and no other heap changes. |
| MemHeaps.AskOthers | MLX90640/rt-thread/src/memheap.c:790-805 | The loop over the object list, which skips the system heap. |
| MemHeaps.MemheapFree | MLX90640/rt-thread/src/memheap.c:813-816 | The block goes back to the heap it came from; every other live block of every heap keeps its bytes. |
| MemHeaps.MemheapRealloc | MLX90640/rt-thread/src/memheap.c:821-860 | All outcomes: allocation for a null pointer, free for size 0, resize in the block's own heap, or allocation in another heap, copy and free. |
| MemHeaps.ReallocatedMemory | MLX90640/rt-thread/src/memheap.c:821-860 | What rt_realloc means for the map of all live blocks: null if and only if neither the block's own heap nor any other can give the size, and then the map is unchanged; otherwise the new block holds the first min(old, new) bytes, in the same heap or in another, and every other live block of every heap is as it was. |
| MemHeaps.AllocatedMemory | MLX90640/rt-thread/src/memheap.c:773-808 | rt_malloc adds exactly one new block of at least the requested size to the map, or leaves the map alone. |
| MemHeaps.FreedMemory | MLX90640/rt-thread/src/memheap.c:813-816 | rt_free takes exactly one block out of the map. |
| MemHeaps.CarryOver | MLX90640/rt-thread/src/memheap.c:838-856 | The copy and free of the cross-heap path, in place. |
| MemHeaps.MemoryAt | MLX90640/rt-thread/src/memheap.c:813-860 | The map of all live blocks shows every block with the bytes it has in its heap; a live block belongs to exactly one heap. |
| MemHeaps.PoolPtrHome | MLX90640/rt-thread/src/memheap.c:834-837 | The header of a live block leads back to the heap in which the block is live. |
| SmallRuns.EveryRun | MLX90640/rt-thread/src/mem.c:128-558 | After any sequence of alloc, realloc and free: blocks tile the heap, no two neighbours are free, lfree is the lowest free block or heap_end, used is the sum of next - offset over the used blocks and at most max, and with nothing live the heap is one free block. |
| SmallRuns.AllocComplete | MLX90640/rt-thread/src/mem.c:305-408 | A nonzero request gets null if and only if no free block holds the aligned size. |
| SmallRuns.AllocFresh | MLX90640/rt-thread/src/mem.c:318-404 | A successful request returns an aligned pointer that was not live, with room for the request, and no other live block moves. |
| SmallSizes.AllocSizes | MLX90640/rt-thread/src/mem.c:283-400 | The block given out is the first in the heap that fits. It has exactly the aligned size, with a free block behind it, if there is room for a header and a minimal block; otherwise it is given whole. `used` grows by the block and its header. |
| SmallSizes.AllocTight | MLX90640/rt-thread/src/mem.c:325-362 | So it is less than a header and a minimal block larger than the aligned size. |
| SmallSizes.InPlaceExact | MLX90640/rt-thread/src/mem.c:459-496 | A block resized in place has exactly the aligned size. |
| SmallSizes.RunPeak | MLX90640/rt-thread/src/mem.c:283-571 | In every run `max` is the running maximum of `used`, including the moment inside a moving realloc at which both blocks are in use. |
| SmallRuns.ReallocFails | MLX90640/rt-thread/src/mem.c:421-510 | rt_smem_realloc returns null if and only if the aligned size is 0 or above the heap size, or no free block holds it and the live block is neither of that very size nor larger by enough to be cut. |
| SmallRuns.ShrinkRefused | MLX90640/rt-thread/src/mem.c:468-507 | A full heap in which shrinking a block of 32 bytes to 24 fails. |
| SmallBlocks.DataSizeLeast | MLX90640/rt-thread/src/mem.c:304-309 | A request is served with the least aligned size that holds it and MIN_SIZE bytes. |
| SmallRuns.FreeOthers | MLX90640/rt-thread/src/mem.c:516-558 | Freeing ends exactly one live block; all others keep their extent. |
| SmallRuns.ShrinkOthers | MLX90640/rt-thread/src/mem.c:468-496 | Shrinking leaves exactly the requested bytes and moves no other live block. |
| SmallBlocks.InitInv | MLX90640/rt-thread/src/mem.c:219-240 | Initialisation establishes the invariant. |
| SmallBlocks.PlugInv | MLX90640/rt-thread/src/mem.c:128-166 | plug_holes around one newly freed block restores the merging and lfree. |
| SmallBlocks.JoinBase | MLX90640/rt-thread/src/mem.c:144-164 | The lfree corrections inside plug_holes are never needed: the block merged away is never the lowest free one. |
| SmallBlocks.AllocInv | MLX90640/rt-thread/src/mem.c:324-393 | Allocation with or without a split keeps the invariant, lfree included. |
| SmallBlocks.FreeInv | MLX90640/rt-thread/src/mem.c:516-558 | Freeing keeps the invariant. |
| SmallBlocks.ShrinkInv | MLX90640/rt-thread/src/mem.c:468-496 | Shrinking keeps the invariant, for blocks down to 8 bytes of data. |
| SmallBlocks.LowestUnmark | MLX90640/rt-thread/src/mem.c:548-552 | The lower of the freed block and the old lfree is the lowest free block. |
| SmallMem.MemSizeFits | MLX90640/rt-thread/src/mem.c:187-205 | The aligned heap, both end headers included, lies within the region given to rt_smem_init. |
| SmallMem.SmallMemory.constructor | MLX90640/rt-thread/src/mem.c:179-242 | The headers at both ends and the counters of a fresh heap. |
| SmallMem.SmemInit | MLX90640/rt-thread/src/mem.c:179-242 | Null if and only if the region has no room for both end headers; otherwise a fresh heap. |
| SmallMem.SmallMemory.Search | MLX90640/rt-thread/src/mem.c:318-324 | The loop from lfree to mem_size_aligned - size finds the first fitting block of the whole heap. |
| SmallMem.NoneFrom | MLX90640/rt-thread/src/mem.c:318-320 | Stopping behind mem_size_aligned - size misses nothing. |
| SmallMem.SmallMemory.AdvanceFree | MLX90640/rt-thread/src/mem.c:386-392 | The lfree loop ends at the lowest free block or heap_end. |
| SmallMem.SmallMemory.PlugHoles | MLX90640/rt-thread/src/mem.c:128-166 | The in-place merges keep next and prev correct (the prev of heap_end excepted) and are Plug. |
| SmallMem.SmallMemory.Alloc | MLX90640/rt-thread/src/mem.c:280-408 | The in-place code is AllocStep; every live block keeps its bytes, and a failure changes nothing. |
| SmallMem.SmallMemory.Free | MLX90640/rt-thread/src/mem.c:516-558 | The in-place code is FreeStep; every other live block keeps its bytes, and a null pointer changes nothing. |
| SmallMem.SmallMemory.Realloc | MLX90640/rt-thread/src/mem.c:422-507 | The in-place code is ReallocStep (size limit, free on 0, same size, shrink, or allocate, copy and free); a result for a live pointer holds its first min(old, new) bytes, a failure changes no byte, and other live blocks keep theirs. |
| SmallMem.SmallMemory.ShrinkBlock | MLX90640/rt-thread/src/mem.c:468-496 | The splitting path, in place: the bytes that remain are untouched. |
| SmallMem.SmallMemory.Move | MLX90640/rt-thread/src/mem.c:498-507 | The moving path, in place. |
| SmallBytes.PayloadOutside | MLX90640/rt-thread/src/mem.c:92-103 | No payload byte of a block belongs to any header. |
| SmallBytes.PayloadsDisjoint | MLX90640/rt-thread/src/mem.c:92-103 | Payloads of different blocks do not overlap. |
| SmallBytes.IntactStep | MLX90640/rt-thread/src/mem.c:280-558 | Writing old and new headers leaves the payload of every block that stays where it is. |
| SmallBytes.MoveResult | MLX90640/rt-thread/src/mem.c:498-507 | Allocate, copy and free together move a block with its bytes and nothing else. |
| SmallMem.SpliceInLinked | MLX90640/rt-thread/src/mem.c:342-359 | A split keeps the offset links correct. |
| SmallMem.SpliceOutLinked | MLX90640/rt-thread/src/mem.c:148-164 | A merge keeps the offset links correct. |
| WaitQueue.TakeCovered | MLX90640/rt-thread/src/ipc.c:3714-3728 | A thread that looks and takes one unit keeps every other unit covered by a woken thread. |
| WaitQueue.SuspendCovered | MLX90640/rt-thread/src/ipc.c:3644-3670 | A thread goes to sleep only when nothing is left to be covered. |
| WaitQueue.WakeCovered | MLX90640/rt-thread/src/ipc.c:3389-3399 | One more unit and one wake-up keep the balance. |
| WaitQueue.ListSuspend | MLX90640/rt-thread/src/ipc.c:131-187 | The thread goes to the end (FIFO) or before the first less urgent one (PRIO). |
| WaitQueue.WakesInOrder | MLX90640/rt-thread/src/ipc.c:209-228 | k wake-ups wake the first k sleepers of the list, and the others sleep on in their order. |
| WaitQueue.ResumeEveryone | MLX90640/rt-thread/src/ipc.c:238-268 | The loop empties the list. |
| BoundedDeque.FirstInFirstOut | MLX90640/rt-thread/src/ipc.c:3206-3406 | On the deque both objects refine, without urgent messages and resets, what was sent is what was received followed by what is queued. |
| MessageQueue.MessagesInOrder | MLX90640/rt-thread/src/ipc.c:3206-3771 | In every interleaving without urgent sends and resets the messages committed are those received followed by those queued, in order. |
| MessageQueueCalls.MessagesAsPassed | MLX90640/rt-thread/src/ipc.c:3206-3771 | In every run the messages that enter the queue are those the callers passed for copying, whole and in the order in which the calls commit; without urgent sends and resets they are the messages received followed by the ones queued. |
| MessageQueueCalls.SendAdds | MLX90640/rt-thread/src/ipc.c:3206-3406 | With a free node, the three sections of a send leave the message the caller passed behind all others; those of an urgent send leave it in front. |
| MessageQueueCalls.ReceiveTakes | MLX90640/rt-thread/src/ipc.c:3604-3771 | A receive from a queue that is not empty takes its first message and has all of it in its node. |
| MessageQueueCalls.SendFull | MLX90640/rt-thread/src/ipc.c:3246-3317 | A send without a free node leaves queue and nodes alone; the caller joins the sleeping senders, whose other members stay, if it waits, and nobody does otherwise. |
| MessageQueueCalls.ReceiveEmpty | MLX90640/rt-thread/src/ipc.c:3645-3705 | So does a receive from an empty queue, among the receivers. |
| MessageQueueCalls.WakesTheFirst | MLX90640/rt-thread/src/ipc.c:3389-3760 | A commit wakes the first sleeping receiver and no other; a node given back wakes the first sleeping sender. |
| MessageQueueCalls.TimeoutLeaves | MLX90640/rt-thread/src/thread.c:131-160 | A time-out takes its thread off the list of sleepers, nobody else, and changes nothing else. |
| MessageQueueCalls.ResetEmpties | MLX90640/rt-thread/src/ipc.c:3842-3876 | A reset leaves nothing queued and nobody asleep, returns every queued node to the free list, and leaves the nodes of calls under way alone. |
| Mailbox.MailsInOrder | MLX90640/rt-thread/src/ipc.c:2379-2811 | The same for every run of a mailbox. |
| MailboxCalls.SendAdds | MLX90640/rt-thread/src/ipc.c:2379-2672 | A send puts the caller's mail behind all others, an urgent send in front; a full box stays as it is. |
| MailboxCalls.ReceiveTakes | MLX90640/rt-thread/src/ipc.c:2674-2811 | A receive takes the mail at out_offset, which is the first of the box. |
| MailboxCalls.BlockedSleeps | MLX90640/rt-thread/src/ipc.c:2401-2465 | A caller that finds the box full (send) or empty (receive) and waits is among the sleepers, whose other places are as before; one that does not wait is not. |
| MailboxCalls.WakesTheFirst | MLX90640/rt-thread/src/ipc.c:2500-2800 | A mail put in wakes the first sleeping receiver and no other; a mail taken out the first sleeping sender. |
| MailboxCalls.TimeoutLeaves | MLX90640/rt-thread/src/thread.c:131-160 | A time-out takes its thread off the list of sleepers, nobody else, and changes nothing else. |
| MailboxCalls.ResetEmpties | MLX90640/rt-thread/src/ipc.c:2853-2872 | A reset leaves the box empty and nobody asleep. |
| MessageQueue.EveryRun | MLX90640/rt-thread/src/ipc.c:3206-3771 | In every interleaving of the critical sections of sends, urgent sends, receives, time-outs and resets: free, queued and in-flight nodes add up to max_msgs, entry is the number queued, no wake-up is lost for receivers or senders, and the effects in commit order are a legal run of one deque bounded by max_msgs. |
| MessageQueue.StepInv | MLX90640/rt-thread/src/ipc.c:3206-3771 | Each step keeps the partition of the nodes, the counters and both wake-up balances. |
| MessageQueue.StepRefines | MLX90640/rt-thread/src/ipc.c:3364-3387 | Each step is a legal deque step: commit appends, urgent prepends, receive takes the front, reset clears, all others leave the contents alone. |
| MessageQueue.Conservation | MLX90640/rt-thread/src/ipc.c:2964-2977 | Free list, queue and nodes in flight partition the pool, so their sizes add up. |
| MessageQueue.NeverOverflows | MLX90640/rt-thread/src/ipc.c:3378-3387 | The "value overflowed" branches are unreachable. |
| MessageQueue.CopyIsStable | MLX90640/rt-thread/src/ipc.c:3729-3745 | While a receiver copies a node outside the lock, no step of anyone else changes it. |
| MessageQueue.CommitInv | MLX90640/rt-thread/src/ipc.c:3364-3405 | Linking a filled node keeps the invariant and counts it. |
| MessageQueue.RecvBeginInv | MLX90640/rt-thread/src/ipc.c:3616-3728 | Taking the front node, giving up or going to sleep keeps the invariant. |
| MessageQueue.RecvFinishInv | MLX90640/rt-thread/src/ipc.c:3744-3756 | Returning a node and waking a sender keeps the invariant. |
| MessageQueue.ResetInv | MLX90640/rt-thread/src/ipc.c:3844-3870 | Reset keeps the invariant, also for nodes in flight. |
| MessageQueue.Prefix | MLX90640/rt-thread/src/ipc.c:3733-3738 | min(length, size) bytes are copied, a prefix of the message. |
| MessageQueueObject.Object.constructor | MLX90640/rt-thread/src/ipc.c:2931-2989 | The loop threads all nodes onto the free list; max_msgs is cut to 16 bits. |
| MessageQueueObject.MqInit | MLX90640/rt-thread/src/ipc.c:2931-2989 | Refused if and only if the pool holds no message; otherwise the initial state of the step machine. |
| MessageQueueObject.Object.HeadTail | MLX90640/rt-thread/src/ipc.c:3364-3376 | head is null if and only if tail is null if and only if entry is 0. |
| MessageQueueObject.Object.SendBegin | MLX90640/rt-thread/src/ipc.c:3239-3325 | First critical section of a send, in place. |
| MessageQueueObject.Object.UrgentBegin | MLX90640/rt-thread/src/ipc.c:3509-3524 | First critical section of an urgent send, in place. |
| MessageQueueObject.Object.Fill | MLX90640/rt-thread/src/ipc.c:3327-3333 | The writes outside the lock touch only the node in flight. That it is the whole message the caller passes is MessageQueueCalls.SendAdds. |
| MessageQueueObject.Object.Commit | MLX90640/rt-thread/src/ipc.c:3335-3405 | Second critical section of both sends, in place; it never reports an overflow. |
| MessageQueueObject.Object.RecvBegin | MLX90640/rt-thread/src/ipc.c:3616-3728 | First critical section of a receive, in place. |
| MessageQueueObject.Object.Copy | MLX90640/rt-thread/src/ipc.c:3730-3738 | The caller gets a prefix of the message as it was when popped. |
| MessageQueueObject.Object.RecvFinish | MLX90640/rt-thread/src/ipc.c:3744-3756 | Second critical section of a receive, in place. |
| MessageQueueObject.Object.Reset | MLX90640/rt-thread/src/ipc.c:3833-3881 | The reset loops, in place. |
| Mailbox.EveryRun | MLX90640/rt-thread/src/ipc.c:2379-2811 | In every interleaving in_offset is (out_offset + entry) mod size, no wake-up is lost on either side, and the effects are a legal run of the same bounded deque. |
| Mailbox.StepRefines | MLX90640/rt-thread/src/ipc.c:2379-2811 | Send appends, urgent prepends, receive takes the front, reset clears; each step keeps ring and wake-up balances. |
| Mailbox.PutBack | MLX90640/rt-thread/src/ipc.c:2482-2487 | Writing at in_offset appends to the contents. |
| Mailbox.PutFront | MLX90640/rt-thread/src/ipc.c:2613-2626 | Rewinding out_offset and writing there prepends to the contents. |
| Mailbox.TakeFront | MLX90640/rt-thread/src/ipc.c:2776-2788 | Reading at out_offset and advancing takes the front. |
| Mailbox.Object.Send | MLX90640/rt-thread/src/ipc.c:2379-2517 | One look of a send, in place; it sends if and only if the ring is not full. |
| Mailbox.Object.Urgent | MLX90640/rt-thread/src/ipc.c:2593-2645 | The urgent send, in place. |
| Mailbox.Object.Recv | MLX90640/rt-thread/src/ipc.c:2674-2811 | One look of a receive, in place; the mail returned is the oldest. |
| Mailbox.Object.Reset | MLX90640/rt-thread/src/ipc.c:2845-2875 | The reset, in place. |
| MemPool.EveryRun | MLX90640/rt-thread/src/mempool.c:319-465 | In every interleaving each block is free or owned once, block_free_count plus the live blocks is block_total_count, and no waiter is overlooked while a block is free. |
| MemPoolCalls.AllocGives | MLX90640/rt-thread/src/mempool.c:319-405 | With a free block an allocation hands out exactly one that nobody had; without one it hands out none, and a caller that waits sleeps. |
| MemPoolCalls.GivesAll | MLX90640/rt-thread/src/mempool.c:89-405 | A fresh pool asked k times has handed out min(k, total) different blocks. |
| MemPoolCalls.FreedIsNext | MLX90640/rt-thread/src/mempool.c:415-465 | A block given back is free, and the next allocation hands it out again. |
| MemPoolCalls.LastSleeperFirst | MLX90640/rt-thread/src/mempool.c:343-354 | Of two threads that fell asleep one after the other on an empty pool, a free wakes the second one. |
| MemPoolCalls.TimeoutLeaves | MLX90640/rt-thread/src/thread.c:131-160 | A time-out takes its thread off the list of sleepers, nobody else, and changes nothing else. |
| MemPool.StepInv | MLX90640/rt-thread/src/mempool.c:319-465 | Each step keeps ownership, count and wake-up balance. |
| MemPool.Object.constructor | MLX90640/rt-thread/src/mempool.c:89-137 | The loop links the blocks in address order, also when there is none. |
| MemPool.InitInside | MLX90640/rt-thread/src/mempool.c:104-126 | Every word written by initialisation lies in the region if and only if the region holds one aligned block with its header, or the one address in front of it wraps round into the region. |
| MemPool.InitInsideUsual | MLX90640/rt-thread/src/mempool.c:104-126 | Where block and region fit the address space together, that is exactly AlignDown(size) >= AlignUp(block_size) + sizeof(pointer). |
| MemPool.TooSmallRegion | MLX90640/rt-thread/src/mempool.c:115-126 | A region of 16 bytes for blocks of 16: the only store goes 20 bytes in front of it. |
| MemPool.InitStores | MLX90640/rt-thread/src/mempool.c:115-126 | The loop and the last store write exactly those addresses, with offset - 1 wrapping. |
| MemPool.Object.Alloc | MLX90640/rt-thread/src/mempool.c:319-407 | One look of an allocation, in place. |
| MemPool.Object.Free | MLX90640/rt-thread/src/mempool.c:415-465 | The release, in place. |
| EventObject.EveryRun | MLX90640/rt-thread/src/ipc.c:1784-2045 | In every run no suspended thread's AND or OR condition is satisfied by the event set, and every waiter has a mode, so the EINVAL return of a send is dead. |
| EventObject.SendInv | MLX90640/rt-thread/src/ipc.c:1784-1879 | A send leaves no satisfied waiter behind, although flags are cleared after the wake-ups. |
| EventObject.RecvInv | MLX90640/rt-thread/src/ipc.c:1946-2007 | A receive leaves no satisfied waiter behind. |
| EventObject.RemainingExactly | MLX90640/rt-thread/src/ipc.c:1814-1864 | A send keeps exactly the waiters not satisfied by old and new flags. |
| EventObject.ClearExactly | MLX90640/rt-thread/src/ipc.c:1853-1868 | The flags cleared are exactly the union of those received by resumed CLEAR waiters. |
| EventObject.SatisfiedMeans | MLX90640/rt-thread/src/ipc.c:1955-1969 | With AND a waiter asks for all its flags, with OR alone for one of them. |
| EventObject.RecvMeans | MLX90640/rt-thread/src/ipc.c:1915-2045 | A satisfied receive leaves the caller exactly the wanted flags that are set, and with CLEAR none of them set in the event; one that is not satisfied sleeps at its place with nothing else changed, or changes nothing if it does not wait. |
| EventObject.SendMeans | MLX90640/rt-thread/src/ipc.c:1784-1910 | After a send a flag is set exactly if it was or has been sent and no woken CLEAR waiter has received it. |
| EventObject.DeliveredExactly | MLX90640/rt-thread/src/ipc.c:1820-1860 | Each resumed thread is left the wanted flags that are set; no other thread is touched. |
| EventObject.WaitCommutesWithSend | MLX90640/rt-thread/src/ipc.c:1784-2045 | Whatever the place in the list at which the waiter joins, and with any other waiters about: waiting and then a send end in the same state as the send first and a receive afterwards, if and only if old and new flags together do not satisfy the waiter, or no other waiter woken by the send clears a flag it wants. |
| EventObject.PlaceLeftIsPlace | MLX90640/rt-thread/src/ipc.c:153-178 | The two places agree: what the send leaves of the place _ipc_list_suspend gave to the waiter, FIFO or by priority, is the place it would give afterwards. |
| EventObject.WaitDiffers | MLX90640/rt-thread/src/ipc.c:1784-2045 | An event with one CLEAR waiter at which the two orders end differently. |
| EventObject.Object.Walk | MLX90640/rt-thread/src/ipc.c:1812-1864 | The list walk with removal during the walk computes all of this in one pass. |
| EventObject.Object.Send | MLX90640/rt-thread/src/ipc.c:1784-1879 | The in-place send is SendStep; it fails exactly for an empty set. |
| EventObject.Object.Recv | MLX90640/rt-thread/src/ipc.c:1915-2007 | The in-place receive is RecvStep. |
| Bits.FfsCorrect | MLX90640/rt-thread/src/kservice.c:1993-2016 | The byte-table form returns 0 for 0 and one more than the least set bit otherwise, for all 32-bit words. |
| Bits.TinyFfsCorrect | MLX90640/rt-thread/src/kservice.c:1935-1959 | The modulo-37 form agrees with the byte-table form on all 32-bit words. |
| Bits.Isolate | MLX90640/rt-thread/src/kservice.c:1956-1959 | value & (value - 1) ^ value is the least set bit alone. |
| Bits.LowBitLeast | MLX90640/rt-thread/src/kservice.c:1993-2016 | What "least set bit" means: it is set and none below it is. |
| ReadyTable.InsertOk | MLX90640/rt-thread/src/scheduler_up.c:381-405 | Insertion keeps bit p set if and only if list p is non-empty, and adds exactly one thread. |
| ReadyTable.RemoveOk | MLX90640/rt-thread/src/scheduler_up.c:414-444 | Removal keeps that equivalence and removes exactly one thread. |
| ReadyTable.HighestIsFirst | MLX90640/rt-thread/src/scheduler_up.c:145-167 | The bitmap leads to the first non-empty list; a zero group means that all are empty. |
| ReadyTable.Insert2Ok | MLX90640/rt-thread/src/scheduler_up.c:399-403 | The two-level form keeps both levels consistent on insertion, and the thread is on its list and no other list changes. |
| ReadyTable.Remove2Ok | MLX90640/rt-thread/src/scheduler_up.c:430-441 | The two-level form keeps both levels consistent on removal, and the thread is off its list and no other list changes. |
| ReadyTable.HighestIsFirst2 | MLX90640/rt-thread/src/scheduler_up.c:150-155 | The two-level index leads to the first non-empty of 256 lists. |
| UpScheduler.EveryRun | MLX90640/rt-thread/src/scheduler_up.c:228-444 | In every run, changes of priority included, the ready bitmap mirrors the lists, the lists hold exactly the READY threads, and never the current one. |
| UpScheduler.ScheduleIsUrgent | MLX90640/rt-thread/src/scheduler_up.c:228-352 | After every unlocked rt_schedule with a thread able to run, the current thread runs, is on no ready list and is at least as urgent as every ready thread. |
| UpCalls.LockCounts | MLX90640/rt-thread/src/scheduler_up.c:449-495 | In every run from an unlocked state, rt_scheduler_lock_nest is the number of calls of rt_enter_critical that no rt_exit_critical has undone; an exit too many counts for nothing. |
| UpCalls.CriticalKeepsCurrent | MLX90640/rt-thread/src/scheduler_up.c:238-352 | While that number stays positive no event takes the processor from the current thread: no tick, no rt_schedule, no resume of a more urgent thread. |
| UpCalls.LastExitSchedules | MLX90640/rt-thread/src/scheduler_up.c:470-495 | The exit that brings it to 0 leaves a running thread that is on no list and than which nothing ready is more urgent. |
| UpCalls.SuspendLeaves | MLX90640/rt-thread/src/scheduler_up.c:228-352 | A thread that suspends itself and calls rt_schedule is off the processor, for the most urgent ready thread. |
| UpCalls.ResumeRuns | MLX90640/rt-thread/src/scheduler_up.c:238-300 | A resumed thread more urgent than every other that can run has the processor after rt_schedule. |
| UpCalls.YieldMakesWay | MLX90640/rt-thread/src/scheduler_up.c:251-281 | A thread that yields makes way if one of its priority is ready, and has a full slice when it goes on. |
| UpCalls.StaysWhileMostUrgent | MLX90640/rt-thread/src/scheduler_up.c:249-263 | A running thread that has not yielded and than which nothing ready is more urgent keeps the processor. |
| UpCalls.DisplacedPlace | MLX90640/rt-thread/src/scheduler_up.c:263-300 | A running thread that makes way goes back to the list of its priority: at the end if it has yielded or used up its slice, else at the front; its mark is cleared, and the head of the most urgent list takes over. |
| UpCalls.ResumedPlace | MLX90640/rt-thread/src/scheduler_up.c:362-408 | A resumed thread joins the list of its priority, in front unless its mark is set; the current thread runs on. |
| UpCalls.PriorityTakesEffect | MLX90640/rt-thread/src/thread.c:853-892 | A new priority takes effect at once, for nothing but that thread's priority, and a READY thread moves to the list of that priority. |
| UpCalls.OthersStay | MLX90640/rt-thread/src/scheduler_up.c:228-495 | No event changes a thread that is neither current, before or after, nor named by the event. |
| UpScheduler.ScheduleInv | MLX90640/rt-thread/src/scheduler_up.c:228-352 | rt_schedule keeps the invariant. |
| UpScheduler.InsertInv | MLX90640/rt-thread/src/scheduler_up.c:362-409 | rt_schedule_insert_thread keeps the invariant, also for the current thread. |
| UpScheduler.SuspendInv | MLX90640/rt-thread/src/thread.c:982-1030 | Suspending the current thread keeps the invariant. |
| UpScheduler.TickInv | MLX90640/rt-thread/src/clock.c:91-127 | A tick keeps the invariant. |
| UpScheduler.PriorityInv | MLX90640/rt-thread/src/thread.c:851-892 | Changing a priority keeps the invariant: a READY thread moves to its new list. |
| RoundRobin.RoundRobinBound | MLX90640/rt-thread/src/clock.c:91-123 | With the scheduler unlocked and ticks as the only steps, the k-th peer of the current thread first runs after exactly the ticks left to the current thread and to the peers before it. |
| RoundRobin.OneTurn | MLX90640/rt-thread/src/clock.c:109-117 | After exactly its remaining ticks the current thread is behind all its peers and the first peer runs. |
| RoundRobin.LoneSlice | MLX90640/rt-thread/src/scheduler_up.c:339-343 | A thread whose slice ends without peers runs on with a full slice but stays marked as having yielded. |
| RoundRobin.PeerTakesOver | MLX90640/rt-thread/src/scheduler_up.c:249-281 | At rt_schedule a peer takes over if and only if the running thread is marked, however much of its slice is left. |
| RoundRobin.MarkCostsTurn | MLX90640/rt-thread/src/scheduler_up.c:249-343 | So the mark costs a turn: when the slice of a lone thread ends, a peer is resumed and rt_schedule runs, the peer runs and the other thread waits with its whole new slice unused. |
| RoundRobin.AloneCostsTurn | MLX90640/rt-thread/src/scheduler_up.c:249-343 | A state in which this happens. |
| UpKernel.Kernel.Schedule | MLX90640/rt-thread/src/scheduler_up.c:228-352 | The in-place code is Schedule. |
| UpKernel.Kernel.GetHighest | MLX90640/rt-thread/src/scheduler_up.c:145-167 | The thread returned is the first of the most urgent non-empty list. |
| UpKernel.Kernel.InsertThread | MLX90640/rt-thread/src/scheduler_up.c:362-409 | The in-place insertion. |
| UpKernel.Kernel.RemoveThread | MLX90640/rt-thread/src/scheduler_up.c:414-444 | The in-place removal. |
| UpKernel.Kernel.TickIncrease | MLX90640/rt-thread/src/clock.c:91-123 | The in-place tick is Tick. |
| UpKernel.Kernel.ChangePriority | MLX90640/rt-thread/src/thread.c:851-892 | The in-place change of priority. |
| UpKernel.Kernel.ExitCritical | MLX90640/rt-thread/src/scheduler_up.c:470-495 | Leaving the outermost critical section schedules; leaving an inner one does not. |
| SmpRuns.OnePlace | MLX90640/rt-thread/src/scheduler_mp.c:270-655 | In every run a thread is on at most one CPU or in at most one ready list at one priority, never both; oncpu is c if and only if it is CPU c's current thread; a bound thread runs and waits on its own CPU only. |
| SmpRuns.LockAccounting | MLX90640/rt-thread/src/cpu.c:24-262 | In every run scheduler_lock_nest is critical_lock_nest plus outstanding preempt-disables plus one inside the global lock, for every thread, and the spinlock is held by exactly the CPU whose current thread is inside. |
| SmpRuns.SwitchIsSafe | MLX90640/rt-thread/src/scheduler_mp.c:309-377 | A context switch takes the CPU only from a thread in no critical section and with preemption enabled, and gives it to the most urgent thread that CPU may run. The outgoing thread is inside rt_cpus_lock at least once, and keeps its locks in rt_schedule, however many; the spinlock stays taken if and only if the incoming thread is inside as well. |
| SmpRuns.ScheduleIsUrgent | MLX90640/rt-thread/src/scheduler_mp.c:309-377 | After rt_schedule outside interrupts and critical sections no ready thread the CPU may run, the one put back included, is more urgent than its current thread. |
| SmpCalls.NoteTaken | MLX90640/rt-thread/src/scheduler_mp.c:285-291 | rt_schedule in an interrupt switches nothing and sets irq_switch_flag of its CPU. |
| SmpCalls.NoteKept | MLX90640/rt-thread/src/scheduler_mp.c:270-502 | Only rt_scheduler_do_irq_switch on that CPU takes the flag back. |
| SmpCalls.NotedSwitchHappens | MLX90640/rt-thread/src/scheduler_mp.c:433-502 | It then leaves on the CPU a thread than which nothing the CPU may run is more urgent, once the interrupt nesting and the other locks are gone, and clears the flag. |
| SmpCalls.IrqCounts | MLX90640/rt-thread/src/irq.c:85-119 | irq_nest of a CPU is in every run the number of interrupts it has entered and not left. |
| SmpCalls.CountersCountCalls | MLX90640/rt-thread/src/cpu.c:24-262 | In every run the three counters of a thread are those of its own calls: critical sections it is in; these and its open rt_cpus_lock; critical sections, open preempt-disables, and one if it is inside the lock. |
| SmpCalls.YieldMakesWay | MLX90640/rt-thread/src/scheduler_mp.c:317-345 | With another thread of its priority ready and none more urgent, the running thread stays on its CPU exactly if it has not yielded. |
| SmpCalls.ResumeRuns | MLX90640/rt-thread/src/scheduler_mp.c:309-390 | A ready thread more urgent than everything else the CPU may run gets it at rt_schedule. |
| SmpCalls.DisplacedPlace | MLX90640/rt-thread/src/scheduler_mp.c:329-338 | A displaced running thread goes back to the front of its list, or to the end if it has yielded or used up its slice. |
| SmpCalls.SuspendLeaves | MLX90640/rt-thread/src/scheduler_mp.c:309-390 | A thread that suspends itself is off its CPU after rt_schedule if the CPU may run anything else. |
| SmpCalls.ResumedPlace | MLX90640/rt-thread/src/scheduler_mp.c:512-596 | A resumed thread that is still on its CPU runs on there; any other joins the list of its binding and priority, in front unless its mark is set. |
| SmpCalls.PriorityTakesEffect | MLX90640/rt-thread/src/thread.c:853-892 | A new priority takes effect at once, and a READY thread moves to the list of that priority. |
| SmpCalls.StartRuns | MLX90640/rt-thread/src/scheduler_mp.c:226-242 | A CPU starts with a thread than which nothing it may run is more urgent. |
| SmpRuns.LockInv | MLX90640/rt-thread/src/cpu.c:195-217 | rt_cpus_lock keeps the invariant and ends with this CPU holding the spinlock. |
| SmpRuns.UnlockInv | MLX90640/rt-thread/src/cpu.c:224-240 | rt_cpus_unlock keeps the invariant; its assertion holds for balanced calls. |
| SmpRuns.EnterInv | MLX90640/rt-thread/src/scheduler_mp.c:660-698 | rt_enter_critical keeps the invariant. |
| SmpRuns.ExitInv | MLX90640/rt-thread/src/scheduler_mp.c:704-744 | rt_exit_critical keeps the invariant, and its correction to 0 never changes the counter. |
| SmpRuns.PreemptInv | MLX90640/rt-thread/src/cpu.c:24-70 | Disabling and enabling preemption keep the invariant. |
| SmpRuns.HeldSwitch | MLX90640/rt-thread/src/cpu.c:250-262 | Across a context switch the lock passes to whatever the incoming thread was doing when it last ran. |
| SmpRuns.PlacedSwitch | MLX90640/rt-thread/src/scheduler_mp.c:317-351 | A switch exchanges exactly two threads' places. |
| SmpRuns.ScheduleInv | MLX90640/rt-thread/src/scheduler_mp.c:270-377 | rt_schedule keeps the invariant. |
| SmpRuns.IrqSwitchInv | MLX90640/rt-thread/src/scheduler_mp.c:403-502 | With the global lock taken, the switch at the end of an interrupt keeps the invariant, its unconditional decrements included, if and only if the thread keeps the CPU or has exactly one lock outstanding. |
| SmpCounterexamples.SwitchInsideLock | MLX90640/rt-thread/src/scheduler_mp.c:309-351 | A run from initialisation after which a thread with two outstanding locks is off the CPU and nobody holds the spinlock. |
| SmpCounterexamples.IrqSwitchInsideLock | MLX90640/rt-thread/src/scheduler_mp.c:490-492 | A state with two outstanding locks at which the decrements break the counter law. |
| SmpRuns.StartInv | MLX90640/rt-thread/src/scheduler_mp.c:226-242 | Starting the scheduler on a CPU keeps the invariant. |
| SmpRuns.ResumeInv | MLX90640/rt-thread/src/scheduler_mp.c:512-596 | Resuming keeps the invariant, also for a thread still on a CPU, which becomes RUNNING again. |
| SmpRuns.PriorityInv | MLX90640/rt-thread/src/thread.c:851-892 | Changing a priority moves a READY thread to its new list. |
| SmpScheduler.HighestFound | MLX90640/rt-thread/src/scheduler_mp.c:143-177 | The comparison of the two bitmaps names a ready thread at the top priority of the global and the local lists, also when one of them is empty. |
| SmpKernel.Kernel.constructor | MLX90640/rt-thread/src/scheduler_mp.c:182-220 | The loops set up empty lists for every CPU. |
| SmpKernel.Kernel.CpusLock | MLX90640/rt-thread/src/cpu.c:195-217 | The in-place code is CpusLock. |
| SmpKernel.Kernel.CpusUnlock | MLX90640/rt-thread/src/cpu.c:224-240 | The in-place code is CpusUnlock. |
| SmpKernel.Kernel.LockStatusRestore | MLX90640/rt-thread/src/cpu.c:250-262 | The in-place code is LockStatusRestore. |
| SmpKernel.Kernel.EnterCritical | MLX90640/rt-thread/src/scheduler_mp.c:660-698 | The in-place code is EnterCritical. |
| SmpKernel.Kernel.ExitCritical | MLX90640/rt-thread/src/scheduler_mp.c:704-744 | The in-place code is ExitCritical. |
| SmpKernel.Kernel.InsertThread | MLX90640/rt-thread/src/scheduler_mp.c:512-596 | The in-place insertion. |
| SmpKernel.Kernel.RemoveThread | MLX90640/rt-thread/src/scheduler_mp.c:605-655 | The in-place removal. |
| SmpKernel.Kernel.GetHighest | MLX90640/rt-thread/src/scheduler_mp.c:143-177 | The choice between global and local lists. |
| SmpKernel.Kernel.Schedule | MLX90640/rt-thread/src/scheduler_mp.c:276-377 | The locked part of rt_schedule, in place. |
| SmpKernel.Kernel.DoIrqSwitch | MLX90640/rt-thread/src/scheduler_mp.c:412-501 | The locked part of rt_scheduler_do_irq_switch, in place, for any number of outstanding locks; the invariant holds afterwards under the condition of IrqSwitchInv and no other. |
| SmpKernel.Kernel.SchedulerStart | MLX90640/rt-thread/src/scheduler_mp.c:226-242 | The start of a CPU, in place. |
| Printf.VsnPrintf | MLX90640/rt-thread/src/kservice.c:1018-1322 | For every format, arguments and buffer: the result is the length of the unlimited output, the buffer holds its first min(len, size - 1) characters and a NUL, nothing behind that NUL and nothing at or past size is written, and size 0 writes nothing. What that output is, conversion by conversion, is PrintfText. |
| Printf.PrintNumber | MLX90640/rt-thread/src/kservice.c:775-1003 | Exactly the text of PrintedNumber goes through the buffer limit; the 32 characters of tmp always suffice. |
| Printf.PlainDecimal | MLX90640/rt-thread/src/kservice.c:1247-1303 | %d of an int shows a minus sign if it is negative and the digits of its magnitude, down to the smallest int. |
| PrintfText.ConversionRead | MLX90640/rt-thread/src/kservice.c:1061-1131 | Flags, width, precision (each given, left out or taken from an argument) and qualifier are read back exactly as they are written: a flag is set if and only if its character occurs, and a negative width argument means left. |
| PrintfText.UnsignedShown | MLX90640/rt-thread/src/kservice.c:1234-1320 | Wherever a %x, %X, %o, %b or %u stands in a format, its output is the layout of a digit string whose value in base 16, 16, 8, 2 or 10 is the argument (cut to 16 bits for h), with the prefix # asks for, followed by the output of the rest of the format with the arguments behind. |
| PrintfText.SignedShown | MLX90640/rt-thread/src/kservice.c:1246-1320 | %d and %i: a minus sign for a negative int or short, else what + and space ask for, and decimal digits of the magnitude, in the same layout. |
| PrintfText.ShownParts | MLX90640/rt-thread/src/kservice.c:907-1003 | The length of such an output, where its sign and prefix stand, which blanks and zeros there are under which flags, and that zeros and digits together still denote the number. |
| PrintfText.PlainUnsigned | MLX90640/rt-thread/src/kservice.c:1234-1320 | For every v below 2^32 the whole output of %x, %X, %o, %b and %u is a digit string with value v in that base. |
| PrintfText.PointerShown | MLX90640/rt-thread/src/kservice.c:1204-1223 | %p: hexadecimal digits of the pointer, zero-padded to 8 behind 0x unless a width is given. |
| PrintfText.TextShown | MLX90640/rt-thread/src/kservice.c:1140-1231 | %c, %s and %%: one character, as much of the string as is to be shown, or a percent sign, on the named side of the field. |
| PrintfText.PlainCopied | MLX90640/rt-thread/src/kservice.c:1048-1059 | Text between conversions is copied. |
| PrintfText.NothingShown | MLX90640/rt-thread/src/kservice.c:982-990 | Precision 0 suppresses every number: %.0u prints nothing for any argument. |
| PrintfText.PrefixedZero | MLX90640/rt-thread/src/kservice.c:921-953 | %#x of 0 gives 0x0. |
| Printf.SignMeaning | MLX90640/rt-thread/src/kservice.c:813-855 | Sign character and magnitude of a signed conversion are those of the argument read as an int, or as a short with h. |
| Printf.WrittenAt | MLX90640/rt-thread/src/kservice.c:1048-1058 | What writing through the limit leaves in the buffer, character by character. |
| Printf.ParseSpec | MLX90640/rt-thread/src/kservice.c:1061-1133 | The loops over flags, width, precision and qualifier. |
| Printf.PutPrefix | MLX90640/rt-thread/src/kservice.c:920-953 | The prefix of the # flag. |
| Printf.GetOperand | MLX90640/rt-thread/src/kservice.c:1282-1298 | The number the qualifier makes of the argument. |
| Printf.PutString | MLX90640/rt-thread/src/kservice.c:1166-1202 | %s: the field width pads and also limits the string. |
| Printf.StringShown | MLX90640/rt-thread/src/kservice.c:1166-1202 | %s shows the longest prefix of the string that neither a field width nor a positive precision is shorter than, padded to the width on the side the flag says. |
| Printf.ShownWhole | MLX90640/rt-thread/src/kservice.c:1166-1202 | The whole string is shown if and only if neither the field width nor a positive precision is shorter than it. |
| Printf.WidthCuts | MLX90640/rt-thread/src/kservice.c:1166-1202 | %3s shows abc of abcde. |
| Printf.PutChar | MLX90640/rt-thread/src/kservice.c:1140-1164 | %c with its padding on either side. |
| NumberText.NumberRoundTrip | MLX90640/rt-thread/src/kservice.c:758-1003 | skip_atoi of a plain decimal conversion gives back the number, for every value below 2^31. |
| NumberText.DigitsDenote | MLX90640/rt-thread/src/kservice.c:871-880 | The digits denote the number in every base from 2 to 16 and either case. |
| NumberText.DigitsFit | MLX90640/rt-thread/src/kservice.c:790-795 | A 32-bit number has at most 32 digits in any base. |
| NumberLayout.DigitsShow | MLX90640/rt-thread/src/kservice.c:871-880 | The digits are those of the base, in the case asked for, without a leading zero, and denote the number. |
| NumberLayout.PrintedIsLayout | MLX90640/rt-thread/src/kservice.c:775-1003 | All of print_number in one layout: for every flag combination, width, precision and sign, blanks, sign, prefix, zeros, digits and blanks stand where NumberField says; a precision of 0 leaves the digits out. |
| NumberLayout.LayoutLength | MLX90640/rt-thread/src/kservice.c:858-1003 | Such a layout is as long as the width, or as what it shows if that is longer. |
| NumberLayout.LayoutParts | MLX90640/rt-thread/src/kservice.c:892-1003 | It is blanks, sign, prefix, zeros and digits that still denote the number, and blanks; on the left nothing stands in front of the sign, with zero padding likewise, and only on the left are there blanks behind. |
| NumberText.SkipAtoi | MLX90640/rt-thread/src/kservice.c:758-765 | The loop consumes the maximal run of digits and returns its value in 32-bit arithmetic. |

## Left out

- Mutex priority ceilings, mutex detach and delete, and priority changes by the user: the inheritance equation is not meant to hold across them.
- Order of the wait lists of semaphores, events, mailboxes and queues after a boost: only mutex waiters are put back in order by the code.
- Messages with priorities (RT_USING_MESSAGEQUEUE_PRIORITY), which this build does not configure.
- The best-fit mode of memheap (RT_MEMHEAP_BEST_MODE). The `pool_ptr` of a header is the heap whose pool the header lies in; it is not a field of its own.
- Wrap-around of RT_ALIGN on sizes near the top of the address space, and of pointers in `rt_vsnprintf` (`end < buf`).
- MemHeap.RtMemHeap.Free: the heap semaphore and the magic numbers beyond the used mark are not modelled; pointers that are not live, which the code refuses by assertion, are excluded.
- Semaphores: the same waiting scheme as the memory pool, so only more of the same.
- The two-level ready table in scheduler_mp.c; the two levels are treated for scheduler_up.c.
- Changing the CPU binding of a thread while the system runs.
- HeapBlocks.InitInv: a region below two headers, which the code accepts without a check, is excluded; HeapBlocks.InitFits says exactly which these are and what happens to the headers.
- MemHeap.RtMemHeap.constructor: the same regions are excluded.
- MutexKernel.Kernel.TakeTimeout: the in-place code covers expiry and cleanup without interleaving; the interleaved steps are on values, in MutexTwoStep.
- Printf.VsnPrintf: the 64-bit build (RT_KPRINTF_USING_LONGLONG) is not modelled, and missing or mistyped arguments, undefined in C, read as 0 or NULL.
- RoundRobin.RoundRobinBound: the current thread and the peers before the k-th have at least one tick left; with `init_tick` 0 the counter of the code runs through zero.
- Start-up of the uniprocessor scheduler, which only picks the first current thread.
- Timers: expiry is a step that may happen at any time, so the arithmetic of remaining time-outs is not modelled.
- Signals, RT-Smart, modules, hooks, debug output, memory tracing, stack checks and shell commands.
- Device drivers, board start-up, generated configuration and the application loop.
