# A Dafny model of the ucore kernel's cores

ucore is a small teaching kernel for RISC-V.  This project models the parts of it whose
correctness lies in how many small updates of shared state fit together, and proves what each of
them promises.  A method stands for kernel code that changes state in place; the class it belongs to
has a predicate `Valid()` (or `Shape()`, `Wf()`) that every method keeps, so that it holds after every
sequence of calls.  Where a process may be suspended in the middle of a function (semaphores, the monitor,
the philosophers, the pipe, exit and wait), a method is what one process does between two points at which
another may run, and the theorems are about every finite sequence of such steps.  For the monitor and the
philosophers the methods are tied to a step function, and the theorems are about runs of that function.

| file | what it models |
|---|---|
| `Options.dfy` | a value or none |
| `SkewHeap.dfy` | the intrusive skew heap with parent pointers, and the comparison of 32-bit strides |
| `StrideRuns.dfy`, `StrideQueue.dfy` | stride scheduling: whole runs over unbounded strides, and the run queue that realises them |
| `Lifecycle.dfy` | wake-up, switch, fork, exit, wait, kill and blocking, between any two steps of the kernel |
| `ProcTree.dfy`, `Pids.dfy`, `Timers.dfy` | the family pointers, process numbers, and the delta-encoded timer list |
| `Semaphore.dfy`, `Monitor.dfy` | semaphores with direct hand-off, and the signal-and-wait monitor built on them |
| `Philosophers.dfy`, `PhilosophersSem.dfy`, `PhilosophersMonitor.dfy` | the two dining-philosopher protocols |
| `Pipe.dfy` | the blocking pipe |
| `PageTable.dfy`, `PageRanges.dfy` | three-level Sv39 page tables with reference counts (section 4.4 of the RISC-V Privileged Architecture, version 1.11), and the loops that unmap and copy ranges |
| `FreeBlocks.dfy`, `FirstFit.dfy`, `Slob.dfy`, `BigBlocks.dfy` | address-ordered free lists with joining, the two allocators that keep one, and kmalloc for all sizes |
| `Bitmap.dfy`, `SfsDisk.dfy`, `SfsBlockMap.dfy`, `SfsFile.dfy`, `SfsSizes.dfy`, `SfsRuns.dfy`, `Mksfs.dfy` | the simple file system: bitmap, block map, files as flat byte sequences, files whose size and blocks disagree, requests of several blocks, and the image builder |

Nine claims that one might make about this code do not hold of it, and the model says exactly when they do:

- The signed difference of two wrapped strides tells their true order just when the true difference is
  in the right half of the 32-bit range (`SkewHeap.CompareIsTrueOrder`).  A fixed pool that starts within
  `BIG_STRIDE` stays in range for ever; a process that is forked, at stride 0, beside one that has had `n` turns
  of the largest charge alone is compared rightly just when `n` is 0 or leaves 1 or 2 modulo 4
  (`StrideRuns.FreshProcessLooksLate`).
- The insertion loop of the first-fit allocator makes a well linked list just when the list is empty or
  some free block lies above the new one (`FirstFit.FreeArea.FreePages`, `FirstFit.BrokenAtEnd`); otherwise the
  new entry is its own predecessor, and stays listed when it is allocated (`FirstFit.TakenButListed`).  With all
  pages allocated, freeing page 0 and then the last page comes to this (`FirstFit.FreeFirstAndLast`).
- Unlinking a whole block in `slob_alloc` takes it off the list just when it is not the only one
  (`Slob.UnlinkWorks`).  Requests of at least two units never reach that case, because of the one-unit arena;
  a request for one unit leaves the arena alone just when it is not the next block (`Slob.Heap.ArenaTaken`).
- `find_order` calls for enough pages just when the size fits an int and does not lie in a gap after a power of
  two of pages, from 4096 * 2^k + 1 to 4097 * 2^k - 1 (`BigBlocks.OrderEnough`); 8193 bytes get two pages
  (`BigBlocks.GapExample`).
- `kfree` takes no block of the heap for a big block unless it was asked for with size 0
  (`BigBlocks.SmallIsNotBig`); one of size 0 at the end of a heap page is taken for the big block on the next
  page (`BigBlocks.ZeroTakenForBig`).
- `copy_range` does not stop at its assert that there is a frame for the new page.  Into a child that maps nothing in
  the range the copy takes one frame for each page and one for each table that the child lacks; it succeeds just
  when so many are free, the assert fails just when, up to some page, they are one short, and otherwise the call
  returns -E_NO_MEM (`PageRanges.CopyRange`, `PageRanges.UsedIsFrames`).  With one page to copy and two free frames the
  assert fails (`PageRanges.SmallestCopy`).
- A write that does not panic leaves a file with the blocks that its size calls for just when the offset is
  not past its last block or a block for it can be had (`SfsFile.WriteFile`, `SfsFile.SizedAfter`); on a full disk a
  byte written at 100 of an empty file leaves size 100 and no block (`SfsSizes.ShortFile`).
- A seek that fails for want of blocks leaves a file as it was just when not even one block could be had.
  Otherwise the file has blocks too many, and the assert of a truncation to its own size fails
  (`SfsSizes.SeekThenTruncate`, with the smallest case in `SfsSizes.HalfEnlarged`).
- A transfer of several whole blocks by `sfs_io_nolock`, which looks up the first only, moves the right
  blocks for every contents just when they are contiguous on the disk
  (`SfsRuns.ReadsNeedContiguity`, `SfsRuns.WritesNeedContiguity`).  When two files have got their blocks in turn, a
  read of two blocks of the one delivers a block of the other, and a write changes it (`SfsRuns.RunsCross`).  At the
  end of a file only writes of one block are right (`SfsRuns.AppendsOneBlock`).

## Model

| member | source | states |
|---|---|---|
| SkewHeap.CompareIsTrueOrder | kern/schedule/default_sched_stride.c:15-24 | the comparator on wrapped strides agrees with the order of the unbounded ones if and only if their difference is in the right half of the 32-bit range |
| SkewHeap.Merge | libs/skew_heap.h:29-59 | the pointers of two heaps become those of the merged tree, with parent and child pointers consistent, and the root keeps its parent pointer |
| SkewHeap.Insert | libs/skew_heap.h:61-67 | the heap is that of the tree with the node merged in, and the root has no parent |
| SkewHeap.Remove | libs/skew_heap.h:69-85 | any node, also in the middle, is replaced by the merge of its children, parent pointers included |
| SkewHeap.MergeTreeNodes | libs/skew_heap.h:29-59 | merging keeps exactly the nodes of both heaps, each once |
| SkewHeap.MergeTreeOrdered | libs/skew_heap.h:29-59 | merging two ordered heaps of comparable strides gives an ordered heap |
| SkewHeap.RemoveTreeNodes | libs/skew_heap.h:69-85 | removal takes away exactly that node |
| SkewHeap.RemoveTreeOrdered | libs/skew_heap.h:69-85 | removal restores the order also when the key of the removed node alone was out of order |
| SkewHeap.SizeIsCardinality | libs/skew_heap.h:4-6 | the tree has as many nodes as it has processes |
| StrideRuns.Step | kern/schedule/default_sched_stride.c:118-139 | the stride of a turn is BIG_STRIDE over the priority, and 0 if and only if the priority exceeds BIG_STRIDE |
| StrideRuns.SpreadForever | kern/schedule/default_sched_stride.c:11-24 | over every run of picks, leaves and arrivals within range, strides that start within BIG_STRIDE of each other stay so |
| StrideRuns.ComparatorNeverLies | kern/schedule/default_sched_stride.c:15-24 | hence the comparison of wrapped strides is right in every state of every such run |
| StrideRuns.FreshProcessLooksLate | kern/process/proc.c:155 | in a run in which one process takes n turns alone, a fork at stride 0 is outside the bound on arrivals from the second turn on, and the comparator is right about it if and only if n is 0 or leaves 1 or 2 modulo 4 |
| StrideRuns.PassIsPicks | kern/schedule/default_sched_stride.c:118-139 | the stride of a process that stays is its start plus its picks times its step |
| StrideRuns.Proportional | kern/schedule/default_sched_stride.c:118-139 | two processes that are always runnable and start equal get turns in proportion to their priorities, up to BIG_STRIDE |
| StrideRuns.BoundedWait | kern/schedule/default_sched_stride.c:118-139 | the number of turns in a row that pass a process over is bounded by the pool size and BIG_STRIDE |
| StrideRuns.FreeTurnsStarve | kern/schedule/default_sched_stride.c:118-139 | a process with a priority above BIG_STRIDE may get every turn of a run of any length |
| StrideQueue.RaisedRoot | kern/schedule/default_sched_stride.c:118-139 | raising the key of the root in place leaves a heap that is ordered but for the root |
| StrideQueue.TurnOnTree | kern/schedule/default_sched_stride.c:93-139 | the root is the least, and after pick_next and dequeue the rest is ordered and the spread is kept |
| StrideQueue.ServedIsPick | kern/schedule/sched.c:78-100 | what schedule does to the run queue is a pick of the run model |
| StrideQueue.RunQueue.constructor | kern/schedule/default_sched_stride.c:37-47 | an empty pool |
| StrideQueue.RunQueue.Enqueue | kern/schedule/default_sched_stride.c:63-83 | the process joins the heap, its time slice is reset when used up or too large, and proc_num stays the size |
| StrideQueue.RunQueue.Dequeue | kern/schedule/default_sched_stride.c:92-103 | exactly that process leaves the heap |
| StrideQueue.RunQueue.PickNext | kern/schedule/default_sched_stride.c:117-139 | the root is returned, with its stride raised in place modulo 2^32, or nothing if the pool is empty |
| StrideQueue.RunQueue.Take | kern/schedule/sched.c:88-90 | pick and dequeue serve a least process and leave an ordered heap of the others |
| StrideQueue.RunQueue.Rejoin | kern/schedule/sched.c:85-87 | the process that gives up the CPU joins the ordered heap again |
| StrideQueue.RunQueue.Turn | kern/schedule/sched.c:78-100 | one call of schedule serves a least process of the pool and current together |
| Lifecycle.Kernel.constructor | kern/process/proc.c:1114-1153 | idleproc and initproc, with initproc in the pool |
| Lifecycle.Kernel.Wakeup | kern/schedule/sched.c:58-76 | a process that is not runnable becomes so and, unless it is current or idle, joins the pool |
| Lifecycle.Kernel.Schedule | kern/schedule/sched.c:78-100 | a runnable current goes back to the pool, a member of the pool or else idleproc becomes current, and the invariant holds again |
| Lifecycle.Kernel.Fork | kern/process/proc.c:513-534 | the child is runnable, in the pool once, and has current as its parent |
| Lifecycle.Kernel.Exit | kern/process/proc.c:553-606 | current is a zombie without children, those belong to initproc, and whoever waits for one of the zombies is runnable |
| Lifecycle.Kernel.WaitChild | kern/process/proc.c:929-972 | a zombie child that is waited for is taken away; current sleeps only if it has a child to wait for and none of those is a zombie; otherwise it has no such child |
| Lifecycle.Kernel.Block | kern/process/proc.c:1180-1188 | current is on a queue, asleep, with its wait state set |
| Lifecycle.Kernel.WakeQueued | kern/schedule/sched.c:146-176 | whoever is taken off a wait queue or the timer list is no zombie, waits for a semaphore if that is its queue, waits for nothing else than its queue otherwise, and is runnable then |
| Lifecycle.Kernel.Kill | kern/process/proc.c:980-994 | numbers that are not positive or name nobody are refused, a process is marked once, and it is woken if and only if its wait can be interrupted |
| Lifecycle.Kernel.Resume | kern/sync/sem.c:43-50 | a process that comes back is still on its queue only if its wait could be interrupted |
| Lifecycle.NoZombieIsWoken | kern/schedule/sched.c:58-60 | in every state between steps a zombie waits for nothing, is on no queue and in no pool, and has no child, so no caller of wakeup_proc can meet one |
| Lifecycle.WokenInv | kern/schedule/sched.c:58-76 | waking a sleeper keeps the pool exactly the runnable processes other than current and idle |
| Lifecycle.ExitedInv | kern/process/proc.c:575-602 | exit with re-parenting keeps that no process sleeps in do_wait while a child it waits for is a zombie |
| Lifecycle.ExitSteps | kern/process/proc.c:575-602 | the assignments of do_exit in turn wake just the waiting parent, and initproc if it waits and is handed a zombie |
| ProcTree.Table.constructor | kern/process/proc.c:1123-1141 | idleproc alone |
| ProcTree.Table.SetLinks | kern/process/proc.c:179-188 | the new process is first in the chain of its parent, every other chain is as it was, and nr_process is exact |
| ProcTree.Table.RemoveLinks | kern/process/proc.c:191-205 | the process leaves the chain of its parent from any place, every other chain is as it was, and nr_process is exact |
| ProcTree.Table.Reparent | kern/process/proc.c:586-601 | the children of the dying process come before those of initproc, in reverse order, though their yptr is stale during the loop |
| ProcTree.LinkedFamily | kern/process/proc.c:179-188 | every live process stays exactly once in its parent's optr chain, with yptr its inverse |
| ProcTree.UnlinkedFamily | kern/process/proc.c:191-205 | the same for removal |
| ProcTree.MovedFamily | kern/process/proc.c:586-601 | the same for each turn of the loop of do_exit |
| Pids.PidTable.constructor | kern/process/proc.c:208-213 | the static variables start at MAX_PID |
| Pids.PidTable.GetPid | kern/process/proc.c:208-240 | terminates with the cyclically first pid after the last that no process has, and no pid in use lies strictly between last_pid and next_safe |
| Pids.PidTable.Fork | kern/process/proc.c:473-531 | at the limit nothing changes; below it the new pid is in range and unused |
| Pids.PidTable.Reap | kern/process/proc.c:191-205 | removing a process keeps the safe gap |
| Pids.FirstFreeUnique | kern/process/proc.c:208-240 | the first free pid is determined by the pids in use |
| Pids.SomePidFree | kern/process/proc.c:209-210 | with fewer processes than pids some pid is free |
| Timers.TimerList.constructor | kern/schedule/sched.c:45-47 | no timer is set |
| Timers.TimerList.Add | kern/schedule/sched.c:102-123 | one deadline is added behind all that are not later, every other is as it was, and no unsigned subtraction wraps |
| Timers.TimerList.Delete | kern/schedule/sched.c:125-143 | one deadline is removed, every other is as it was, and no unsigned addition wraps |
| Timers.TimerList.Tick | kern/schedule/sched.c:145-176 | exactly the timers due in one tick fire, first in first out, all others come one tick nearer, and the head delta is not 0 |
| Timers.CountsDown | kern/schedule/sched.c:102-176 | over every run of additions, deletions of others and ticks, a deadline goes down by exactly the ticks |
| Timers.WokenOnTime | kern/schedule/sched.c:145-176 | and the process is woken by the tick that its deadline says |
| Timers.InsertMeaning | kern/schedule/sched.c:102-123 | inserting a delta and shortening the next inserts one absolute deadline in order |
| Timers.DeleteMeaning | kern/schedule/sched.c:125-143 | adding a removed delta to the next removes one absolute deadline |
| Semaphore.KSem.constructor | kern/sync/sem.c:10-14 | the initial value and an empty queue |
| Semaphore.KSem.Signal | kern/sync/sem.c:16-30 | up hands the unit to the first sleeper, or counts it if there is none |
| Semaphore.KSem.Acquire | kern/sync/sem.c:32-41 | down takes a unit, or joins the queue at its end |
| Semaphore.KSem.Acquired | kern/sync/sem.c:43-65 | a process that comes back from sleep was woken by up, so the assert of down holds |
| Semaphore.KSem.TryAcquire | kern/sync/sem.c:67-76 | takes a unit if there is one, and changes nothing otherwise |
| Semaphore.UnitsConserved | kern/sync/sem.c:16-54 | in every run the units counted, handed over and used up are the initial ones and those put in, and nobody sleeps on a unit that could be taken |
| Semaphore.FirstComeFirstServed | kern/sync/sem.c:16-54 | the sleeper at position i has its unit after i + 1 calls of up, whoever comes later |
| Monitor.Mt.constructor | kern/sync/monitor.c:7-23 | the loop over the condition variables makes a monitor with one token, free on the mutex |
| Monitor.Mt.Enter | kern/sync/monitor.h:55-58 | a thread has come to the down(mutex) of a routine |
| Monitor.Mt.CondSignal | kern/sync/monitor.c:32-50 | if somebody waits, the unit goes to the condition variable and the signaller has come to down(next); otherwise nothing happens: the step that the theorems are about |
| Monitor.Mt.CondWait | kern/sync/monitor.c:58-78 | the waiter is counted, a suspended signaller or else a newcomer is let in, and the waiter has come to its down: the step that the theorems are about |
| Monitor.Mt.LeaveRoutine | kern/sync/monitor.h:59-64 | a suspended signaller or else a newcomer is let in |
| Monitor.Mt.DownOn | kern/sync/sem.c:32-41 | the down that a thread has come to returns or puts it to sleep, and the counter that belongs to it goes down when it returns |
| Monitor.Mt.Woken | kern/sync/sem.c:43-54 | a woken thread is inside, and the counter that belongs to its down goes down |
| Monitor.InitInv | kern/sync/monitor.c:9-23 | monitor_init makes one token, free on the mutex |
| Monitor.StepKeepsInv | kern/sync/monitor.c:32-81 | every step of every thread keeps exactly one token among mutex, next, the condition variables, hand-offs and the active thread |
| Monitor.RunKeepsInv | kern/sync/monitor.c:32-81 | so does every interleaving from the start |
| Monitor.MutualExclusion | kern/sync/monitor.h:55-64 | at most one thread is active inside in any state of any run |
| Monitor.CountersTellTheTruth | kern/sync/monitor.c:33-81 | whenever a thread is active inside, next_count and each cv.count are the numbers of suspended signallers and waiters, and no unit is pending anywhere |
| Monitor.NeverStuck | kern/sync/monitor.c:33-81 | in every state the mutex is free or some thread inside can go on |
| Monitor.SignallersFirst | kern/sync/monitor.c:71-79 | newcomers do not get in while a signaller is suspended |
| Monitor.WayIn | kern/sync/monitor.c:33-81 | whoever becomes active was waiting where the token was |
| Monitor.SignalHandsOver | kern/sync/monitor.c:46-52 | whoever is active right after a successful signal was a waiter of that condition variable |
| PhilosophersSem.Dinner.TestSema | kern/sync/check_sync.c:84-92 | a hungry philosopher without an eating neighbour eats and gets a unit |
| PhilosophersSem.Dinner.TakeForks | kern/sync/check_sync.c:94-101 | each stretch of the function between semaphore operations is the step that the theorems are about |
| PhilosophersSem.Dinner.PutForks | kern/sync/check_sync.c:103-110 | the same |
| PhilosophersSem.NeighboursNeverEatTogether | kern/sync/check_sync.c:84-110 | in no state of any run are two neighbours EATING, or at their meal |
| PhilosophersSem.HungryOnlyBesideEating | kern/sync/check_sync.c:84-110 | while the mutex is free every HUNGRY philosopher has an EATING neighbour, and one that may eat has its unit |
| PhilosophersSem.MutualExclusion | kern/sync/check_sync.c:94-110 | at most one philosopher is in a critical section |
| PhilosophersSem.NoDeadlock | kern/sync/check_sync.c:112-130 | in every state of every run in which some philosopher is not at rest, one that is not at rest can go on, so that nobody is left asleep when the others have had their meals |
| PhilosophersSem.StepsOfMeals | kern/sync/check_sync.c:112-130 | a meal takes at most eleven steps of its philosopher, in every run |
| PhilosophersSem.EveryDinnerEnds | kern/sync/check_sync.c:112-130 | every run in which nobody has more than so many meals is finite, within a bound |
| PhilosophersSem.EndsAsItStarted | kern/sync/check_sync.c:112-130 | when nobody may go on, everybody has had all meals and is at rest, and the semaphores are as in the beginning |
| PhilosophersSem.RunKeepsInv | kern/sync/check_sync.c:84-130 | the invariant behind these holds in every state of every run |
| PhilosophersMonitor.Dinner.constructor | kern/sync/check_sync.c:257-267 | everybody thinks, and the monitor is new |
| PhilosophersMonitor.Dinner.TestCondvar | kern/sync/check_sync.c:170-178 | a hungry philosopher without an eating neighbour eats and is signalled |
| PhilosophersMonitor.Dinner.TakeForks | kern/sync/check_sync.c:181-197 | each stretch of the function between operations of the monitor is the step that the theorems are about |
| PhilosophersMonitor.Dinner.PutForks | kern/sync/check_sync.c:199-214 | the same |
| PhilosophersMonitor.Dinner.Approach | kern/sync/check_sync.c:181-182 | a philosopher has come to the down(mutex) of a routine |
| PhilosophersMonitor.Dinner.Synchronise | kern/sync/check_sync.c:181-214 | a down in the monitor returns or puts the philosopher to sleep, or a woken one goes on |
| PhilosophersMonitor.NeighboursNeverEatTogether | kern/sync/check_sync.c:170-214 | in no state of any run are two neighbours EATING |
| PhilosophersMonitor.HungryOnlyBesideEating | kern/sync/check_sync.c:170-214 | while the monitor is free every HUNGRY philosopher has an EATING neighbour and waits on its condition variable |
| PhilosophersMonitor.NoDeadlock | kern/sync/check_sync.c:181-235 | the same over the monitor |
| PhilosophersMonitor.StepsOfMeals | kern/sync/check_sync.c:217-235 | a meal takes at most 24 steps of its philosopher, in every run |
| PhilosophersMonitor.EveryDinnerEnds | kern/sync/check_sync.c:217-235 | every run in which nobody has more than so many meals is finite, within a bound |
| PhilosophersMonitor.EndsAsItStarted | kern/sync/check_sync.c:217-235 | when nobody may go on, everybody has had all meals and is at rest, and the monitor is as in the beginning |
| PhilosophersMonitor.RunKeeps | kern/sync/check_sync.c:170-235 | the invariant behind these holds in every state of every run, over the real monitor |
| Pipe.Pipe.constructor | kern/fs/pipe/pipe.c:125-145 | an empty ring and empty queues |
| Pipe.Pipe.TakeByte | kern/fs/pipe/pipe.c:37-43 | the oldest byte is delivered and every waiting writer woken |
| Pipe.Pipe.PutByte | kern/fs/pipe/pipe.c:77-83 | the byte is accepted last and every waiting reader woken |
| Pipe.Pipe.Read | kern/fs/pipe/pipe.c:25-63 | what is read is what comes next of all bytes accepted; the reader sleeps only while the ring is empty |
| Pipe.Pipe.Write | kern/fs/pipe/pipe.c:65-103 | what is written follows all bytes accepted; the writer sleeps only while the ring is full |
| Pipe.Pipe.ResumeRead | kern/fs/pipe/pipe.c:49-57 | a reader that was woken goes on, one that was killed returns what it has |
| Pipe.Pipe.ResumeWrite | kern/fs/pipe/pipe.c:89-97 | a writer that was woken goes on, one that was killed returns how far it came |
| Pipe.Pipe.WakeWriters | kern/sync/wait.c:97-112 | every waiting writer is marked as woken |
| Pipe.Pipe.WakeReaders | kern/sync/wait.c:97-112 | every waiting reader is marked as woken |
| Pipe.Pipe.NobodyStuck | kern/fs/pipe/pipe.h:21-22 | readers and writers never sleep together, and whoever could go on has been woken |
| Pipe.Push | kern/fs/pipe/pipe.c:77-80 | advancing the tail modulo the size appends one byte to the ring |
| Pipe.Pop | kern/fs/pipe/pipe.c:37-40 | advancing the head modulo the size removes the first byte of the ring |
| PageTable.WordKeepsEntry | kern/mm/pmm.h:152-155 | the page number and the flags can be read back from the word that pte_create makes |
| PageTable.IndicesNamePage | kern/mm/mmu.h:37-42 | two addresses have the same three indices if and only if they are in the same virtual page |
| PageTable.WalksApart | kern/mm/pmm.c:268-320 | different pages, of one address space or of two, have different leaf entries |
| PageTable.WriteMaps | kern/mm/pmm.c:521-538 | writing the leaf entry of a page changes the translation of that page and of no other |
| PageTable.GrownMaps | kern/mm/pmm.c:296-318 | adding an empty table changes no translation |
| PageTable.Memory.constructor | kern/mm/pmm.c:96-135 | every frame handed to the allocator is free and unreferenced, there is no table, and the invariant holds |
| PageTable.Memory.SetupPgdir | kern/process/proc.c:344-354 | it fails if and only if no frame is free; otherwise one free frame becomes a copy of the boot directory that maps no user page, and no other address space changes |
| PageTable.Memory.AllocPage | kern/mm/pmm.c:51-70 | some free frame is taken, unless there is none |
| PageTable.Memory.Descend | kern/mm/pmm.c:296-306 | the table below a directory entry; with create it is had if and only if it is there or a frame is free, and then nothing but one empty table is added |
| PageTable.Memory.GetPte | kern/mm/pmm.c:268-320 | the entry for the address; with create it is had if and only if there are as many free frames as tables missing, which are what it takes; no translation and no use of a frame changes |
| PageTable.MadeTables | kern/mm/pmm.c:283-318 | the tables made for one page serve exactly the pages of its address space that have the same upper indices |
| PageTable.Memory.RemovePte | kern/mm/pmm.c:337-370 | the entry is cleared, the count lowered, and the frame freed when the count is 0 |
| PageTable.Memory.PageRemove | kern/mm/pmm.c:506-511 | deletion from the flat map; counts are numbers of leaf entries; a frame is freed if and only if it lost its last |
| PageTable.Memory.PutEntry | kern/mm/pmm.c:526-535 | the order of the count updates and the removal of the old entry comes to one update |
| PageTable.Memory.PageInsert | kern/mm/pmm.c:521-538 | update of the flat map if and only if there are as many free frames as tables missing, otherwise no change; a frame is freed if and only if it lost its last entry |
| PageTable.RemovedWf | kern/mm/pmm.c:359-369 | after a removal each count is the number of leaf entries that name the frame |
| PageTable.InsertedSound | kern/mm/pmm.c:526-535 | the same after an insertion, over nothing, over the same page or over another |
| PageRanges.SkipIsSafe | kern/mm/pmm.c:377-380 | where a table is missing nothing is mapped up to the next 2 MB boundary |
| PageRanges.UnmapRange | kern/mm/pmm.c:372-387 | terminates with exactly the pages of the range unmapped and the frames without entries freed |
| PageRanges.CopyPage | kern/mm/pmm.c:463-498 | the child has a new frame that nobody used, with the same contents; it fails for want of a table, or at the assert on the new page, as the free frames and the missing tables say; the assert on page_insert holds |
| PageRanges.CopyRange | kern/mm/pmm.c:449-502 | terminates; every page of the range that the parent maps is mapped by the child with equal contents and user permissions, and where the parent maps nothing the child keeps what it had; no other page, and no contents of any page outside the range or of another address space, change, also when memory is out; into a child that maps nothing in the range it succeeds, fails or panics exactly as the free frames before the call say |
| PageRanges.UsedIsFrames | kern/mm/pmm.c:463-498 | the frames that the copy takes are the pages that the parent maps and the distinct tables that the child lacks for them |
| PageRanges.CopiedAlike | kern/mm/pmm.c:449-502 | a child that mapped nothing in the range maps a page of it if and only if the parent does |
| PageRanges.SmallestCopy | kern/mm/pmm.c:473 | of one page with n frames in all: -E_NO_MEM below 7, the failing assert at 7, a copy above |
| PageRanges.OwnCopyIsPrivate | kern/mm/pmm.c:463-498 | the frame of a copied page is mapped at that page only and has count 1 |
| FreeBlocks.CoverDetermines | kern/mm/default_pmm.c:126-173 | a sorted list with neighbours joined is determined by which units are free |
| FreeBlocks.JoinedCovers | kern/mm/default_pmm.c:153-173 | freeing adds exactly the units of the block |
| FreeBlocks.TakenCovers | kern/mm/default_pmm.c:110-121 | allocation removes exactly the units it hands out |
| FreeBlocks.FreeUndoesAlloc | kern/mm/default_pmm.c:95-173 | freeing what was just allocated restores the same list |
| FirstFit.FreeArea.constructor | kern/mm/default_pmm.c:61-65 | an empty list |
| FirstFit.FreeArea.FindFirst | kern/mm/default_pmm.c:101-109 | the lowest block that is large enough, or none exists |
| FirstFit.FreeArea.TakePages | kern/mm/default_pmm.c:110-121 | the pages come off the front of the block, and the rest takes its place in the list |
| FirstFit.FreeArea.AllocPages | kern/mm/default_pmm.c:95-123 | the lowest block of at least n pages is used, or NULL is returned if and only if there is none; the list stays sorted, disjoint and joined with nr_free its total |
| FirstFit.FreeArea.InsertEntry | kern/mm/default_pmm.c:138-151 | the links after the insertion loop, in both cases |
| FirstFit.FreeArea.InitMemmap | kern/mm/default_pmm.c:67-93 | the block is entered in order if the list is empty or some block lies above |
| FirstFit.FreeArea.Absorb | kern/mm/default_pmm.c:153-172 | two neighbours become one block, with the pointers of the second taken out |
| FirstFit.FreeArea.Coalesce | kern/mm/default_pmm.c:153-173 | the two merges join the freed block to the neighbours that it touches |
| FirstFit.FreeArea.FreePages | kern/mm/default_pmm.c:125-173 | if the list is empty or some block lies above, the pages are back, joined, with the list sorted, disjoint and nr_free its total; otherwise the list is no doubly linked ring any more |
| FirstFit.BrokenAtEnd | kern/mm/default_pmm.c:142-150 | without a block above, the entry is its own predecessor and no well linked list holds it |
| FirstFit.TakenButListed | kern/mm/default_pmm.c:111-112 | list_del of such an entry leaves it reachable |
| FirstFit.FreeFirstAndLast | kern/mm/default_pmm.c:125-173 | with all of n pages allocated, freeing the first and then the last breaks the list |
| FirstFit.ReturnFindsUpper | kern/mm/default_pmm.c:95-150 | freeing what was just allocated meets the condition if and only if it was not the whole last of several blocks |
| FirstFit.RingAdd | libs/list.h:141-146 | __list_add puts an entry into a doubly linked ring |
| FirstFit.RingDel | libs/list.h:154-158 | __list_del takes an entry out of a doubly linked ring |
| Slob.Heap.constructor | kern/mm/kmalloc.c:59-78 | the one-unit arena alone |
| Slob.Heap.FindGap | kern/mm/kmalloc.c:166-168 | the insertion search terminates from any slobfree at the block before the gap |
| Slob.Heap.Insert | kern/mm/kmalloc.c:166-182 | the block is joined to the neighbours that it touches; the list is sorted with one wrap point and fully joined |
| Slob.Heap.Free | kern/mm/kmalloc.c:153-185 | the same for slob_free with a size or with the size in the header |
| Slob.Heap.Refill | kern/mm/kmalloc.c:142-148 | a page joins the list, and then some block is as large as a page |
| Slob.Heap.FindFit | kern/mm/kmalloc.c:107-150 | the first block that is large enough after slobfree, never the arena, with at most one refill |
| Slob.Heap.HandOut | kern/mm/kmalloc.c:123-134 | units come off the front of a block, and slobfree is its predecessor |
| Slob.Heap.Alloc | kern/mm/kmalloc.c:98-151 | first fit from slobfree; a refill only when no block was large enough, at most once, and it is enough; failure only without a page and without such a block |
| Slob.Heap.Kmalloc | kern/mm/kmalloc.c:218-227 | every unit obtained is free or in exactly one block in use, and the new block overlaps no other; a panic if and only if the size is from 4064 to 4079 |
| Slob.Heap.Kfree | kern/mm/kmalloc.c:255-280 | the block is free again by the size in its header, and nothing is lost; NULL does nothing |
| Slob.UnlinkWorks | kern/mm/kmalloc.c:123-124 | unlinking takes a whole block off the list if and only if it is not the only one |
| Slob.StopsAtGap | kern/mm/kmalloc.c:166-168 | the condition of the search holds at exactly one block of the ring |
| Slob.InsertLinked | kern/mm/kmalloc.c:170-180 | the header writes of slob_free spell the joined list |
| Slob.TakeFront | kern/mm/kmalloc.c:125-130 | the header writes of slob_alloc spell the list without the front of the block |
| Slob.Heap.ArenaTaken | kern/mm/kmalloc.c:106-135 | a request for one unit when the arena is next is met by the arena, and the list is without it |
| BigBlocks.FindOrder | kern/mm/kmalloc.c:210-216 | the number of halvings until the size is at most 4096 |
| BigBlocks.OrderEnough | kern/mm/kmalloc.c:210-234 | the pages asked for hold the block if and only if the size fits an int and is in no gap after a power of two of pages |
| BigBlocks.GapExample | kern/mm/kmalloc.c:210-216 | 8193 bytes get two pages |
| BigBlocks.Kheap.Kmalloc | kern/mm/kmalloc.c:218-246 | below a page the heap serves; above, a node of two units and the pages go on the list, or nothing changes; a panic if and only if the size is from 4064 to 4079 |
| BigBlocks.Kheap.KmallocBig | kern/mm/kmalloc.c:229-245 | the node is given back when there are no pages |
| BigBlocks.Kheap.Kfree | kern/mm/kmalloc.c:255-280 | a big block leaves the list with its pages and its node freed, any other block goes to the heap, and NULL does nothing |
| BigBlocks.SmallIsNotBig | kern/mm/kmalloc.c:263-278 | a block of the heap that is found on the list of big blocks was asked for with size 0 |
| BigBlocks.ZeroTakenForBig | kern/mm/kmalloc.c:263-278 | a block of size 0 at the end of a heap page is found there if the next page is a big block |
| Bitmap.BitMap.constructor | kern/fs/sfs/bitmap.c:18-50 | the bits below nbits are set, the leftover ones of the last word are clear |
| Bitmap.BitMap.Alloc | kern/fs/sfs/bitmap.c:53-71 | the lowest set bit is cleared, or there is none; the inner assert is not reached |
| Bitmap.BitMap.Test | kern/fs/sfs/bitmap.c:83-88 | the bit of that index |
| Bitmap.BitMap.Free | kern/fs/sfs/bitmap.c:91-97 | the bit is set again and no other changes |
| SfsDisk.EntryPut | kern/fs/sfs/sfs_io.c:105-118 | writing one 32-bit entry by read-modify-write changes that entry only |
| SfsBlockMap.NoBlockTwice | kern/fs/sfs/sfs_inode.c:256-292 | no disk block belongs to two logical positions, or to one and to an indirect block, and none of these is the block of an inode |
| SfsBlockMap.ExtensionMeaning | kern/fs/sfs/sfs_inode.c:353-371 | a create succeeds if and only if as many blocks are free as it needs; then a block that was free follows the last one, cleared, and no other block of any file changes |
| SfsBlockMap.LoadedMeaning | kern/fs/sfs/sfs_inode.c:353-371 | what a load does in each case: the volume stays well formed, a block below the count changes nothing, the next one extends the file by one, and a failure changes free blocks only |
| SfsBlockMap.CutWf | kern/fs/sfs/sfs_inode.c:376-387 | freeing the last block keeps the volume well formed and every other block of every file |
| SfsBlockMap.UntouchedWf | kern/fs/sfs/sfs_inode.c:200-245 | a failed create, which may have cleared a free block, keeps the volume well formed |
| SfsBlockMap.Fs.constructor | kern/fs/sfs/sfs_fs.c:207-224 | a well formed volume is held as it is on disk, with the invariant |
| SfsBlockMap.Fs.BlockAlloc | kern/fs/sfs/sfs_inode.c:89-99 | the lowest free block, cleared; the asserts on unused_blocks and on its use hold |
| SfsBlockMap.Fs.BlockFree | kern/fs/sfs/sfs_inode.c:104-109 | the block is free and unused_blocks one more |
| SfsBlockMap.Fs.GetSub | kern/fs/sfs/sfs_inode.c:200-245 | the entry of the indirect block, with entry and block made when asked for; a failure gives back the block that it took |
| SfsBlockMap.Fs.Get | kern/fs/sfs/sfs_inode.c:256-292 | the disk block of an index, direct or indirect, made when asked for; a panic exactly from index 1036 on |
| SfsBlockMap.Fs.Load | kern/fs/sfs/sfs_inode.c:353-371 | the outcome and the volume afterwards are those that the volume before decides; blocks beyond the next one and from 1036 on are a panic |
| SfsBlockMap.Fs.FreeSub | kern/fs/sfs/sfs_inode.c:297-313 | the entry is 0 and its block free |
| SfsBlockMap.Fs.Free | kern/fs/sfs/sfs_inode.c:318-344 | the block of the index is unmapped and free; an index that is not mapped changes nothing |
| SfsBlockMap.Fs.Truncate | kern/fs/sfs/sfs_inode.c:376-387 | the file has one block less, and every other block of every file is as it was |
| SfsFile.TruncFile | kern/fs/sfs/sfs_inode.c:935-980 | the outcome is decided by the size, the blocks and the free blocks before the call: a panic for a truncation to the own size exactly when the blocks are not those that it calls for, success otherwise exactly when the blocks can be had; blocks that stay keep their contents, added ones are zero; when it fails, what can be read stays, the file has as many blocks as could be had, and too many if and only if one could |
| SfsFile.Enlarge | kern/fs/sfs/sfs_inode.c:954-963 | succeeds if and only if the free blocks before the call suffice, an indirect block included; otherwise the file gets as many zero blocks as could be had |
| SfsFile.Reduce | kern/fs/sfs/sfs_inode.c:964-972 | blocks are given back from the end |
| SfsFile.Read | kern/fs/sfs/sfs_inode.c:552-657 | a read of at most one block, at any alignment, is a slice of the flat file, cut at its end; a file with the blocks that its size calls for does not change, and missing blocks are added as zeros |
| SfsFile.WriteFile | kern/fs/sfs/sfs_inode.c:552-657 | a write of at most one block is an overlay of the flat file and changes no other file; outcome, number of bytes and blocks are decided by the volume before; a file with the blocks that its size calls for keeps them if and only if the offset is not past the last one or the first block can be had; a direct block that is added is the lowest free one of the disk |
| SfsFile.SizedAfter | kern/fs/sfs/sfs_inode.c:648-654 | the size becomes offset + alen also when alen is 0, so that size and blocks agree afterwards if and only if that condition holds |
| SfsFile.Outcome | kern/fs/sfs/sfs_inode.c:602-645 | how the transfers of a request end is decided by the blocks that can be had before it |
| SfsFile.Divide | kern/fs/sfs/sfs_inode.c:589-645 | a request of at most one block is one transfer or two, which make it up |
| SfsFile.WritePart | kern/fs/sfs/sfs_inode.c:603-619 | the block is loaded and patched, or the load fails |
| SfsFile.PartMeaning | kern/fs/sfs/sfs_inode.c:603-619 | then the bytes stand at their place in the file, and every other byte of every file is as it was |
| SfsFile.FlatOfWritten | kern/fs/sfs/sfs_inode.c:552-657 | bytes written through the block map are bytes laid over the flat file |
| SfsSizes.TrySeek | kern/fs/sfs/sfs_inode.c:920-930 | a position outside the limits is refused, one past the end enlarges the file as far as blocks can be had, and any other changes nothing |
| SfsSizes.SeekThenTruncate | kern/fs/sfs/sfs_inode.c:920-980 | a seek that runs out of blocks and a truncation to the old size end in a panic if and only if one block more could be had before |
| SfsSizes.ShortFile | kern/fs/sfs/sfs_inode.c:648-654 | on a full disk a byte written at 100 of an empty file leaves size 100 and no block |
| SfsSizes.HalfEnlarged | kern/fs/sfs/sfs_inode.c:946-950 | with one free block, a seek to 8192 and a truncation to 0 reach the failing assert |
| SfsSizes.MovedNear | kern/fs/sfs/sfs_inode.c:648-654 | a write leaves a file at most one block short |
| SfsSizes.ReadIsSafe | kern/fs/sfs/sfs_inode.c:356-356 | the read of a file that is at most one block short does not panic |
| SfsSizes.Session | kern/fs/sfs/sfs_inode.c:552-980 | over every sequence of reads, writes and truncations of any files, no read panics and no file is ever more than one block short |
| SfsRuns.ReadBlocks | kern/fs/sfs/sfs_io.c:34-60 | consecutive blocks of the disk, or a panic if and only if they go past its end |
| SfsRuns.WriteBlocks | kern/fs/sfs/sfs_io.c:34-73 | the same for writing |
| SfsRuns.ReadRun | kern/fs/sfs/sfs_inode.c:622-634 | the first block is loaded, and what follows it on the disk is delivered, or a panic if and only if the load panics or they go past the end of the disk; it is the file if its blocks are contiguous |
| SfsRuns.WriteRun | kern/fs/sfs/sfs_inode.c:622-634 | the same for writing: what follows the first block on the disk is overwritten |
| SfsRuns.ReadsNeedContiguity | kern/fs/sfs/sfs_inode.c:622-634 | a read of several whole blocks delivers those of the file, whatever they hold, if and only if they are contiguous |
| SfsRuns.WritesNeedContiguity | kern/fs/sfs/sfs_inode.c:622-634 | a write of several whole blocks changes those of the file and no other, whatever is written, if and only if they are contiguous |
| SfsRuns.ForeignBlock | kern/fs/sfs/sfs_inode.c:622-634 | which block of the disk is overwritten otherwise, and that it is not for this place of the file |
| SfsRuns.PastTheEnd | kern/fs/sfs/sfs_inode.c:622-634 | a write that goes past the last block of the file is never right, whatever it leaves on the disk |
| SfsRuns.AppendsOneBlock | kern/fs/sfs/sfs_inode.c:622-634 | a write of whole blocks at the end of a file, which gets one block, is right if and only if it is of one |
| SfsRuns.GrowInTurn | kern/fs/sfs/sfs_inode.c:622-634 | one block written to a file, one to another and one more to the first go to three blocks in this order |
| SfsRuns.RunsCross | kern/fs/sfs/sfs_inode.c:622-634 | a read of two blocks of the first file then delivers the block of the other, and a write of two changes the other file and leaves the second block of the first as it was, whatever the blocks hold |
| Mksfs.Image.constructor | tools/mksfs.c:223-254 | a well formed volume with the root inode |
| Mksfs.Image.AllocIno | tools/mksfs.c:173-180 | a block number that was never handed out, until none is left; unused_blocks stays exact |
| Mksfs.Image.NewInode | tools/mksfs.c:201-212 | a new empty inode at a new block |
| Mksfs.Image.UpdateCache | tools/mksfs.c:382-395 | the indirect block is there, cleared when new, and the cached block is the one that the inode names, so that the search is never needed |
| Mksfs.Image.AppendBlock | tools/mksfs.c:397-426 | the block is the next one in the kernel's block map, and every other block of every file is as it was |
| Mksfs.Image.AddBlock | tools/mksfs.c:428-437 | a new block is filled, padded with zeros, and appended |
| Mksfs.Image.OpenFile | tools/mksfs.c:516-530 | the kernel reads back exactly the contents, and blocks is the size over 4096 rounded up |
| Mksfs.Image.WriteFreemap | tools/mksfs.c:312-334 | in the freemap blocks of the disk a bit is set if and only if its block exists and was never handed out; no file changes |
| Mksfs.PackedBit | tools/mksfs.c:329-331 | the bits that are set in a block are those that bitmap_test finds |
| Mksfs.Image.WriteSuper | tools/mksfs.c:335 | magic, blocks and unused_blocks stand in the superblock; no file changes |
| Mksfs.NodeRoundTrip | tools/mksfs.c:307-310 | an inode written to its block is read back by the kernel as it was |
| Mksfs.Image.FlushInodes | tools/mksfs.c:337-348 | every inode stands in its block with its own type and links, and no block of any file and no other block changes |
| Mksfs.Image.Close | tools/mksfs.c:312-349 | the superblock, the freemap and every inode stand on the disk, and no file changes |
| Mksfs.Mount | kern/fs/sfs/sfs_fs.c:174-224 | from the blocks of the disk alone: the magic and the size are accepted, the bits counted are unused_blocks, so the assert holds for every image, and the bitmap, the blocks and the inodes are the well formed volume that was built |
| Mksfs.Install | tools/mksfs.c:312-349 | every file of an image that is closed and mounted reads as it was built |

## Left out

- Assembly, CSR access, TLB flushes, the console, devices, the ramdisk, path lookup, ELF loading, user programs: interrupts switched off are atomic brackets, flushes are taken to work and devices not to fail.
- `exit_range`, the clock replacement and swapping: page tables are modelled with swapping off, so an entry is empty or valid.
- Entry 511 of a page directory, which all address spaces share for the kernel, is outside the model of page tables; only user addresses are.
- PageTable.Memory.AllocPage: any free frame, not the lowest; `FirstFit` says which one the allocator gives.
- PageTable.Memory.SetupPgdir: the boot directory is required to have entry 511 only, as switch_kernel_memorylayout (kern/mm/pmm.c:176-195) makes it.
- PageRanges.CopyRange: which outcome there is when the child already maps pages of the range is not stated; fork never calls it so.
- FirstFit.FreeArea.FreePages: the reference counts and the PG_reserved flag of the pages are not modelled; the pages are required to overlap no free block.
- Slob.Heap.Alloc: a request for one unit when the arena is the next block is excluded; `Slob.Heap.ArenaTaken` says what becomes of it. Alignment is always 0, and no heap page is next to the arena.
- BigBlocks.Kheap.Kmalloc: size 0, which asks slob_alloc for one unit, has the same limit.
- Slob.Heap.Kfree: big blocks are the matter of `BigBlocks.Kheap.Kfree`.
- Semaphore.KSem.Acquired: that nobody but up wakes a process in down is required here; `Lifecycle.Kernel.Resume` has the proof.
- StrideRuns.SpreadForever: arrivals must be within BIG_STRIDE of every member, which the code does not see to.
- SfsFile.Read: requests of more than one block are covered by `SfsRuns` only; no caller issues one.
- SfsFile.WriteFile: the same for writes. A panic ends the call where it occurs, before the size is updated.
- SfsBlockMap.Fs.Get: device errors are not modelled, so the cleanup after a failed write of an entry is not.
- Dirty flags, syncing, inode loading and locking, directories and names of the simple file system.
- Mksfs.Image.AppendBlock: files of more than 1036 blocks, which use a double indirect block that the kernel cannot read, are not modelled; neither are the hash lists of cached blocks and the tree walk over the host directory.
- Mksfs.Mount: the check of the block size of the device, the info string and the failures of memory and device are not modelled; which inodes there are is given, as the kernel finds them through directories.
- Pipe.Pipe.Read: io_resid and the user buffer are represented by the number wanted and the bytes got.
- Lifecycle.Kernel.Fork: failures of memory, files and kernel stacks before the child is linked; `Pids` has the limit on processes.
- Lifecycle.Kernel.Exit: the loop over the children is one update here; `ProcTree.Table.Reparent` has the loop.
- Lifecycle.Kernel.Schedule: any member of the pool may be next; `StrideQueue` says which.
- The priority field, time slices across ticks and need_resched: `StrideQueue.RunQueue.Enqueue` resets slices; ticks that only count them down are left out as easy.
