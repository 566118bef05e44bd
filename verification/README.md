# Verified cores of the Pintos-KAIST kernel

This project models the parts of the `pintos-kaist` kernel in which a fast, mutable form has to agree
with a simple abstract one, and its synchronisation protocols, and proves that they do. There is one
module per component:

| module | what it models |
|---|---|
| `Division` | 64-bit division built from the 64-by-32 `divl` instruction |
| `Fat`, `Inode`, `Files` | the cluster table and its chains; files as byte sequences stored through it, with growth; several open files together |
| `Basics` | optional values and sequences without duplicates, shared by the others |
| `ListSpec`, `KernelList` | the in-place natural merge sort and ordered insertion on doubly linked lists: the order-theoretic specification, and the pointer code that refines it |
| `Semaphore` | counting semaphores under every interleaving |
| `Donation`, `LockSteps` | locks with nested priority donation: what each call does if nobody interrupts it, and every interleaving of the calls' single statements |
| `Malloc` | the size-class allocator: arenas, free lists, address arithmetic |
| `PageTable` | the four-level page table: walks with rollback, mapping, traversal, teardown |
| `HashTable` | the chained hash table with rehashing, as a finite set modulo key equality |
| `HeapSort` | 1-based in-place heap sort and bisection |
| `Printf` | integer conversions, `vsnprintf`'s buffer, `atoi` |
| `ArgStack` | `strtok_r`, and the user stack that `load` builds from a command line |
| `Mlfqs` | the 17.14 fixed-point bookkeeping of the multi-level feedback queue |
| `WaitExit` | the handshake between `process_wait` and exiting children |
| `SleepQueue` | `timer_sleep`, the timer interrupt and `wake_up` |

Code that changes state is a class or an in-place method proved against a specification on values; what
the source promises is proved about that specification as lemmas. Interleavings are state machines: in
`Semaphore`, `WaitExit` and `SleepQueue` a step is an interrupts-off region or an access to the shared
record, in `LockSteps` it is such a region or a single statement outside them, in `Donation` a whole call.
`dafny verify dfyconfig.toml` checks everything.

Some promises of the source do not hold for all inputs. The code is then modelled as it is, and the exact
condition is a theorem: `Division.UmodExactIff`, `SdivExactIff`, `SmodExactIff` (the remainder functions
return 32 bits, and INT64_MIN / -1 overflows), `Fat.NextSearchInBoundsIff` (a search started at the last
cluster would run past the table), `Inode.GrowthCoversIff` (growth from a positive multiple of 512 comes
out one cluster short), `Inode.TableFitsDiskIff` (a table covers more clusters than its disk has sectors),
`Fat.AllocOkIff` (a full table), `Fat.RemovalEndsIff` (removing the chain of an empty file never ends),
`Malloc.PageCountEnoughIff` (the page count wraps near 2^64),
`PageTable.ClearStatusKeepsFrameIff` (clearing the dirty or accessed bit through a 32-bit mask loses the
upper half of the entry), `Printf.PrecisionMetIff` and `PrecisionDigitsIff` (the buffer caps the
precision, and commas count towards it), `Printf.FieldWidthIff` (a field padded on both sides),
`ArgStack.CopyLine` (a command line of 128 characters runs off process_exec's buffer; the bounds of
`ParseArgs` and `SetupArgs` hold for every shorter one), `PageTable.OtherRootKeptIff` (the lowest user
addresses above 2^39 are shared between processes), `Mlfqs.IdleExactIff` (the idle thread's
recent_cpu is never decayed), `Mlfqs.WalkIsSafeIff` (an exited thread stays on all_list after its page is
freed), `SleepQueue.SleepClosestIff` (a wakeup tick of 0 looks like an empty list) and
`LockSteps.NamesHeldIff`, `ClearIff`, `AssignIff` and `DominatesIff` (preempted calls leave donations
behind, lose them, or let a holder drop below a waiter). Each has its failing input beside it, or
in the condition itself.

Where comments and code differ, the code is followed: the comment in `threads/malloc.c` speaks of blocks
up to 2 kB, the descriptors stop at 1 kB; `threads/fixed-point.h` says that conversion to int rounds
down, the code truncates toward zero; `filesys/inode.c` says that extending a file is not implemented,
the function does it.

## Model

| member | source | states |
|---|---|---|
| Division.Divl | pintos-kaist/lib/arithmetic.c:20-37 | the instruction as a primitive: the floor quotient, provided it fits 32 bits (otherwise it traps) |
| Division.Nlz | pintos-kaist/lib/arithmetic.c:39-67 | shifting by the result brings the top set bit to bit 31, for every nonzero word |
| Division.EstimateWithinOne | pintos-kaist/lib/arithmetic.c:86-113 | dividing by a divisor truncated to 32 significant bits overestimates a 64-bit quotient by at most one |
| Division.NormalisedEstimate | pintos-kaist/lib/arithmetic.c:110-113 | the shifted estimate is floor(n/d) or floor(n/d) + 1, and the divl it uses never traps |
| Division.SchoolbookStep | pintos-kaist/lib/arithmetic.c:74-83 | the two-digit branch for 32-bit divisors never traps and combines its two digits to floor(n/d) |
| Division.CorrectionIsExact | pintos-kaist/lib/arithmetic.c:112-114 | the wrapping 64-bit test turns an estimate that is right or one too large into the exact quotient |
| Division.Udiv64 | pintos-kaist/lib/arithmetic.c:69-117 | floor(n/d) for every 64-bit n and nonzero d |
| Division.Umod64 | pintos-kaist/lib/arithmetic.c:118-123 | the low 32 bits of n mod d |
| Division.UmodExactIff | pintos-kaist/lib/arithmetic.c:118-123 | it is the remainder for every n exactly when d is at most 2^32 |
| Division.TruncSpec | pintos-kaist/lib/arithmetic.c:125-140 | truncating quotient and remainder rebuild n, the remainder is smaller than d and has n's sign |
| Division.Sdiv64 | pintos-kaist/lib/arithmetic.c:125-133 | the quotient truncated toward zero, reduced to 64 bits |
| Division.SdivExactIff | pintos-kaist/lib/arithmetic.c:125-133 | no reduction happens but for INT64_MIN / -1 |
| Division.Smod64 | pintos-kaist/lib/arithmetic.c:135-140 | the low 32 bits of the truncating remainder, through the wrapping product |
| Division.SmodExactIff | pintos-kaist/lib/arithmetic.c:135-140 | it is the remainder for every n exactly when the divisor's magnitude is at most 2^31 |
| Fat.ChainsUnique | pintos-kaist/filesys/fat.c:241-244 | the table alone determines its set of chains: the model's chains are no extra state |
| Fat.NextFreeSpec | pintos-kaist/filesys/fat.c:253-274 | the circular search fails only if every cluster of [2, length) other than last_clst is used, and takes the first free one after last_clst in circular order |
| Fat.NextSearchInBoundsIff | pintos-kaist/filesys/fat.c:253-274 | the next search starts inside the table exactly when the table's last cluster is used or a free one precedes it in the search |
| Fat.AllocOkSameUse | pintos-kaist/filesys/fat.c:178-207 | how many clusters can be handed out in a row depends only on which ones are in use |
| Fat.AllocOkIff | pintos-kaist/filesys/fat.c:178-207 | exactly how many clusters below a limit can be handed out in a row: if the table's last cluster or one from the limit on is free, those free after last_clst and below the limit; otherwise all free ones, provided one of them is not last_clst itself |
| Fat.StartKeeps | pintos-kaist/filesys/fat.c:178-207 | starting a chain at a free cluster keeps all chains acyclic, disjoint and covering the used clusters |
| Fat.AppendKeeps | pintos-kaist/filesys/fat.c:178-207 | so does appending a free cluster behind the end of one chain |
| Fat.CutKeeps | pintos-kaist/filesys/fat.c:209-230 | so does freeing the rest of a chain from any position |
| Fat.RemovalEndsIff | pintos-kaist/filesys/fat.c:211-230 | the removal loop reaches the end mark exactly when the cluster it is given is in use |
| Fat.ZeroLoops | pintos-kaist/filesys/fat.c:218-227 | started at cluster 0, as for an empty file, it stays there for ever |
| Fat.FatFs.constructor | pintos-kaist/filesys/fat.c:126-146 | the new table has only the reserved root cluster and no chains |
| Fat.FatFs.FindFreeCluster | pintos-kaist/filesys/fat.c:253-274 | the in-place search terminates, stays inside the table and finds the next free cluster |
| Fat.FatFs.CreateChain | pintos-kaist/filesys/fat.c:178-207 | appends exactly one previously free cluster at the end of the given chain, or starts one; every other chain and table entry is unchanged; on failure nothing changes |
| Fat.FatFs.LastCluster | pintos-kaist/filesys/fat.c:200-203 | the walk from any cluster of a chain ends at that chain's last cluster |
| Fat.FatFs.RemoveChain | pintos-kaist/filesys/fat.c:209-230 | frees exactly the clusters from the given one on, terminates the rest of the chain, leaves other chains alone and resets last_clst only if it was freed |
| Inode.InodeRoundTrip | pintos-kaist/filesys/inode.c:15-24 | decoding the on-disk inode gives back start, length and directory flag |
| Inode.TableFitsDiskIff | pintos-kaist/filesys/fat.c:148-169 | every cluster of the table has a sector on the disk exactly when the number of sectors is a multiple of 129 |
| Inode.TableOverrunsDisk | pintos-kaist/filesys/fat.c:148-169 | on a 10 MB disk (20480 sectors) the last cluster lies past the end |
| Inode.Format | pintos-kaist/filesys/fat.c:126-169 | a formatted disk: table and data area sized as the boot sector says, no chains |
| Inode.Volume.constructor | pintos-kaist/filesys/fat.c:247-251 | a table and a disk on which the clusters of every chain have their sector |
| Inode.Inode.Open | pintos-kaist/filesys/inode.c:157-189 | the in-memory inode holds what its sector decodes to |
| Inode.Inode.ByteToSector | pintos-kaist/filesys/inode.c:71-103 | walking the chain finds the sector of the cluster that holds the byte, or -1 beyond the file |
| Inode.Inode.NextChunk | pintos-kaist/filesys/inode.c:259-271 | a round moves as much as the request, the file and the sector leave, all three, from the sector that holds the byte |
| Inode.Inode.GrowByOne | pintos-kaist/filesys/inode.c:338-348 | one round appends one cluster and zeroes its sector, and changes no other sector; on a full table it appends none and zeroes the sector of cluster 0, the last one of the table itself |
| Inode.Inode.GiveFirstCluster | pintos-kaist/filesys/inode.c:332-333 | an empty file gets a chain of one formerly free cluster, not zeroed; on a full table it gets none |
| Inode.Inode.Extend | pintos-kaist/filesys/inode.c:324-349 | sets the length and adds and zeroes the clusters that the code counts; on a full table the length grows all the same, the chain does not, and the sector of cluster 0 is zeroed |
| Inode.Inode.ExtendIfNeeded | pintos-kaist/filesys/inode.c:322-349 | afterwards the chain reaches as far as the length, the old clusters and all other chains are kept |
| Inode.GrowthCoversIff | pintos-kaist/filesys/inode.c:326-340 | the counted clusters cover the new length exactly when the old length is 0 or not a multiple of 512 |
| Inode.WriteStep | pintos-kaist/filesys/inode.c:373-402 | replacing part of one sector changes exactly that byte range of the file |
| Inode.Inode.PutChunk | pintos-kaist/filesys/inode.c:373-402 | direct and bounce-buffered writes both patch the one sector; only a partial one can fail |
| Inode.Inode.WriteData | pintos-kaist/filesys/inode.c:351-410 | the copy loop writes, at the offset and nothing else, everything asked for that lies inside the file; without a bounce buffer only the whole sectors, from an offset at a sector boundary |
| Inode.Inode.Flush | pintos-kaist/filesys/inode.c:439-442 | the inode's own sector, and no sector of its data, gets the encoded inode |
| Inode.Inode.WriteAt | pintos-kaist/filesys/inode.c:302-413 | length becomes max(old, offset + size); the written range, the zeroed new clusters and the kept old bytes are exactly described; everything is written, or without a bounce buffer the whole sectors only; a denied write changes nothing |
| Inode.WriteRefines | pintos-kaist/filesys/inode.c:302-413 | the file's bytes after a write are the old bytes, padded to the new length, patched at the offset: zero beyond the old clusters |
| Inode.OverwriteRefines | pintos-kaist/filesys/inode.c:351-410 | inside the file, a write is exactly a patch of the byte sequence |
| Inode.OtherFilesKept | pintos-kaist/filesys/inode.c:302-413 | every byte of every other file stays |
| Inode.Inode.ReadAt | pintos-kaist/filesys/inode.c:247-300 | returns the bytes of the file from the offset: size of them or up to the end of the file, 0 exactly for no size or an offset past the end; without a bounce buffer whole sectors only; the rest of the buffer is left alone |
| Inode.Inode.GetChunk | pintos-kaist/filesys/inode.c:275-291 | a whole sector directly, part of one through the bounce buffer, which alone can fail |
| Inode.WriteThenRead | pintos-kaist/filesys/inode.c:247-413 | reading a range just written gives the bytes written, growth included |
| Files.WriterContent | pintos-kaist/filesys/inode.c:302-413 | a write leaves its file with the bytes written at the offset and the old ones elsewhere |
| Files.OtherContent | pintos-kaist/filesys/inode.c:302-413 | and every other open file of the volume as it was, bytes, chain and inode cluster |
| Files.LastWriteWins | pintos-kaist/filesys/inode.c:302-413 | over every run of writes to several open files, each file reads as if it were alone: its length is the furthest end written, every byte the last one written there or the original one |
| Files.WriteFile | pintos-kaist/filesys/inode.c:302-413 | inode_write_at is one such write |
| Files.ReadFile | pintos-kaist/filesys/inode.c:247-300 | inode_read_at returns a slice of that content, cut only at the end of the file |
| ListSpec.MergeSorted | pintos-kaist/lib/kernel/list.c:354-374 | merging two sorted runs is sorted, for any strict weak order |
| ListSpec.MergeStable | pintos-kaist/lib/kernel/list.c:354-374 | and keeps equivalent elements in their order, the first run's before the second's |
| ListSpec.PassHalves | pintos-kaist/lib/kernel/list.c:380-413 | a pass over R runs outputs ceil(R/2) runs and leaves at most that many, so the passes terminate |
| ListSpec.LastPassSorted | pintos-kaist/lib/kernel/list.c:380-413 | when a pass outputs at most one run the list is sorted |
| ListSpec.SortCorrect | pintos-kaist/lib/kernel/list.c:376-413 | the passes produce a sorted, stable rearrangement |
| ListSpec.SortedUnique | pintos-kaist/lib/kernel/list.c:376-413 | there is only one such rearrangement |
| ListSpec.InsertSorted | pintos-kaist/lib/kernel/list.c:415-431 | ordered insertion keeps a list sorted |
| ListSpec.InsertStable | pintos-kaist/lib/kernel/list.c:415-431 | and puts the new element behind its equals |
| KernelList.Elem.constructor | pintos-kaist/lib/kernel/list.c:56-64 | an element that is not yet linked |
| KernelList.Relink | pintos-kaist/lib/kernel/list.c:178-189 | the six pointer writes exchange two adjacent blocks of a well-linked list |
| KernelList.Splice | pintos-kaist/lib/kernel/list.c:168-190 | moving a range before an element gives a well-linked list with the range moved |
| KernelList.Insert | pintos-kaist/lib/kernel/list.c:154-166 | the list with the element put before the given one, both directions of links right |
| KernelList.Remove | pintos-kaist/lib/kernel/list.c:240-247 | the list without the element, whose own links are untouched |
| KernelList.FindEndOfRun | pintos-kaist/lib/kernel/list.c:334-352 | the end of the longest nondecreasing run |
| KernelList.InplaceMerge | pintos-kaist/lib/kernel/list.c:354-374 | relinking merges the two runs as the specification's merge, with the same nodes |
| KernelList.TakeFromSecond | pintos-kaist/lib/kernel/list.c:366-372 | one splice of the loop moves the second run's front before the first run's rest |
| KernelList.List.constructor | pintos-kaist/lib/kernel/list.c:56-64 | the empty list |
| KernelList.List.OnePass | pintos-kaist/lib/kernel/list.c:388-412 | one pass of pointer merges is the specification's pass, with its run count |
| KernelList.List.MergeTwoRuns | pintos-kaist/lib/kernel/list.c:394-411 | each round merges the next two runs, or finds the last one |
| KernelList.List.ListSort | pintos-kaist/lib/kernel/list.c:376-413 | the same nodes, well linked, in the order of the stable sort, for any strict weak order |
| KernelList.List.FirstAbove | pintos-kaist/lib/kernel/list.c:425-429 | the first element greater than the new one |
| KernelList.List.InsertOrdered | pintos-kaist/lib/kernel/list.c:415-431 | the well-linked list with the element behind everything not greater than it |
| Semaphore.WakeHighest | pintos-kaist/threads/synch.c:127-143 | sema_up takes exactly one waiter off the list: of those with the highest priority under the current, possibly donated ones, the one that stood first |
| Semaphore.UpWakes | pintos-kaist/threads/synch.c:134-139 | the same for lists that may name a thread twice |
| Semaphore.RunKeeps | pintos-kaist/threads/synch.c:82-143 | unit balance, distinct waiters and the wakeup bound hold in every state of every interleaving |
| Semaphore.EveryInterleaving | pintos-kaist/threads/synch.c:82-143 | initial value + ups = value + completed downs; with waiters present, value is at most the number of woken threads that have not rechecked, one of which can act |
| Semaphore.WokenInTurn | pintos-kaist/threads/synch.c:127-143 | ups wake the waiters in priority order: a thread still waits after as many as there are higher waiters, and is woken after more than there are other waiters at least as high |
| Semaphore.WaiterCanFinish | pintos-kaist/threads/synch.c:82-143 | from any consistent state, one up more than a thread has rivals and its own recheck complete its down, with one unit taken and the others kept |
| Semaphore.SemaphoreObject.constructor | pintos-kaist/threads/synch.c:67-73 | a semaphore with the given units and no waiters |
| Semaphore.SemaphoreObject.DownPass | pintos-kaist/threads/synch.c:82-98 | takes a unit if there is one and otherwise joins the waiters; it blocks exactly when there are no units |
| Semaphore.SemaphoreObject.SemaTryDown | pintos-kaist/threads/synch.c:103-121 | never blocks, succeeds exactly when there are units, and then takes one |
| Semaphore.SemaphoreObject.SemaUp | pintos-kaist/threads/synch.c:127-143 | adds a unit and takes the first of the waiters with the highest priority, if any, off the list |
| Donation.NoLockNoBoost | pintos-kaist/threads/synch.c:286-328 | in a state with that invariant, a thread holding no lock has no donations and runs at its original priority (LockSteps.LateDonation: a run that leaves it) |
| Donation.PriorityIsMax | pintos-kaist/threads/synch.c:316-328 | there every thread's priority is the highest of its own and those donated to it |
| Donation.WalkEffect | pintos-kaist/threads/synch.c:222-243 | along an acyclic waits-for graph the donation walk terminates; each visited holder ends exactly at the donor's priority and no other thread changes |
| Donation.WalkRecords | pintos-kaist/threads/synch.c:222-243 | each of them gets exactly one more donation: of the donor's priority, for the lock that the one before it on the chain waits for |
| Donation.VisitedNext | pintos-kaist/threads/synch.c:222-229 | the walk stops behind a visited thread only if that waits for no held lock or the holder is higher |
| Donation.WalkDonationsOk | pintos-kaist/threads/synch.c:222-243 | it keeps every thread's donations sorted, each naming a lock that thread holds, and priority = max(original, highest donation) |
| Donation.AcquireKeeps | pintos-kaist/threads/synch.c:204-248 | lock_acquire, if nobody interrupts it, keeps those three facts and the waiter lists, whether it takes the lock or donates and waits |
| Donation.ResumeKeeps | pintos-kaist/threads/synch.c:245-247 | so does a woken thread's recheck |
| Donation.TryAcquireKeeps | pintos-kaist/threads/synch.c:266-280 | so does lock_try_acquire |
| Donation.ReleaseKeeps | pintos-kaist/threads/synch.c:286-328 | so does an uninterrupted lock_release: the released lock's donations go, the priority is recomputed, the highest waiter is woken |
| Donation.SetPriorityKeeps | pintos-kaist/threads/thread.c:454-478 | so does an uninterrupted thread_set_priority |
| Donation.RunKeepsInv | pintos-kaist/threads/synch.c:204-328 | every state of every run of uninterrupted calls that starts from a consistent one is consistent |
| Donation.FreshInv | pintos-kaist/threads/synch.c:190-196 | freshly initialised threads and locks are consistent, and no waiter is above its holder |
| Donation.EveryRun | pintos-kaist/threads/synch.c:190-328 | from there, every state of every run of uninterrupted calls is consistent |
| Donation.UpWakesHighest | pintos-kaist/threads/synch.c:127-143 | the woken waiter is, of those with the highest current priority, donated parts included, the one that stood first; the others go on waiting and the value rises by one |
| Donation.DonateEffect | pintos-kaist/threads/synch.c:204-243 | waiting for a lock raises exactly the holders on the chain of pending locks |
| Donation.AcquireRaisesHolder | pintos-kaist/threads/synch.c:204-243 | so the holder is at least as high as the thread that has just queued |
| Donation.AcquireMeans | pintos-kaist/threads/synch.c:204-248 | uninterrupted, a free lock is taken and nothing else changes; at a held one the caller queues with its pending lock set and its own priority as it was, and the holder ends at least as high |
| Donation.ReleaseMeans | pintos-kaist/threads/synch.c:286-298 | uninterrupted, the lock is free, the caller keeps exactly the donations for other locks, and the first of the waiters with the highest priority is woken |
| Donation.DownMeans | pintos-kaist/threads/synch.c:82-98 | a pass of sema_down takes a free lock and changes nothing else, or queues the thread and changes nothing else |
| Donation.DominatesIff | pintos-kaist/threads/synch.c:204-328 | for each uninterrupted call, exactly when it leaves every holder at least as high as its waiters; lock_acquire on a held lock always does |
| Donation.LowWaiterCanOvertake | pintos-kaist/threads/synch.c:222-229 | a three-step run from a fresh kernel after which a holder is below its waiter: the waiter was too low to donate, then the holder lowered itself |
| Donation.Kernel.LockAcquire | pintos-kaist/threads/synch.c:204-248 | without interruption, the kernel's variables change as AcquireMeans says and in no other way |
| Donation.Kernel.DonateLoop | pintos-kaist/threads/synch.c:222-243 | the while loop is the recursive walk |
| Donation.Kernel.ReceiveDonation | pintos-kaist/threads/synch.c:230-240 | one donation: ordered insertion and a raised priority |
| Donation.Kernel.SemaDown | pintos-kaist/threads/synch.c:82-98 | one pass of sema_down with lock_acquire's bookkeeping |
| Donation.Kernel.Resume | pintos-kaist/threads/synch.c:245-247 | the recheck takes the lock if it is free and queues again otherwise, and changes nothing else |
| Donation.Kernel.LockTryAcquire | pintos-kaist/threads/synch.c:266-280 | success, exactly when nobody holds the lock, makes the caller the holder; failure changes nothing |
| Donation.Kernel.LockRelease | pintos-kaist/threads/synch.c:286-298 | without interruption, the kernel's variables change as ReleaseMeans says and in no other way |
| Donation.Kernel.RemoveDonationForLock | pintos-kaist/threads/synch.c:301-314 | exactly the donations for the lock are removed, the others keep their order |
| Donation.Kernel.RecalcPriority | pintos-kaist/threads/synch.c:316-328 | re-sorting and taking the front recomputes the priority |
| Donation.Kernel.SemaUp | pintos-kaist/threads/synch.c:127-143 | the highest waiter is made ready and the value rises |
| Donation.Kernel.ThreadSetPriority | pintos-kaist/threads/thread.c:454-478 | without interruption, the original priority is the one given, the priority the highest of it and those donated, and nothing else changes |
| LockSteps.ApplyKeeps | pintos-kaist/threads/synch.c:204-328 | each single step of lock_acquire, lock_try_acquire, lock_release and thread_set_priority, whatever others did since the last one, keeps every lock with one owner or a free semaphore, the waiter lists exact and every donation list in order |
| LockSteps.RunKeeps | pintos-kaist/threads/synch.c:204-328 | so every state of every interleaving of those steps has these properties |
| LockSteps.OwnersAfter | pintos-kaist/threads/synch.c:204-298 | a lock is gained exactly by the sema_down or sema_try_down that finds it free, and lost exactly by its sema_up; setting and clearing the holder changes no owner |
| LockSteps.AtMostOneInside | pintos-kaist/threads/synch.c:190-298 | mutual exclusion in every interleaving: the threads past sema_down and not past sema_up, counted from the history, plus the semaphore are 1; the holder, if set, is that thread, and if null it is at one of the statements around the assignment |
| LockSteps.NoLostWakeup | pintos-kaist/threads/synch.c:82-143 | in every interleaving, while a free lock has waiters some woken thread can go on |
| LockSteps.ClearIff | pintos-kaist/threads/synch.c:292-297 | the statement that clears the holder leaves the thread's donations in order exactly if none of them names the lock |
| LockSteps.NamesHeldIff | pintos-kaist/threads/synch.c:222-297 | for each step, exactly when every donation still names a lock that its receiver holds: unless one is recorded for a thread that no longer holds the lock, or the clearing statement meets one |
| LockSteps.RunNamesHeldIff | pintos-kaist/threads/synch.c:222-297 | in every interleaving from the start, this holds throughout exactly if every step passes |
| LockSteps.LateDonation | pintos-kaist/threads/synch.c:286-298 | a run in which a donation comes between recalc_priority and the clearing: the thread ends with no lock, a donation for it and the donated priority |
| LockSteps.AssignIff | pintos-kaist/threads/thread.c:463-476 | the assignment of thread_set_priority leaves the priority right exactly if no donation is above what was read |
| LockSteps.LostDonation | pintos-kaist/threads/thread.c:465-476 | a run in which a donation comes in between and is lost |
| LockSteps.DominatesIff | pintos-kaist/threads/synch.c:204-328 | for each step, exactly when it leaves no waiter above the holder of its lock: joining the waiters, becoming the holder, raising a thread that itself waits, and resetting or setting a priority each have their condition, every other step always does |
| LockSteps.RunDominatesIff | pintos-kaist/threads/synch.c:190-328 | in every interleaving from the start, no waiter is ever above its holder exactly if every step passes |
| LockSteps.NullHolderOvertakes | pintos-kaist/threads/synch.c:213-247 | a run in which a thread finds the holder still null and waits without donating, above the thread that then becomes the holder |
| LockSteps.BargingOvertakes | pintos-kaist/threads/synch.c:245-247 | a run in which a woken thread finds its lock taken again by a lower one and waits again without donating |
| LockSteps.UninterruptedAcquire | pintos-kaist/threads/synch.c:204-248 | the steps of lock_acquire without others in between, donation loop included, add up to the call of Donation |
| LockSteps.UninterruptedTry | pintos-kaist/threads/synch.c:266-279 | so do those of lock_try_acquire |
| LockSteps.UninterruptedRelease | pintos-kaist/threads/synch.c:286-328 | so do those of lock_release |
| LockSteps.UninterruptedSet | pintos-kaist/threads/thread.c:455-478 | so do those of thread_set_priority |
| Malloc.LiveBlocksApart | pintos-kaist/threads/malloc.c:84-144 | live blocks never overlap, over their whole capacity |
| Malloc.LiveInside | pintos-kaist/threads/malloc.c:84-144 | a live block lies past its arena's header, inside the arena's pages, and is as large as was asked |
| Malloc.SmallArenaHasLive | pintos-kaist/threads/malloc.c:222-232 | between calls every small arena has a live block |
| Malloc.BlockInside | pintos-kaist/threads/malloc.c:242-268 | arena_to_block and block_to_arena are inverse, and the block fits in the page |
| Malloc.AddArenaKeeps | pintos-kaist/threads/malloc.c:116-135 | filling an empty free list from a fresh page keeps free counts, lists and live blocks consistent |
| Malloc.TakeKeeps | pintos-kaist/threads/malloc.c:137-142 | so does popping a block |
| Malloc.GiveKeeps | pintos-kaist/threads/malloc.c:217-222 | so does pushing a freed block back |
| Malloc.FullArena | pintos-kaist/threads/malloc.c:222-229 | when the count reaches the arena's size all its blocks are on the free list and none is live |
| Malloc.DropKeeps | pintos-kaist/threads/malloc.c:222-232 | removing all blocks of such an arena and its page keeps the rest consistent |
| Malloc.SmallOnly | pintos-kaist/threads/malloc.c:220-232 | the count tells exactly whether the freed block was the arena's last live one |
| Malloc.PageCountEnoughIff | pintos-kaist/threads/malloc.c:97-103 | the pages asked for a big block are enough exactly when the rounding does not wrap around |
| Malloc.CopyStays | pintos-kaist/threads/malloc.c:187-193 | copying into one live block, within its size, changes no byte of another |
| Malloc.AddBigKeeps | pintos-kaist/threads/malloc.c:97-112 | a big block on fresh pages keeps everything consistent |
| Malloc.RemoveBigKeeps | pintos-kaist/threads/malloc.c:234-238 | and so does freeing it |
| Malloc.Allocator.constructor | pintos-kaist/threads/malloc.c:67-80 | the descriptor loop produces the seven size classes with their block counts |
| Malloc.Allocator.FindDesc | pintos-kaist/threads/malloc.c:92-96 | the smallest size class that fits, or none |
| Malloc.Allocator.Malloc | pintos-kaist/threads/malloc.c:82-144 | a new live block of the size asked, or null with nothing changed; null exactly for size 0 or when a needed page is refused; the heap stays consistent exactly when nothing is allocated or the page count does not wrap around |
| Malloc.Allocator.BigMalloc | pintos-kaist/threads/malloc.c:97-112 | the same for requests beyond the size classes |
| Malloc.Allocator.NewArena | pintos-kaist/threads/malloc.c:116-135 | the carving loop puts every block of the page on the free list |
| Malloc.Allocator.PopBlock | pintos-kaist/threads/malloc.c:137-143 | the front block becomes live and every small arena has a live block again |
| Malloc.Allocator.Free | pintos-kaist/threads/malloc.c:200-239 | exactly the block stops being live; pages go back exactly when it was the only live block of its arena |
| Malloc.Allocator.FreeSmall | pintos-kaist/threads/malloc.c:207-233 | the same for size-class blocks |
| Malloc.Allocator.RemoveBlocks | pintos-kaist/threads/malloc.c:225-229 | the loop takes exactly the arena's blocks off the free list |
| Malloc.Allocator.SizeOf | pintos-kaist/threads/malloc.c:166-174 | the block's capacity, at least what was asked |
| Malloc.Allocator.Realloc | pintos-kaist/threads/malloc.c:176-198 | null exactly for size 0 or when a needed page is refused; on success the new block replaces the old, holds everything of it that still fits, and every other live block keeps its bytes; on failure the old block stays; pages go back exactly when the old block was the last live one of its arena |
| PageTable.WalkUnique | pintos-kaist/threads/mmu.c:77-110 | walks that end in one entry started in one table and used the same indices |
| PageTable.DistinctSlots | pintos-kaist/threads/mmu.c:77-110 | distinct pages reach distinct entries |
| PageTable.LinkKeeps | pintos-kaist/threads/mmu.c:19-28 | entering a zeroed page at an empty slot keeps the tree's shape: each table hangs in exactly one entry |
| PageTable.LinkSameMap | pintos-kaist/threads/mmu.c:19-28 | and changes the meaning of no address |
| PageTable.PermitsIff | pintos-kaist/threads/mmu.c:77-110 | since every upper entry allows it, the processor lets user code reach, or write, a page exactly when its last entry does |
| PageTable.SetLeafEntry | pintos-kaist/threads/mmu.c:271-275 | writing one leaf entry changes what that page reads as, and no other page |
| PageTable.SetThenGet | pintos-kaist/threads/mmu.c:248-276 | after set_page, get_page gives the frame at the same offset for that page and its old answer for every other |
| PageTable.ClearThenGet | pintos-kaist/threads/mmu.c:248-295 | after clear_page, get_page gives null for that page and its old answer for every other |
| PageTable.LeafEntryReads | pintos-kaist/threads/mmu.c:273-274 | the stored entry is present, allows user access, and decodes to the frame and the write permission |
| PageTable.ClearPresentReads | pintos-kaist/threads/mmu.c:290-291 | clearing the present bit keeps frame, write permission and user access |
| PageTable.SetBitReads | pintos-kaist/threads/mmu.c:306-347 | setting the dirty or accessed bit sets it and no other |
| PageTable.ClearStatusReads | pintos-kaist/threads/mmu.c:306-347 | clearing it clears it, and below 2^32 no other |
| PageTable.ClearStatusKeepsFrameIff | pintos-kaist/threads/mmu.c:306-347 | clearing the dirty or accessed bit keeps the frame exactly when the entry is below 2^32 |
| PageTable.PageTable.constructor | pintos-kaist/threads/mmu.c:116-123 | a new root maps every address as the kernel's root does |
| PageTable.Pml4Create | pintos-kaist/threads/mmu.c:116-123 | null exactly when no page is free, else such a root on a page taken from the free ones |
| PageTable.PageTable.FindEntry | pintos-kaist/threads/mmu.c:11-110 | the walk with create 0: finds the entry the indices lead to, or null, and changes nothing |
| PageTable.PageTable.PgdirWalk | pintos-kaist/threads/mmu.c:11-34 | the last step of a creating walk: fails exactly for lack of one page, and then changes nothing |
| PageTable.PageTable.UpperWalk | pintos-kaist/threads/mmu.c:36-110 | a creating walk ends at the entry the indices lead to and fails exactly when fewer pages are free than tables are missing, gives back what it took and leaves the tree as it was; on success no address means anything new |
| PageTable.PageTable.GetPage | pintos-kaist/threads/mmu.c:248-258 | the frame address plus offset, or null |
| PageTable.PageTable.SetPage | pintos-kaist/threads/mmu.c:264-277 | maps exactly the one page, or leaves tree and free pages untouched; afterwards all four levels allow user access to it, and writing exactly if asked |
| PageTable.CreatedShare | pintos-kaist/threads/mmu.c:116-123 | two roots made from a base without user pages share every table of slots 1 to 511 and nothing of slot 0 |
| PageTable.OtherRootKeptIff | pintos-kaist/threads/mmu.c:264-277 | setting an existing entry through one such root keeps what every address reads as through the other exactly if the page lies below 2^39 or read that way already |
| PageTable.PageTable.ClearPage | pintos-kaist/threads/mmu.c:281-296 | only the one page changes, and only in its present bit |
| PageTable.PageTable.SetStatus | pintos-kaist/threads/mmu.c:306-347 | only the one page's entry changes; no table is created |
| PageTable.PageTable.PtForEach | pintos-kaist/threads/mmu.c:125-143 | visits the present entries of a page table once each, by rising address |
| PageTable.PageTable.ForEach | pintos-kaist/threads/mmu.c:145-186 | visits every present leaf exactly once, by rising address, with the address whose indices lead to it; stops right after the first refusal |
| PageTable.BelowApart | pintos-kaist/threads/mmu.c:188-222 | with distinct frames, a table or frame hangs below one entry of one table only |
| PageTable.PageTable.PtDestroy | pintos-kaist/threads/mmu.c:188-198 | frees each frame of a page table and the table, once |
| PageTable.PageTable.Destroy | pintos-kaist/threads/mmu.c:200-222 | frees each table and frame below, once, and reads no freed page |
| PageTable.PageTable.Pml4Destroy | pintos-kaist/threads/mmu.c:224-236 | frees exactly the root and everything below its slot 0, each once; the kernel's slots are left alone |
| HashTable.ClearBit | pintos-kaist/lib/kernel/hash.c:318-330 | clearing the lowest set bit gives 0 exactly for powers of two, and otherwise stays above the largest power of two below |
| HashTable.Floor2Largest | pintos-kaist/lib/kernel/hash.c:358-362 | no power of two lies between the loop's result and its start |
| HashTable.NewCount | pintos-kaist/lib/kernel/hash.c:353-362 | the bit-clearing loop ends at the largest power of two not above its start, at least 4 |
| HashTable.MaskIsMod | pintos-kaist/lib/kernel/hash.c:294-299 | hash & (bucket_cnt - 1) is the remainder for a power of two, so always a bucket |
| HashTable.HoldsApart | pintos-kaist/lib/kernel/hash.c:301-315 | the table never holds two elements with one key |
| HashTable.LookupUnique | pintos-kaist/lib/kernel/hash.c:130-134 | a key has at most one answer |
| HashTable.FlatOnce | pintos-kaist/lib/kernel/hash.c:156-227 | going through all buckets meets each element of the set exactly once |
| HashTable.HashTable.constructor | pintos-kaist/lib/kernel/hash.c:23-41 | four buckets, the empty set |
| HashTable.HashInit | pintos-kaist/lib/kernel/hash.c:23-41 | fails exactly when there is no memory for the buckets, otherwise the empty set |
| HashTable.HashTable.FindElem | pintos-kaist/lib/kernel/hash.c:301-315 | the first element of the bucket with the key, or none has it |
| HashTable.HashTable.Find | pintos-kaist/lib/kernel/hash.c:128-134 | the element of the set with that key, or null if there is none |
| HashTable.HashTable.InsertElem | pintos-kaist/lib/kernel/hash.c:403-409 | adds to the set and to the count |
| HashTable.HashTable.RemoveElem | pintos-kaist/lib/kernel/hash.c:411-417 | removes from the set and from the count |
| HashTable.HashTable.Rehash | pintos-kaist/lib/kernel/hash.c:337-401 | the set, the count and every element's bucket stay right whether or not memory is found; with memory the bucket count is the ideal one |
| HashTable.HashTable.MoveAll | pintos-kaist/lib/kernel/hash.c:383-398 | moving the elements one by one refills the new buckets with the same set |
| HashTable.HashTable.Insert | pintos-kaist/lib/kernel/hash.c:89-109 | set insertion modulo key equality |
| HashTable.HashTable.Replace | pintos-kaist/lib/kernel/hash.c:111-127 | set replacement modulo key equality |
| HashTable.HashTable.Delete | pintos-kaist/lib/kernel/hash.c:136-151 | set removal modulo key equality |
| HashTable.HashTable.Clear | pintos-kaist/lib/kernel/hash.c:43-72 | the empty set; the destructor gets each element once |
| HashTable.HashIterator.constructor | pintos-kaist/lib/kernel/hash.c:192-202 | everything is still to come |
| HashTable.HashIterator.Next | pintos-kaist/lib/kernel/hash.c:204-227 | the next remaining element, then null |
| HeapSort.FloatDown | pintos-kaist/lib/stdlib.c:96-123 | swapping with the larger child moves the one violation of heap order down |
| HeapSort.RootIsMax | pintos-kaist/lib/stdlib.c:131-152 | the root of a heap is its maximum |
| HeapSort.TakeMax | pintos-kaist/lib/stdlib.c:147-151 | moving the root behind the heap extends the sorted tail |
| HeapSort.Heapify | pintos-kaist/lib/stdlib.c:93-124 | restores heap order, rearranging only the heap |
| HeapSort.Sort | pintos-kaist/lib/stdlib.c:126-152 | a sorted permutation, for any total preorder |
| HeapSort.DoSwap | pintos-kaist/lib/stdlib.c:64-79 | exchanges two elements and nothing else |
| HeapSort.KeySplits | pintos-kaist/lib/stdlib.c:184-207 | in a sorted array the comparison with a key changes sign at most once each way |
| HeapSort.BinarySearch | pintos-kaist/lib/stdlib.c:171-208 | a match exactly when there is one, for a key of any type whose comparison changes sign at most once each way; terminates |
| Printf.DigitsValue | pintos-kaist/lib/stdio.c:469-476 | the emitted digits stand for the value, in every base |
| Printf.GroupingKeepsDigits | pintos-kaist/lib/stdio.c:469-476 | without its commas a grouped number is the ungrouped one |
| Printf.CommaPositions | pintos-kaist/lib/stdio.c:471-472 | counted from the last digit, exactly every (group + 1)-th character is a comma |
| Printf.BodyValue | pintos-kaist/lib/stdio.c:463-486 | whatever the flags and precision, the buffer's digits stand for the value |
| Printf.BufferSuffices | pintos-kaist/lib/stdio.c:440-486 | for every 64-bit value, base, flags and precision at most 63 of the 64 bytes are used |
| Printf.PrecisionMetIff | pintos-kaist/lib/stdio.c:478-484 | the characters come up to the precision exactly when it is at most 63 |
| Printf.PrecisionDigitsIff | pintos-kaist/lib/stdio.c:478-484 | the digits do exactly when, besides, no grouping is asked for, or the value is below base^group, or has as many digits as the precision anyway, the extra 0 of octal # counted (ISO/IEC 9899:1999, section 7.19.6.1, counts digits) |
| Printf.EmptyIff | pintos-kaist/lib/stdio.c:478-486 | nothing is printed exactly for value 0 with precision 0 and no octal # |
| Printf.SignShown | pintos-kaist/lib/stdio.c:448-457 | - for every negative number, + or a blank for others only if asked, + before blank, nothing for unsigned conversions |
| Printf.PrefixShown | pintos-kaist/lib/stdio.c:459-462 | 0x or 0X, in the case of the digits, exactly for a nonzero number in base 16 with # |
| Printf.FieldLayout | pintos-kaist/lib/stdio.c:488-507 | blanks stand in front without the - and 0 flags, and behind with the - flag; zeros stand between the prefix and the digits with the 0 flag; sign and prefix come first |
| Printf.FieldWidthIff | pintos-kaist/lib/stdio.c:488-507 | the field is as wide as asked, or as the number needs, exactly unless padding is due with both the - and the 0 flag set |
| Printf.FieldTooWide | pintos-kaist/lib/stdio.c:351-368 | "%0*d" with the width -5 sets both: 7 comes out as 00007 and four spaces |
| Printf.FillDigits | pintos-kaist/lib/stdio.c:463-476 | the digit loop fills the local buffer with the digits, last first |
| Printf.FillZeros | pintos-kaist/lib/stdio.c:478-486 | the padding loop completes the buffer without leaving it |
| Printf.FormatInteger | pintos-kaist/lib/stdio.c:427-508 | emits exactly the field: padding, sign, prefix, zeros and digits in their places |
| Printf.OutputDup | pintos-kaist/lib/stdio.c:511-517 | emits the character the given number of times |
| Printf.Aux.constructor | pintos-kaist/lib/stdio.c:26-31 | room for all but the terminating NUL |
| Printf.Aux.Helper | pintos-kaist/lib/stdio.c:42-49 | stores the character while there is room and counts it always |
| Printf.Vsnprintf | pintos-kaist/lib/stdio.c:17-40 | stores the first buf_size - 1 characters and a NUL, touches nothing behind it, and returns the full length |
| Printf.AtoiDigits | pintos-kaist/lib/stdlib.c:31-35 | accumulating on the negative side never overflows for a magnitude up to 2^31 |
| Printf.Atoi | pintos-kaist/lib/stdlib.c:7-41 | the parsed number whenever it fits an int, INT_MIN included |
| Printf.PrintThenRead | pintos-kaist/lib/stdio.c:427-508 | atoi reads back what %d prints for every int, whatever the flags (without grouping, which atoi does not parse), width and precision |
| Printf.PrintAndRead | pintos-kaist/lib/stdio.c:17-40 | snprintf of one %d into a buffer, then atoi on the buffer, gives the int back whenever the field fits |
| ArgStack.CopyLine | pintos-kaist/userprog/process.c:250-265 | the line goes to the buffer, its NUL included, and the buffer holds it exactly if it is shorter than 128 characters; the program name is the line up to a space, cut at 127 |
| ArgStack.BufferOverrun | pintos-kaist/userprog/process.c:253-255 | a line of 128 characters runs off the buffer |
| ArgStack.ShortLineFits | pintos-kaist/userprog/process.c:253-330 | any line that fits the buffer has fewer than 128 words, and its image fits the stack page |
| ArgStack.StartsFacts | pintos-kaist/userprog/process.c:315-330 | the listed starts are exactly the positions where a maximal space-free run begins |
| ArgStack.StartsRise | pintos-kaist/userprog/process.c:315-330 | each of them is listed once, in order |
| ArgStack.InSomeWord | pintos-kaist/userprog/process.c:315-330 | every non-space character lies in one of the words |
| ArgStack.StrtokR | pintos-kaist/lib/string.c:195-269 | the next maximal run of non-delimiters, its end cut by one NUL, and the position to go on from |
| ArgStack.NextToken | pintos-kaist/userprog/process.c:321-323 | each call takes exactly the next word of the line |
| ArgStack.ParseArgs | pintos-kaist/userprog/process.c:315-330 | argc is the number of words, argv[i] the start of word i, argv[argc] null, and the buffer is cut behind each word; all stores lie inside argv exactly when there are fewer than 128 words |
| ArgStack.ArgvOverrun | pintos-kaist/userprog/process.c:325-327 | parse_args by itself: a line of 256 characters has 128 words |
| ArgStack.WordInBuffer | pintos-kaist/userprog/process.c:315-330 | each argv[i] is a NUL-terminated copy of word i |
| ArgStack.LowRoundTrip | pintos-kaist/userprog/process.c:646-650 | a pointer stored byte by byte reads back |
| ArgStack.StackDecodes | pintos-kaist/userprog/process.c:627-656 | the finished stack decodes to the words: argv[k] points to a NUL-terminated copy of word k, argv[argc] is null, the return address is null, rsp is 8-aligned |
| ArgStack.UserStack.constructor | pintos-kaist/userprog/process.c:775-793 | nothing pushed yet, with room down to the given address |
| ArgStack.UserStack.Push | pintos-kaist/userprog/process.c:629-652 | lowers rsp and copies the bytes there, keeping everything above |
| ArgStack.UserStack.PushStrings | pintos-kaist/userprog/process.c:629-634 | copies the words, last first, and notes each one's address |
| ArgStack.UserStack.AlignTo8 | pintos-kaist/userprog/process.c:636-640 | the fewest zero bytes that make rsp a multiple of 8 |
| ArgStack.UserStack.SetupArgs | pintos-kaist/userprog/process.c:627-656 | the bytes from rsp to the top are the image of the words, rdi is argc and rsi is argv; all writes stay in the one stack page exactly when that image is at most 4096 bytes |
| ArgStack.StackOverrun | pintos-kaist/userprog/process.c:627-656 | load by itself: one word of 4080 characters does not fit the page |
| ArgStack.LoadArguments | pintos-kaist/userprog/process.c:315-330 | from a line of fewer than 128 characters to the stack: what main finds there decodes to the words of the line |
| ArgStack.Strlen | pintos-kaist/lib/string.c:286-295 | the distance to the first NUL |
| Mlfqs.LoadStepOk | pintos-kaist/threads/thread.c:257-267 | the load average update is 59/60 of the old plus 1/60 for each thread, truncated; it does not overflow for up to 2222 threads and stays within 0 and 16380 N |
| Mlfqs.CoefficientOk | pintos-kaist/threads/thread.c:301-303 | the decay factor is the rounded 2L / (2L + 1), nonnegative and below 1 |
| Mlfqs.DecayOk | pintos-kaist/threads/thread.c:289-309 | for up to 545 threads the per-second update does not overflow and brings recent_cpu back between -(40 N + 20) and 240 N + 20 |
| Mlfqs.TickOk | pintos-kaist/threads/thread.c:248-251 | neither does a tick of running |
| Mlfqs.IdleExactIff | pintos-kaist/threads/thread.c:248-251 | the idle thread's recent_cpu counts its ticks exactly up to 131071, then wraps |
| Mlfqs.PriorityExact | pintos-kaist/threads/thread.c:271-285 | the priority is the rounded formula cut to 0..63, without overflow |
| Mlfqs.TickMeaning | pintos-kaist/devices/timer.c:203-219 | the same of the specification's tick, which the proofs about runs use |
| Mlfqs.EventMeaning | pintos-kaist/threads/thread.c:506-516 | a nice value takes effect on the priority at once, a new thread starts with its parent's recent_cpu and nice, an exit only marks the thread, and everything else stays |
| Mlfqs.TickKeeps | pintos-kaist/devices/timer.c:203-219 | a timer tick, recomputed priorities included, keeps the bounds |
| Mlfqs.ApplyKeeps | pintos-kaist/threads/thread.c:248-325 | so do a nice change, a creation, an exit and the freeing of an exited thread |
| Mlfqs.RunBounded | pintos-kaist/threads/thread.c:248-325 | from the start, every run of such steps in which no tick walks over freed memory keeps the load average, every recent_cpu and every priority in bounds |
| Mlfqs.WalkIsSafeIff | pintos-kaist/threads/thread.c:295-298 | the walks over all_list read only live threads exactly as long as no exited thread has been freed |
| Mlfqs.ExitedThreadIsRead | pintos-kaist/threads/thread.c:743-754 | the failing run: create, exit, the next schedule frees the page, and the next tick that walks all_list meets it |
| Mlfqs.Scheduler.UpdateRecentCpuAll | pintos-kaist/threads/thread.c:289-309 | over a list of live threads, the loop decays each living thread once, the idle thread never |
| Mlfqs.Scheduler.UpdateAllPriority | pintos-kaist/threads/thread.c:313-325 | the same for the priorities |
| Mlfqs.Scheduler.TimerTick | pintos-kaist/devices/timer.c:203-219 | at every fourth tick each living non-idle thread gets the rounded, cut formula of its new recent_cpu and nice, at others it keeps its priority; the running thread's recent_cpu rises by one unit; every second the load average follows the formula for the ready threads and the running non-idle one, and recent_cpu decays by the new load average |
| Mlfqs.Scheduler.MlfqsOnTick | pintos-kaist/devices/timer.c:203-219 | the order of the updates: count, load average, decay, priorities |
| WaitExit.HeldNotFreed | pintos-kaist/userprog/process.c:339-358 | whenever process_wait touches the child's page it is not freed and cannot be |
| WaitExit.StatusIsFinal | pintos-kaist/userprog/process.c:350-353 | past its sema_down the status it reads can no longer change |
| WaitExit.WaitsIff | pintos-kaist/userprog/process.c:344-350 | a call waits exactly for a child that has been created and not been waited for; any other answers -1 at once |
| WaitExit.SecondWait | pintos-kaist/userprog/process.c:345-349 | a second wait on the same tid returns -1 at once |
| WaitExit.FreedWasWaitedFor | pintos-kaist/threads/thread.c:743-754 | a child's page is freed only after a wait for it has returned |
| WaitExit.StepKeeps | pintos-kaist/userprog/process.c:339-411 | every step keeps the invariant tying semaphores, child list and both programs' positions |
| WaitExit.RunKeeps | pintos-kaist/userprog/process.c:339-411 | so does every interleaving |
| WaitExit.EveryAnswerIsRight | pintos-kaist/userprog/process.c:332-358 | in every interleaving the calls made are answered in order: the first one for an existing child waits and returns the status that child recorded last (-1 if negative), every other one returns -1 without waiting; all of it said in terms of the steps of the run |
| WaitExit.WaitCompletes | pintos-kaist/userprog/process.c:339-411 | a parent inside process_wait is never stuck: the child's exit and its own steps bring it back with the status |
| SleepQueue.InsertOrder | pintos-kaist/devices/timer.c:124-135 | the list stays ordered by wakeup tick, and its front is the earliest |
| SleepQueue.SleepClosestIff | pintos-kaist/devices/timer.c:118-124 | closet_tick stays right exactly unless a wakeup tick of 0 becomes the front |
| SleepQueue.ZeroNeverWoken | pintos-kaist/devices/timer.c:162-171 | while closet_tick is 0 no interrupt wakes anybody |
| SleepQueue.SleepKeeps | pintos-kaist/devices/timer.c:107-127 | going to sleep keeps the invariant |
| SleepQueue.InterruptKeeps | pintos-kaist/devices/timer.c:162-200 | so does an interrupt: exactly the due sleepers leave, nobody else was due |
| SleepQueue.RunKeeps | pintos-kaist/devices/timer.c:107-200 | and every run with nonzero wakeup ticks |
| SleepQueue.RunRecords | pintos-kaist/devices/timer.c:107-127 | the list and the wakeups speak of the calls made: the wakeup tick of each is its argument |
| SleepQueue.WokenOnce | pintos-kaist/devices/timer.c:107-200 | over every run: each call of timer_sleep is woken exactly once, at the first interrupt after it whose tick reaches the wakeup tick it was given, and is on the list until then; nobody else is listed or woken |
| SleepQueue.Timer.GoToSleep | pintos-kaist/devices/timer.c:117-126 | the caller joins the list with its wakeup tick, and closet_tick becomes the earlier of the two |
| SleepQueue.Timer.OnInterrupt | pintos-kaist/devices/timer.c:162-171 | counts the tick; once closet_tick is reached the due front of the list, and only that, is woken and closet_tick is the next front's wakeup tick or 0; before, nothing else changes |
| SleepQueue.Timer.WakeUpDue | pintos-kaist/devices/timer.c:174-200 | the loop takes exactly the due front off the list and resets closet_tick |

## Left out

- Fat.FatFs.CreateChain: the special case of the root cluster, whose chain is never walked, is left out; the caller names a chain head of at least 2 or 0.
- Fat.FatFs.RemoveChain: takes a real position of a real chain, because its loop ends only on clusters in use (Fat.RemovalEndsIff); the root cluster is not removed.
- Inode.Inode.WriteAt: excludes growth from a positive multiple of 512 (Inode.GrowthCoversIff says why) and growth for which the table, or the part of it that has sectors, does not hold enough clusters (Fat.AllocOkIff says exactly when it does, Inode.Inode.Extend what then happens): the copy loop would go on to a sector that does not exist, where the disk driver stops the kernel; 32-bit offsets are assumed to be nonnegative and not to overflow.
- Inode.Format: the boot sector, and the zeroing of the root directory's cluster, are left out.
- Inode.Inode.Open: opens one in-memory inode at a time; the list of open inodes, open counts and removal are not modelled.
- KernelList.Splice: moving a range before its own end (which changes nothing) and between two lists are left out.
- Semaphore.SemaphoreObject.SemaUp: counters are unbounded; the yield after an up is the scheduler's, not a step here.
- Donation.Kernel.LockAcquire: runs without interruption, on an acyclic waits-for graph, as do LockRelease and ThreadSetPriority; LockSteps assumes neither.
- LockSteps.ApplyKeeps: a list operation is one step, and so are the re-reads of holder and pending_lock within one round of the donation loop; malloc is assumed to succeed, and the multi-level feedback queue is off.
- Malloc.Allocator.Malloc: the allocator's own writes into arena headers and free blocks, the arena's magic number and the per-descriptor locks are not modelled.
- Malloc.Allocator.Realloc: of the requests whose page count wraps around, those that would copy into a block of too few pages are excluded; the copy is one step.
- PageTable.PageTable.UpperWalk: pdpe_walk and pml4e_walk, and the inner traversals and teardowns, are one method with a level each; a null root is not modelled.
- PageTable.PageTable.ForEach: the callback does not change the entry it is given.
- PageTable.PageTable.SetPage: TLB invalidation is left out.
- PageTable.OtherRootKeptIff: is about entries whose tables exist; that creating tables through one root keeps Sharing is left out.
- Printf.FormatInteger: flags, width and precision come parsed; strings, the other argument types and the format loop are left out.
- ArgStack.ParseArgs: argv is a map, so that the stores past its 128 entries can be named; what they would overwrite is not modelled.
- ArgStack.LoadArguments: takes the lines that process_exec can copy.
- Mlfqs.Scheduler.TimerTick: the yield after it is left out, and a tick that would read a freed thread has no result.
- Mlfqs.RunBounded: a freed page is not given to a new thread.
- WaitExit.WaitCompletes: children that are never waited for stay blocked, as in the source; fork's own handshake is left out.
- SleepQueue.Timer.GoToSleep: the record's allocation and thread_block are left out.
- fat_allocate for several clusters, inode_create's zeroing and growth of the root directory: no clean promise holds for all inputs.
- Condition variables, calloc, list_unique and the list's maximum and minimum: they would add only easy members.
- Virtual memory, the page cache, system-call plumbing, path lookup, ELF validation, drivers and context switching are not modelled.
