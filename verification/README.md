# A verified model of the mCertiKOS kernel cores

mCertiKOS is a teaching kernel in the style of xv6, here with BSD `flock(2)` added.  This project
models five of its cores in Dafny and proves what each of them keeps over whole runs.

**File system** (`Bytes`, `LogMachine`, `Log`, `BufCache`, `FsLayout`, `FsSteps`, `Fs`, `FileLayer`,
`Format`).
`LogMachine` is the redo log as a machine: every disk write is one event, and a crash may follow
any of them, during recovery too.  `Log` is the code of `log.c` over raw 512-byte blocks; each of its
disk writes is proved to be an event of the machine.  `BufCache` is the linked list of buffers
behind it.  `FsLayout` reads bitmap, inodes and the direct/indirect block map out of raw blocks and states
the invariant: the set bits are the metadata and the disjoint union of the blocks that the inodes
reach.  `Fs` is `block.c` and `inode.c` on top of `Log`, and `FileLayer` is the chunked `file_write`, down
to what a crash in the middle of it leaves on disk.

**flock** (`WaitQueue`, `Flock`, `FlockProtocol`, `FlockSafety`, `FlockTheorems`, `FlockCalls`,
`FlockScheduling`, `InodeCache`).
`WaitQueue` and `Flock` are the data structure and its operations in place.  `FlockProtocol` is a step
relation for any number of threads and files: one step per critical section or lock hand-over of
`file_flock`, `file_close`, `flock_acquire`, `flock_release`, `thread_sleep` and `thread_wakeup`.  `FlockSafety`
proves the inductive invariants, and `FlockTheorems` what follows in every reachable state.  `FlockCalls` says
what one call of `file_flock` does: when it is let in, and what the file holds afterwards.  `FlockScheduling` runs the
protocol on the scheduler: `thread_wakeup` enqueues a woken thread again as long as its channel is set.

**Scheduler** (`Sequences`, `TQueue`, `Scheduler`).  Queues linked through the shared `prev`/`next` indices,
and the thread states over them.  Enqueuing a pid that is queued already is part of the model: it cuts the queue.

**Memory** (`PageAlloc`, `Container`).  `pmem_init`, the cyclic scan of `palloc`, and the quota tree.

**Address spaces** (`PageTable`, `AddressSpace`, `UserCopy`).  Two-level page tables as entries inside
physical pages (32-bit paging, section 4.3 of Intel SDM Volume 3A), demand mapping, and the copy loops of `pmap.c`.

Sizes such as NUM_IDS, NBUF, NINODE and the disk geometry are parameters; MAX_CHILDREN, LOGSIZE, BSIZE, NDIRECT
and the address-space constants are those of the source.

Several properties need a condition that the code does not enforce.  Each is an explicit
hypothesis, and beside it is a lemma that says what happens without it:

| condition | where | what the code does otherwise |
|---|---|---|
| logged sectors lie below the log | `Log.Log.LogWrite` | `LogMachine.LoggedHeaderMixes`, `LogMachine.MixtureExact` (if and only if); `Fs.FreeIsFound` says exactly when `block_alloc` stays below it |
| a wakeup finds no queued thread on its channel, or finds them where enqueuing again does no harm | `Scheduler.Enabled`, `FlockScheduling.CanMove` | `Scheduler.WakeupExact` and `Scheduler.LostExact` (if and only if), `Scheduler.YieldBetweenLoses` |
| and where it keeps everybody's place | `Scheduler.Orderly`, for the bounded wait | `Scheduler.OrderExact` (if and only if) |
| the same of the wakeup in a flock release, which can find woken threads | `FlockScheduling.CanMove` | `FlockScheduling.WakeupCarried` (if and only if), `FlockScheduling.WokenAtRelease` |
| `usage + n` does not wrap | `Container.Enabled` | `Container.CanConsumeExact`, `Container.SplitExact` (if and only if) |
| fewer than MAX_CHILDREN children | `Container.Enabled` | `Container.SplitPastLimitCollides` (if and only if) |
| a page is freed by a container with usage left | `Container.Enabled` | `Container.FreeExact` (if and only if) |
| a user address, of a process other than 0 | `AddressSpace.Vmm.May` | `PageTable.KernelWriteIsShared` |
| enough quota for the pages a copy lacks | `UserCopy.CopyOut`, `UserCopy.CopyIn` | their contracts (if and only if) and `UserCopy.CopyOutPage` |
| `uva + len` does not wrap | `UserCopy.CopyOut`, `UserCopy.CopyIn` | `UserCopy.RangeTestExact` |

Where comments and code differ the model follows the code: `pmem_init` is documented to accept a page that
some usable range contains, but lets the first range that contains it decide.

## Model

| member | source | states |
|---|---|---|
| `LogMachine.HeaderRoundTrip` | mcertikos/kern/fs/log.c:84-109 | the header block that write_head stores is read back by read_head as the same sectors, for every list that fits; word by word it is the count, the sectors and what was there before |
| `LogMachine.CrashAtomicity` | mcertikos/kern/fs/log.c:69-117 | stop any run (appends, header write, installs, header clear, crashes, recoveries) after any disk write: recovering that image gives exactly the home sectors of the last transaction whose header reached disk |
| `LogMachine.RecoveryNeverStuck` | mcertikos/kern/fs/log.c:111-117 | wherever earlier recoveries were cut off, recovery can always take its next step, and once it is through the home sectors are the committed ones |
| `LogMachine.WriteAhead` | mcertikos/kern/fs/log.c:129-142 | a step changes a home sector only when the header already on disk lists it, and then to its committed contents |
| `LogMachine.LogHoldsLatest` | mcertikos/kern/fs/log.c:152-174 | absorption: the logged sectors are distinct, are exactly the pending ones, and each one's slot holds the latest data logged for it |
| `LogMachine.LoggedHeaderMixes` | mcertikos/kern/fs/log.c:69-81 | why logged sectors must lie below the log: for every list with the header sector at slot k and a block with count 0 there, a crash after k + 1 installs recovers to the old home with exactly slots 0..k-1 laid over it |
| `LogMachine.MixtureExact` | mcertikos/kern/fs/block.c:38-54 | that is the old home if and only if no slot below k changes anything, and the new one if and only if no slot above k does |
| `LogMachine.RunKeepsInv` | mcertikos/kern/fs/log.c:129-142 | the invariant between disk, in-memory header and committed/pending contents holds after every run from a fresh log |
| `Log.CachedIsOverlay` | mcertikos/kern/fs/bufcache.c:100-109 | read-your-writes: during a transaction a cached read of a home sector sees the committed home under the transaction's own writes |
| `Log.CommitAllOrNothing` | mcertikos/kern/fs/log.c:129-142 | cut commit_trans off after any number of its disk writes: recovery gives the old home if the header write is missing and every logged block otherwise |
| `Log.FillHeader` | mcertikos/kern/fs/log.c:98-109 | the loop that fills in the sectors produces the block whose words are the count and the list |
| `Log.HeaderRestored` | mcertikos/kern/fs/log.c:84-109 | a header block is determined by its list and what it held before: erasing the count and writing the list back gives the same block |
| `Log.DownTrace` | mcertikos/kern/fs/log.c:54-66 | every image whose header lists distinct home sectors is one that a run cut off after its header write leaves, and its committed home is what recovery computes |
| `Log.Log.Init` | mcertikos/kern/fs/log.c:54-66 | log_init on any such image: recovery runs, the view and the home sectors on disk are the recovered ones, and the log is idle |
| `Log.Log.BeginTrans` | mcertikos/kern/fs/log.c:119-127 | after the waiting loop a transaction is open and nothing else changed |
| `Log.Log.Read` | mcertikos/kern/fs/bufcache.c:100-109 | a read returns the block of the current view, whatever clean buffers were recycled to make room |
| `Log.Log.FindSlot` | mcertikos/kern/fs/log.c:162-165 | the absorption loop finds the slot of an already logged sector, or the next free slot |
| `Log.Log.LogWrite` | mcertikos/kern/fs/log.c:152-174 | the view changes in exactly that sector, the committed home does not, the slot write is one event, and the buffer stays pinned |
| `Log.Log.WriteHead` | mcertikos/kern/fs/log.c:98-109 | the header write is exactly one event of the machine: the commit, or the erasing of the transaction |
| `Log.Log.InstallTrans` | mcertikos/kern/fs/log.c:69-81 | each logged block goes home in slot order, one event each |
| `Log.Log.CommitTrans` | mcertikos/kern/fs/log.c:129-142 | the view becomes the committed home, the log is empty, the disk writes are the header, one install a block and the clear; at every one of them the committed home is the old or the new one |
| `Log.Log.PowerLoss` | mcertikos/kern/fs/log.c:111-117 | a crash between two disk writes keeps the disk and the committed home and loses everything in memory |
| `Log.Log.ReadHead` | mcertikos/kern/fs/log.c:84-94 | the in-memory header is again the one on disk, with no disk write |
| `Log.Log.RecoverFromLog` | mcertikos/kern/fs/log.c:111-117 | after any number of interrupted recoveries, one that completes leaves on disk and in the view the committed home, with the log empty |
| `BufCache.RingCut` | mcertikos/kern/fs/bufcache.c:134-135 | the two link updates turn the circular doubly linked list of `q` into the one of `q` without that buffer |
| `BufCache.RingPush` | mcertikos/kern/fs/bufcache.c:136-139 | the four link updates put a buffer at the front of the circular list |
| `BufCache.OldestEligible` | mcertikos/kern/fs/bufcache.c:83-92 | in release order the last eligible buffer of the list is the eligible one released longest ago |
| `BufCache.RestRecycles` | mcertikos/kern/fs/bufcache.c:83-92 | taking a clean buffer for another sector is the eviction the log model allows: a clean sector leaves, pinned ones stay |
| `BufCache.FoundInCache` | mcertikos/kern/fs/bufcache.c:71-81 | a sector is cached in the log model exactly when its buffer is there, valid and in nobody's hand, and then with the same contents and pin |
| `BufCache.UseRepresents` | mcertikos/kern/fs/bufcache.c:100-145 | a buffer taken, used and put back is what the log model sees of that sector, and nothing else moves |
| `BufCache.UseSector` | mcertikos/kern/fs/log.c:69-81 | read, use and release realise the cached read, the write-through and the pinning write of the log model on the linked list of buffers, whatever was recycled; no return only while somebody owns the sector, or with every buffer owned or pinned |
| `BufCache.Take` | mcertikos/kern/fs/bufcache.c:100-109 | a sector read into the hand has the contents and the pin the log model gave it; it, and perhaps a clean sector recycled for it, leave that model's cache; no return only for one of the two reasons |
| `BufCache.Give` | mcertikos/kern/fs/bufcache.c:127-145 | a buffer put back is again what the log model sees of its sector, and nothing else moves |
| `BufCache.CopyBlock` | mcertikos/kern/fs/log.c:69-81 | one turn of install_trans with both buffers in hand: the home sector has the log block on disk and, clean, in the cache; the log block and every pinned sector are as before; nobody owns one buffer more or less; it stops short only at the read, of the first or the second sector, that has a reason not to return, as a sector copied to itself always does |
| `BufCache.LogBlock` | mcertikos/kern/fs/log.c:152-174 | the buffers of log_write: the caller's block is in the log slot on disk and in the cache, the caller still owns the buffer and it is pinned, every other pinned sector is as before; it stops short only when the slot's read has a reason not to return |
| `BufCache.Cache.constructor` | mcertikos/kern/fs/bufcache.c:40-56 | all buffers are on the list once, none busy, dirty or valid |
| `BufCache.Cache.Lookup` | mcertikos/kern/fs/bufcache.c:71-81 | the forward scan finds the buffer of the sector, or shows that no buffer has it |
| `BufCache.Cache.Victim` | mcertikos/kern/fs/bufcache.c:83-92 | the backward scan finds the eligible buffer released longest ago, or shows that none is eligible |
| `BufCache.Cache.Get` | mcertikos/kern/fs/bufcache.c:63-95 | never hands out a busy buffer, so that busy buffers are at all times exactly the owned ones, with one owner each; never changes a dirty or any other one; keeps one copy a sector; sleeps exactly on the busy holder and panics only when all are busy or dirty |
| `BufCache.Cache.IdeRw` | mcertikos/kern/dev/disk/ide.c:116-145 | a dirty buffer reaches the disk, another is filled from it, and the buffer is valid and clean |
| `BufCache.Cache.Read` | mcertikos/kern/fs/bufcache.c:100-109 | a busy, valid buffer with the cached contents if there were valid ones and the disk's otherwise, recycled if need be from the oldest that is free and clean; it sleeps only on a buffer of that sector that is owned, and panics only when no buffer has the sector and every one is owned or dirty |
| `BufCache.Cache.Write` | mcertikos/kern/fs/bufcache.c:114-121 | the buffer's contents are on disk and the buffer is clean |
| `BufCache.Cache.Release` | mcertikos/kern/fs/bufcache.c:127-145 | by its owner: the buffer moves to the front, the others keep their order, the list is still a ring of all buffers in release order, and the buffer has no owner |
| `FsLayout.DinodeRoundTrip` | mcertikos/kern/fs/inode.c:67-82 | an inode stored by inode_update is loaded by inode_lock, and its neighbours and every other block are untouched |
| `Bytes.BitOfSetBit` | mcertikos/kern/fs/block.c:42-44 | the byte-and-mask update sets one bit of the bitmap block and no other |
| `Bytes.BitOfClearBit` | mcertikos/kern/fs/block.c:66-70 | the byte-and-mask update clears one bit and no other |
| `Bytes.WordOfSetWord` | mcertikos/kern/fs/inode.c:253-259 | a 32-bit store into a block is seen at its own index and nowhere else |
| `FsSteps.LinkDirectStep` | mcertikos/kern/fs/inode.c:240-252 | an allocated block that becomes a direct or indirect address keeps the conservation invariant |
| `FsSteps.LinkEntryStep` | mcertikos/kern/fs/inode.c:253-260 | the same for an entry of the indirect block |
| `FsSteps.FreeDirectStep` | mcertikos/kern/fs/inode.c:281-288 | freeing a direct block and zeroing its address keeps the invariant and every other inode; the block was in use |
| `FsSteps.OthersFiles` | mcertikos/kern/fs/inode.c:353-385 | an inode whose blocks were not touched has the same block map and the same bytes |
| `Fs.ScanBlock` | mcertikos/kern/fs/block.c:41-50 | the inner loop finds the first clear bit among the first n, or shows that all are set |
| `Fs.FreeIsFound` | mcertikos/kern/fs/block.c:38-54 | the scan, which also covers the log blocks, returns a block below the log if and only if one is free there |
| `Fs.Fs.FindFree` | mcertikos/kern/fs/block.c:38-54 | the two nested loops find the lowest clear bit of the whole bitmap, or none |
| `Fs.Fs.BlockZero` | mcertikos/kern/fs/block.c:20-28 | the block reads as zeros and nothing else in the view changed |
| `Fs.Fs.BlockAlloc` | mcertikos/kern/fs/block.c:31-55 | the lowest free block, which was free, is now marked and zeroed; exactly that block is no longer free, and no file changed |
| `Fs.Fs.BlockFree` | mcertikos/kern/fs/block.c:58-73 | exactly that bit is cleared: every other block is used as before, and only bitmap blocks changed |
| `Fs.Fs.Bmap` | mcertikos/kern/fs/inode.c:235-266 | finds a block the file has without changing anything; otherwise appends one fresh zeroed block, with the indirect block if it is missing, and keeps the conservation invariant and every other inode |
| `Fs.Fs.InodeLock` | mcertikos/kern/fs/inode.c:140-169 | the copy read from disk is the inode's present state |
| `Fs.Fs.InodeUpdate` | mcertikos/kern/fs/inode.c:67-82 | the inode block changes to hold the in-memory inode and no bitmap bit moves |
| `Fs.Fs.InodeRead` | mcertikos/kern/fs/inode.c:323-348 | -1 exactly when the offset is beyond the file or off + n wraps; otherwise the file's bytes from off, cut at its end; nothing changes |
| `Fs.Fs.WriteLoop` | mcertikos/kern/fs/inode.c:370-377 | the copy loop over block boundaries writes exactly the bytes of the range, allocating as it goes |
| `Fs.Fs.InodeWrite` | mcertikos/kern/fs/inode.c:353-385 | -1 exactly when refused, and then nothing changes; otherwise the file is src spliced in at off, its size the maximum, every other file unchanged, the on-disk inode current (an added block always forces the size growth that stores it), and the free blocks shrink by exactly the blocks added |
| `Fs.Fs.InodeTrunc` | mcertikos/kern/fs/inode.c:275-306 | exactly the inode's own blocks become free (each was in use, so the panic of block_free is out of reach), the file is empty and every other file unchanged |
| `FileLayer.ChunkSpan` | mcertikos/kern/fs/file.c:146-156 | a chunk touches at most four blocks wherever it starts |
| `FileLayer.OneBitmapBlock` | mcertikos/kern/fs/dinode.h:29-33 | an image of at most BPB blocks has one bitmap block, so a chunk logs at most 7 sectors |
| `FileLayer.WriteChunk` | mcertikos/kern/fs/file.c:150-165 | one transaction logs at most the bitmap blocks and six more, so log_write's size guard never fires; it splices the chunk in; and at each of its disk writes the committed file system is the one before or the one after |
| `FileLayer.SpliceSplice` | mcertikos/kern/fs/file.c:148-166 | splices end to end are one splice |
| `FileLayer.SpliceBytes` | mcertikos/kern/fs/inode.c:370-377 | byte by byte: the new bytes where they were written and the old ones everywhere else |
| `FileLayer.AchievedExact` | mcertikos/kern/fs/file.c:148-170 | all of it if and only if the offset lies in the file and the end within the largest file; otherwise the most whole chunks that fit |
| `FileLayer.WriteThenRead` | mcertikos/kern/fs/inode.c:323-385 | inode_read after inode_write at the same place returns the bytes written |
| `FileLayer.FileWrite` | mcertikos/kern/fs/file.c:132-171 | all n bytes, or the whole chunks that fit in the largest file, as one splice; n is returned if and only if the file is writable and n is 0 or the offset lies in the file and the end within the largest file; no other file changes; and at every disk write the committed file system is consistent, shows a whole number of chunks and every other file as before |
| `FileLayer.CrashDuringWrite` | mcertikos/kern/fs/file.c:132-171 | stop file_write after any of its disk writes, recover the image: the file system is consistent, the file holds whole chunks only and every other file reads as before |
| `Format.BitmapBlock` | mcertikos/kern/fs/mkfs.c:248-261 | the loop sets exactly the first `used` bits of the bitmap block |
| `Format.BlankIsQuiet` | mcertikos/kern/fs/mkfs.c:105-119 | an image of zeros with that bitmap is a consistent file system without files |
| `Format.Mkfs` | mcertikos/kern/fs/mkfs.c:105-119 | so the empty image mkfs starts from satisfies the conservation invariant |
| `Format.Mount` | mcertikos/kern/fs/log.c:54-66 | mounting it gives new objects that meet what every file system operation of this model asks for |
| `WaitQueue.JoinLeave` | mcertikos/kern/flock/flock.c:7-50 | adding and removing keep pids distinct and in range, add or remove exactly that pid, leave everybody else in place, and removal undoes the addition of a newcomer, who goes last |
| `WaitQueue.RoomForNewcomer` | mcertikos/kern/flock/flock.c:18-23 | pigeonhole: a pid that is not queued always finds room, so the capacity test drops nobody |
| `WaitQueue.Queue.Add` | mcertikos/kern/flock/flock.c:7-24 | the arrays hold the queue with the pid appended, or with its request replaced |
| `WaitQueue.Queue.Remove` | mcertikos/kern/flock/flock.c:26-50 | the search and shift loops hold the queue without the pid, the others in order |
| `Flock.DecodeExact` | mcertikos/kern/flock/flock.c:136-166 | exactly six operation words ask for a lock or its release |
| `Flock.FlockT.constructor` | mcertikos/kern/flock/flock.c:55-69 | flock_init: inactive, no holders, no waiters |
| `Flock.FlockT.MustWait` | mcertikos/kern/flock/flock.c:81-90 | the test of flock_acquire on the fields; what it amounts to is `FlockCalls.BlockedExact` |
| `Flock.FlockT.StartWaiting` | mcertikos/kern/flock/flock.c:88-89 | queue and counter gain the caller together |
| `Flock.FlockT.StopWaiting` | mcertikos/kern/flock/flock.c:94-95 | queue and counter lose the caller together |
| `Flock.FlockT.Take` | mcertikos/kern/flock/flock.c:98-100 | the state and the holder count after a grant |
| `Flock.FlockT.Drop` | mcertikos/kern/flock/flock.c:171-211 | the state after a release, and whether sleepers must be woken |
| `FlockSafety.StepKeepsInv` | mcertikos/kern/flock/flock.c:75-211 | every step of every thread keeps the invariants on locks, files in use, owners, waiters, sleepers and the reference count |
| `FlockSafety.ReachableInv` | mcertikos/kern/fs/file.c:178-224 | hence they hold in every state of every run |
| `FlockSafety.RecycleIsClean` | mcertikos/kern/fs/inode.c:109-118 | a slot with reference count 0 has a lock exactly as flock_init leaves it |
| `FlockTheorems.Ownership` | mcertikos/kern/flock/flock.c:75-211 | in every reachable state at most one file holds LOCK_EX, and then none LOCK_SH; shared_holders is the number of files holding LOCK_SH, counting those in flight; EXCLUSIVE, SHARED and INACTIVE if and only if one file holds LOCK_EX, some hold LOCK_SH, none holds anything |
| `FlockTheorems.BlockedOrRefusedHoldsNothing` | mcertikos/kern/fs/file.c:178-224 | a file blocked in file_flock holds nothing, and a call that returns -1 leaves its file holding nothing |
| `FlockTheorems.NoLostWakeup` | mcertikos/kern/thread/PThread/PThread.c:101-157 | while fl->lock is free, whoever sleeps on the lock has a true wait condition, under every interleaving of the lock hand-over with release and wakeup |
| `FlockTheorems.WaitersCounted` | mcertikos/kern/flock/flock.c:88-126 | the queue, the two counters and the waiting threads agree, and the queue never overflows |
| `FlockTheorems.NoStuckLock` | mcertikos/kern/flock/flock.c:171-211 | with fl->lock free, the lock inactive and somebody queued, some waiter has been woken, or is past that, and may take it |
| `FlockTheorems.ReadyWaiterAcquires` | mcertikos/kern/flock/flock.c:90-101 | and at most three steps of that waiter take the lock |
| `FlockTheorems.NoDeadlock` | mcertikos/kern/flock/flock.c:75-211 | unless every thread is idle or asleep, some thread can step |
| `FlockTheorems.SleepersWaitForAnOwner` | mcertikos/kern/flock/flock.c:75-131 | when nothing can run, sleepers wait for a lock that an open file really holds |
| `FlockTheorems.SafeRecycling` | mcertikos/kern/fs/inode.c:89-122 | inode_get reinitialises the lock of a slot only when it has no holder, no waiter, no open file and no thread still closing one |
| `FlockTheorems.GrantGuard` | mcertikos/kern/flock/flock.c:81-101 | the number of readers grows only in a step that sees no waiting writer |
| `FlockTheorems.WriterPriority` | mcertikos/kern/flock/flock.c:81-131 | from the step a writer registers until it acquires, shared_holders never increases, whatever the other threads do |
| `FlockCalls.BlockedExact` | mcertikos/kern/flock/flock.c:81-118 | in every reachable state a reader has to wait if and only if some file holds LOCK_EX or some thread waits for it, a writer if and only if any file holds the lock |
| `FlockCalls.GrantExact` | mcertikos/kern/flock/flock.c:75-166 | flock_acquire under fl->lock, in every reachable state: the lock is granted, with one more owner, if and only if that condition allows it; otherwise LOCK_NB is refused and the others are queued; anything but a lock is refused, and a refusal changes nothing |
| `FlockCalls.LoopExact` | mcertikos/kern/flock/flock.c:90-100 | the waiting loop ends, with one more owner and the waiter off the queue, if and only if the same condition allows it |
| `FlockCalls.WakeExact` | mcertikos/kern/flock/flock.c:171-211 | a release gives up exactly one ownership, and wakes the sleepers if and only if nobody owns the lock any more |
| `FlockCalls.UncontendedCall` | mcertikos/kern/fs/file.c:178-224 | with fl->lock free, a lock that may be had is taken by the caller's own six steps, and nothing else changes |
| `FlockCalls.ReadersShare` | mcertikos/kern/flock/flock.c:75-101 | for every n some run ends with n files holding LOCK_SH at once |
| `FlockCalls.CallResult` | mcertikos/kern/fs/file.c:178-224 | over every run, from the entry of file_flock to its return, whatever the others do: the file is at rest and holds the lock asked for, upgrade and downgrade included, or nothing after LOCK_UN or -1; -1 is returned only for LOCK_NB or a word that asks for nothing, and always for the latter |
| `FlockCalls.NothingToDo` | mcertikos/kern/fs/file.c:189-210 | a call returns at once with the whole state as before if and only if the file holds that lock already, or has none and unlocks |
| `FlockScheduling.OnlySleepersExact` | mcertikos/kern/flock/flock.c:171-211 | a release finds only sleepers on its channel if and only if no thread has been woken that has not run since |
| `FlockScheduling.WakeupCarried` | mcertikos/kern/thread/PThread/PThread.c:144-157 | the wakeup of a release does to the ready queue what the protocol says if and only if it is harmless; with nobody in that state it always is |
| `FlockScheduling.JointRunCarries` | mcertikos/kern/thread/PThread/PThread.c:101-157 | over every joint run of the protocol and the scheduler whose wakeups are harmless, whoever is in the middle of a flock call and not asleep on the lock is running or in the ready queue; between calls and in the inode_put of a close a thread may sleep on other channels and clear them |
| `FlockScheduling.ReachedCarries` | mcertikos/kern/thread/PThread/PThread.c:101-157 | the same for every state of a joint run from boot, and its protocol part is a reachable state of the protocol |
| `FlockScheduling.NoStuckLockQueued` | mcertikos/kern/flock/flock.c:171-211 | so with fl->lock free, the lock inactive and somebody queued, a waiter that may take it is running or in the ready queue |
| `FlockScheduling.WokenAtRelease` | mcertikos/kern/flock/flock.c:171-211 | joint runs from boot, all wakeups harmless, to two releases that find such a thread: the wakeup of the one is not harmless, that of the other is |
| `InodeCache.Cache.InodeGet` | mcertikos/kern/fs/inode.c:89-122 | a cached inode gains one reference and keeps its lock; otherwise the first unreferenced slot is taken with a fresh lock; no inode ever occupies two live slots |
| `InodeCache.Cache.InodeDup` | mcertikos/kern/fs/inode.c:128-134 | one more reference and nothing else |
| `InodeCache.Cache.InodePut` | mcertikos/kern/fs/inode.c:192-211 | one reference less and nothing else |
| `TQueue.Queues.constructor` | mcertikos/kern/thread/PTQueueInit/PTQueueInit.c:8-18 | all queues are empty |
| `TQueue.RequeueForward` | mcertikos/kern/thread/PTQueueInit/PTQueueInit.c:26-41 | the link updates of an enqueue, followed from the head: a pid new to the queue goes last; one that is in it already becomes the last where it stands, and what was behind it is cut off |
| `TQueue.RequeueExact` | mcertikos/kern/thread/PTQueueInit/PTQueueInit.c:26-41 | the resulting queue in terms of positions: appended, or cut behind the pid |
| `TQueue.Queues.Enqueue` | mcertikos/kern/thread/PTQueueInit/PTQueueInit.c:26-41 | so does the queue as tqueue_dequeue will find it, for every pid that is not in another queue, and every other queue is unchanged, although all share the link arrays; for a new pid the backward links are right too |
| `TQueue.Queues.Dequeue` | mcertikos/kern/thread/PTQueueInit/PTQueueInit.c:48-71 | the front pid leaves, or NUM_IDS for an empty queue; every other queue is unchanged; backward links that were right stay right |
| `TQueue.Queues.Remove` | mcertikos/kern/thread/PTQueueInit/PTQueueInit.c:77-104 | a pid leaves from any position, the middle case's `prev != next` guard included; order and other queues are kept |
| `TQueue.LinksCut` | mcertikos/kern/thread/PTQueueInit/PTQueueInit.c:77-104 | joining the neighbours of position k links exactly the sequence without it |
| `Scheduler.NextInv` | mcertikos/kern/thread/PThread/PThread.c:33-157 | spawn, yield, sleep and harmless wakeups keep: exactly the current thread runs, and the ready threads are exactly those queued, once each |
| `Scheduler.ReachableInv` | mcertikos/kern/thread/PThread/PThread.c:33-157 | hence this holds in every state of every run |
| `Scheduler.WakeReady` | mcertikos/kern/thread/PThread/PThread.c:144-157 | the ready queue after the loop, for any channel: what stood ahead of the first queued thread on it, then the threads on it in pid order from that one's pid on |
| `Scheduler.LostExact` | mcertikos/kern/thread/PThread/PThread.c:144-157 | a thread is READY and in no queue afterwards if and only if it stood behind that first thread without being on the channel, or is on it with a lower pid |
| `Scheduler.WakeupExact` | mcertikos/kern/thread/PThread/PThread.c:144-157 | thread_wakeup keeps the invariant if and only if the running thread is not on the channel and, when a queued thread is, the first such one has the lowest pid on the channel and only threads on the channel behind it |
| `Scheduler.SleepersHarmless` | mcertikos/kern/thread/PThread/PThread.c:144-157 | with only sleepers on the channel that is so |
| `Scheduler.SecondWakeupIdle` | mcertikos/kern/thread/PThread/PThread.c:130-157 | a second wakeup of a channel right after the first changes nothing, although it enqueues every woken thread again |
| `Scheduler.YieldBetweenLoses` | mcertikos/kern/thread/PThread/PThread.c:59-157 | with a yield between the two, the thread that yielded is READY and in no queue |
| `Scheduler.WakeupLosesThread` | mcertikos/kern/thread/PThread/PThread.c:144-157 | the smallest losing input: queue [1, 3] with thread 1 on the channel becomes [1] |
| `Scheduler.OrderExact` | mcertikos/kern/thread/PThread/PThread.c:144-157 | thread_wakeup keeps the invariant and every queued thread's place if and only if the queued threads on the channel stand last, in pid order, and below the other pids on it |
| `Scheduler.QueueMoves` | mcertikos/kern/thread/PThread/PThread.c:59-81 | one event that keeps places moves a queued thread one place forward, runs it, or leaves it where it is |
| `Scheduler.BoundedWait` | mcertikos/kern/thread/PThread/PThread.c:59-139 | over every run whose wakeups keep places, a thread with k ahead of it is the one the (k+1)-th dispatch runs, whatever is spawned, woken or put to sleep in between |
| `Scheduler.Threads.constructor` | mcertikos/kern/thread/PThread/PThread.c:15-26 | thread 0 runs, no other pid is a thread yet, and nothing is queued |
| `Scheduler.Threads.ThreadSpawn` | mcertikos/kern/thread/PThread/PThread.c:33-48 | the pid is ready and last in the queue, nothing else changes, and the scheduler invariant is kept |
| `Scheduler.Threads.ThreadYield` | mcertikos/kern/thread/PThread/PThread.c:59-81 | the running thread goes last and the first of that queue runs, nothing else changes, and the invariant is kept |
| `Scheduler.Threads.ThreadSleep` | mcertikos/kern/thread/PThread/PThread.c:101-139 | the running thread sleeps on its channel, the first of the queue runs, nothing else changes, and the invariant is kept |
| `Scheduler.Threads.ThreadWakeup` | mcertikos/kern/thread/PThread/PThread.c:144-157 | in any state and for any channel exactly the threads on it become ready, and the arrays and links realise the wakeup pid by pid; from a good state they end in one if and only if the wakeup is harmless |
| `PageAlloc.PageCount` | mcertikos/kern/pmm/MATInit/MATInit.c:39-51 | the page count is the highest end of the memory map in pages |
| `PageAlloc.Classify` | mcertikos/kern/pmm/MATInit/MATInit.c:81-98 | the inner loop answers what the first row containing the whole page says |
| `PageAlloc.CoversBytes` | mcertikos/kern/pmm/MATInit/MATInit.c:88-90 | a row passes the test for a page if and only if every byte of the page lies in it and its end does not wrap |
| `PageAlloc.UsableExact` | mcertikos/kern/pmm/MATInit/MATInit.c:81-98 | a page is usable if and only if the first row that holds every byte of it is |
| `PageAlloc.PmemInit` | mcertikos/kern/pmm/MATInit/MATInit.c:22-102 | a page is usable, with permission 2, if and only if it lies in the user range and in memory and the first row that contains it is usable; none is allocated |
| `PageAlloc.Pages.Scan` | mcertikos/kern/pmm/MATOp/MATOp.c:36-50 | the wrap-around loop finds the first free page from the remembered start, or goes full circle exactly when no page anywhere is free |
| `PageAlloc.Pages.Palloc` | mcertikos/kern/pmm/MATOp/MATOp.c:27-63 | 0 if and only if no page is free, and the next scan starts at the bottom again; otherwise the first free page from the remembered start upwards and then from the bottom, now allocated, and nothing else changed |
| `PageAlloc.Pages.Pfree` | mcertikos/kern/pmm/MATOp/MATOp.c:73-78 | exactly that page is free again |
| `Container.CanConsumeExact` | mcertikos/kern/pmm/MContainer/MContainer.c:82-85 | the unsigned test is the intended one if and only if usage + n does not wrap; when it wraps it passes |
| `Container.ChildIsNew` | mcertikos/kern/pmm/MContainer/MContainer.c:93-105 | the computed child slot is unused, since slots of different parents never meet |
| `Container.SplitExact` | mcertikos/kern/pmm/MContainer/MContainer.c:93-122 | after the quota test, a split keeps tree, quotas and balance if and only if the test did not wrap |
| `Container.SplitPastLimitCollides` | mcertikos/kern/trap/TSyscall/TSyscall.c:133-137 | the slot of child number MAX_CHILDREN is in use if and only if the next container is and has a child |
| `Container.QuotaTestSuffices` | mcertikos/kern/pmm/MContainer/MContainer.c:129-143 | whenever the quota test of container_alloc passes, a page is free |
| `Container.FreeExact` | mcertikos/kern/pmm/MContainer/MContainer.c:146-158 | container_free keeps the balance if and only if the page was not allocated or the container has usage to give back |
| `Container.QuotaSoundness` | mcertikos/kern/pmm/MContainer/MContainer.c:22-158 | over every run of splits, allocations and frees, allocated pages are the usable ones less the sum of quota - usage over the tree, and an allocation answers 0 exactly when its own quota is used up |
| `Container.Containers.constructor` | mcertikos/kern/pmm/MContainer/MContainer.c:22-54 | the counting loop gives the root every usable page, and the balance holds |
| `Container.Containers.CanConsumeNow` | mcertikos/kern/pmm/MContainer/MContainer.c:82-85 | the answer, in terms of the exact sum |
| `Container.Containers.SplitOffChild` | mcertikos/kern/pmm/MContainer/MContainer.c:93-122 | for any arguments: the child, in its slot, has the quota asked for (as a signed number), usage 0, no children and the caller as parent; the caller's usage grows by exactly that quota and its children by one; every other container is unchanged; or NUM_IDS and no change when out of range; when the caller's checks hold, the slot was unused and the balance is kept |
| `Container.Containers.AllocPage` | mcertikos/kern/pmm/MContainer/MContainer.c:129-143 | 0 if and only if the quota is used up, and then nothing changes; otherwise a page that was free is allocated, the usage grows by one, and nothing else changes |
| `Container.Containers.FreePage` | mcertikos/kern/pmm/MContainer/MContainer.c:146-158 | for any page and container: the page is free, the usage drops by one if the page was allocated and the usage is positive, nothing else changes; the balance is kept if and only if the page was not allocated or the container has usage to give back |
| `PageTable.NoSharing` | mcertikos/kern/vmm/MPTNew/MPTNew.c:16-25 | every mapped user page and every page table is an allocated page; two mapped pages, or two tables, are the same page only if they are the same entry, and no mapped page is a table |
| `PageTable.KernelIdentity` | mcertikos/kern/vmm/MPTOp/MPTOp.c:69-88 | kernel addresses of every process, and all addresses of process 0, translate to themselves with exactly PTE_P and PTE_W, and PTE_G outside the user range; the directory entry is PTE_P, PTE_W and PTE_U |
| `PageTable.UserConfined` | mcertikos/kern/vmm/MPTOp/MPTOp.c:69-88 | whatever user mode can touch, as the present and user bits of both levels decide, lies in the user range of a process other than 0, in an allocated page of that process that no other entry reachable from user mode maps and that is no page table |
| `PageTable.WriteChangesOne` | mcertikos/kern/vmm/MPTIntro/MPTIntro.c:82-114 | storing a user page-table entry changes the translation of one virtual page of one process, over all processes and addresses |
| `PageTable.WriteKeepsInv` | mcertikos/kern/vmm/MPTIntro/MPTIntro.c:91-114 | and keeps the isolation invariant when the page stored is held by that entry |
| `PageTable.KernelWriteIsShared` | mcertikos/kern/vmm/MPTIntro/MPTIntro.c:91-97 | outside the user range, or for process 0, the same store is seen by every process |
| `PageTable.AddTableSilent` | mcertikos/kern/vmm/MPTComm/MPTComm.c:43-59 | a new, cleared page table changes no translation |
| `PageTable.AddTableKeepsInv` | mcertikos/kern/vmm/MPTComm/MPTComm.c:43-59 | and keeps the isolation invariant |
| `PageTable.DropTableKeepsInv` | mcertikos/kern/vmm/MPTComm/MPTComm.c:64-70 | removing a table ends exactly the translations through it; its page was allocated and may be freed |
| `AddressSpace.IdentityTables` | mcertikos/kern/vmm/MPTOp/MPTOp.c:69-88 | the nested loops fill all 1024 identity tables, with PTE_P and PTE_W, and PTE_G outside the user range, and no other page |
| `AddressSpace.Addresses` | mcertikos/kern/vmm/MPTOp/MPTOp.c:69-88 | by address: below VM_USERLO, from VM_USERHI on and in process 0 every address maps to itself and is out of user mode's reach |
| `AddressSpace.Directory` | mcertikos/kern/vmm/MPTComm/MPTComm.c:20-34 | a process's directory: identity in the kernel range, empty in the user range |
| `AddressSpace.KernelDirectory` | mcertikos/kern/vmm/MPTKern/MPTKern.c:17-27 | process 0's directory is the identity everywhere |
| `AddressSpace.Vmm.constructor` | mcertikos/kern/vmm/MPTComm/MPTComm.c:20-34 | the isolation invariant holds after boot with no user page mapped |
| `AddressSpace.Boot` | mcertikos/kern/vmm/MPTKern/MPTKern.c:17-27 | from any memory map the whole initialisation chain establishes every memory invariant on new objects; the free pages are exactly the usable ones and all belong to the root |
| `AddressSpace.Vmm.GetEntry` | mcertikos/kern/vmm/MPTOp/MPTOp.c:20-28 | the entry that translates the address, 0 when its table is missing |
| `AddressSpace.Vmm.SetEntry` | mcertikos/kern/vmm/MPTOp/MPTOp.c:53-57 | that one translation changes; data pages and kernel memory keep their contents |
| `AddressSpace.Vmm.AllocPtbl` | mcertikos/kern/vmm/MPTComm/MPTComm.c:43-59 | 0 if and only if the quota is used up; otherwise an empty table in a page nobody held, and no translation changed |
| `AddressSpace.Vmm.MapPage` | mcertikos/kern/vmm/MPTKern/MPTKern.c:37-52 | MagicNumber if and only if a table is missing and the quota is used up, and then no translation changed; otherwise the page is mapped and nothing else in any address space moves |
| `AddressSpace.Vmm.UnmapPage` | mcertikos/kern/vmm/MPTKern/MPTKern.c:62-69 | returns the old entry; that translation ends and no other changes |
| `AddressSpace.Vmm.AllocPage` | mcertikos/kern/vmm/MPTNew/MPTNew.c:16-25 | MagicNumber if and only if the quota does not cover the page and a missing table; otherwise exactly one virtual page of one process changes, to a page that was free, and every data page keeps its contents |
| `AddressSpace.Vmm.FreePtbl` | mcertikos/kern/vmm/MPTComm/MPTComm.c:64-70 | exactly the translations through the table end and its page is free; isolation is kept, and the page balance if and only if the container has usage to give back |
| `AddressSpace.DropUndoesAdd` | mcertikos/kern/vmm/MPTComm/MPTComm.c:43-70 | free_ptbl undoes alloc_ptbl |
| `UserCopy.RangeTestExact` | mcertikos/kern/lib/pmap.c:21-25 | the range test accepts exactly the user ranges and the ranges that wrap past the top |
| `UserCopy.PokeSilent` | mcertikos/kern/lib/pmap.c:76-76 | copying into a data page changes no translation of any process |
| `UserCopy.Access` | mcertikos/kern/lib/pmap.c:64-69 | the page is mapped afterwards if and only if the quota covers what it lacks, and then, if it was not before, with PTE_P, PTE_W and PTE_U; otherwise the page number is 0 |
| `UserCopy.CopyOutPage` | mcertikos/kern/lib/pmap.c:63-82 | one turn: the chunk is what the process reads there, or lands in physical page 0 when the allocation failed; every other mapped byte is kept |
| `UserCopy.CopyOut` | mcertikos/kern/lib/pmap.c:53-85 | the whole range is mapped afterwards if and only if the quota covers its missing pages and tables, and then the process reads buf there; every other mapped user byte of every process is unchanged, and the only pages that came in are absent ones of the range, with PTE_P, PTE_W and PTE_U |
| `UserCopy.CopyIn` | mcertikos/kern/lib/pmap.c:19-51 | under the same condition the bytes the process reads; no mapped user byte and no kernel memory changes, and only absent pages of the range come in, with PTE_P, PTE_W and PTE_U |
| `UserCopy.MappedNeedsNothing` | mcertikos/kern/lib/pmap.c:29-35 | a range that is mapped takes no page |
| `UserCopy.OutAndIn` | mcertikos/kern/lib/pmap.c:19-85 | pt_copyout and then pt_copyin over the same range return the original bytes, for any alignment and length, and keep every other mapped user byte |

## Left out

- Directories, paths, inode_alloc, the files mkfs adds and most of sysfile.c: the file system starts from a consistent image, such as the empty one of `Format`, and knows the superblock numbers.
- InodeCache.Cache.InodePut: models the reference drop; the branch that truncates and frees an inode without links is only there as `Fs.Fs.InodeTrunc`.
- Fs.Fs.InodeLock: loads from disk each time; the I_VALID shortcut, I_BUSY sleeping and inode_unlock are not modelled.
- Fs.Fs.InodeWrite: requires as many free blocks below the log as the write adds (otherwise the scan of block_alloc reaches the log's own blocks, see `Fs.FreeIsFound`) and room in the log; device inodes (T_DEV) are left out.
- Fs.Fs.Bmap: a block number at most one past the file's last block, which is all inode_read and inode_write ask for.
- Fs.Fs.BlockAlloc: requires a free block below the log; see `Fs.FreeIsFound`.
- Log.Log.BeginTrans: one transaction at a time; the sleep while log.busy is set is not modelled.
- Log.Log.ReadHead: a header whose count exceeds LOGSIZE never arises in a run and is not modelled; neither are torn sector writes and disk errors.
- FsLayout.DinodeRoundTrip: the four 16-bit fields of a dinode are kept as two 32-bit words.
- BufCache.Cache.Get: one call up to its return, its sleep or its panic; the retry after a sleep is the same call again, and running out of buffers is an outcome.
- BufCache.Cache.Release: a buffer is released dirty, or with changed contents, only once it has been read and is pinned, as log_write does.
- Scheduler.Threads.ThreadSleep: up to the context switch, and with a non-empty ready queue; the lock hand-over around it is in FlockProtocol.
- flock with one thread at a time inside file_flock for a given file: descriptors are never shared, since file_dup has no caller.
- UserCopy.CopyOut: the kernel buffer is a sequence apart from physical memory, so a kernel address that aliases the user pages is not modelled.
- UserCopy.CopyIn: the same.
- FlockScheduling.JointRunCarries: one CPU, whose running thread takes the steps; wakeups harmless, as above; inside file_flock and flock_release a thread sleeps on the lock only, as the code does.
- BufCache.CopyBlock: both reads return, or the state up to the one that sleeps or panics; `Log` itself runs on the cache of the log model.
- BufCache.LogBlock: the same.
- pt_memset: not modelled; it is the loop of UserCopy.CopyOut without the range test.
- AddressSpace.Vmm.SetEntry: user addresses of processes other than 0, and pages held by that entry; see PageTable.KernelWriteIsShared.
- AddressSpace.Vmm.AllocPage: user addresses of processes other than 0; permissions are those its callers pass, with the present bit set.
- AddressSpace.Vmm.MapPage: the page mapped is allocated and not mapped elsewhere, as alloc_page ensures.
- sched_update, time slices, several CPUs, spinlock internals (locks are atomic mutual exclusion), trap dispatch, drivers, boot code, the E820 merging, ELF loading, the user programs and the string library.
