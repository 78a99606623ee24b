# Three xv6 kernels, modelled and proved in Dafny

The repository holds three RISC-V xv6 kernels, each extended for one assignment. This project models
the parts of them that keep a promise over many steps, and proves those promises for every input, every
interleaving and every crash point the model can express.

| files | what they model |
|---|---|
| `disk`, `redolog`, `protocol` | the write-ahead log as atomic block writes that a crash can cut anywhere, and group commit as a machine whose steps are begin_op, log_write, end_op, one disk write, and a crash followed by any number of interrupted recoveries |
| `ring`, `bcache`, `log` | the buffer cache (a doubly linked ring of NBUF buffers) and the log object over it, in the imperative form of bio.c and log.c |
| `shared` | commit as a machine over that cache, with readers coming in between any two of its critical sections |
| `pool`, `pagetable`, `spaces`, `vm` | the frame pool and Sv39 address spaces (section 4.4 of the RISC-V Privileged Architecture, version 1.12), with the failure paths |
| `ramqueue`, `swapfile`, `paging`, `policy`, `pager`, `fork` | ass3's demand paging of one process: sixteen resident pages, sixteen swap slots, three replacement policies, fork |
| `bits`, `fsblocks`, `files` | the block bitmap, direct and indirect block maps, and files as byte sequences |
| `umalloc`, `malloc` | the K&R allocator of user programs |
| `semaphore` | ass2's counting semaphores over sleep and wakeup |
| `lifecycle`, `scheduler` | ass1's fork, exit and wait, and what its schedulers choose |
| `sizes`, `sequences`, `counting` | constants the kernels share, and helpers |
| `virtio`, `pipe`, `grep` | descriptor chains (sections 2.6 and 5.2 of virtio 1.1), the pipe with wrapping counters, and the regular-expression matcher |

Code that changes state in place is a class whose methods follow the C functions. What a method does to the
whole state is given by a function or predicate on values, and the properties are lemmas about those. Code
that several processes run at once is a machine whose steps are what one of them does between two lock
operations; its theorems are about every run. Panics are results (`panic`, `-1`, `-2`, `NoSlot`), so the
contracts say exactly when they happen.

## Where the code does not do what one would expect

- The cache has NBUF = 30 buffers and a transaction may log LOGSIZE = 30 blocks, each pinned in its own
  buffer. commit() needs one more buffer for the log block, so it panics with "no buffers" exactly when the
  transaction has NBUF blocks (`Log.Log.Commit`), whatever readers do (`SharedCommit.FullPanics`). Such a
  transaction can happen exactly if log.size is more than LOGSIZE, given thirty blocks outside the log
  (`LogProtocol.FullGroupIff`); three operations that log ten different blocks each are enough
  (`LogProtocol.GroupReachable`). A smaller transaction panics only while readers reference buffers
  (`SharedCommit.PanicMeansBorrowed`).
- log_write panics at `lh.n >= LOGSIZE` and at `lh.n >= log.size - 1`, even when the block would have been
  absorbed (`Log.Log.LogWrite`). begin_op looks at LOGSIZE alone and reserves room for ten different blocks an
  operation, so that is enough room exactly if log.size is more than LOGSIZE, which initlog does not check.
  * With log.size more than LOGSIZE, an operation within its budget meets the panic only when LOGSIZE blocks are
    logged, and only on a block of its own that would have been absorbed (`LogProtocol.PanicIsAbsorbed`). Three
    operations that have logged ten each get there (`LogProtocol.FullLogReachable`).
  * With log.size at most LOGSIZE, a block new to its operation meets the panic within the budget
    (`LogProtocol.RoomForBudgets`, an if-and-only-if but for devices too small to fill the log), whether another
    operation has logged it or nobody has (`LogProtocol.SmallLogReachable`).

  The crash theorems need neither: they hold for any log.size from one block on and any number of log_write
  calls, a panic being one more place to stop.
- malloc passes sbrk a byte count cut to an int. From 2^27 units on the heap it goes on to hand out is not
  the memory it was given; below that, or when a free block fits, or when sbrk refuses, it is
  (`Malloc.Allocator.Malloc`). A request of two gigabytes asks for minus two gigabytes, which succeeds and gives
  nothing (`Malloc.SbrkGivesNothing`).
- bsem_free resets the value without waking anyone. Afterwards a thread sleeps for good on a semaphore that is
  available exactly if the limit is positive and some thread sleeps there that no bsem_up is on its way to
  (`Semaphore.FreeLosesWakeups`), and a run of two threads gets there (`Semaphore.FreeLosesAWakeup`). Without
  bsem_free it never happens (`Semaphore.NobodyLosesWakeups`).
- bsem_alloc looks for a free entry before it has the lock, so two callers can be given one semaphore
  (`Semaphore.SharedSemaphore`): in any interleaving exactly when some caller takes an entry that is no longer
  free under the lock (`Semaphore.SharedExactlyWhenStale`).
- ass3's uvmalloc tracks every page of a call but the first (`Pager.Process.Grow`), and a fault with all
  thirty-two entries tracked panics for want of a swap slot, and only then (`Pager.Process.Fault`). Growing by
  thirty-three pages at once gets there with seventeen frames (`Pager.FullTable`).
- writei that cannot read its source to the end leaves the bytes it has copied of the last block in the cache,
  without logging the block, and does not count them (`Files.FileSystem.Writei`).
- A reader that gives piperead a bad address loses one byte (`Pipe.NothingLost`, `Pipe.LoseByte`).

## Model

| member | source | states |
|---|---|---|
| RedoLog.HeaderRoundTrip | ass1/kernel/log.c:87-114 | reading a header block back yields the block list that was written into it, whatever the block held before |
| RedoLog.HeaderWords | ass1/kernel/log.c:35-38 | word 0 of the header block is the count, the words behind it the block numbers, and the rest is left as it was |
| RedoLog.RecoverPrefix | ass1/kernel/log.c:69-123 | a recovery cut after any number of its writes leaves unchanged what every home block is going to be; one that finishes has made it so and left an empty log |
| RedoLog.AbortedRecoveriesKeepLogical | ass1/kernel/log.c:117-123 | any number of cut recoveries in a row still decides nothing new |
| RedoLog.RecoveryCompletes | ass1/kernel/log.c:117-123 | after any cut recoveries, the first that finishes gives each home block the logged copy if the header named it, else its own, and empties the log |
| RedoLog.CommitPrefix | ass1/kernel/log.c:179-203 | after k writes of commit the header on disk is empty or the whole list, the log is readable, and each home block is decided to be new exactly once write number n, the header write, is done |
| RedoLog.CommitIsAtomic | ass1/kernel/log.c:69-203 | stop commit after any write and recovery anywhere, any number of times: the first recovery to finish leaves the home blocks all new if the header write was reached and all old otherwise |
| LogProtocol.StepKeepsInv | ass1/kernel/log.c:126-235 | every step of any caller, every disk write and every crash keeps disk, cache, header and history consistent, whatever the size of the log |
| LogProtocol.RunKeepsInv | ass1/kernel/log.c:126-235 | so does every run from a booted machine |
| LogProtocol.NeverUnreadable | ass1/kernel/log.c:87-123 | in every reachable state a restart finds a header it can read, and a commit that has begun can always make its next write or return |
| LogProtocol.CrashSafety | ass1/kernel/log.c:117-203 | a crash in a consistent state, then recoveries, leaves exactly the first groups: all of them, or all but the one being committed |
| LogProtocol.RecoveredDiskIsGroupPrefix | ass1/kernel/log.c:117-235 | for every run and every crash point the recovered home blocks are the state after a prefix of the commit groups, missing none when no commit was running |
| LogProtocol.OperationsAreNotSplit | ass1/kernel/log.c:127-175 | two writes of one operation are in one group, so a crash keeps all of an operation or none of it |
| LogProtocol.LogNeverOverflows | ass1/kernel/log.c:127-142 | on every run whose operations log at most ten different blocks each, the header holds what they have logged and has room for all they may still log, and so has the log area if log.size is more than LOGSIZE; log blocks stay inside the log area, and logged numbers are distinct |
| LogProtocol.CacheIsLatest | ass1/kernel/log.c:207-235 | between commits what bread returns is the committed groups with the open group's writes on top |
| LogProtocol.WrittenIsKept | ass1/kernel/log.c:126-235 | what log_write was given is what bread returns until the block is logged again or the machine crashes; once its group is committed it is on the disk after any recoveries |
| LogProtocol.AdmitsExactly | ass1/kernel/log.c:127-142 | the test of begin_op is true exactly when whatever different new blocks the operations that are in and the caller log, ten each, the header can hold them |
| LogProtocol.RefusedExactly | ass1/kernel/log.c:127-142 | so while nobody commits a caller is refused exactly when some such blocks would not fit |
| LogProtocol.JoinsAGroup | ass1/kernel/log.c:127-142 | a second operation begins after the first has logged a block, and a third after the first has ended, all in one group |
| LogProtocol.PanicIsAbsorbed | ass1/kernel/log.c:220-223 | on such a run log_write panics for size exactly when the smaller of LOGSIZE and log.size - 1 blocks are logged; if that is LOGSIZE, the block is one the operation has logged itself and every operation has logged its ten |
| LogProtocol.ListReachable | ass1/kernel/log.c:127-235 | whatever blocks the log can take, three admitted operations within their budgets can log them |
| LogProtocol.FullLogReachable | ass1/kernel/log.c:127-142 | for log.size above LOGSIZE they can log any LOGSIZE distinct home blocks, ten each, and each of them then meets that panic within its budget |
| LogProtocol.SmallLogReachable | ass1/kernel/log.c:220-223 | for log.size at most LOGSIZE they can log any log.size - 1 blocks, and one of them then meets the panic within its budget on any block it has not logged, even one that nobody has |
| LogProtocol.RoomForBudgets | ass1/kernel/log.c:55-66 | among operations within their budgets a block new to its operation never meets the size panic exactly if log.size is more than LOGSIZE, or the device has fewer than log.size - 1 blocks outside the log, or none |
| LogProtocol.EndOpNeverSeesCommitting | ass1/kernel/log.c:153-154 | end_op never finds committing set |
| LogProtocol.DiskReadable | ass1/kernel/log.c:87-123 | in a consistent state what recovery will make of the home blocks is already a prefix of the groups |
| LogProtocol.GroupReachable | ass1/kernel/log.c:147-175 | whatever blocks the log can take, operations within their budgets can commit them as one group |
| LogProtocol.FullGroupIff | ass1/kernel/log.c:147-175 | a commit of LOGSIZE blocks happens on some run exactly if log.size is more than LOGSIZE and the device has LOGSIZE other blocks |
| BufferRing.UnlinkRing | ass1/kernel/bio.c:128-129 | the two pointer stores of brelse take one buffer out of the ring, in both directions, and change no buffer's contents |
| BufferRing.LinkFrontRing | ass1/kernel/bio.c:130-133 | the four pointer stores put it right behind the head, in both directions |
| BufferCache.Cache.constructor | ass1/kernel/bio.c:37-53 | binit chains all NBUF buffers into one ring, all of them unused at device 0, and every block's contents are the disk's |
| BufferCache.Cache.FindCached | ass1/kernel/bio.c:65-73 | the first loop of bget terminates and finds the buffer that names the block if any does |
| BufferCache.Cache.FindUnused | ass1/kernel/bio.c:75-87 | the second loop finds the unused buffer nearest the tail of the ring, or there is none |
| BufferCache.Cache.Lookup | ass1/kernel/bio.c:59-89 | bget takes a reference to the buffer that names the block, else recycles the least recently used unused one, else panics, exactly when no buffer names the block and none is unused; the cache stays consistent |
| BufferCache.Cache.Bread | ass1/kernel/bio.c:93-103 | bread gives a locked, referenced buffer with the latest contents of the block, however often buffers were recycled, and touches no other buffer; it sleeps with its reference exactly if another client has the lock |
| BufferCache.Cache.Store | ass1/kernel/log.c:205-214 | a client's store into the buffer it holds is what the next bread of that block will see |
| BufferCache.Cache.Bwrite | ass1/kernel/bio.c:107-112 | one atomic write of the buffer's block to the disk, appended to the history of writes |
| BufferCache.Cache.ReleaseSleep | ass1/kernel/bio.c:119-122 | a client that has written or logged its change gives up the lock, and nothing else changes |
| BufferCache.Cache.DropRef | ass1/kernel/bio.c:124-136 | a client without the lock gives up its reference; the last one moves the buffer to the front, and no contents change |
| BufferCache.Cache.Brelse | ass1/kernel/bio.c:117-137 | the two together, when nobody comes between them |
| BufferCache.Cache.Bpin | ass1/kernel/bio.c:140-144 | one more reference, counted as the log's |
| BufferCache.Cache.Bunpin | ass1/kernel/bio.c:147-151 | a pin that exists is given back, no other |
| BufferCache.RecycleKeeps | ass1/kernel/bio.c:76-85 | giving an unused buffer to another block loses no block's latest contents and leaves no two buffers with one block |
| BufferCache.FillKeeps | ass1/kernel/bio.c:98-101 | filling an invalid buffer from the disk is right: the disk then holds the block's latest contents |
| BufferCache.UnlockKeeps | ass1/kernel/bio.c:119-122 | giving up the lock loses nothing under the client rule that the block is pinned or on the disk |
| BufferCache.DerefKeeps | ass1/kernel/bio.c:124-126 | giving up a reference that is neither a pin nor the lock holder's keeps every block's latest contents |
| BufferCache.PinKeeps | ass1/kernel/bio.c:140-151 | pinning, and unpinning while locked, keep references and contents right |
| BufferCache.MoveToFront | ass1/kernel/bio.c:126-134 | unlinking and relinking is a move to the front of the same ring |
| BufferCache.SortedByRelease | ass1/kernel/bio.c:124-136 | after any releases the list is sorted by the time of the last one, the latest first |
| BufferCache.LeastRecentlyReleased | ass1/kernel/bio.c:74-88 | of the buffers nobody references the one recycled is the one released longest ago, or one never used |
| Log.Log.WriteLog | ass1/kernel/log.c:179-191 | with nobody else in the cache it panics exactly when the transaction fills every buffer; otherwise it makes the first n writes of a commit and keeps every pin |
| Log.Log.InstallTrans | ass1/kernel/log.c:69-83 | it makes the n install writes in order and drops each pin once, or none when recovering |
| Log.Log.WriteHead | ass1/kernel/log.c:103-114 | it writes the in-memory list into the header block, through the cache, in one disk write |
| Log.Log.Commit | ass1/kernel/log.c:194-203 | commit panics exactly when NBUF blocks are logged; otherwise it makes exactly the planned writes, in order, ends with an empty list and no pins |
| Log.Log.BeginOp | ass1/kernel/log.c:127-142 | a caller is admitted exactly when nobody commits and any blocks that the operations that are in and the caller may log, ten different new ones each, fit the header |
| Log.Log.FindEntry | ass1/kernel/log.c:225-228 | the search ends at an entry for the block, or behind the list when there is none |
| Log.Log.LogWrite | ass1/kernel/log.c:215-235 | it panics exactly on a full log or outside an operation, absorbed or not; otherwise the block is on the list once and its buffer pinned once |
| Log.Log.EndOp | ass1/kernel/log.c:147-175 | the last operation of a group commits it, the others change neither disk nor list; it panics exactly if it finds committing set or the group has NBUF blocks |
| Log.Log.ReadHead | ass1/kernel/log.c:87-97 | the in-memory list becomes the one on the disk |
| Log.Log.RecoverFromLog | ass1/kernel/log.c:117-123 | on a cold cache it makes exactly the writes of a recovery, in order, and leaves an empty list |
| Log.NoBuffersIff | ass1/kernel/bio.c:74-88 | with nobody else in the cache a block of the log area finds no buffer exactly when the log has pinned NBUF |
| Log.QuietIsReady | ass1/kernel/log.c:194-203 | when nobody else holds a buffer, cache and disk differ in logged blocks only, which is what the crash theorems start from |
| Log.CommitStep | ass1/kernel/log.c:179-203 | each write commit computes from the cache as it goes is the planned write |
| Log.RecoverPlan | ass1/kernel/log.c:69-123 | each write recovery computes from the cache as it goes is the planned write |
| Log.CommitSurvivesCrash | ass1/kernel/log.c:69-203 | the device's write history cut k writes into a commit, then recovered, has all home blocks as in the cache or all as before |
| Log.CommitInstalls | ass1/kernel/log.c:194-203 | a commit that returns has put the cached contents of every home block on the disk and erased the log |
| SharedCommit.CommitKeeps | ass1/kernel/log.c:69-203 | every critical section of commit keeps cache, disk and pins at the same place of the plan of writes |
| SharedCommit.CommitStarts | ass1/kernel/log.c:147-175 | the log and cache as end_op hands them to commit are a start of these runs, also while others hold buffers they have not changed |
| SharedCommit.ReaderKeeps | ass1/kernel/bio.c:59-137 | so does every critical section of a reader, the two halves of brelse included, at any point in between |
| SharedCommit.ReleaseSafe | ass1/kernel/bio.c:117-137 | during a commit any holder can give its lock up: the block is pinned or on the disk, unless it was copied into a moment ago |
| SharedCommit.CommitAmongReaders | ass1/kernel/log.c:69-203 | however readers interleave, commit makes its planned writes in order, so a crash at any moment followed by any recoveries ends with the home blocks all new or all old |
| SharedCommit.ReadersSeeLatest | ass1/kernel/bio.c:93-103 | on every run a valid buffer of a home block holds the latest contents, during the whole commit |
| SharedCommit.ReaderReads | ass1/kernel/bio.c:93-137 | at any moment of a commit a reader can go through bread and brelse of any block that has a buffer and is not locked, sees the latest contents, and leaves the commit as it was |
| SharedCommit.PinsAreExact | ass1/kernel/log.c:69-83 | at every moment the pinned buffers are those of the blocks not yet installed, each once, and they still name those blocks |
| SharedCommit.CommitFinishes | ass1/kernel/log.c:194-203 | after the last write every home block is on the disk, the log is erased and no pin is left |
| SharedCommit.SecondNeverPanics | ass1/kernel/log.c:179-191 | only the first bread of a write can run out of buffers, since home blocks stay pinned until installed |
| SharedCommit.PanicMeansBorrowed | ass1/kernel/bio.c:74-88 | with fewer than NBUF blocks logged, running out of buffers means that readers reference some |
| SharedCommit.FullPanics | ass1/kernel/bio.c:74-88 | with NBUF blocks logged commit finds no buffer at its first bread, whatever readers do |
| SharedCommit.CommitCanStep | ass1/kernel/log.c:179-203 | a commit that is not over can always go on, unless a reader has the lock it waits for or no buffer is to be had |
| FramePool.PopKeeps | ass1/kernel/kalloc.c:69-82 | taking the head of the free list leaves a list of exactly the other free frames |
| FramePool.PushKeeps | ass1/kernel/kalloc.c:47-63 | giving a frame back leaves a list of exactly the free frames, none twice |
| PageTable.PteFields | ass1/kernel/riscv.h:329-351 | packing a frame and flags into an entry and unpacking them is the identity |
| PageTable.EntryFormat | ass1/kernel/riscv.h:329-341 | V, R, W, X and U are bits 0 to 4 of an entry and the frame number starts at bit 10 |
| PageTable.FlagBits | ass1/kernel/riscv.h:329-333 | each flag constant is its own bit |
| PageTable.WithVSets | ass1/kernel/vm.c:151 | setting V changes no other flag |
| PageTable.PathIndices | ass1/kernel/riscv.h:343-351 | walk's indices are the three nine-bit parts of the page number, the highest first, below MAXVA |
| PageTable.NodesApart | ass1/kernel/vm.c:80-98 | two nodes of any address spaces never share a frame |
| PageTable.UnderRoot | ass1/kernel/vm.c:263-279 | what lies under the root of a space is exactly what belongs to the space |
| PageTable.AttachKeepsTrees | ass1/kernel/vm.c:80-157 | storing an entry for a held frame keeps all spaces trees, entries and owners in agreement |
| PageTable.DetachKeepsTrees | ass1/kernel/vm.c:162-184 | a node without children can leave its tree; only the entry that named it is stale |
| PageTable.ClearKeepsTrees | ass1/kernel/vm.c:162-184 | zeroing the stale entry restores full agreement |
| PageTable.CreateKeepsTrees | ass1/kernel/vm.c:188-197 | a zeroed held frame becomes the root of a new, empty space that no node belonged to |
| AddressSpaces.EntryChangesOnePte | ass1/kernel/vm.c:137-184 | a store into a page's entry changes that translation of that space and no other of any space |
| AddressSpaces.OneOwner | ass1/kernel/vm.c:217-325 | the frame of a page has that page as its only owner |
| AddressSpaces.GrewTrans | ass1/kernel/vm.c:217-241 | growths of one space compose: nothing but page-table pages and pages of the joint range is new, made of free frames |
| AddressSpaces.GrewShed | ass1/kernel/vm.c:217-259 | taking the new pages away again leaves nothing but page-table pages |
| AddressSpaces.ShedCutGone | ass1/kernel/vm.c:283-289 | pages unmapped and tables freed: every frame of the space is free and no other space has changed |
| AddressSpaces.FreeUndoesGrowth | ass1/kernel/proc.c:208-248 | a space that was made, grown and freed leaves no trace: every frame is what it was |
| VirtualMemory.Machine.constructor | ass1/kernel/kalloc.c:27-40 | kinit puts every frame from the kernel's end to the top on the free list, once |
| VirtualMemory.Machine.Kalloc | ass1/kernel/kalloc.c:69-82 | a free frame becomes the caller's, filled with junk; null exactly when none is free |
| VirtualMemory.Machine.Kfree | ass1/kernel/kalloc.c:47-63 | a frame the kernel holds becomes free; all spaces stay as they are |
| VirtualMemory.Machine.Walk | ass1/kernel/vm.c:80-98 | the table with the page's entry, created on the way if asked for; null exactly when it is not there, and then the pool is empty if it was asked for; no translation changes |
| VirtualMemory.Machine.WalkAddr | ass1/kernel/vm.c:103-121 | the frame of a user address exactly when it is below MAXVA, mapped and a user page; nothing changes |
| VirtualMemory.AllocAndWalk | ass1/kernel/vm.c:103-243 | after a successful uvmalloc every address of the new pages leads to a zeroed frame of its own |
| VirtualMemory.NewSpaceWalk | ass1/kernel/proc.c:199-226 | in a new process's space no user address leads anywhere, the trampoline's and the trap frame's included |
| VirtualMemory.Machine.MapPage | ass1/kernel/vm.c:145-152 | one round of mappages: the page is mapped to the frame with those flags and nothing else is; or it panics, exactly on a mapped page; or no table could be had and only page-table pages were added |
| VirtualMemory.Machine.MapPages | ass1/kernel/vm.c:137-157 | every page the byte range touches is mapped to the next frame in turn and nothing else is; otherwise exactly the pages before the one it stops at, which is mapped already (a panic) or has no table while the pool is empty |
| VirtualMemory.Machine.UvmUnmap | ass1/kernel/vm.c:162-184 | exactly those pages go, their frames are free or the caller's, nothing else changes |
| VirtualMemory.Machine.UvmCreate | ass1/kernel/vm.c:188-197 | a root with nothing mapped, null exactly when no frame is free |
| VirtualMemory.Machine.UvmDealloc | ass1/kernel/vm.c:247-259 | the pages above the rounded new size go back to the pool, one each, and nothing if the size does not shrink |
| Sizes.PagesUpIsLeast | ass1/kernel/riscv.h:326 | rounding a size up gives the least number of pages that holds it |
| VirtualMemory.Machine.UvmAlloc | ass1/kernel/vm.c:217-241 | the new pages are zeroed, user-writable and alone on their frames; on failure every new page has been given back and the pool is too small for the request |
| VirtualMemory.Machine.UvmCopy | ass1/kernel/vm.c:297-325 | the child has every page of the parent with the same flags and words on frames of its own; on failure it has none and every frame is back |
| VirtualMemory.Machine.FreeWalk | ass1/kernel/vm.c:263-279 | the recursion frees exactly the tables of the subtree, each once |
| VirtualMemory.Machine.UvmFree | ass1/kernel/vm.c:283-289 | every frame of the space is free again, once, and no other space has changed |
| VirtualMemory.Machine.ProcPagetable | ass1/kernel/proc.c:208-239 | a space with the trampoline and the trap frame alone; on any of its three failures no trace is left |
| VirtualMemory.Machine.ProcFreePagetable | ass1/kernel/proc.c:243-248 | everything but the trap frame, which stays the caller's, goes back to the pool |
| RamQueue.HoldsOne | ass3/kernel/proc.c:889-926 | the ring with first and last determines the queue it stands for |
| RamQueue.Queue.Enqueue | ass3/kernel/proc.c:889-907 | the page goes to the end of the queue; -2 exactly when sixteen are in it |
| RamQueue.Queue.Dequeue | ass3/kernel/proc.c:909-926 | the oldest page; -2 exactly when there is none |
| SwapFile.OverwriteTwice | ass3/kernel/file.c:227-255 | writing a stretch in two pieces is writing it at once, so chunking does not show |
| SwapFile.OverwritePage | ass3/kernel/fs.c:819-830 | a page written to a slot is read back from it, and no other slot changes |
| SwapFile.File.Writei | ass3/kernel/fs.c:502-505 | the bytes are put at the offset, or -1 and no change exactly if that would leave a hole or pass the largest file |
| SwapFile.File.KFileWrite | ass3/kernel/file.c:227-255 | everything is written, or -1: nothing when it starts behind the end, the whole chunks that fit when the file would grow too large |
| SwapFile.ChunksThatFit | ass3/kernel/file.c:227-255 | what a write past the largest file has written is all chunks of three blocks that fit |
| SwapFile.File.KFileRead | ass3/kernel/file.c:199-203 | the bytes at the offset, cut at the end of the file, and the offset moves past them |
| SwapFile.File.WritePage | ass3/kernel/fs.c:819-823 | a slot that leaves no hole receives the page; one behind the end gives -1 and no change |
| SwapFile.File.ReadPage | ass3/kernel/fs.c:826-830 | the page in a slot that has been written |
| Paging.EvictKeeps | ass3/kernel/vm.c:194-214 | moving a resident page to a free slot changes no page's bytes and keeps frames, slots and table in agreement |
| Paging.EvictCounts | ass3/kernel/vm.c:194-214 | ram_pages goes down by one and the occupied slots are again exactly those in use |
| Paging.LoadKeeps | ass3/kernel/vm.c:216-250 | bringing a page back into a free frame changes no page's bytes and frees its slot |
| Paging.LoadCounts | ass3/kernel/vm.c:216-250 | ram_pages goes up by one and the occupied slots are again exactly those in use |
| Paging.MapNewKeeps | ass3/kernel/vm.c:409-422 | a new zeroed page disturbs no other page |
| Paging.TrackKeeps | ass3/kernel/vm.c:292-310 | entering a mapped page in the table changes no bytes and keeps the agreement |
| Paging.AgesKeep | ass3/kernel/proc.c:565-582 | ages and accessed bits do not matter to the bytes or the bookkeeping |
| Paging.SlotsFull | ass3/kernel/vm.c:183-192 | all sixteen slots are taken exactly when tracked minus resident pages is sixteen |
| Paging.LowestFreeInFile | ass3/kernel/vm.c:183-203 | every slot below the lowest free one lies in the file, so writing that slot passes the offset check |
| Paging.AllTrackedMeansFull | ass3/kernel/vm.c:183-201 | memory and slots are both full exactly when all thirty-two entries are tracked |
| Paging.StepsGoOn | ass3/kernel/vm.c:183-250 | these runs go on: a resident page can go out exactly while a slot is free, a page out can come back and a new one be made exactly while a frame is free |
| Paging.RunKeepsContents | ass3/kernel/vm.c:183-310 | over any run of growth, evictions, faults, aging and stores a page's bytes are its first ones with the user's own stores applied, in order |
| ReplacementPolicy.OnesCountsBits | ass3/kernel/proc.c:847-859 | the count by halving is the number of set bits |
| ReplacementPolicy.CountOnes | ass3/kernel/proc.c:847-859 | the loop counts the ones of any 32-bit number |
| ReplacementPolicy.NfuaPage | ass3/kernel/proc.c:825-845 | the first resident page of least age; entry 0 when none is resident |
| ReplacementPolicy.LapaPage | ass3/kernel/proc.c:861-887 | the first resident page whose age has the fewest ones; entry 0 when none is resident |
| Pager.Process.constructor | ass3/kernel/proc.c:103-133 | an empty table, queue and swap file, consistent from the start |
| Pager.Process.ScfifoPage | ass3/kernel/proc.c:956-979 | on a full ring: the first page in queue order with PTE_A clear, the oldest if none; exactly the pages before it lose PTE_A; the other fifteen keep their order |
| Pager.Process.SelectPage | ass3/kernel/vm.c:163-181 | the page the policy in force takes, for all three; nothing but accessed bits and the queue changes |
| Pager.EvictionChoice | ass3/kernel/vm.c:163-181 | what the policies promise of it: no resident page has a smaller age, or an age with fewer ones, or under SCFIFO the victim has PTE_A only if every page of the queue has |
| Pager.Process.FindFreePlace | ass3/kernel/vm.c:183-192 | the lowest free slot, or all are taken |
| Pager.Process.PageToFile | ass3/kernel/vm.c:194-214 | the page the policy takes moves out, no other page moves and no page's bytes change; it panics exactly when all thirty-two entries are tracked |
| Pager.Process.PageToRam | ass3/kernel/vm.c:216-250 | the page comes back, the one the policy takes making room exactly if sixteen are in memory, and no third page moves; no page's bytes change; both panics exactly |
| Pager.Process.Fault | ass3/kernel/trap.c:50-72 | a page that was out is in memory with the bytes it had; no slot exactly when memory is full and all entries are tracked, no frame exactly when memory is not full and none is free; the panic exactly for a page that is not out |
| Pager.Process.AllocPage | ass3/kernel/vm.c:292-310 | a mapped page is entered in the table and the queue and both counts go up by one; nothing happens when the table is full; no bytes change |
| Pager.Process.Grow | ass3/kernel/vm.c:385-430 | every new page reads as zeros, every old one as before whatever was evicted; all new pages but the first are tracked; it succeeds exactly if the free frames cover the pages no eviction makes room for and at most thirty-two are tracked, and never lacks a slot |
| Pager.FullTable | ass3/kernel/vm.c:385-430 | a fresh process can get to thirty-two tracked pages, sixteen of them out, from where a fault finds no slot |
| Pager.Process.Aging | ass3/kernel/proc.c:565-582 | ages of resident pages shift by one with PTE_A on top, nothing else changes |
| Pager.AgedBits | ass3/kernel/proc.c:565-582 | the age is a history: its top bit is the last look at PTE_A and each older look has moved down one bit |
| PagedFork.OutBeforeCounts | ass3/kernel/proc.c:389-415 | the slots fork hands out are counted by the swapped pages before an entry |
| PagedFork.CopySwap | ass3/kernel/proc.c:389-415 | the child has every entry of the parent, its swapped pages packed from slot 0 with the parent's bytes, and exactly those slots occupied |
| PagedFork.UvmCopy | ass3/kernel/vm.c:489-530 | each page in memory is copied into a frame off the free list, a page that is out costs none but needs one to be there; it succeeds exactly if all pages are mapped and a frame is left whenever one is asked for |
| PagedFork.ForkReady | ass3/kernel/proc.c:389-415 | the table of any consistent process can be copied: the slots suffice and every swapped page is in the file |
| PagedFork.ForkCopies | ass3/kernel/proc.c:343-426 | the child's bookkeeping, counters and queue are consistent, each of its pages has the parent's bytes wherever it is, the parent is as before, and no frame belongs to both |
| FileBlocks.WordPut | ass1/kernel/fs.c:389-399 | storing one block number in an indirect block changes that number alone, byte by byte |
| FileBlocks.WordBytes | ass1/kernel/fs.c:389-399 | block numbers lie in an indirect block four bytes each, the least significant first |
| FileBlocks.MarkOne | ass1/kernel/fs.c:70-102 | setting or clearing the bit of a block changes no other block's bit |
| FileBlocks.BitmapLayout | ass1/kernel/fs.h:47-51 | bit m of byte k of bitmap block q is for block 8192 q + 8 k + m |
| FileBlocks.Addressed | ass1/kernel/fs.c:377-405 | a block number found in an inode or indirect block is a marked data block owned by that slot |
| FileBlocks.AllocatedKeeps | ass1/kernel/fs.c:64-86 | marking and zeroing a free block keeps bitmap, owners and maps in agreement; the block is a data block nobody owned |
| FileBlocks.AttachedKeeps | ass1/kernel/fs.c:384-392 | storing a new block in an empty inode slot gives it that one owner |
| FileBlocks.EntrySetKeeps | ass1/kernel/fs.c:393-399 | so does storing it in an empty entry of the indirect block |
| FileBlocks.DataSetKeeps | ass1/kernel/fs.c:496-505 | new bytes in a data block change no block number |
| FileBlocks.ReleasedKeeps | ass1/kernel/fs.c:409-433 | freeing the block of an inode slot is always of a marked block, and keeps the agreement |
| FileBlocks.EntryReleasedKeeps | ass1/kernel/fs.c:423-430 | so is freeing an entry of the indirect block, though the entry stays behind |
| FileBlocks.ReadsOne | ass1/kernel/fs.c:455-477 | an inode reads as one byte sequence only |
| FileBlocks.DirectBytes | ass1/kernel/fs.c:376-387 | the first twelve blocks of a file are the inode's direct blocks in order |
| FileBlocks.IndirectBytes | ass1/kernel/fs.c:388-403 | the next 256 are those whose numbers its indirect block has, in order |
| FileBlocks.OthersRead | ass1/kernel/fs.c:486-517 | a change to one inode leaves what the others read as |
| Files.MarkedOnce | ass1/kernel/fs.c:64-103 | a data block is marked exactly when some slot names it, and then one slot does |
| Files.DataSetHolds | ass1/kernel/fs.c:496-505 | a chunk put into its block is that chunk put into the file |
| Files.FileSystem.Balloc | ass1/kernel/fs.c:64-86 | the lowest free block, marked and zeroed; a panic exactly when none is free |
| Files.FileSystem.Bfree | ass1/kernel/fs.c:89-103 | the bit of a block in use is cleared, no other bit |
| Files.FileSystem.Bmap | ass1/kernel/fs.c:377-405 | the block of that position; a missing one is allocated zeroed, and no byte of any file changes; one that is there is found with no change at all |
| Files.FileSystem.Itrunc | ass1/kernel/fs.c:409-437 | the file is empty, exactly its blocks are free, bfree never panics, and every other file reads as before |
| Files.FileSystem.Readi | ass1/kernel/fs.c:455-477 | the file's bytes from the offset on, as many as are asked for and there, or none if offset plus count wraps; if the destination takes fewer it has those and the result is -1; nothing is allocated or changed |
| Files.FileSystem.Writei | ass1/kernel/fs.c:486-517 | the file's byte sequence has the source put at the offset and every other file is as before; -1 and no change exactly where a hole or too large a file would result; the balloc panic only with no block free; from a source that ends early, the count up to the block it could not fill, the file ending there unless it was longer |
| Files.WholeWrite | ass1/kernel/fs.c:486-517 | a source that yields everything is written whole |
| Files.CountedBlocks | ass1/kernel/fs.c:486-517 | a write that its source cuts short counts the bytes up to the last block boundary it has reached, and none behind it |
| Files.WrittenBytes | ass1/kernel/fs.c:486-517 | byte by byte the file then has what the source yielded at its place and the old bytes elsewhere |
| Files.ReadWhole | ass1/kernel/fs.c:455-477 | a read of more bytes than a file has gets the whole file |
| Files.WriteThenRead | ass1/kernel/fs.c:455-517 | what is written is read back from its offset, followed by what was behind it, as far as the read has room or the file goes |
| UserAllocator.Disjoint | ass1/user/umalloc.c:24-90 | no two blocks, free or live, overlap |
| UserAllocator.FreedTidy | ass1/user/umalloc.c:24-44 | free keeps the list circular, address-ordered and without touching neighbours, keeps the memory tiled, and gives up exactly the block it was given |
| UserAllocator.FreedFits | ass1/user/umalloc.c:24-44 | afterwards some free block is at least as large as the one freed |
| UserAllocator.UnlinkedTidy | ass1/user/umalloc.c:75-77 | handing out a whole free block keeps all of that |
| UserAllocator.SplitTidy | ass1/user/umalloc.c:78-82 | so does cutting off its end |
| UserAllocator.ExtendedTidy | ass1/user/umalloc.c:46-61 | so does taking a new stretch above everything as one block |
| UserAllocator.MergedTidy | ass1/user/umalloc.c:33-42 | so does joining two free blocks that touch |
| Malloc.Allocator.FindPlace | ass1/user/umalloc.c:30-32 | the search of free terminates at the node the block belongs behind: between two nodes, or at the wrap |
| Malloc.Allocator.Free | ass1/user/umalloc.c:24-44 | exactly the block given leaves the user's hands, the allocator stays consistent, and a block at least that large is free |
| Malloc.FreedHeaders | ass1/user/umalloc.c:33-42 | the four ways of storing headers are the four cases of free neighbours |
| Malloc.Allocator.Search | ass1/user/umalloc.c:71-89 | the search of malloc terminates at the first node, from freep on, that is large enough, or none is |
| Malloc.Allocator.Take | ass1/user/umalloc.c:74-85 | a block of exactly the size asked for, which nobody had, cut from the node found |
| Malloc.Allocator.Morecore | ass1/user/umalloc.c:46-61 | null and no change when sbrk refuses, else a free block large enough; the heap is what sbrk gave exactly below 2^27 units |
| Malloc.Allocator.Malloc | ass1/user/umalloc.c:63-90 | a new block of the units asked for; null exactly when no free block fits and sbrk refuses; live and free blocks go on tiling what sbrk gave, with the exact condition |
| Malloc.FreeThenMalloc | ass1/user/umalloc.c:23-90 | after free a request of that size or less is served without sbrk |
| Malloc.SbrkArgument | ass1/user/umalloc.c:52-54 | sbrk's int argument is the byte count wanted exactly below 2^27 units |
| Malloc.NegativeSbrk | ass1/kernel/proc.c:291-310 | a negative sbrk takes what it says, or nothing if the process is smaller than that |
| Malloc.SbrkGivesNothing | ass1/user/umalloc.c:52-54 | a two-gigabyte request asks for minus two gigabytes, which leaves a process below two gigabytes as it is |
| Malloc.GrantedRight | ass1/user/umalloc.c:46-61 | the block morecore writes up is the memory sbrk gave exactly below 2^27 units |
| Semaphore.StepKeepsInv | ass2/kernel/proc.c:749-799 | every step of every thread keeps locks, values and sleepers in order |
| Semaphore.NoLostWakeup | ass2/kernel/proc.c:749-799 | on every run, a thread asleep on a semaphore with a positive value is still ahead of the wakeup scan of a bsem_up that raised the value |
| Semaphore.ValueIsAccounted | ass2/kernel/proc.c:1228-1255 | on every run the value is between zero and its limit, and the limit less completed downs plus effective ups |
| Semaphore.UpReleases | ass2/kernel/proc.c:1246-1255 | on every run the critical section of bsem_up leaves a semaphore with a positive limit available, its value one higher unless it was at the limit |
| Semaphore.DownsReachLimit | ass2/kernel/proc.c:1228-1255 | from every consistent state as many bsem_down calls can complete as the limit and the ups so far allow |
| Semaphore.UpLetsSleeperGo | ass2/kernel/proc.c:1228-1255 | a run in which a thread asleep on a binary semaphore is woken by the holder's bsem_up and completes its bsem_down |
| Semaphore.WaitsExactly | ass2/kernel/proc.c:749-799 | a thread waits for a lock exactly until it is free, for a wakeup until it comes, and for nothing else |
| Semaphore.NoDeadlock | ass2/kernel/proc.c:1228-1255 | in every reachable state with a thread inside a semaphore and not asleep some thread can go on without a new call |
| Semaphore.StaysAsleep | ass2/kernel/proc.c:749-799 | a sleeper that no bsem_up is on its way to stays asleep over every run without a new one |
| Semaphore.CanBeWoken | ass2/kernel/proc.c:749-799 | a sleeper that one is on its way to is woken on some run without any new call |
| Semaphore.SleepsForGood | ass2/kernel/proc.c:749-799 | so a sleeper sleeps for good exactly if no bsem_up of its semaphore is on its way to it |
| Semaphore.NobodyLosesWakeups | ass2/kernel/proc.c:1228-1255 | without bsem_free no run leaves a thread asleep for good on a positive value |
| Semaphore.FreeLosesWakeups | ass2/kernel/proc.c:1220-1226 | bsem_free does exactly if the limit is positive and some thread sleeps there that no bsem_up is on its way to |
| Semaphore.FreeLosesAWakeup | ass2/kernel/proc.c:1220-1226 | and it does: one thread holds a binary semaphore, another waits, and after bsem_free the second sleeps for good on an available semaphore |
| Semaphore.ActKeeps | ass2/kernel/proc.c:1187-1218 | allocation marks an entry taken exactly while somebody has been given it |
| Semaphore.SharedExactlyWhenStale | ass2/kernel/proc.c:1204-1218 | in any interleaving of allocations from a table of free entries, two callers are given one entry exactly if some caller takes one that is no longer free under the lock |
| Semaphore.SharedSemaphore | ass2/kernel/proc.c:1204-1218 | two callers that look before either takes are given the same semaphore |
| Semaphore.AloneGetsLowest | ass2/kernel/proc.c:1204-1218 | a caller that nobody comes between is given the lowest free entry, and fails exactly if there is none |
| Lifecycle.StepKeepsInv | ass1/kernel/proc.c:314-493 | every step of fork, exit and wait by any process keeps parents, pids and exit statuses in order |
| Lifecycle.ParentIsAlive | ass1/kernel/proc.c:314-493 | in every interleaving the parent of a slot is nobody or a process neither unused nor a zombie |
| Lifecycle.ReusedSlotHasNoChildren | ass1/kernel/proc.c:121-174 | the process that is given a slot inherits no children and has no parent yet |
| Lifecycle.ReapedOnce | ass1/kernel/proc.c:440-493 | wait reaps a pid never reaped before, in its current parent: the process that forked it, or init after that one called exit; and records its own exit status |
| Lifecycle.StatusIsTheExitStatus | ass1/kernel/proc.c:391-493 | every status wait has returned is the one that process called exit with |
| Lifecycle.WaitSleepsExactly | ass1/kernel/proc.c:440-493 | a scan of wait that reaps nobody ends in sleep exactly if the caller has children and is not killed, else in a return; it never sleeps on a zombie |
| Lifecycle.FirstZombieIsReaped | ass1/kernel/proc.c:440-493 | wait reaps the first of the caller's zombies and frees its slot, and changes nothing otherwise |
| Lifecycle.ExitLeavesNoChildren | ass1/kernel/proc.c:391-436 | a process that has called exit is a zombie with that status and a parent, and nobody's parent |
| Lifecycle.ForkedIsChild | ass1/kernel/proc.c:314-371 | fork ends with a runnable child of the caller with a pid nobody else has |
| Lifecycle.WaitsExactly | ass1/kernel/proc.c:314-493 | exit, wait, naming the parent and waking up wait exactly for wait_lock, fork for a free slot, and nothing else waits |
| Lifecycle.ForkExitWait | ass1/kernel/proc.c:314-493 | a run in which init forks, sleeps in wait, and is given the child's pid and status 7 after its exit |
| Lifecycle.OrphanGoesToInit | ass1/kernel/proc.c:374-493 | a run in which a process exits before its child: the child becomes init's, and init reaps the process |
| Scheduler.CrossMultiplied | ass1/kernel/proc.c:1031-1036 | comparing cross products compares the fractions |
| Scheduler.BeatsIsBelow | ass1/kernel/proc.c:1025-1036 | the test of cfsd_sched is exactly the strict order on shares, a zero numerator least and a positive one over zero greatest |
| Scheduler.FairPreference | ass1/kernel/proc.c:1018-1036 | the share compared is run time times decay factor over ready plus sleeping time; a process that has not run comes before one that has |
| Scheduler.CfsdScan | ass1/kernel/proc.c:1017-1040 | one scan picks the runnable process of least share, the first of them; none exactly when nothing is runnable |
| Scheduler.SrtScan | ass1/kernel/proc.c:936-948 | one scan picks the runnable process of least average burst, the first of them |
| Scheduler.RunQueue.Enqueue | ass1/kernel/proc.c:817-831 | the process goes to the end; -1 exactly when sixty-three are waiting |
| Scheduler.RunQueue.Dequeue | ass1/kernel/proc.c:833-853 | the process that has waited longest, or nobody exactly when the queue is empty |
| VirtioDisk.Disk.constructor | ass1/kernel/virtio_disk.c:136-138 | all descriptors free and no request in flight |
| VirtioDisk.Disk.AllocDesc | ass1/kernel/virtio_disk.c:144-154 | the lowest free descriptor, -1 exactly when none is free |
| VirtioDisk.Disk.FreeDesc | ass1/kernel/virtio_disk.c:157-170 | a descriptor in use is zeroed and free, no other changes |
| VirtioDisk.Disk.FreeChain | ass1/kernel/virtio_disk.c:173-185 | the walk terminates, meets no panic and frees exactly the chain's three descriptors |
| VirtioDisk.Disk.Alloc3Desc | ass1/kernel/virtio_disk.c:189-201 | three different free descriptors exactly when three are free, otherwise none is taken and no chain is touched |
| VirtioDisk.Disk.Submit | ass1/kernel/virtio_disk.c:203-269 | one new request for that buffer, as a three-link chain of its own in the format of section 5.2 of virtio 1.1 with the command, sector and lengths, announced last; refused exactly with fewer than three free |
| VirtioDisk.Disk.DeviceTakes | ass1/kernel/virtio_disk.c:259-265 | what the device finds in the avail ring is the oldest announced head: no unconsumed entry was overwritten |
| VirtioDisk.Disk.DeviceFinishes | ass1/kernel/virtio_disk.c:282-315 | the device may finish its requests in any order and the invariant holds |
| VirtioDisk.Disk.Interrupt | ass1/kernel/virtio_disk.c:282-315 | every finished request is over, and a buffer is released only by the completion of a request of its own; the status panic comes exactly if some finished request reports a failure, and ends it early |
| VirtioDisk.Disk.Finish | ass1/kernel/virtio_disk.c:271-280 | after its wait a request frees exactly its own chain and no other request changes |
| VirtioDisk.ChainFormat | ass1/kernel/virtio_disk.c:218-259 | the chain under every request is a 16-byte header the device reads, 1024 bytes of data it writes exactly for a read, and one status byte it writes; the sector is twice the block number |
| VirtioDisk.RoomInAvail | ass1/kernel/virtio_disk.c:259-265 | before a request is announced the avail ring has room, heads being different descriptors |
| VirtioDisk.SubmittedKeeps | ass1/kernel/virtio_disk.c:203-266 | announcing keeps non-free descriptors a disjoint union of three-link chains, one for each request |
| VirtioDisk.TakenKeeps | ass1/kernel/virtio_disk.c:259-265 | so does the device's taking a request, across the wrap of the 16-bit index |
| VirtioDisk.FinishedKeeps | ass1/kernel/virtio_disk.c:282-315 | so does its finishing one |
| VirtioDisk.SeenKeeps | ass1/kernel/virtio_disk.c:294-312 | so does the driver's seeing one finished |
| VirtioDisk.ReturnedKeeps | ass1/kernel/virtio_disk.c:271-280 | so does giving the chain back |
| Pipe.Pipe.Write | ass1/kernel/pipe.c:77-103 | the bytes go in order behind those held, up to where the pipe is full, the reader gone or the address bad; never more than PIPESIZE are held |
| Pipe.Pipe.Await | ass1/kernel/pipe.c:106-118 | a reader waits exactly while the pipe is empty and can still be written |
| Pipe.Pipe.Read | ass1/kernel/pipe.c:119-130 | the oldest bytes held, in order, at most n; a refused byte has left the pipe |
| Pipe.Pipe.Close | ass1/kernel/pipe.c:59-74 | one end is closed, and the pipe is freed exactly when both are |
| Pipe.CountersMeet | ass1/kernel/pipe.c:84-114 | comparing the wrapped 32-bit counters decides empty and full rightly |
| Pipe.WrapKeepsPlace | ass1/kernel/pipe.c:92-122 | wrapping a counter does not move a byte in the ring |
| Pipe.NothingLost | ass1/kernel/pipe.c:119-126 | every byte taken is handed over exactly when the addresses were good for all of them |
| Pipe.LoseByte | ass1/kernel/pipe.c:119-126 | one byte in the pipe and a bad address: the read returns nothing and the byte is gone |
| Grep.HereEnd | ass1/user/grep.c:83-94 | a final $ matches the end of the text only |
| Grep.HereOne | ass1/user/grep.c:83-94 | a single character, or any for '.', consumes one character and leaves the rest to the rest |
| Grep.HereStar | ass1/user/grep.c:83-104 | c* matches exactly by some run of accepted characters followed by the rest |
| Grep.Match | ass1/user/grep.c:70-80 | true exactly when some substring of the text, a beginning if the pattern starts with ^, is in the pattern's language; it terminates |
| Grep.MatchHere | ass1/user/grep.c:83-94 | true exactly when a beginning of the text is in the language, all of it before a final $ |
| Grep.MatchStar | ass1/user/grep.c:97-104 | true exactly when some run of accepted characters is followed by a match of the rest |
| Grep.PlainMatches | ass1/user/grep.c:70-104 | a pattern without special characters finds itself: anywhere, at the beginning after ^, at the end before $, and as the whole text between the two |
| Grep.DotsMatch | ass1/user/grep.c:83-94 | n dots find any n characters in a row |
| Grep.StarToEnd | ass1/user/grep.c:83-104 | a starred character before $ takes a text of that character alone, a starred dot any text |

## Left out

- RedoLog.RecoverPrefix: a superblock that gives the log no block at all, or blocks beyond the device, is left out, and so is a header that names more blocks than the log area has.
- Log.Log.Commit: the imperative form is proved when no other process holds a buffer; the same holds of Log.Log.WriteLog, InstallTrans, WriteHead, EndOp and RecoverFromLog. Readers that come in between are in SharedCommit, where a commit is a sequence of steps.
- SharedCommit.CommitAmongReaders: the lock and the disk read of one bread are one step, since nobody else touches a locked buffer.
- LogProtocol.LogNeverOverflows: that each file-system call logs at most ten different blocks is the callers' promise, and not shown.
- BufferCache.Cache.Lookup: for the root device only, since the driver ignores the device number; all buffers start as block 0 of device 0, so uniqueness is about other devices.
- VirtualMemory.Machine.MapPages: the kernel's own page table is left out, and so are copyin, copyout, copyinstr, uvminit, uvmclear and the TLB.
- Pager.Process.PageToFile: addresses are page numbers and the free list is a sequence (its links are modelled in FramePool); the page-table pages of ass3's walk are left out.
- Pager.Process.Grow: the deallocation after a failed kalloc is left out, and with it all of ass3's shrinking: remove_page skips swapped pages, uvmunmap edits the table of the current process, and remove_value can match stale ring slots, so the bookkeeping does not survive it.
- Pager.Process.AllocPage: called as uvmalloc calls it, with fewer than sixteen pages in memory.
- Pager.Process.Fault: for a process whose paging is on (SELECTION other than NONE, pid above 2); a fault where walk() finds no table, which reads through a null pointer, counts as a page that is not out.
- SwapFile.File.Writei: the loop over blocks is one assignment here; it is the loop of Files.FileSystem.Writei. SwapFile.File.KFileRead takes readi the same way, and both model the inode branch only.
- PagedFork.CopySwap: createSwapFile and the frame fork borrows are left out, and exec's backup of the table, which drops ages and offsets, too.
- PagedFork.UvmCopy: page-table pages are left out, and so is the clean-up after a failure, which runs remove_page on the parent's table.
- Paging.RunKeepsContents: pages the user reads are not steps, since reading changes accessed bits only.
- Files.FileSystem.Writei: what the cache holds; that the bytes of a block that could not be filled may be lost with the buffer, the block not being logged, is left out, and so are iupdate and the inode on disk, directories, the log transaction around the call and buffer locks.
- Malloc.Allocator.Malloc: addresses count headers of sixteen bytes, users do not overwrite headers, and what sbrk answers is a parameter.
- Semaphore.NoLostWakeup: initial values are not negative, nobody calls bsem_free, and threads that are killed or exit inside a semaphore are left out.
- Lifecycle.ParentIsAlive: a waiting process may be woken at any time, which includes every wakeup the code makes; kill, the wrap of 32-bit pids, memory and open files are left out.
- Scheduler.CfsdScan: times and products are unbounded, so int overflow is left out; context switches, quanta and update_avg_burst are left out.
- VirtioDisk.Disk.Submit: registers and memory barriers are left out; the device is a partner that takes requests in order and finishes them in any.
- VirtioDisk.Disk.Alloc3Desc: the loop of three turns is written out.
- Pipe.Pipe.Write: a call runs up to where it sleeps; wakeups themselves, and freeing the page, are left out.
- Grep.Match: strings are the characters before the terminating zero; the line buffer of grep() is left out.
- Device registers, inline assembly, traps, the trampoline's code and boot: hardware behaviour the model cannot see.
- Spinlocks: a critical section is one step.
- UART, console, printf, PLIC, system-call argument fetching, exec and the user commands other than grep.
- ass2's thread exit, join and kill-all and its signals: a zombie thread runs on a stack others may free, and a second handler overwrites the saved trap frame.
- The copies of shared files in ass2 and ass3: the ass1 file is the one modelled.
