# Proofs about the xv6 labs

A model in Dafny of the parts of this repository where states, orders and
failures meet: the xv6 kernel of lab2 with its added semaphores, its `malloc`
and shell, and the pipelines of lab1's shell.  lab3's kernel has the same code
in the files modelled here.

Code that changes things in place is a class or a method on arrays, proved
against functions on values; code that several processes run at once is a
state machine whose runs are sequences of steps of any number of processes, in
any order.  Both sides meet where a function on values says what a critical
section does and the method is proved to do it.  Beside what holds in every run
there is what each call comes to when nothing is in its way.

## Storage

* `Blocks` reads and writes words, bytes and bits of a block.
* `LogFormat` is the log on disk: what `commit` and recovery write, block by
  block, and what any sequence of crashes leaves.
* `BufferCache` is `bio.c`: a linked list of buffers, last released first.
* `Log` is `log.c` on that cache.  It keeps a plain block map as a ghost; the
  disk keeps every image that it ever had.
* `Transactions` puts the two together: every run of file system operations
  against a block map with atomic commits.
* `BlockHistory` says what such a run means from its calls and their answers
  alone, and `PowerCycles` is the whole of it from boot to crash, any number of
  times.
* `LogAdmission` is `begin_op`, `log_write` and `end_op` under `log.lock`.
* `VirtioQueue` and `VirtioDisk` are the driver and a device that may complete
  requests in any order, on the descriptors and the two rings.
* `FileImage` and `FileBlocks` are `fs.c`'s blocks, inodes and free map, with
  every file seen as a byte sequence, and `filewrite`'s chunks.

## Memory

* `PageMemory` is `kalloc.c`.
* `PageTree` and `PageTable` are the page tables seen as a flat map, with every
  page accounted for on every failing path; `Sv39` shows that the hardware's
  walk (RISC-V privileged architecture, section 4.4) finds the same map.
* `AddressSpaces` is any number of processes' address spaces in one memory.
* `UserMemory` is `copyout`, `copyin` and `copyinstr`.
* `FreeList` and `UserMalloc` are `umalloc.c`.

## Processes

* `Sched` is the scheduler, `sleep` and `wakeup` with their locks.
* `ProcTree` is `fork`, `exit`, `reparent` and `wait`.
* `Semaphore`, `PingPong` and `Pipe` are what is built on them.

## Shells

* `ShellGrammar` says what `sh.c` parses, panics included.  `ShellSyntax` is the
  lines that people type and the trees that they mean, `ShellAccepts` shows that
  the parser accepts no others, and `ShellRoundTrip` spells trees out and parses
  them back.  `ShellParser` is the parser on its buffer, with `nulterminate`.
* `Pipeline` is lab1's `execute_pipeline` on file descriptor tables that behave
  as the tests' mock describes.

`Counting` has sums and set sizes that several modules use.

## Where the code does less than it says

Each of these is stated in the model as the code has it.

* `log.c` reserves `MAXOPBLOCKS`, ten blocks, for an operation, against
  `LOGSIZE`, and then refuses a block when `log.size - 1` are logged.
  Operations that use their whole budget can make it panic
  (`LogAdmission.TenBlocksPanic`); with nine blocks each they cannot
  (`LogAdmission.NeverTooBig`, in both directions).  A chunk of `filewrite` logs
  at most seven as long as the free map is one block, as mkfs makes it.
* `sem_open` and `sem_close` test `sem > MAX_SEM`, so that the id 512 passes and
  is outside the array; `sem_up` and `sem_down` do not test the id at all (the
  result `inside` of the methods of `Semaphore.SemArray`).
* A semaphore that is closed under a sleeper leaves it asleep, even when the
  semaphore is opened again with a positive value; a process that was woken and
  has not tested again takes the closed semaphore to -2, so that nobody can open
  it (`Semaphore.CloseBreaks`).  Semaphores count right, now and later, if and
  only if nobody closes one that others wait on
  (`Semaphore.SafeExactlyWhenLegal`).
* A writer that is killed between two bytes leaves a pipe without the wakeup
  that a reader of the first byte needs (`Pipe.KillStrandsReader`).  That is the
  one way in which anybody is left asleep (`Pipe.NobodyStranded`).
* `malloc` passes a byte count of more than 31 bits to `sbrk`, whose parameter
  is an int: the grant is what `morecore` believes it is exactly for requests
  of at most 2^31 - 32 bytes (`UserMalloc.SbrkGrantsAll`).
* `copyout` writes to a user page whether or not it is writable
  (`UserMemory.CopyOutReadOnly`).
* `parseexec` panics at the tenth argument, and exactly then
  (`ShellSyntax.LineIsParsed`).
* `execute_pipeline` returns with pipes open when a `fork` fails in a pipeline
  of more than one command (the last clause of `Pipeline.ExecutePipeline`).

## Model

| member | source | states |
|---|---|---|
| `LogFormat.HeadRoundTrip` | lab2/kernel/log.c:86-114 | a header that `write_head` writes is read back by `read_head` as the same list, and the words past the list keep their old values |
| `LogFormat.RecoveryIsIdempotent` | lab2/kernel/log.c:67-83 | recovering from what any crash inside recovery leaves gives the same disk as recovering from the start |
| `LogFormat.ManyCrashes` | lab2/kernel/log.c:116-123 | any number of recoveries cut short by crashes, then one that finishes, give what the first one would have given |
| `LogFormat.CommitIsAtomic` | lab2/kernel/log.c:193-203 | after a crash between any two block writes of `commit`, recovery leaves every home block old (header not written yet) or every logged block new, never a mixture |
| `LogFormat.CrashSafety` | lab2/kernel/log.c:193-203 | the two together: for every crash point in `commit` and any number of crashes in the recoveries that follow, the home blocks end all old or all new |
| `BufferCache.BCache.constructor` | lab2/kernel/bio.c:36-54 | the cache starts as a cyclic list of all NBUF buffers with `next` and `prev` inverse |
| `BufferCache.BCache.Recyclable` | lab2/kernel/bio.c:75-87 | the second loop of `bget` finds the unreferenced buffer that was released the longest ago, or none exists |
| `BufferCache.BCache.Bget` | lab2/kernel/bio.c:58-89 | a cached block is found and nothing is recycled; otherwise the least recently released unreferenced buffer is; no block of a real device is ever in two buffers; -1 only when every buffer is referenced |
| `BufferCache.BCache.Bread` | lab2/kernel/bio.c:92-103 | the buffer holds the block's contents: the cached ones, or the disk's when it was not valid |
| `BufferCache.BCache.Brelse` | lab2/kernel/bio.c:116-137 | a buffer whose last reference goes moves to the front of the list and is the most recently released; the list stays a permutation of all buffers |
| `BufferCache.BCache.MoveFirst` | lab2/kernel/bio.c:126-134 | the six pointer assignments move one buffer to the front and keep all others in order |
| `BufferCache.BCache.Bwrite` | lab2/kernel/bio.c:105-112 | one disk write of the buffer's block, seen as one more disk image |
| `BufferCache.BCache.Bpin` | lab2/kernel/bio.c:139-144 | one more reference on that buffer, and nothing else |
| `BufferCache.BCache.Bunpin` | lab2/kernel/bio.c:146-151 | one reference less; the list is not touched, as the order of releases is by `brelse` alone |
| `Log.Log.constructor` | lab2/kernel/log.c:54-65 | `initlog` on any disk that a crash can leave: afterwards disk and block map are the recovered disk, and every disk image written on the way is one that recovery can leave |
| `Log.Log.ReadHead` | lab2/kernel/log.c:86-98 | the list in memory is the one in the header block |
| `Log.Log.WriteHead` | lab2/kernel/log.c:100-114 | the header block on disk lists exactly the blocks in memory; this one write is the commit point |
| `Log.Log.RecoverFromLog` | lab2/kernel/log.c:116-123 | the disk becomes the recovered disk, the block map agrees with it, and the images on the way are the ones that the crash theorem is about |
| `Log.Log.WriteLog` | lab2/kernel/log.c:178-190 | every logged block's current contents are in its log block, written one after the other |
| `Log.Log.InstallTrans` | lab2/kernel/log.c:67-83 | every logged block's home gets its contents, and outside recovery its pin is taken back |
| `Log.Log.LogWrite` | lab2/kernel/log.c:214-235 | the block map gets the buffer's contents; a block that is logged already is absorbed, another is appended and pinned; the two panics fire exactly on their tests |
| `Log.Log.Commit` | lab2/kernel/log.c:193-203 | the disk's home blocks become the block map, the log is empty again, and the disk images on the way are exactly the ones that the crash theorem is about |
| `Log.Log.BeginOp` | lab2/kernel/log.c:126-144 | one test of `begin_op`: admitted exactly when no commit runs and the reserved blocks fit |
| `Log.Log.EndOp` | lab2/kernel/log.c:146-175 | the last operation to end commits, any other changes nothing on disk |
| `Log.SomeUnreferenced` | lab2/kernel/bio.c:75-88 | with at most one locked buffer beside the logged blocks' there is an unreferenced one: `bget: no buffers` is unreachable in commit and recovery when no reader outside an operation holds buffers meanwhile |
| `Transactions.Session.RunAll` | lab2/kernel/log.c:126-235 | every call of a run answers as the block map does at that point, over all the code below it; `BlockHistory` says what these answers are, from the calls alone |
| `Transactions.CommitImageRecovers` | lab2/kernel/log.c:193-203 | a crash inside the end_op of the last operation recovers to the committed state before it or after it |
| `Transactions.RoomForOne` | lab2/kernel/bio.c:75-88 | with fewer blocks logged or locked than there are buffers, `bget` finds one |
| `BlockHistory.AnswersAreRight` | lab2/kernel/log.c:126-235 | every answer of every run, told by the calls alone: a bread gives what was last stored in the block before its last log_write, or the block at the start; begin_op goes ahead exactly when its reservation fits, log_write exactly on a block in hand in an open operation with room, brelse exactly after the log_write of what was stored, bread exactly on a home block that is not in hand with a buffer left |
| `BlockHistory.CommittedIsDurable` | lab2/kernel/log.c:146-235 | what is committed after any run: in every block, what was last logged in it when the last operation ended |
| `BlockHistory.GoesAsItMust` | lab2/kernel/log.c:126-235 | the state that the code keeps decides about a call as the history of the calls does |
| `BlockHistory.RunMatches` | lab2/kernel/log.c:126-235 | after any run, blocks, committed blocks, buffers in hand, logged blocks and open operations are those of the history |
| `PowerCycles.Boot` | lab2/kernel/log.c:54-65 | binit and initlog on any disk that a crash can leave: log, cache and block map agree, and the block map is the recovered disk |
| `PowerCycles.DiskIsCommitted` | lab2/kernel/log.c:193-203 | between two writes the disk itself recovers to what is committed |
| `PowerCycles.PowerCycle` | lab2/kernel/log.c:54-235 | boot, any run of operations, and a crash after any number of the last operation's writes, or of recovery's, told by the calls alone: every answer is right, and the disk recovers in every block to what was last logged there when the last operation ended, or to that before the operation the crash was in |
| `PowerCycles.PowerCycles` | lab2/kernel/log.c:54-235 | the same over any number of power cycles: each boot finds what was durable when the cycle before crashed |
| `LogAdmission.AdmissionIsSafe` | lab2/kernel/log.c:126-175 | in every interleaving of any number of operations: committing implies that no operation is open, end_op's panic and the outside-a-transaction panic cannot happen, a sleeper in begin_op must wait and has somebody to wake it; and with operations of at most MAXOPBLOCKS blocks the logged blocks plus the unused budgets of the open operations never exceed LOGSIZE |
| `LogAdmission.NeverTooBig` | lab2/kernel/log.c:214-221 | "too big a transaction" is unreachable in every interleaving if and only if operations write at most nine different blocks |
| `LogAdmission.TenBlocksPanic` | lab2/kernel/log.c:133-140 | three operations of ten blocks each, all admitted, end in that panic |
| `LogAdmission.WriteKeepsInv` | lab2/kernel/log.c:214-235 | a log_write keeps the logged blocks plus what every open operation may still add within the log |
| `LogAdmission.StepKeepsInv` | lab2/kernel/log.c:126-235 | every step of every process keeps the counts, the budgets and the sleepers right |
| `LogAdmission.EverybodyGetsIn` | lab2/kernel/log.c:126-175 | from every reachable state, whoever waits in begin_op or calls it is in an operation once those that are open have ended and the commit is through; nobody else begins anything |
| `LogAdmission.OperationMeans` | lab2/kernel/log.c:146-235 | log_write adds its block unless it is there; end_op wakes whoever waits or, as the last one, starts the commit of what is logged |
| `VirtioQueue.CompletedOnce` | lab2/kernel/virtio_disk.c:215-327 | in every run with a device that completes requests in any order, every finished request was completed exactly once, an unfinished one at most once |
| `VirtioQueue.OwnBufferOnly` | lab2/kernel/virtio_disk.c:235-292 | of one event: a buffer changes only when its own read completes or its owner stores in it, a disk block only when a write to it completes, with that buffer's contents |
| `VirtioQueue.TransferIsRight` | lab2/kernel/virtio_disk.c:235-327 | a whole request among any other events: a write puts on its disk block what its buffer held when the request was made, a read leaves in its buffer, until the owner is through, what the device read from its block, and no other block changes with it |
| `VirtioQueue.Served` | lab2/kernel/virtio_disk.c:215-327 | every request that finds descriptors is served: it can be published, taken, completed, seen and finished, and then the transfer is done, both queues are empty and the other requests are under way as before |
| `VirtioQueue.SectorsOf` | lab2/kernel/virtio_disk.c:218-218 | in every state the request that the device finds in memory starts at the first byte of its block |
| `VirtioQueue.BufferKept` | lab2/kernel/virtio_disk.c:267-286 | in every run, until the device completes a request nobody changes the request or its buffer |
| `VirtioQueue.ResultKept` | lab2/kernel/virtio_disk.c:283-289 | in every run, nobody changes the buffer between the completion and the end of the waiting |
| `VirtioQueue.FreeCount` | lab2/kernel/virtio_disk.c:201-233 | the busy descriptors are three for each request in flight, so at most two are in flight |
| `VirtioQueue.RingGrows` | lab2/kernel/virtio_disk.c:271-277 | adding a ring entry overwrites none that is not consumed, also when the 16-bit index wraps |
| `VirtioQueue.PrepareOk` | lab2/kernel/virtio_disk.c:235-272 | formatting three free descriptors adds a chain apart from all others and keeps those formatted |
| `VirtioQueue.PublishOk` | lab2/kernel/virtio_disk.c:271-281 | raising the 16-bit avail index keeps the rings exact |
| `VirtioQueue.TakeOk` | lab2/kernel/virtio_disk.c:271-281 | the device's next ring entry is the head of the oldest request's chain |
| `VirtioQueue.CompleteOk` | lab2/kernel/virtio_disk.c:309-324 | a completion by the device keeps the chains disjoint and formatted and the rings exact |
| `VirtioQueue.PostedIs` | lab2/kernel/virtio_disk.c:312-312 | the handler's test is right: the two 16-bit indices differ exactly when a completed request has not been seen |
| `VirtioQueue.AckOk` | lab2/kernel/virtio_disk.c:312-324 | the used entry that the handler reads is the head of the oldest completed request's chain, so `info` gives its own buffer |
| `VirtioQueue.FinishOk` | lab2/kernel/virtio_disk.c:283-292 | freeing a finished request's chain leaves the other chains and the rings exact |
| `VirtioDisk.Driver.AllocDesc` | lab2/kernel/virtio_disk.c:155-166 | the lowest free descriptor, or -1 when all are busy |
| `VirtioDisk.Driver.FreeDesc` | lab2/kernel/virtio_disk.c:168-182 | the descriptor is free and cleared; both panics are excluded by its precondition, which every caller meets |
| `VirtioDisk.Driver.Alloc3Desc` | lab2/kernel/virtio_disk.c:199-213 | three different descriptors that were free, or nothing changes and fewer than three were free |
| `VirtioDisk.Driver.FreeChain` | lab2/kernel/virtio_disk.c:168-197 | exactly the three descriptors of the chain are freed and zeroed; `free_desc`'s panics are unreachable |
| `VirtioDisk.Driver.Prepare` | lab2/kernel/virtio_disk.c:215-272 | a chain of three descriptors that was free describes the request: its sector times 512 is its block times BSIZE; it is made exactly with fewer than two requests under way, and otherwise the state is as before |
| `VirtioDisk.Driver.Publish` | lab2/kernel/virtio_disk.c:274-281 | raising avail->idx hands exactly this request to the device |
| `VirtioDisk.Driver.DeviceTake` | lab2/kernel/virtio_disk.c:271-281 | the device finds the oldest request it has not taken |
| `VirtioDisk.Driver.DeviceComplete` | lab2/kernel/virtio_disk.c:235-265 | the device reads the chain's descriptors alone: it moves BSIZE bytes from byte sector * 512 of the disk on, in the direction of the flags, and that is the request's own buffer and block |
| `VirtioDisk.Driver.Acknowledge` | lab2/kernel/virtio_disk.c:312-324 | one turn of the interrupt handler: the oldest completed request's buffer is released; the status panic is unreachable |
| `VirtioDisk.Driver.Interrupt` | lab2/kernel/virtio_disk.c:294-327 | every completed request is seen, and nothing else changes |
| `VirtioDisk.Driver.Finish` | lab2/kernel/virtio_disk.c:283-292 | the waiting process gives back exactly its own descriptors |
| `FileImage.GiveDirectOk` | lab2/kernel/fs.c:382-398 | a block that balloc found becomes a file's: every file keeps its contents, every owned block one owner and its bit |
| `FileImage.GiveEntryOk` | lab2/kernel/fs.c:401-418 | the same for an entry of the indirect block |
| `FileImage.WriteDataOk` | lab2/kernel/fs.c:516-528 | writing one block of a file changes that block of that file only |
| `FileImage.IupdateOk` | lab2/kernel/fs.c:225-241 | the inode on disk is the one in memory, the other inodes in its block stay, and no file's contents change |
| `FileImage.PutInodeOk` | lab2/kernel/fs.c:230-239 | an inode is read back from its slot as it was put there |
| `FileImage.FreeOne` | lab2/kernel/fs.c:425-446 | freeing one block of a file: its bit was set, and every other file keeps its blocks and contents |
| `FileImage.DropIndirect` | lab2/kernel/fs.c:438-449 | freeing the indirect block last leaves the file without blocks and the others alone |
| `FileImage.ResizeOk` | lab2/kernel/fs.c:530-531 | a size that the mapped blocks cover keeps every other file and every byte |
| `FileImage.EmptyFile` | lab2/kernel/fs.c:451-452 | with no block left the size 0 makes the file empty, and the others stay |
| `FileBlocks.FileSystem.Balloc` | lab2/kernel/fs.c:65-88 | the lowest free block, marked and zeroed; 0 exactly when every block is marked, and then nothing changes |
| `FileBlocks.FileSystem.Bfree` | lab2/kernel/fs.c:91-105 | exactly that block's bit is cleared; the bit being set is what the panic tests |
| `FileBlocks.FileSystem.Bmap` | lab2/kernel/fs.c:382-421 | the file's block, allocated if need be; no file changes; 0 only when the disk is full |
| `FileBlocks.FileSystem.Iupdate` | lab2/kernel/fs.c:225-241 | memory and disk agree on every inode afterwards |
| `FileBlocks.FileSystem.Readi` | lab2/kernel/fs.c:471-496 | the bytes of the file from off, clipped to its size; nothing is allocated or changed |
| `FileBlocks.FileSystem.Writei` | lab2/kernel/fs.c:505-539 | -1 exactly on its two tests; otherwise the file is as before but for the bytes written, all of them unless the disk is full, and every other file is as before; and which blocks may have been logged |
| `FileBlocks.FileSystem.Itrunc` | lab2/kernel/fs.c:425-453 | the file is empty, exactly the blocks it owned are free again, and "freeing free block" is unreachable; every other file is as before |
| `FileBlocks.FileSystem.Filewrite` | lab2/kernel/file.c:134-181 | over any number of chunks the file ends with the bytes written, and the offset has moved as far: all of them with the count as the answer unless the offset was behind the end, the file would be too large or the disk is full, and the contract says where it stops in each of these cases; every operation logs at most seven blocks |
| `FileBlocks.PatchAt` | lab2/kernel/fs.c:505-539 | a written file byte by byte: the new bytes from the offset on and the old ones elsewhere |
| `FileBlocks.StopsAt` | lab2/kernel/file.c:156-176 | a chunk that fails or stops short ends the write at a chunk's beginning, or where the disk was full |
| `FileBlocks.FileSystem.WriteOp` | lab2/kernel/file.c:156-172 | one chunk, as an operation of its own: -1 exactly when it begins behind the end or would reach beyond the largest file, short only on a full disk, and at most seven logged blocks when the free map is one block |
| `FileBlocks.WithinBudget` | lab2/kernel/file.c:148-155 | writing three blocks' worth of bytes, aligned or not, logs at most seven different blocks |
| `PageMemory.Memory.constructor` | lab2/kernel/kalloc.c:26-40 | freerange puts every page on the free list, each once |
| `PageMemory.Memory.Kfree` | lab2/kernel/kalloc.c:46-63 | the page is pushed and the list stays a duplicate-free chain |
| `PageMemory.Memory.Kalloc` | lab2/kernel/kalloc.c:68-82 | a page leaves the free list, 0 exactly when it is empty |
| `PageTree.LeafSlotsDistinct` | lab2/kernel/vm.c:72-103 | different virtual pages never share a leaf slot |
| `PageTree.AddChild` | lab2/kernel/vm.c:91-101 | linking an empty table into the tree changes no translation |
| `PageTree.SetLeaf` | lab2/kernel/vm.c:142-162 | writing an entry of a leaf table changes that one translation |
| `Sv39.HardwareAgrees` | lab2/kernel/vm.c:72-103 | for every user address, the hardware's walk from the root over the pages in memory finds the frame and flags that the flat map has, or faults where the page is not mapped |
| `Sv39.WalkFrom` | lab2/kernel/vm.c:72-103 | the same from any table on the address's path |
| `Sv39.SameIndex` | lab2/kernel/riscv.h:355-357 | PX takes the nine bits of the address that the hardware takes at each level |
| `PageTable.Pagetable.Walk` | lab2/kernel/vm.c:85-103 | the leaf table for the address, or 0; tables that it allocates come from the free pages and change no translation |
| `PageTable.Pagetable.WalkAddr` | lab2/kernel/vm.c:108-126 | the physical address exactly when the flat map has a valid user entry, else 0 |
| `PageTable.Pagetable.MapPages` | lab2/kernel/vm.c:142-165 | exactly the range is mapped, to consecutive frames with the permissions; it fails exactly when the pages, free or in the tree, are too few for the tables of the range, and then a prefix is mapped; no other page changes |
| `PageTable.Pagetable.UvmUnmap` | lab2/kernel/vm.c:170-192 | exactly the range is unmapped, and with do_free exactly its frames are free again |
| `PageTable.UvmCreate` | lab2/kernel/vm.c:196-205 | an empty address space, or nothing exactly when no page is left; no page changes that was not free |
| `PageTable.Pagetable.UvmAlloc` | lab2/kernel/vm.c:225-250 | zeroed frames of its own for the new pages, exactly when the free pages are enough for the frames and for the tables that are missing; otherwise every page taken is given back and the mapping is the old one |
| `PageTable.Pagetable.UvmDealloc` | lab2/kernel/vm.c:255-268 | exactly the pages above the new size are unmapped and free again |
| `PageTable.Pagetable.UvmCopy` | lab2/kernel/vm.c:305-333 | the child's pages are frames of its own with the parent's contents and flags, exactly when the free pages are enough; otherwise the child is as it was and no page is lost; the parent is untouched |
| `PageTable.Pagetable.FreeWalk` | lab2/kernel/vm.c:271-287 | every page of the subtree is free again and nothing else changes; a mapped leaf cannot be met |
| `PageTable.Pagetable.UvmFree` | lab2/kernel/vm.c:291-298 | every page of the tree and every user frame is free again, and no other page changes |
| `PageTable.Pagetable.NotForMore` | lab2/kernel/vm.c:225-250 | a page that cannot be added part-way means that there was not enough for all of them at the start |
| `AddressSpaces.SpaceKept` | lab2/kernel/vm.c:85-103 | an address space is what its own tables and frames say, whatever happens to other pages |
| `AddressSpaces.PartitionKept` | lab2/kernel/vm.c:225-333 | a step that changes one address space and exchanges pages with the free list keeps the partition of all pages into free ones, address spaces and the kernel's own |
| `AddressSpaces.Processes.constructor` | lab2/kernel/kalloc.c:26-40 | at the start every page is free or kept by the kernel |
| `AddressSpaces.Processes.GrowProc` | lab2/kernel/proc.c:259-275 | growproc among any other processes keeps the partition; it fails exactly when n > 0 and the free pages are not enough, and a decrease below 0 changes nothing |
| `AddressSpaces.Processes.Create` | lab2/kernel/vm.c:196-205 | a new address space keeps the partition; there is none exactly when no page is free |
| `AddressSpaces.Processes.Fork` | lab2/kernel/proc.c:286-297 | fork's memory keeps the partition: the child has the parent's contents and flags on pages of its own, or every page that was free is free again |
| `AddressSpaces.Processes.Copy` | lab2/kernel/vm.c:305-333 | uvmcopy among any other processes keeps the partition, and no page goes anywhere but to the child |
| `AddressSpaces.Processes.Exit` | lab2/kernel/proc.c:155-172 | exactly the process's pages join the free ones, and the partition is kept |
| `AddressSpaces.Processes.Write` | lab2/kernel/vm.c:351-371 | copyout to one process leaves all other pages alone and keeps the partition |
| `AddressSpaces.Processes.Perform` | lab2/kernel/vm.c:196-371 | after any run of these calls by any processes the free list, the kernel's pages and all tables and frames partition the pages that there are |
| `AddressSpaces.Processes.OneUse` | lab2/kernel/kalloc.c:26-82 | what the partition means for a page: it is free, or the kernel's, or in exactly one address space |
| `UserMemory.CopyOut` | lab2/kernel/vm.c:351-371 | src is at dstva, up to the first page that is not the user's; 0 exactly when there is none; no other user byte and no other page changes |
| `UserMemory.CopyOutReadOnly` | lab2/kernel/vm.c:351-371 | a byte that the user may only read is written all the same: copyout does not look at PTE_W |
| `AddressSpaces.UserBytes` | lab2/kernel/vm.c:351-371 | every address space that these calls make is one that copyout and copyin work on |
| `UserMemory.CopyIn` | lab2/kernel/vm.c:376-396 | the user's bytes, under the same conditions; user memory is unchanged |
| `UserMemory.CopyInStr` | lab2/kernel/vm.c:402-439 | 0 exactly when a NUL comes within max bytes and before any page that is not the user's; dst is then that string |
| `FreeList.OneCanonicalList` | lab2/user/umalloc.c:24-44 | an ordered, disjoint, fully coalesced list is determined by its free units |
| `FreeList.InsertIsCanonical` | lab2/user/umalloc.c:33-42 | free keeps the list ordered, disjoint and without adjacent blocks |
| `FreeList.InsertUnits` | lab2/user/umalloc.c:33-42 | free adds exactly the block's units to the free ones |
| `FreeList.CarveUnits` | lab2/user/umalloc.c:75-85 | malloc takes exactly the units it returns from the free ones |
| `FreeList.CarveIsCanonical` | lab2/user/umalloc.c:75-85 | malloc keeps the list ordered, disjoint and without adjacent blocks |
| `UserMalloc.SbrkGrantsAll` | lab2/user/umalloc.c:46-61 | sbrk's int parameter carries what morecore asks for exactly for requests of at most 2^31 - 32 bytes |
| `UserMalloc.Heap.Find` | lab2/user/umalloc.c:29-32 | free's search ends at the last free block below the freed one, from wherever freep is |
| `UserMalloc.Heap.Free` | lab2/user/umalloc.c:24-44 | the block's units are free again; list, allocated blocks and units obtained stay a partition |
| `UserMalloc.Heap.MoreCore` | lab2/user/umalloc.c:46-61 | the units that sbrk gives are in the list, and a block is large enough; nothing changes when sbrk fails |
| `UserMalloc.Heap.Malloc` | lab2/user/umalloc.c:63-90 | a block of its own that is large enough, taken from the free units, with sbrk called exactly when no free block fits; 0 only when sbrk fails; the search ends |
| `UserMalloc.Heap.Take` | lab2/user/umalloc.c:75-88 | the block's tail, or the whole block when it is exact, leaves the free units and joins the allocated blocks |
| `UserMalloc.Heap.MallocThenFree` | lab2/user/umalloc.c:24-90 | free undoes malloc: the very same list when sbrk was not needed |
| `Sched.OneCpuPerProcess` | lab2/kernel/proc.c:444-472 | in every interleaving of any number of CPUs, a process runs on at most one, and one that is RUNNING runs |
| `Sched.NoLostWakeup` | lab2/kernel/proc.c:535-580 | when a wakeup(chan) under lk is done, no process that had let go of lk in sleep(chan, lk) is left SLEEPING |
| `Sched.WakeupWithoutLockIsLost` | lab2/kernel/proc.c:535-580 | why wakeup is called under lk: a run in which one that is not is lost |
| `Sched.StepInv` | lab2/kernel/proc.c:391-604 | every step of scheduler, sched, sleep, wakeup, yield, fork, exit, kill and of wait's reaping keeps the locks, places and states consistent; slots are used again |
| `Sched.AlwaysInv` | lab2/kernel/proc.c:444-604 | the invariant holds after every run from boot |
| `Sched.SleepInv` | lab2/kernel/proc.c:535-568 | every step of sleep, up to the switch to the scheduler, keeps the locks and states consistent |
| `Sched.WakeupWakes` | lab2/kernel/proc.c:567-580 | wakeup(chan), alone: exactly those that sleep on chan are RUNNABLE, and nothing else has changed |
| `Sched.SleepLeaves` | lab2/kernel/proc.c:535-562 | sleep(chan, lk), alone: SLEEPING on chan, without lk and without a CPU, whose scheduler goes on behind it |
| `Sched.OthersLeave` | lab2/kernel/proc.c:346-511 | yield and exit, alone: RUNNABLE or ZOMBIE, and off the CPU |
| `Sched.SchedulerFindsNext` | lab2/kernel/proc.c:445-472 | scheduler, alone, runs the first RUNNABLE process around the table from where it is |
| `Sched.Returns` | lab2/kernel/proc.c:482-562 | a process that is switched to is back from yield, or back from sleep with its channel cleared and lk taken again |
| `Sched.OtherChanges` | lab2/kernel/proc.c:280-604 | kill, fork and wait's reaping change one slot: SLEEPING or UNUSED to RUNNABLE, ZOMBIE to UNUSED |
| `Sched.SleeperReturns` | lab2/kernel/proc.c:445-580 | wakeup under lk and a release on one CPU, the scheduler on another: the sleeper is back from sleep, holding lk |
| `ProcTree.TreeIsSafe` | lab2/kernel/proc.c:279-435 | whenever wait_lock is free: a ZOMBIE has no children, a live process other than init has a live parent, nobody sleeps in wait with a ZOMBIE child |
| `ProcTree.ReapedOnce` | lab2/kernel/proc.c:346-435 | no process is reaped twice or before it exits, and one that has exited is a ZOMBIE until it is reaped |
| `ProcTree.ReparentInv` | lab2/kernel/proc.c:330-341 | one turn of reparent, with its wakeup of init, keeps the tree |
| `ProcTree.ScanInv` | lab2/kernel/proc.c:398-434 | one turn of wait's loop, reaping or going to sleep, keeps the tree |
| `ProcTree.AllocInv` | lab2/kernel/proc.c:124-127 | allocproc's slot gets a pid of its own and no parent yet |
| `ProcTree.ForkFailsInv` | lab2/kernel/proc.c:291-296 | a fork whose uvmcopy fails gives the slot back |
| `ProcTree.DyingInv` | lab2/kernel/proc.c:376-385 | exit's last step: a ZOMBIE without children whose parent is awake |
| `ProcTree.ReapInv` | lab2/kernel/proc.c:408-421 | reaping a ZOMBIE frees its slot and leaves no dangling parent |
| `ProcTree.SleepInv` | lab2/kernel/proc.c:426-434 | wait goes to sleep only with no ZOMBIE child |
| `ProcTree.AlwaysInv` | lab2/kernel/proc.c:279-435 | the invariant holds after every run from boot |
| `ProcTree.WaitMeans` | lab2/kernel/proc.c:398-434 | from every state with the invariant, by p's own steps: with a ZOMBIE child and a copyout that works p is back with the pid of one, whose slot is UNUSED; it comes back with nothing exactly when it has no child, is killed with no ZOMBIE child, or copyout failed; it sleeps exactly when it has children, none is a ZOMBIE and it is not killed; nothing else changes |
| `ProcTree.WaitBegins` | lab2/kernel/proc.c:391-398 | wait begins its scan, and begins it again after a wakeup, with wait_lock and no child found |
| `ProcTree.ForkMeans` | lab2/kernel/proc.c:280-325 | fork, by the parent's own steps: a RUNNABLE child with the next pid and p as its parent, or the slot UNUSED again; nothing else changes |
| `ProcTree.ExitMeans` | lab2/kernel/proc.c:330-385 | exit, by p's own steps: p is a ZOMBIE with its pid, its children are init's, and its parent is awake |
| `ProcTree.KillMeans` | lab2/kernel/proc.c:586-604 | kill marks that process and wakes it |
| `Semaphore.SemArray.SemOpen` | lab2/kernel/sem_syscall.c:39-62 | succeeds exactly for a closed semaphore, an id in range and a value that is not negative; the id MAX_SEM passes the test and is outside the array |
| `Semaphore.SemArray.SemClose` | lab2/kernel/sem_syscall.c:64-81 | closes the semaphore, whatever its value and whoever sleeps on it; an error exactly for an id out of range, MAX_SEM passes the test |
| `Semaphore.SemArray.SemUp` | lab2/kernel/sem_syscall.c:83-106 | an error on a closed semaphore, else one more, and a wakeup exactly from 0; no id is tested, and it stays inside the array exactly for one in range |
| `Semaphore.SemArray.SemDown` | lab2/kernel/sem_syscall.c:107-128 | an error on a closed semaphore, a sleep on 0, else one less; no id is tested |
| `Semaphore.SemArray.Again` | lab2/kernel/sem_syscall.c:119-124 | the loop's test after a wakeup: back to sleep on 0, else one less, also on a semaphore that was closed meanwhile |
| `Semaphore.StepInv` | lab2/kernel/sem_syscall.c:39-128 | every critical section keeps the counts and the sleepers right, a close only when nobody waits |
| `Semaphore.SemaphoreCounts` | lab2/kernel/sem_syscall.c:83-128 | in every interleaving, value = first value + ups - downs and is never negative, and nobody sleeps on a positive value, if nobody closes a semaphore that is waited on |
| `Semaphore.SafeExactlyWhenLegal` | lab2/kernel/sem_syscall.c:39-128 | for every run: all its states are safe, whatever comes next, if and only if nobody closes a semaphore that others wait on |
| `Semaphore.CloseIsSafe` | lab2/kernel/sem_syscall.c:64-128 | of one close: every continuation counts right if and only if nobody waits on the semaphore |
| `Semaphore.CloseBreaks` | lab2/kernel/sem_syscall.c:64-128 | what a close does to a waiter: a sleeper stays asleep when the semaphore is opened again with 1; one that was awake takes the closed semaphore to -2, and then sem_open refuses it |
| `Semaphore.CloseStrandsSleeper` | lab2/kernel/sem_syscall.c:64-128 | from the start: closing under a sleeper leaves it asleep on a value of 5, and closing before a woken process has tested again leaves the value -2 |
| `Semaphore.SemArray.GetEmptySem` | lab2/user/pingpong.c:7-19 | the lowest closed semaphore, opened with the value; -1 exactly when all are open |
| `PingPong.StrictAlternation` | lab2/user/pingpong.c:59-94 | in every interleaving the words printed are a prefix of (ping pong)^n, and somebody can go on until all of it is printed |
| `PingPong.EveryRunEnds` | lab2/user/pingpong.c:59-94 | no run makes more than 24 n + 2 moves |
| `PingPong.StuckIsDone` | lab2/user/pingpong.c:59-94 | a state in which neither process can go on is the end, with exactly n of each |
| `PingPong.AlwaysOk` | lab2/user/pingpong.c:59-94 | in every run the two semaphores and the two program points determine how much is printed |
| `Pipe.PipeBuffer.WriteTurn` | lab2/kernel/pipe.c:76-103 | as much as fits goes in, in order; the writer sleeps exactly when the pipe is full; when it finds itself killed it leaves, behind the bytes it has put and without a wakeup |
| `Pipe.PipeBuffer.ReadTurn` | lab2/kernel/pipe.c:105-130 | the oldest bytes come out, in order; the reader sleeps exactly on an empty pipe with an open write end |
| `Pipe.PutHolds` | lab2/kernel/pipe.c:92-94 | a new byte overwrites none that is not read yet |
| `Pipe.GetHolds` | lab2/kernel/pipe.c:117-121 | the byte that is read is the oldest one, also when the counter wraps |
| `Pipe.Fifo` | lab2/kernel/pipe.c:76-130 | for any readers and writers, the bytes removed are a prefix of those inserted, and the rest is in the pipe |
| `Pipe.NobodyStranded` | lab2/kernel/pipe.c:58-130 | for every run, kills included: at all times no reader sleeps while there are bytes or the write end is closed, no writer while there is room or the read end is closed, if and only if no writer is killed behind a byte that it has put while a reader sleeps |
| `Pipe.StepSleepers` | lab2/kernel/pipe.c:58-130 | of one step: it leaves somebody asleep who could go on if and only if it is such a kill |
| `Pipe.KillStrandsReader` | lab2/kernel/pipe.c:83-87 | a run from the start in which it happens: the reader sleeps on a byte that is there |
| `Pipe.EverythingArrives` | lab2/kernel/pipe.c:76-130 | a write of any length, many times the pipe's size or not, gets through: in rounds of one turn of the writer and one read of any number of bytes, at most one more than there are bytes, exactly src has been inserted and the writer is done |
| `Pipe.WriterMoves` | lab2/kernel/pipe.c:76-103 | a writer's turn goes on until all bytes are in or the pipe is full, wakes every reader, and sleeps exactly in the second case |
| `Pipe.ReaderMoves` | lab2/kernel/pipe.c:105-130 | a reader's turn takes the oldest bytes, n or all, and wakes every writer; it sleeps exactly on an empty pipe that can still be written to |
| `Pipe.OthersMean` | lab2/kernel/pipe.c:58-74 | closing one end wakes everybody who waits for the other, and kill wakes its process; nothing else changes |
| `ShellRoundTrip.RoundTrip` | lab2/user/sh.c:328-447 | the line that spells out a tree, with parentheses around its parts, is parsed into that tree exactly when every command has at most nine arguments; otherwise the answer is "too many args" |
| `ShellRoundTrip.LineOf` | lab2/user/sh.c:345-447 | the same for a tree anywhere inside a line, with the parser stopping right behind it |
| `ShellRoundTrip.ArgsOf` | lab2/user/sh.c:416-447 | the loop of parseexec reads the words back one by one |
| `ShellRoundTrip.WordAt` | lab2/user/sh.c:266-309 | gettoken reads a word back whole, up to its delimiter |
| `ShellRoundTrip.RedirOf` | lab2/user/sh.c:375-398 | parseredirs reads one redirection back: its kind and its file |
| `ShellRoundTrip.GroupOf` | lab2/user/sh.c:400-414 | parseblock reads a parenthesised tree back and wraps the redirections behind it |
| `ShellRoundTrip.PipeLine` | lab2/user/sh.c:362-373 | parsepipe reads two parenthesised trees and the bar between them back |
| `ShellSyntax.LineIsParsed` | lab2/user/sh.c:267-447 | every line as it is typed: words and redirections in any order, pipes, & and ; with or without parentheses and with any spaces, is parsed into the Exec of exactly those words within exactly those redirections, and the operators group as the source's, exactly when no command has more than nine words; otherwise the answer is "too many args" |
| `ShellSyntax.ArgsAt` | lab2/user/sh.c:417-447 | parseexec's loop on words and redirections mixed: all words and all redirections, both in their order |
| `ShellSyntax.RedirsAt` | lab2/user/sh.c:376-398 | parseredirs reads any number of redirections, and stops behind the last |
| `ShellSyntax.PartAt` | lab2/user/sh.c:401-447 | a simple command, or a line in parentheses with its redirections |
| `ShellSyntax.PipesAt` | lab2/user/sh.c:363-373 | a pipeline without parentheses groups to the right |
| `ShellSyntax.LineAt` | lab2/user/sh.c:346-361 | each & puts what is before it in the background, and ; joins that with all that follows |
| `ShellSyntax.WordThenFile` | lab2/user/sh.c:376-447 | a word, '>' and a file, with no spaces: the command with its output in the file |
| `ShellAccepts.OnlyLines` | lab2/user/sh.c:267-447 | the converse: whatever the parser accepts is such a line, with that tree |
| `ShellAccepts.ParsesItsLanguage` | lab2/user/sh.c:329-343 | the parser accepts a line if and only if it is one of these |
| `ShellAccepts.Lex` | lab2/user/sh.c:267-310 | every line is a sequence of tokens, each as long as it can be |
| `ShellParser.Parser.NextToken` | lab2/user/sh.c:266-309 | gettoken on the buffer gives the token that the grammar says, and skips the spaces after it |
| `ShellParser.Parser.Peek` | lab2/user/sh.c:311-321 | peek skips spaces and answers for the character there, and changes no later answer |
| `ShellParser.Parser.ParseRedirections` | lab2/user/sh.c:375-398 | parseredirs on the buffer reads what the grammar says, and ends |
| `ShellParser.Parser.ParseCommand` | lab2/user/sh.c:416-447 | parseexec on the buffer gives the grammar's tree, and ends |
| `ShellParser.Parser.ParseGroup` | lab2/user/sh.c:400-414 | parseblock on the buffer gives the grammar's tree, and ends; "parseblock" cannot be reached |
| `ShellParser.Parser.ParsePipeline` | lab2/user/sh.c:362-373 | parsepipe on the buffer gives the grammar's tree, and ends |
| `ShellParser.Parser.ParseList` | lab2/user/sh.c:345-360 | parseline on the buffer gives the grammar's tree, and ends because every call consumes input |
| `ShellParser.GoodLine` | lab2/user/sh.c:345-447 | in every line that parses, the tree's strings are whole words |
| `ShellParser.CutsGood` | lab2/user/sh.c:450-494 | every place that nulterminate overwrites is a delimiter or the end, never a letter of a token |
| `ShellParser.Nulterminate` | lab2/user/sh.c:450-494 | a NUL is put right behind every string of the tree and nowhere else |
| `ShellParser.TextAt` | lab2/user/sh.c:450-494 | after nulterminate every argument and file name is, as a C string, the text of its token |
| `ShellParser.ParseBuffer` | lab2/user/sh.c:328-343 | parsecmd: the grammar's tree, with C strings equal to the tokens |
| `ShellParser.ParseRendered` | lab2/user/sh.c:328-494 | from a tree's line in a buffer back to the tree's own C strings |
| `Pipeline.ExecutePipeline` | lab1/execute.c:86-209 | child i starts its command with its input on pipe i - 1, its output on pipe i and no other pipe end; the shell holds at most four pipe descriptors and ends with its own table unless a fork fails |
| `Pipeline.ChildrenAreJoined` | lab1/execute.c:137-181 | what each child writes the next one reads, from a pipe with no other end in any child; the first reads and the last writes where the shell does |
| `Pipeline.Process.WireChild` | lab1/execute.c:137-181 | the closes and dup2s of the first, a middle and the last child |
| `Pipeline.Process.Redirect` | lab1/execute.c:17-53 | a command's files take the place of its standard input and output, and nothing else changes |
| `Pipeline.Process.RedirectTo` | lab1/execute.c:23-51 | open, dup2 and close for one file, and nothing changes when open fails |
| `Pipeline.Process.Close` | lab1/tests/syscall_mock.c:177-187 | the descriptor is closed; an error exactly for one that is not open |
| `Pipeline.Process.MakePipe` | lab1/tests/syscall_mock.c:226-256 | both ends on descriptors that were closed, or nothing changes |
| `Pipeline.Process.Dup2` | lab1/tests/syscall_mock.c:207-224 | the second descriptor becomes a copy of the first, with the mock's three error cases |

## Left out

- `dirlookup`, `dirlink`, `namex`: directories are files of records, read and written with what is proved here.
- `ialloc`, `iget`, `iput`, `idup` and link counts; `filealloc`, `filedup`, `fileclose` and their reference counts.
- An inode's type, device numbers and link count: `iupdate` writes size and addresses.
- The superblock, the inodes and the files that mkfs makes are a precondition of the file system's constructor.
- `either_copyin` and `either_copyout` failing inside `readi` and `writei`.
- LogFormat.CrashSafety: one write of one block is atomic, and the disk does not reorder writes.
- Log.Log.EndOp: the commit is one step for the cache, and no buffer is locked when it begins; `LogAdmission` has the other processes that run meanwhile, without the blocks' contents.
- Log.Log.Commit: a reader outside any operation (`fileread` calls no `begin_op`) may hold locked buffers while a commit runs; the commit would wait for those that it needs, and here it does not begin.
- Log.SomeUnreferenced: such readers and 29 pinned blocks could fill the cache during a commit, and `bget` would panic; one locked buffer beside the pinned ones is what is proved to fit.
- PowerCycles.PowerCycle: for a crash in a commit the operations before it are those that have ended, one after the other.
- BufferCache.BCache.Bread: the sleep for a buffer that another process has locked; the call is made when it is not.
- Log.Log.LogWrite: the log of the superblock is at most `LOGSIZE` blocks, as mkfs makes it.
- Transactions.Session.RunAll: a process that would wait, for a locked buffer or for room in the log, does not make the step; the sleep locks inside buffers are not modelled.
- LogAdmission.NeverTooBig: log size and budget are the constants of param.h.
- BufferCache.BCache.Bget: for `dev != 0`, as buffers start zeroed; `bget`'s panic is the answer -1, which `Log` and `Transactions` prove away where the log's own code calls it.
- VirtioQueue.CompletedOnce: the device answers 0 for every request; set-up, feature bits, the notify register and memory fences are not modelled, so memory is sequentially consistent.
- VirtioDisk.Driver.Prepare: one try of the loop; the sleep for a descriptor is a later try, and the wakeup in `free_desc` is not recorded.
- PageTable.Pagetable.Walk: a table entry is kept as frame number and flags, without the shifts that pack it in 64 bits.
- PageTable.Pagetable.MapPages: panics of `mappages` and `uvmunmap` (remap, not mapped, not aligned) are preconditions.
- AddressSpaces.Processes.GrowProc: growing past MAXVA, or into the trapframe, is a panic in the code and a precondition here.
- AddressSpaces.Processes.Fork: the trapframe's page and what else `fork` copies; the kernel's own pages stay as they are.
- PageTable.Pagetable.UvmFree: the trampoline and trapframe pages, `proc_pagetable` and the kernel's own table are not modelled.
- UserMalloc.Heap.Malloc: `sbrk` is called by `morecore` alone, memory never shrinks and starts aligned to a header; larger requests are those that `UserMalloc.SbrkGrantsAll` tells apart.
- Sched.StepInv: fork's work on the new slot, from UNUSED to RUNNABLE, is one step under its p->lock, without USED.
- Sched.OneCpuPerProcess: a spinlock is taken in one step and `swtch` is one step; `noff` and the panics of `sched` about it, interrupts and the trap that calls `yield` are not modelled.
- Sched.SleeperReturns: the other CPUs stand still, no p->lock is held, and no other process is RUNNABLE.
- ProcTree.TreeIsSafe: processes sleep in `wait` only; a pid is a number that does not wrap; `p->lock` is taken where a step needs it, with `Sched` for its order.
- ProcTree.ForkFailsInv: of what can fail in `fork` the memory is in `PageTable`.
- Semaphore.SemaphoreCounts: a value does not exceed an int.
- Semaphore.SemArray.SemUp: an access outside the array is an answer (`inside` is false), and what it would read or write is not modelled.
- PingPong.StrictAlternation: begins with both semaphores open and the child forked, and leaves out the argument, `wait` and the two closes at the end.
- Pipe.Fifo: a reader's copyout and a writer's copyin succeed; the pages and files of `pipealloc` and the release of a closed pipe's page are not modelled.
- Pipe.EverythingArrives: the writer and the reader take turns, and nobody else uses the pipe meanwhile.
- Pipe.NobodyStranded: a process that is killed while it reads leaves at its next test; that it then exits is not modelled.
- ShellRoundTrip.RoundTrip: the rendering puts parentheses around every operand; lines without them are in `ShellSyntax`.
- ShellAccepts.OnlyLines: a line has no NUL inside, since the buffer ends at the first one; which panic a line outside the language ends in is what `ShellGrammar` computes.
- ShellParser.Parser.ParseCommand: a tree is a value, without the heap its nodes are in; the redirections of a simple command are beside its arguments until it is complete.
- Pipeline.ExecutePipeline: `pipe` succeeds, by the precondition on free descriptors; `waitpid`, SIGCHLD, `execvp` and a builtin alone are not modelled.
- `runcmd`, `getcmd` and `main` of `sh.c`; the parser, commands and builtins of lab1.
- Traps, timer, UART, PLIC, start-up and the system call layer.
- lab3's benchmarks, the user programs and the tests.
