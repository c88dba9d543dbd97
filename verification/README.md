# UT_OS in Dafny

UT_OS is xv6 for x86 with a three-queue scheduler, a reentrant lock and shared memory added. This
project models the parts of it that are hard to get right and proves what they are for, about every
input, every state or every interleaving:

- **Log** (`Log*.dfy`): the redo log as a machine of many processes, with a crash possible between
  any two block writes of commit and of recovery, and the code of `log.c` that drives it.
- **Cache** (`Cache*.dfy`): the buffer cache over the memory disk, against a map from block to latest contents.
  `LogBuffers.dfy` runs the log on these buffers: which blocks are pinned when, and when a buffer is left.
- **Files** (`Fs*.dfy`, `Blocks.dfy`): bitmap, inodes, direct and indirect block maps, `readi`, `writei`,
  `itrunc`, `filewrite`, against byte sequences and a map from block to its one owner. `FsImage.dfy` has
  the bytes of bitmap and inodes on disk, and `FsCrash.dfy` puts the file system on the log, with any number of
  operations open: whatever moment the machine stops at, what recovery leaves decodes to a file system in order,
  with the files as the last committed group left them.
- **Directories** (`Dir*.dfy`): directory bytes against finite maps, and paths against folds of lookups.
  `Layout.dfy` has the format of the disk, byte by byte.
- **Heap** (`Heap*.dfy`): the ring of free blocks of `umalloc.c`, its headers in memory and the units it owns.
- **Address spaces** (`Vm*.dfy`): two-level page tables in physical memory over the page allocator, and how many
  pages each operation takes.
- **Processes** (`Proc*.dfy`, `Sleep.dfy`, `Locks.dfy`, `Fib*.dfy`, `Pipe*.dfy`): fork, exit, wait, sleep,
  wakeup, sleep locks, reentrant locks with the calls made under them, and pipes, as machines whose runs are
  all interleavings.
- **Scheduling** (`Queues.dfy`, `Sjf.dfy`, `CpuLoop.dfy`): round robin, shortest job first, first come first
  served, aging and a processor's way through the queues.
- **Shell** (`Shell*.dfy`) and **grep** (`Grep.dfy`): the command parser against all the ways to write a command,
  both ways; the matcher against a declarative language.

Code that updates things in place is a class or a method with loops, proved against a specification on
values; what is promised about the specification is proved as lemmas. A concurrent part is a machine:
a state, the steps that are possible, and theorems about every run. `panic` is the outcome `Panic` (or
a result named in the contract), after which nothing runs.

Where the code does not meet what its design suggests, the code is modelled as it is, a lemma gives an
input on which it fails, and another says exactly when it holds:

- A log region of `LOGSIZE` blocks, as `mkfs` makes it, can meet the "too big a transaction" panic with
  every operation inside its budget; one block more rules it out for new blocks (`BigLogSuffices`,
  `SmallLogPanics`). A full log panics even on a block it lists already (`FullLogPanicsOnAbsorption`).
- A commit takes one buffer besides the pinned ones, and panics for want of it exactly if `NBUF` blocks are listed
  (`BufferedLog.Commit`). A region of `NBUF` blocks or fewer rules that out, a larger one does not
  (`BuffersSuffice`, `BuffersRunOut`).
- The last `iput` of a file logs at most `MAXOPBLOCKS` blocks exactly if the file's blocks lie in fewer bitmap
  blocks than that (`ReleaseSize`), which a file of ten blocks on a large disk need not do (`BigRelease`).
- The shortest-job loop sorts its queue exactly when all bursts lie in [0, 10^9), or the table is full of
  that queue and they lie in [0, 10^9] (`SortsIff`). It ends exactly if some burst is 10^9 or none is above
  (`EndsIff`, `LoopsForever`), and writes past its array exactly if the number of bursts of 10^9 does not
  divide what the shorter ones leave of the array (`OverrunsIff`, `ThreeAtBillion`).
- A killed writer with more than a pipeful left strands a sleeping reader, and nothing else does
  (`StrandsIff`, `NoReaderStranded`, `StrandedReader`).
- As long as the heap lies below the break, what `malloc` hands out lies in memory of the process and has room
  for the request exactly up to `MAX_REQUEST` (2^31 - 16) bytes (`Malloc`). Just above, `sbrk` is asked for a
  negative amount, which may succeed without adding memory; the heap then reaches past the break, and what later
  requests get from `sbrk` lies inside the block handed out (`PastTheBreak`). Near 2^32 the request itself wraps
  (`ShortAnswer`).
- When `allocuvm` fails it empties the range, which restores the mappings exactly if the range had none
  (`TrimmedRestores`); with memory out and a page mapped it unmaps that page (`FailureUnmaps`).
- `dirlink` binds a name to the inode number it is given exactly for numbers from 1 to 65535 (`LinksBind`); number
  65536 in an empty directory binds nothing (`LinkLost`).

## Model

| member | source | states |
|---|---|---|
| LogModel.HeaderRoundTrip | log.c:85-113 | a header written word by word into a block reads back as the same list, for every list that fits |
| LogTheorems.CrashAtomicity | log.c:68-122 | stop any run anywhere: recovery from the disk left behind gives the home blocks exactly the writes whose header write reached the disk, never a mixture |
| LogTheorems.RecoveryCompletes | log.c:115-122 | a recovery that completes, after any number of crashes inside recovery, leaves disk and cache at the committed contents and the log empty |
| LogTheorems.AdvanceAlwaysOk | log.c:69-113 | in every run no step of commit or recovery leaves the log region, the header or the disk |
| LogTheorems.CommitsAlone | log.c:145-174 | committing implies that no operation is open, and the count of open operations is right |
| LogTheorems.RecoveryChangesAtCommit | log.c:192-202 | in every run, what recovery would make of the home blocks changes only at the header write of a commit, and there it becomes the contents that the whole group has given the cache |
| LogTheorems.DurableGrows | log.c:192-202 | what is durable stays durable through every later step and crash |
| LogTheorems.AllOrNothing | log.c:125-174 | at every moment of every run an operation is durable with all its writes or with none |
| LogTheorems.DurableAfterCommit | log.c:145-174 | an operation open in the group is durable when the commit ends without a crash, and the disk holds the committed contents |
| LogTheorems.SleepersHaveReason | log.c:125-174 | in every run a process asleep in begin_op has a commit under way or no room for it, and a commit or an open operation is left that will wake it |
| LogTheorems.ReservationHolds | log.c:125-141 | operations within MAXOPBLOCKS keep listed and reserved blocks within LOGSIZE in every run |
| LogTheorems.BigLogSuffices | log.c:213-222 | with a log region above LOGSIZE a new block within the budget never meets the panic |
| LogTheorems.SmallLogPanics | mkfs.c:25 | with LOGSIZE blocks or fewer some run within all budgets meets it |
| LogTheorems.FullLogPanicsOnAbsorption | log.c:218-219 | whatever the region's size, some run within all budgets fills the log, which then panics on a block that it lists already |
| LogCode.Log.WriteHead | log.c:101-113 | the loop produces the header block and writes it once |
| LogCode.Log.ReadHead | log.c:85-96 | the loop reads exactly the list the block holds |
| LogCode.Log.WriteLogBlocks | log.c:177-190 | one machine step per slot written, leaving a run |
| LogCode.Log.InstallTrans | log.c:69-82 | one machine step per home block written, in commit and in recovery |
| LogCode.Log.Commit | log.c:192-202 | everything pending is durable, the home blocks on disk hold it and the log is empty |
| LogCode.Log.Begin | log.c:125-141 | exactly when an operation is admitted and when its process goes to sleep; either is a machine step |
| LogCode.Log.Write | log.c:213-233 | exactly when log_write panics; otherwise the block has the new data in the cache and is listed once, as a machine step |
| LogCode.Log.End | log.c:145-174 | the last operation commits the group and returns with everything issued durable on disk; the sleepers are woken |
| LogCode.Log.RecoverFromLog | log.c:115-122 | from any disk a run has left, the committed contents are restored |
| LogBuffers.BufferedLog.Read | bio.c:96-106 | on the buffers: the contents that the machine's cache has for the block; panics exactly if all buffers are pinned for other blocks |
| LogBuffers.BufferedLog.Write | log.c:213-233 | bread, log_write and brelse are one step of the machine; panics exactly if the log is full |
| LogBuffers.BufferedLog.WriteLogBlocks | log.c:177-190 | buffer by buffer, the machine's writes of the log slots; panics exactly if NBUF blocks are pinned |
| LogBuffers.BufferedLog.Commit | log.c:192-202 | every disk write made through the buffers is the machine's, pins last exactly until the home block is written, and it panics exactly if NBUF blocks are listed |
| LogBuffers.BufferedLog.RecoverFromLog | log.c:115-122 | recovery through buffers that start empty is the machine's, and always finds a buffer |
| LogBuffers.BuffersSuffice | param.h:11-12 | with a log region of NBUF blocks or fewer, fewer than NBUF blocks are pinned at every moment of every run |
| LogBuffers.BuffersRunOut | param.h:11-12 | with a larger region some run within all budgets pins NBUF blocks |
| CacheCode.Cache.constructor | bio.c:38-56 | the list holds every buffer once and all buffers are free |
| CacheCode.Cache.Lookup | bio.c:68-76 | finds the one buffer of a block, or none exists |
| CacheCode.Cache.Victim | bio.c:78-92 | among idle clean buffers the one released least recently, or none exists |
| CacheCode.Cache.Bget | bio.c:61-93 | a cached block keeps its buffer, otherwise exactly that victim is recycled; panics exactly when neither exists; a pinned buffer is never taken |
| CacheCode.Cache.Fill | bio.c:96-106 | a locked buffer holds the latest logged or written contents of its block |
| CacheCode.Cache.LogWrite | log.c:213-233 | the new contents of the block, if the buffer stands for one, are the latest, and the buffer is pinned |
| CacheCode.Cache.Bwrite | bio.c:109-116 | the new contents are the latest and on disk, and the pin ends; panics exactly on a buffer for no block of the disk |
| CacheCode.Cache.Lock | bio.c:73-88 | the buffer's lock is taken exactly if it is free, by one of the buffer's uses |
| CacheCode.Cache.Unlock | bio.c:123-126 | the holder gives the lock back and nothing else changes |
| CacheCode.Cache.Drop | bio.c:120-141 | the last release moves the buffer to the front, so the list stays ordered by release |
| CacheRing.MoveFront | bio.c:130-138 | the new links form a ring of the same buffers with the released one first |
| CachePins.AllTaken | bio.c:78-92 | with nobody using a buffer, none can be recycled exactly if as many blocks are pinned as there are buffers |
| CachePins.Bread | bio.c:96-106 | the block's buffer, locked, with the latest contents, and every pin kept; panics exactly if no buffer caches the block and none is idle |
| CachePins.CopyBlock | log.c:182-189 | a turn of write_log or of install_trans: both blocks read, one copied over the other and written, both released; panics exactly if all buffers are pinned |
| FsModel.OwnedOnce | fs.c:372-400 | no block is mapped by two slots, direct, indirect or the indirect block itself |
| FsModel.GrantKeepsOwned | fs.c:372-400 | giving a free block to an empty slot keeps the bitmap equal to metadata plus exactly the owned blocks |
| FsCode.FileSys.Balloc | fs.c:56-78 | the lowest free block, zeroed and marked; panics only if all bits are set |
| FsCode.FileSys.Bfree | fs.c:81-95 | clears the one bit, and panics exactly on a free block |
| FsCode.FileSys.Bmap | fs.c:372-400 | the slot's address, allocated if missing; ownership is kept, no file reads differently and nothing happens to a mapped slot |
| FsLemmas.WriteFailsIff | fs.c:493-496 | the 32-bit tests of writei refuse exactly the offsets past the end and the writes past the largest file |
| FsCode.FileSys.Writei | fs.c:481-511 | the contents become the old ones with src laid over them at off; other inodes keep contents and inode, the disk inode equals the memory one, and the blocks logged are bounded |
| FsCode.FileSys.Readi | fs.c:452-476 | -1 exactly if off lies past the end or off + n does not fit 32 bits; otherwise the bytes from off up to off + n or the end, with nothing allocated or changed |
| FsLemmas.ReleaseAll | fs.c:407-435 | clearing an inode's bits and emptying it keeps every other block owned exactly once |
| FsCode.FileSys.Itrunc | fs.c:407-435 | size and addresses are zero, exactly the inode's bits are cleared, no free block is freed, and exactly the bitmap blocks of those bits and the inode's block are logged |
| FsCode.FileSys.Iput | fs.c:331-352 | the last reference to a valid unlinked inode frees the inode and its blocks and logs exactly their bitmap blocks and the inode's block, the last of them twice; any other only drops the count |
| FsLemmas.ChunkFitsOp | file.c:127-138 | a chunk of at most 1536 bytes logs at most MAXOPBLOCKS blocks wherever it starts |
| FsCode.FileSys.WriteOp | file.c:140-145 | one chunk as one operation: within the budget, contents laid over, offset moved; a device gets its driver's answer and changes no block |
| FsCode.FileSys.Filewrite | file.c:117-156 | chunk by chunk the bytes are laid over the file; the call ends with all bytes written, or with -1 at the first chunk of 1536 bytes that starts past the end or reaches past the largest file; for a device at its first error, or in the panic on a chunk not taken in full |
| FsImage.InodesRoundTrip | fs.c:220-237 | inodes put into their block as bytes read back as they were, and other inodes of the block stay |
| FsImage.PutBitsReads | fs.c:56-78 | bits put into a bitmap block read back as they were |
| Layout.InodeBytes | fs.h:29-42 | the fields of an inode in bytes: 64 to an inode, eight inodes to a block, each number with its least significant byte first |
| Layout.BitByte | fs.h:45-48 | the bit of a block in the free map: which block, which byte, which bit |
| Layout.FileByte | fs.h:24-36 | byte p of a file lies in the block of address p / 512 below 12, otherwise in that of entry p / 512 - 12 of the indirect block |
| Layout.DirentBytes | fs.h:51-56 | a directory entry in bytes: two of inode number, fourteen of name padded with NULs |
| Layout.EntryBytes | fs.h:51-56 | what inode number and name are read from sixteen bytes |
| Layout.HeaderBytes | log.c:34-37 | the log header in bytes: the count, then the block numbers |
| FsImage.EmptySound | mkfs.c:94-115 | an image without files, in which only metadata bits are set, is a file system in order |
| FsImage.Replayed | fs.c:220-237 | bringing exactly the blocks handed to log_write up to date makes the bytes of the disk show the new bitmap, inodes and data |
| FsCrash.CrashConsistent | log.c:115-122 | whatever moment of a run the machine stops at, the disk that recovery leaves decodes to a state in which every block is free or used once and no file has a hole, if and only if all that the run commits does |
| FsCrash.Volume.constructor | log.c:53-66 | from a disk in order with an empty log, the cache shows the files of the disk and every crash so far is safe |
| FsCrash.GroupAtomic | log.c:145-202 | while a group commits, a crash at any moment brings back all files as they were before the group, or all as its operations together left them |
| FsCrash.Volume.Begin | log.c:125-141 | begin_op admits an operation exactly if the log has room for ten blocks of each; every crash stays safe and nothing committed changes |
| FsCrash.Volume.LogAll | log.c:213-233 | the calls of log_write of an operation, in order and with repetitions: taken exactly if the log has room before the last; then the cache shows the new state |
| FsCrash.Volume.End | log.c:145-174 | the last operation of a group makes the files on disk, and those a crash brings back, the ones that all of the group left; any other changes neither; every moment on the way recovers to all of the group or to none |
| FsCrash.Volume.Write | file.c:140-145 | in an open operation, with others open: a chunk writei refuses gives -1 and changes no file; otherwise the file has the bytes and the others are as before; panics only if no block is free or the log has not ten blocks left; nothing committed changes |
| FsCrash.Volume.WriteTurn | file.c:140-145 | begin_op, the write and end_op: it sleeps exactly if there is no room; in a volume within its budget and with more than LOGSIZE log blocks it panics only if no block is free; with no other operation open the bytes are on the disk, and survive every crash, on return |
| FsCrash.FreshRoom | log.c:130-136 | within the reservation, an operation that has logged nothing finds room for MAXOPBLOCKS blocks |
| FsCrash.Volume.Link | fs.c:551-578 | dirlink in an open operation: a bound name gives -1 and changes no file, any other is linked and the other files are as before; panics only as dirlink does or if the log has not five blocks left |
| FsCrash.Volume.Release | fs.c:331-352 | iput in an open operation: the last reference to an unlinked file empties it and no other file changes; panics exactly if the log is full when the inode's block is logged for the second time |
| FsCrash.ReleaseSize | fs.c:331-352 | emptying a file logs one block more than its blocks have bitmap blocks, at most the disk's bitmap blocks and one; within MAXOPBLOCKS exactly if they are fewer than MAXOPBLOCKS |
| FsCrash.BigRelease | fs.c:331-352 | a file of ten blocks that takes eleven |
| FsCrash.Volume.Reboot | log.c:53-66 | a stop with any operations open, then recovery: a file system in order again, whose files are the committed ones |
| DirModel.LinkAdds | fs.c:551-578 | an entry written into a free place adds exactly its binding and keeps live names distinct |
| DirModel.InMap | fs.c:524-548 | a name is in the directory's map exactly if a live entry carries it |
| DirModel.EntryAfter | fs.c:565-575 | writing or appending one 16-byte entry leaves the others as they were |
| DirModel.ElementFirst | fs.c:595-618 | a path that starts with an element has that element, cut to DIRSIZ, before the components of the rest |
| DirCode.Namecmp | fs.c:516-520 | true exactly if no byte differs up to the first NUL or the fourteenth |
| DirCode.Dirlookup | fs.c:524-548 | the inode number of the first live entry with the name, on any bytes; panics exactly if this is no directory, or none has the name and the file ends inside an entry |
| DirCode.LooksUpMap | fs.c:524-548 | in a directory in order that is exactly what its map binds |
| DirCode.Dirlink | fs.c:551-578 | refuses a bound name and changes nothing; otherwise the entry goes to the first free place or the end, other inodes are untouched and at most five blocks are logged; panics only if this is no directory, it ends inside an entry, or the disk or the directory is full |
| DirCode.LinksBind | fs.c:551-578 | in a directory in order the map gains exactly that binding, and it is one to inum if and only if 0 < inum < 65536 |
| DirCode.LinkLost | fs.c:551-578 | inode number 65536 linked into an empty directory leaves its map empty |
| DirCode.Skipelem | fs.c:595-618 | the first element behind the slashes, cut to fourteen bytes, and what follows it and its slashes; or there is none |
| DirCode.Namex | fs.c:624-657 | the result is the fold of lookups over the path's components, or with nameiparent the directory of the last one and its name; a free inode on the way is a panic |
| DirCode.WalkOne | fs.c:636-652 | one component: a free inode panics, a file that is no directory leads nowhere, a directory leads where its entry for the name does |
| DirCode.WalkJoin | fs.c:624-657 | a path of two parts is walked one after the other |
| DirCode.ParentThenLast | fs.c:640-644 | looking the last component up in the directory that nameiparent gives is what namei does |
| HeapModel.InsertOrdered | umalloc.c:24-44 | freeing keeps the list in address order with no two adjacent blocks |
| HeapModel.InsertUnits | umalloc.c:24-44 | freeing adds exactly the block's units to the free ones |
| HeapModel.OrderedUnique | umalloc.c:24-44 | what is free decides the list, whatever the order of calls |
| HeapModel.FreeCommutes | umalloc.c:24-44 | two frees commute |
| HeapModel.FreeUndoesMalloc | umalloc.c:63-90 | freeing what was just allocated restores the list |
| HeapLinks.FreedLinked | umalloc.c:30-43 | the link and size writes of free turn the ring of the old list into the ring of the new one |
| HeapLinks.FreeBlock | umalloc.c:24-44 | free keeps free and live blocks a partition of the units obtained |
| HeapLinks.TakeBlock | umalloc.c:75-85 | taking a block for malloc keeps free and live blocks a partition of the units obtained |
| HeapLinks.Conservation | umalloc.c:24-90 | free plus live units equal the units obtained from sbrk |
| HeapCode.Heap.Sbrk | proc.c:189-208 | growproc in 32-bit sums, in bytes: exactly when it refuses, and the exact size afterwards; a negative amount that wraps above the size succeeds and changes nothing |
| HeapCode.Heap.Search | umalloc.c:30-32 | the loop ends at the one place where the block fits |
| HeapCode.Heap.Free | umalloc.c:24-44 | the block leaves the live ones and the ring represents the list with it inserted |
| HeapCode.Heap.MoreCore | umalloc.c:46-61 | a region of the units asked for, at least 4096, is free; or sbrk refused and nothing changed, exactly as growproc answers |
| HeapCode.Heap.FindFit | umalloc.c:74-89 | the loop ends with the first block behind freep that is large enough, or every free block is too small |
| HeapCode.Heap.Malloc | umalloc.c:63-90 | from a heap below the break: a new live block disjoint from all others, which lies in memory of the process and has room exactly for requests up to MAX_REQUEST; from the free list it is the end of the first fit; 0 exactly if every free block is too small and sbrk refuses |
| HeapCode.RoomIff | umalloc.c:69 | a block has the header and the request rounded up to eight bytes, unless the sum wraps around |
| HeapCode.ShortAnswer | umalloc.c:69 | for 2^32 - 1 bytes malloc hands out a block of one unit |
| HeapCode.PastTheBreak | umalloc.c:52-54 | for 0x7FFFFFF1 bytes malloc hands out a block past the memory of the process, and what sbrk gives next lies inside it |
| VmModel.OneUse | vm.c:36-81 | a page mapped by a user is not free, not a page table and mapped nowhere else |
| VmModel.AddTable | vm.c:46-54 | a new page table changes no mapping of any address space |
| VmModel.MapUser | vm.c:61-81 | mapping a page keeps every page in exactly the use the tables in memory make of it |
| VmModel.FreeUser | vm.c:270-277 | freeing a mapped page and clearing its entry keeps every page in exactly one use, and ends only that mapping |
| VmModel.GrownRemoved | vm.c:233-249 | growing inside a range and then removing the range empties it and leaves everything else as before, but for page tables |
| VmModel.TrimmedRestores | vm.c:233-249 | that restores the mappings if and only if nothing was mapped in the range |
| VmCode.FailureUnmaps | vm.c:233-249 | with memory out and page 1 mapped, growing from 0 to two pages fails and unmaps page 1 |
| VmCount.KernelTables | vm.c:106-116 | the four ranges of the kernel take 64 page tables, all above the user part, wherever its data begin |
| VmCode.PagesHold | mmu.h:90 | the pages counted for sz bytes are those that start below address sz |
| VmCode.Translates | mmu.h:74-77 | ten bits of an address choose the directory entry, ten the table entry |
| VmModel.NewSpaceFreed | vm.c:343-345 | building an address space and giving it up leaves every page with its old use and contents |
| VmCode.Vm.Kalloc | kalloc.c:82-95 | the head of the free list, no longer free, or nothing if the list is empty |
| VmCode.Vm.Kfree | kalloc.c:59-77 | the page is free and overwritten, and no address space changes; panics exactly on a page of the kernel image or past the memory |
| VmCode.Vm.Freerange | kalloc.c:46-53 | exactly the pages of the range become free |
| VmCode.Vm.constructor | kalloc.c:31-44 | after kinit exactly the pages behind the kernel image are free, each once in the list |
| VmCode.Vm.Walkpgdir | vm.c:36-56 | a page table for the address, added only if asked for, exactly if there is one already or a free page; no mapping changes |
| VmCode.Vm.MapOne | vm.c:61-81 | the entry is set and nothing else, or memory is out and nothing changed; panics exactly on a page already mapped; what it takes is the table if that is missing |
| VmCode.Vm.Deallocuvm | vm.c:256-280 | every page that starts at or above newsz and below oldsz is unmapped and freed, every other is kept; directory entries without a table are stepped over; neither panic happens |
| VmCode.Vm.Allocuvm | vm.c:222-250 | succeeds exactly if nothing is mapped in the range and the free pages cover its pages and the missing tables, and takes just those: every page that starts at or above oldsz and below newsz is then new, zeroed and the user's, and every other as before; panics exactly if it reaches a mapped page with memory left; otherwise empties the range and leaves the rest |
| VmCode.Vm.Freevm | vm.c:284-299 | every page of the address space is free and every other page keeps its use and contents |
| VmCode.Vm.Setupkvm | vm.c:119-137 | succeeds exactly if 65 pages are free, with a new address space that maps memory up to PHYSTOP and the devices, nothing for the user, and the kernel text read-only; otherwise every page has its old use |
| VmCode.Vm.Copyuvm | vm.c:316-346 | succeeds exactly if there is no hole below the size and the free pages cover the copies, their tables and the kernel's part: every page that starts below sz has equal bytes and flags on a page that was free, no other user page is there, and the parent is unchanged; panics exactly if it reaches a hole with memory left; otherwise every page has its old use |
| ProcModel.NoLostExit | proc.c:309-360 | in every run a process asleep in wait has no zombie child and has a child that can still exit |
| ProcModel.NoOrphan | proc.c:261-305 | in every run each started process but init has a live parent, and init is alive |
| ProcModel.StepKeepsInv | proc.c:213-360 | fork, exit, wait, kill and scheduling steps keep parents, forks in progress and waiters right |
| ProcModel.WakeWakesAll | proc.c:632-648 | after a wakeup nobody sleeps on its channel, and nobody else has changed |
| ProcModel.WokenOnlyBy | proc.c:592-672 | a process leaves its sleep only by a wakeup on its channel, a kill, or in wait an exit |
| ProcModel.KilledStays | proc.c:653-672 | in every run the flag that kill sets stays until the slot is given back |
| ProcCode.ProcTable.constructor | proc.c:152-185 | a table with only init satisfies the invariant |
| ProcCode.ProcTable.Wakeup1 | proc.c:632-640 | every slot asleep on the channel becomes runnable with nothing else changed, and every other slot is as before |
| ProcCode.ProcTable.Wakeup | proc.c:643-648 | the same on any channel that is not a process in wait, as a step of the machine |
| ProcCode.ProcTable.Kill | proc.c:653-672 | the first slot with the pid has its flag set and is runnable if it slept, nothing else changes; or there is none; process ids stay distinct |
| ProcCode.ProcTable.Allocproc | proc.c:95-114 | takes the first unused slot, exactly if there is one, with a process id that no slot has |
| ProcCode.ProcTable.Exit | proc.c:261-305 | field by field: the caller is a zombie, its children belong to init, its parent in wait is runnable, and so is init if a child had exited; nothing else changes; init panics |
| ProcCode.ProcTable.Wait | proc.c:309-360 | one pass collects the first zombie child and clears its slot, gives up without children or when killed, or sleeps, each exactly when it should |
| Sleep.NoLostWakeup | proc.c:592-648 | for any lock, data and conditions, in every interleaving of single statements: while a process sleeps, its condition still holds it back or the lock's holder owes its channel a wakeup |
| Locks.MutualExclusion | reentrantlock.c:24-51 | in every interleaving of single statements at most one process is inside, and recursion is its number of unmatched acquires |
| Locks.UnlockedReadsSafe | reentrantlock.c:47-51 | the unlocked reads answer whether the caller is inside |
| Locks.OwnedWhileInside | reentrantlock.c:24-45 | between calls a process has the sleep lock exactly while it has unmatched acquires |
| Locks.FreedAtZero | reentrantlock.c:35-45 | the sleep lock is freed only by its owner, with the count at zero and nobody inside |
| Locks.NoLostWakeup | sleeplock.c:22-42 | while a process sleeps on the lock, the lock is held or the releaser's wakeup is still to come |
| Locks.NoDeadlock | sleeplock.c:22-42 | while a process is in this code some process can step, or the owner is outside it with the lock held |
| Fibonacci.FirstNumbers | proc.c:916-939 | the numbers begin 1, 1, 2, 3, 5, 8, 13 |
| Fibonacci.FIsInt | proc.c:906-942 | every table entry fits an int |
| Fibonacci.Table.constructor | proc.c:912-924 | entries 0 and 1 are valid and the rest are zero |
| Fibonacci.Table.Compute | proc.c:931-940 | the nested calls make the entry right without overflow, change no valid entry and touch none above it |
| Fibonacci.Table.Number | proc.c:925-942 | for one process: the Fibonacci number, or -1 exactly for an index outside 0..40 |
| FibRuns.ResultsRight | proc.c:925-942 | many processes, statement by statement through the reentrant lock: the value read after the release is the true one |
| FibRuns.ValidEntriesStay | proc.c:931-940 | no step of any such run changes a valid entry or leaves the range of int |
| PipeModel.RunIsFifo | pipe.c:78-121 | in every run, with kills, bytes stored are bytes delivered followed by bytes buffered, at most a pipeful, and a sleeping writer faces a full pipe |
| PipeModel.CallStores | pipe.c:78-98 | in every run, what a call of pipewrite has stored so far is the first i bytes of its source |
| PipeModel.CallReturns | pipe.c:78-98 | when the call returns it has stored all of its source, or the pipe is full and the reader has closed or the caller is killed |
| PipeModel.KilledAwake | proc.c:653-672 | in every run a killed process does not sleep in the pipe |
| PipeModel.NoReaderStranded | pipe.c:84-89 | a run never leaves a reader asleep at a readable pipe if and only if it has no stranding write |
| PipeModel.StrandsIff | pipe.c:84-89 | a step strands a reader exactly if it is a killed writer with more than a pipeful left |
| PipeModel.KillFree | pipe.c:78-121 | without kills a sleeping reader implies empty, and reader and writer never sleep together |
| PipeModel.StrandedReader | pipe.c:86-89 | a run in which a reader is stranded |
| PipeCode.RingPut | pipe.c:93 | storing at nwrite appends to the ring, also when the counters wrap |
| PipeCode.RingGet | pipe.c:114-116 | reading at nread takes the oldest byte, also when the counters wrap |
| PipeCode.Pipe.Write | pipe.c:78-98 | a section of pipewrite appends as many of the bytes left as there is room for, and returns |src|, -1 or sleeps exactly when it should, as the machine's step |
| PipeCode.Pipe.Read | pipe.c:100-121 | a section of piperead takes the oldest bytes, as many as asked for and buffered, or sleeps or fails exactly when it should, as the machine's step |
| PipeCode.Pipe.PipeClose | pipe.c:59-75 | closing an end is the machine's step; the page is given back exactly when the other end is closed already, and then nobody is inside the pipe |
| Queues.RoundRobinFair | proc.c:380-390 | a slot that stays ready in queue 0 is returned within NPROC successive calls, whatever the others do |
| Queues.AgingExact | proc.c:362-378 | n agings raise a waiting slot by exactly (n + wait) / MAX_WAIT_TIME queues, down to 0 |
| Queues.NoStarvation | proc.c:362-378 | a waiting slot reaches queue 0 within queue * MAX_WAIT_TIME agings |
| Queues.OthersDoNotAge | proc.c:368 | any number of agings leaves a slot that is not runnable as it was |
| Queues.Table.RoundRobin | proc.c:380-390 | the first ready slot behind the static index, going up and around; or none and the index unmoved |
| Queues.Table.Aging | proc.c:362-378 | field by field: a runnable slot waits one tick more, or has waited 800 and moves up a queue with a new arrival; any other slot is as before |
| Queues.Table.FirstCome | proc.c:431-445 | the earliest arrival, lowest slot first; -1 exactly if no arrival is below 10^9 |
| Sjf.SortsIff | proc.c:392-417 | the loop ends with the stable sort of the queue if and only if all bursts lie in [0, 10^9), or the table is full of the queue and they lie in [0, 10^9] |
| Sjf.EndsIff | proc.c:396-417 | the loop ends if and only if some burst is 10^9 or none is above |
| Sjf.LoopsForever | proc.c:396-417 | a burst above 10^9 and none equal to it: no number of rounds ends the loop |
| Sjf.OverrunsIff | proc.c:409-412 | the loop writes past its 64-entry array if and only if the number of bursts of 10^9 is positive and does not divide what the shorter bursts leave of the array |
| Sjf.ThreeAtBillion | proc.c:409-412 | three bursts of 10^9 with no shorter one do |
| Sjf.Collect | proc.c:392-417 | the loop leaves the stable sort in the array, within its bounds |
| Sjf.Queue1.ShortestJob | proc.c:418-429 | -1 exactly if the queue is empty; a later slot only if every earlier one in the sort lost its draw, which a confidence of 100 never does; the seed has moved by the draws made |
| Sjf.SureDraws | proc.c:421-425 | a confidence of 100 or more wins every draw, one of 0 or less none |
| Sjf.SeedAfter | proc.c:422 | the generator from one draw to the next, in 32 bits |
| CpuLoop.PassesInOrder | proc.c:461-507 | since mpmain every pass starts and ends at queue 2 and counter 0 and serves queues 0, 1, 2 in order |
| CpuLoop.SlicesKept | proc.c:534-553 | no queue keeps a processor longer than its slice in a pass without moves |
| CpuLoop.QuantumKept | proc.c:541-552 | in every history a process that stays in queue 0 runs at most 5 ticks in a row |
| CpuLoop.TakenAwayIff | proc.c:534-567 | in every history a tick takes the processor away exactly when the queue has had 30, 20 or 10 ticks, or a process of queue 0 its 5 |
| CpuLoop.Processor.Choose | proc.c:467-493 | which queue has its turn, and the choice of that queue's scheduler; -1 exactly if it has none; only for queue 1 must the bursts be sortable |
| CpuLoop.Processor.ShouldYield | proc.c:534-553 | true exactly when the queue has had 30, 20 or 10 ticks, or a process of queue 0 its 5; the counter starts over exactly in the first case |
| ShellBack.FormParses | sh.c:265-446 | however a command is written, with < or > or >>, redirections anywhere and blanks anywhere, it parses, and to what it means |
| ShellFrom.ParsesIff | sh.c:265-446 | a line parses if and only if it is a written command, and then to what that command means |
| ShellBack.Unambiguous | sh.c:265-446 | a text is at most one command |
| ShellFrom.EveryTree | sh.c:265-446 | every command whose words can be written has a spelling |
| ShellWords.WordsApart | sh.c:415-446 | the words of a parsed line lie in it and no word's end falls inside another |
| ShellCode.Parser.Gettoken | sh.c:265-308 | the cursor code gives the token of the grammar |
| ShellCode.Parser.PeekAt | sh.c:310-320 | skips blanks and looks at one character |
| ShellCode.Parser.Parseredirs | sh.c:374-397 | the loop collects the redirections of the grammar, or reports a missing file; FormParses and ParsesIff say what they are |
| ShellCode.Parser.Parseexec | sh.c:415-446 | terminates on every input with the grammar's result and cursor |
| ShellCode.Parser.Parseblock | sh.c:399-413 | terminates on every input with the grammar's result and cursor, for a block in parentheses |
| ShellCode.Parser.Parsepipe | sh.c:361-372 | terminates on every input with the grammar's result and cursor, for a pipeline |
| ShellCode.Parser.Parseline | sh.c:344-359 | terminates on every input with the grammar's result and cursor, for a line with ampersands and semicolons |
| ShellCode.Nulterminate | sh.c:449-493 | NULs are written at exactly the ends of the command's words |
| ShellCode.WordReads | sh.c:449-493 | after that each word reads as a C string of exactly its own text |
| ShellCode.Parsecmd | sh.c:327-342 | fails exactly if the line is no command in any spelling; otherwise the structure, with its words read as C strings in the buffer, is the command that the line spells |
| Grep.MatchHere | grep.c:85-96 | true exactly if the text begins with a member of the pattern's language |
| Grep.MatchStar | grep.c:99-106 | true exactly if some number of repetitions is followed by a match |
| Grep.Match | grep.c:72-82 | true exactly if some position, or with ^ the first, begins with a member of the pattern's language |
| Grep.StarMeans | grep.c:99-106 | c* stands for any run of c, or of anything for a dot, in terms of the characters of pattern and text |
| Grep.OneMeans | grep.c:93-94 | any other character stands for itself, a dot for anything |
| Grep.EndMeans | grep.c:87-92 | a $ at the end stands for the end of the text, the empty pattern for anything |
| Grep.Anchored | grep.c:74-80 | a leading ^ ties the pattern to the start; without it any position will do |

## Left out

- Malloc: a heap that an earlier request above MAX_REQUEST has taken past the break, on which a later block may lie in
  no memory or in another one's; and the wrap of a block's end at 2^32, where it would meet the base header.
- Sbrk: byte counts that are not multiples of eight, which morecore never asks for.
- Namex: entries that lead past the inode table, where iget would read a block that holds no inodes.
- Filewrite: pipes, which it passes on; PipeCode has them.
- ShortestJob: tables that are not sortable, on which the loop fails as SortsIff, EndsIff and OverrunsIff say.
- Collect: the same tables.
- Choose: the same tables, when it is the turn of queue 1.
- ShouldYield: queue 3, which set_queue accepts and for which queue_weights has no entry.
- Volume.Write: devices, whose chunks log nothing; Filewrite has them. WriteTurn: the same.
- EmptySound: the files that mkfs goes on to append.
- Sound: images with a hole in a file, such as the root directory that mkfs makes when its entries fill whole blocks.
- Memory ordering of compiler and processor: a spinlock section is atomic.
- Operations on a Volume are open together, but the file-system code of one runs without another's in between, on the
  contents the cache shows; Log and Cache treat finer interleavings. The calls of log_write come at the end of that
  code, in its order, each with the block's last state.
- BufferedLog: one process uses buffers at a time; other readers could hold buffers during a commit.
- The in-memory inode table (iget, ilock, ialloc), inode locks and reference counts of path walks.
- Link counts through unlinked directories, and the system calls of sysfile.c, sys_move_file among them.
- Shared memory and calculate_factorial.
- The links of the page allocator's free list, which lie in the free pages; the list is a sequence.
- Kernel stacks and page contents other than copies: a page that is neither table nor user page is a kernel page.
- The trap frame, registers, file table and working directory that fork copies and exit closes.
- wait_time and recursion are unbounded integers, as are process ids.
- fork's queue assignment and the report system calls.
- The base header of the allocator lies at a unit address below the heap.
- The console, keyboard, serial line, IDE ports, interrupt controllers, boot code, exec and system-call arguments.
- The shell's execution of commands, and grep's line buffer.
- encode, decode, printf and the string routines, which would only add easy members.
