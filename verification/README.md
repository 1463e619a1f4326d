# xv6-x86: verified models

A Dafny model of the parts of this kernel and its user programs where most of the reasoning is, with
proofs of what they promise:

- the write-ahead log and the buffer cache (log.c, bio.c): refinement of a two-copy block store, crash
  atomicity, reads of the last write, home blocks that wait for the commit, all in every run within `NBUF`
  buffers, with the exact sizes of the log area for which they hold; the space reservation, and exactly when
  a commit finds a free buffer;
- files, directories and the free bitmap (fs.c, file.c, mkfs.c): exact block ownership, `readi`/`writei` as
  slices and splices of a byte sequence, every changed block logged, `filewrite` in bounded transactions,
  `dirlink`/`dirlookup` as a map;
- both together: a crash after any block that `filewrite` writes, followed by recovery and mounting, leaves a
  sound file system that is ready for more, in which the file has a whole number of its transactions done
  and every other file is as it was (`LoggedFileWrite`, `RecoverFile`);
- the list of buffers (bio.c): one ring, unique blocks, least recently released first;
- the user-level heap (umalloc.c): the address-ordered, coalescing free list of Kernighan and Ritchie;
- page tables and frames (vm.c, kalloc.c): two levels refine a flat map, frames are conserved on every path,
  and how many of them each operation needs, exactly;
- processes, CPUs, sleep-locks and pipes (proc.c, sleeplock.c, pipe.c): step systems for any number of
  processes and CPUs, with spinlocks explicit; what a whole call does is told from the steps of the run alone;
- the shell's parser (sh.c): written commands are read back, with any blanks around their tokens; and grep's
  matcher (grep.c).

Code that updates things in place is modelled by classes and methods with loops, proved against functions
and predicates on values; code that runs concurrently is modelled as steps between points where a lock is
taken or given up, and what is proved holds in every state of every run.

Four statements one would expect are false of the code. For each there is a run that shows it, and the exact
condition under which it holds in every run within the `NBUF` buffers of the cache:

- the logged blocks stay inside the log area if and only if it has one block, or more than `LOGSIZE` blocks: two
  processes may pass the unlocked test of `log_write` together (`UnlockedGuardOverflows`, `AlwaysInsideIff`).
  mkfs makes it `LOGSIZE` blocks. This is about log.c under its own contract, that an operation logs at most
  `MAXOPBLOCKS` blocks: the run needs operations that use all they reserve. A transaction of `filewrite` logs
  fewer on a disk with one bitmap block, as mkfs makes it;
- the log refines the two-copy store, recovery restores what readers saw at the last commit, reads find the last
  write and home blocks wait for the commit if and only if the log area has one block, or `LOGSIZE` blocks or
  more (`RefinesStoreIff`, `CrashAtomicIff`, `ReadsRightIff`, `HomesWaitIff`). In a smaller area an overrun
  destroys committed data (`OverrunLosesCommit`, `OverrunLosesWrite`). In mkfs's area it cannot: an overrun pins
  all `NBUF` buffers, and the commit stops in the panic of `bget` before it writes a block (`FullHasNoBuffer`);
- `bget` finds a buffer for every block while processes hold at most h clean buffers, if and only if the blocks
  that the operations can log and those h leave one of the `NBUF` buffers; with mkfs's area the operations alone
  can pin them all (`FullLogStopsCommit`, `AlwaysFindsBufferIff`);
- with the pipe's lock free, a sleeping reader faces an empty pipe with a writer left, if and only if no
  killed writer left the pipe full while a reader slept: `pipewrite` then returns without a wakeup
  (`KilledWriterStrandsReader`, `ReadersStrandedOnlyByKilledWriter`).

One depends on the caller: a failed `allocuvm` leaves the flat map as before if and only if no page between
the two sizes was mapped (`FailureKeepsMapIff`), which holds for a process whose size bounds its pages.

`dafny verify dfyconfig.toml` checks the whole project.

| files | model |
|---|---|
| Log, LogCorrect, LogRuns, LogRace, LogOverrun, LogExact, LogBuffers, LogCode | log.c with the cache of bio.c: steps, invariant, runs, the race and what it does, exactly when the promises hold, buffers at commit, the loops |
| FsBlocks, FsState, FsCode, FsFile, FsIo, FsTrunc, FsInit, FsDir | fs.c, `filewrite` of file.c, the empty file system of mkfs.c |
| FsDisk, FsCrash | the disk of log.c as the file system of fs.c; `filewrite` through the log, crash, recovery and mounting |
| Bio | the buffer list of bio.c |
| Umalloc, UmallocCode | umalloc.c |
| VmTables, VmCode, VmSpaces, VmCopy | vm.c and kalloc.c |
| ProcTable, ProcProtocol, ProcCorrect, ProcRuns | proc.c |
| SleepLock | sleeplock.c over sleep and wakeup |
| Pipe, PipeProtocol, PipeCalls | pipe.c |
| Sh, ShTrip, ShTerse, ShBlank, ShCode, ShTerminate | sh.c |
| Grep | grep.c |
| Basics | the parameters of param.h, options, bytes, C strings, sizes of sets |

## Model

| member | source | states |
|---|---|---|
| WriteAheadLog.HeadRoundTrip | log.c:85-113 | The list of blocks that read_head finds in a header block is the list that write_head put there, for every list of at most LOGSIZE blocks |
| WriteAheadLogCorrect.SpaceStep | log.c:125-174 | Every step of every process, of the committer, of recovery and of a crash keeps logged blocks plus unused reservations at most LOGSIZE, keeps outstanding equal to the operations in progress, and keeps committing from overlapping an operation |
| WriteAheadLogCorrect.StoreKeepsSpace | log.c:213-233 | Recording a block, absorbed or appended, by an operation within MAXOPBLOCKS keeps the reservation |
| WriteAheadLogCorrect.ReservedBound | log.c:134-136 | The reservation of the operations in progress is at most MAXOPBLOCKS each |
| WriteAheadLogCorrect.InstallCore | log.c:69-82 | Copying a log block home changes neither what a crash would restore nor what a reader sees |
| WriteAheadLogCorrect.CommitHeadCore | log.c:192-202 | The header write makes the durable contents of every block equal to what readers see, all at once |
| WriteAheadLogCorrect.LogStoreCore | log.c:213-233 | Recording a block pins its buffer as dirty and changes no contents |
| WriteAheadLogCorrect.BufferCore | bio.c:61-141 | Reading, releasing and recycling buffers changes neither durable nor current contents: only clean buffers are recycled |
| WriteAheadLogCorrect.StepRefines | log.c:69-233 | Every step from a state with the invariant keeps it if and only if the log still fits: the logged blocks are inside the area, or the header is full and nothing is copied yet; then it is a step of a store with a durable and a current copy: write one block, commit all, fall back to the durable copy, or nothing. Only log_write can take the log past its area, and only the copying of a full header ends the invariant |
| WriteAheadLogCorrect.FullHasNoBuffer | log.c:177-190 | The first copy of a commit whose logged blocks fill the header would need more than NBUF buffers |
| WriteAheadLogCorrect.BoundedStepRefines | log.c:69-233 | With a log area of LOGSIZE blocks or more, as mkfs makes it, every step within NBUF buffers keeps the invariant and is a step of the store |
| WriteAheadLogRuns.RunKeepsSpace | log.c:125-174 | The reservation bound in every state of every interleaving, crashes included |
| WriteAheadLogRuns.RunIndexInBounds | log.c:213-233 | In every run log_write indexes the header array in bounds although its size test is unlocked, and end_op never finds a commit in progress |
| WriteAheadLogRuns.CommitsBeforeNextOp | log.c:125-174 | In every run, when the last operation in progress has ended with blocks logged, no other begins before they are committed, and nothing is modified before that commit, unless the machine crashes |
| WriteAheadLogRuns.CommitLeavesCacheClean | log.c:192-202 | After a commit no buffer is dirty, all agree with the disk, and the log is empty |
| WriteAheadLogRace.UnlockedGuardOverflows | log.c:217-219 | A run within NBUF buffers, for every log area of 2 to LOGSIZE blocks, in which two processes pass the unlocked test together and the last logged block has its log block past the area |
| WriteAheadLogRace.OneBlockLogsNothing | log.c:217-219 | With a log area of one block nothing is ever logged |
| WriteAheadLogRace.AlwaysInsideIff | log.c:213-233 | Every run keeps the logged blocks inside the area, if and only if the area has one block or more than LOGSIZE; and the same for the runs within NBUF buffers alone |
| WriteAheadLogOverrun.OverrunLosesCommit | log.c:177-219 | A run within NBUF buffers, for every log area of 2 to LOGSIZE - 1 blocks, in which two processes pass the unlocked test together and commit, the machine crashes and recovery finishes: a home block differs from what readers saw at the header write, and another changed on disk before it |
| WriteAheadLogOverrun.OverrunLosesWrite | log.c:177-219 | A run within NBUF buffers, for every such area, without a crash, in which a bread after the commit does not find the last write |
| WriteAheadLogExact.RefinesStoreIff | log.c:115-233 | In all runs within NBUF buffers every step is a step of the two-copy store, if and only if the log area has one block, or LOGSIZE blocks or more (on a disk with room behind a smaller area for as many blocks) |
| WriteAheadLogExact.CrashAtomicIff | log.c:115-233 | In all runs within NBUF buffers, however often the machine crashed, in operations, commits or recoveries, a finished recovery leaves in every home block what readers saw at the last header write that committed, or what the first disk meant if there was none; under the same condition and no other |
| WriteAheadLogExact.ReadsRightIff | bio.c:96-106 | In all runs within NBUF buffers a bread finds what the last modification of the block wrote since the last crash, through evictions, commits and installs, and after a crash what readers saw at the last commit; under the same condition and no other |
| WriteAheadLogExact.HomesWaitIff | log.c:177-202 | In all runs within NBUF buffers, from a running state to any later one with no header write of a commit between, crashes and recoveries included, every home block on disk keeps its value; under the same condition and no other |
| WriteAheadLogBuffers.CommitFindsBufferIff | log.c:183-185 | In a commit within NBUF buffers, bget finds a buffer for the next log block that is not cached if and only if the logged blocks and the clean buffers that processes hold are fewer than NBUF |
| WriteAheadLogBuffers.RunCounted | log.c:134-233 | In every run, racing or not: at most LOGSIZE / MAXOPBLOCKS operations at once, at most one block more logged than the area has blocks, dirty buffers only for logged blocks not yet installed |
| WriteAheadLogBuffers.FullLogStopsCommit | bio.c:81-92 | A run within NBUF buffers, for every log area of LOGSIZE - 1 blocks or more, whose commit finds every buffer pinned at its first log block |
| WriteAheadLogBuffers.AlwaysFindsBufferIff | bio.c:61-92 | In all runs within NBUF buffers bget finds a buffer for every block whenever processes hold at most h clean buffers, if and only if h and the most blocks that an area of this size ever has logged are fewer than NBUF (on a disk with NBUF blocks behind the area); for every h |
| WriteAheadLogCode.Log.WriteHead | log.c:101-113 | The header of the listed blocks is written out, in one block write |
| WriteAheadLogCode.Log.FillHead | log.c:106-110 | The loop stores the number of blocks and the blocks, and leaves the words behind them |
| WriteAheadLogCode.Log.ReadHead | log.c:85-96 | The loop loads the list found in the header block; a negative number lists nothing |
| WriteAheadLogCode.Log.RecordBlock | log.c:222-231 | The scan leaves a block that is listed where it is, and appends any other |
| WriteAheadLogCode.Log.WriteLog | log.c:177-190 | The loop copies the cached blocks into the log; every disk on the way means the old contents |
| WriteAheadLogCode.Log.InstallTrans | log.c:69-82 | The loop copies the log home; every disk on the way means the same |
| WriteAheadLogCode.Log.Commit | log.c:192-202 | Of the 2n + 2 block writes of a commit, the disks after the first n mean the old contents and all later ones the new: never a mix |
| WriteAheadLogCode.Log.RecoverFromLog | log.c:115-122 | Recovery leaves in every home block what the disk meant, and so does a crash after any of its writes |
| WriteAheadLogCode.Log.InitLog | log.c:53-66 | After boot the log is empty and ready for operations, and every home block holds what the disk meant |
| WriteAheadLogCode.Log.Update | log.c:205-234 | Reading, changing, logging and releasing one block in an operation changes what readers see of that block, nothing that is durable and nothing on disk, and lists the block once; the panic if and only if the header or the area is full or there is no operation |
| WriteAheadLogCode.Log.EndOp | log.c:145-174 | The end of the only operation commits: every disk on the way means either what was durable before or all that the operation wrote, and afterwards all of it is durable and the log is empty |
| FsBlocks.WordAfterSet | fs.c:389-394 | A block number stored in an indirect block reads back, and no other entry changes |
| FsBlocks.SetBlockBitBits | fs.c:66-68 | Setting a bit of the bitmap sets that bit and no other |
| FsBlocks.ClearBlockBitBits | fs.c:88-92 | Clearing a bit of the bitmap clears that bit and no other |
| FsState.AllocateKeeps | fs.c:56-78 | Marking and zeroing a free block moves no address and adds exactly that block to those in use |
| FsState.ReleaseKeeps | fs.c:81-95 | Freeing a block moves no address and takes exactly that block from those in use |
| FsCode.OwnershipIsExact | fs.c:56-95 | No two slots of inodes share a block, and a block is marked in use if and only if it is metadata or in a slot, indirect blocks included |
| FsCode.FileSystem.Balloc | fs.c:56-78 | The first free block, now marked and zeroed; the panic only if every block is in use |
| FsCode.FileSystem.Bfree | fs.c:81-95 | The bit is cleared; the panic if and only if the block was free |
| FsCode.FileSystem.Bmap | fs.c:372-400 | The block of a file block: an existing one with nothing changed, or a new zeroed one nobody owned, with the indirect block if needed; ownership stays exact, every block that changed is logged and none in front of the inode blocks, and at most as many bitmap blocks as blocks are new; the panic past the largest file changes nothing |
| FsFile.PatchEffect | fs.c:498-504 | Copying bytes into one block of a file changes exactly those bytes of that file and none of any other |
| FsIo.BelowSizeIsMapped | fs.c:466-474 | Every file block below the size is mapped |
| FsIo.Readi | fs.c:452-476 | The slice of the file from the offset, clipped to its size; nothing is allocated or changed although bmap could; the error cases exactly |
| FsIo.RefusedMeans | fs.c:493-496 | Although the sum in the test wraps around, what is refused is exactly a write that begins past the end of the file or would end past the largest size |
| FsIo.Iupdate | fs.c:220-236 | The inode on disk equals the one in memory, and its block is logged |
| FsIo.Writei | fs.c:481-511 | The file with the data laid over it at the offset, no other file changed, ownership exact; refused exactly past the end, on wrap-around and past the largest file; every block that changed is logged, within a bound on their number |
| FsTrunc.ChunkFitsInTransaction | file.c:126-133 | The bound of writei on logged blocks, for a chunk of filewrite at any offset and any number of bitmap blocks, is at most MAXOPBLOCKS |
| FsTrunc.Transaction | file.c:135-152 | One chunk: at most MAXOPBLOCKS distinct blocks are logged, every block that changed is among them, and the file has the chunk laid over it |
| FsTrunc.SpliceTwice | file.c:135-152 | Two chunks one after the other are one write |
| FsTrunc.FileWrite | file.c:117-156 | All data as one splice although every chunk is a transaction of its own, each within MAXOPBLOCKS; on an error the chunks before the refused one remain |
| FsDisk.WordsDetermineBytes | fs.c:389-394 | The words of a block determine its bytes |
| FsDisk.PutInodeHolds | fs.c:220-236 | iupdate stores the size and addresses of its inode in its block, and those of no other inode change |
| FsDisk.DiskDeterminesFiles | fs.c:372-476 | Two file systems with exact ownership that one disk stands for have the same files |
| FsDisk.BlockRoundTrip | fs.c:389-394 | The bytes of a block read back from its words |
| FsDisk.InodeRoundTrip | fs.c:299-310 | An inode reads back from its place in its block |
| FsDisk.DecodeStands | fs.c:299-310 | What a kernel decodes from a disk has the inodes, the bitmap and the blocks of the file system that the disk stands for |
| FsDisk.ImageStands | mkfs.c:94-163 | The image of a file system, with an empty log in front, stands for it |
| FsCrash.TransactionStands | log.c:205-234 | Storing the logged blocks of a transaction turns a disk that stands for the file system before into one that stands for the file system after |
| FsCrash.LoggedChunk | file.c:139-146 | One chunk through the log: every disk on the way stands, after recovery, for the file system before or after it |
| FsCrash.LoggedFileWrite | file.c:117-156 | filewrite through the log: the disk before it, and after every block it writes, is one from which recovery restores a sound file system, in which the file has the first bytes of the data laid over it, up to the end of some transaction, and every other file is as it was; also when it stops on an error or in the panic of a full disk |
| FsCrash.RecoverFile | log.c:53-66 | Rebooted with any such disk, recovery and mounting give a log and a file system that agree on the disk, with exact ownership and no holes, ready for operations, in which the file shows the data up to the end of some transaction and every other file is as it was |
| FsCrash.Mount | log.c:53-66 | Booted with any disk that stands for a sound file system after recovery, log and file system agree, are ready for operations, and have its files |
| FsCrash.MakeDisk | mkfs.c:94-163 | The disk that mkfs makes for an empty file system boots to a log and a file system that agree and are ready for operations |
| FsTrunc.FreeDirects | fs.c:414-419 | Direct blocks are freed, each exactly once, and their slots cleared |
| FsTrunc.FreeIndirect | fs.c:421-431 | The blocks of the indirect block and the block itself are freed, each exactly once |
| FsTrunc.Itrunc | fs.c:407-435 | The file is empty, its slots are clear, no other file changes, ownership stays exact, bfree never meets a free block, and every block that changed is logged |
| FsInit.MarkUsed | mkfs.c:245-259 | The bits below the number of metadata blocks are set and no others |
| FsInit.Format | mkfs.c:94-111 | The empty file system satisfies the invariant that every operation keeps |
| FsDir.EntryRoundTrip | fs.c:572-574 | A directory entry reads back as the first 14 bytes of the name and the number modulo 2^16 |
| FsDir.LinkThenLookup | fs.c:551-578 | After dirlink in a free place the name stands for the number modulo 2^16, every other name for what it stood for, and no name is entered twice |
| FsDir.NameCmp | fs.c:516-520 | Names are equal if and only if their first 14 bytes are |
| FsDir.Dirlookup | fs.c:524-548 | The first entry with the name, or that there is none; the panic only on a partial entry |
| FsDir.FreePlace | fs.c:564-570 | The first entry that is not in use, or the end; the panic if a partial entry is met first |
| FsDir.Dirlink | fs.c:551-578 | Refused if the name is entered; otherwise the directory with the entry in the first free place, no other file changed, every block that changed and the inode logged; the panic only on a partial entry, a full file or a full disk |
| BufferList.Unlink | bio.c:132-133 | The two assignments take the buffer out of the ring and leave one ring through the others in their order |
| BufferList.PushFront | bio.c:134-137 | The four assignments put a buffer in front of the ring |
| BufferList.AllIn | bio.c:49-55 | A ring of NBUF distinct buffers holds every buffer |
| BufferList.ReleaseKeepsOrder | bio.c:129-138 | Moving a released buffer to the front keeps the list in the order of release |
| BufferCache.Bcache.constructor | bio.c:38-56 | binit links all buffers in one ring, the last in front, all of device 0 |
| BufferCache.Bcache.Lookup | bio.c:69-76 | The buffer of the block, or that no buffer holds it |
| BufferCache.Bcache.Victim | bio.c:81-91 | The unreferenced clean buffer released longest ago, or that there is none |
| BufferCache.Bcache.Bget | bio.c:61-93 | The cached buffer with one more reference, or the least recently released unreferenced clean one, reset for the block, or the panic if and only if neither exists; no other buffer changes, and no block of a real device is ever in two buffers |
| BufferCache.Bcache.Brelse | bio.c:120-141 | One reference less; the last release moves the buffer to the front of the one ring |
| Umalloc.FreeKeepsHeap | umalloc.c:24-44 | Linking a freed block in, merged with either neighbour or both, keeps one address-ordered cycle with no two adjacent free blocks, and every unit in exactly one block |
| Umalloc.UnlinkKeepsHeap | umalloc.c:75-77 | Taking a whole block off the list keeps the heap |
| Umalloc.CarveKeepsHeap | umalloc.c:78-82 | Taking the tail of a block keeps the heap |
| UmallocCode.BlocksPartitionUnits | umalloc.c:24-90 | Free blocks and blocks in use are disjoint, and together exactly what sbrk gave |
| UmallocCode.Allocator.Free | umalloc.c:24-44 | The search ends at the one right place; the block is free, no other block in use changes, no unit is lost |
| UmallocCode.Allocator.Morecore | umalloc.c:46-61 | sbrk is asked once, for as many units as wanted but at least 4096; NULL if and only if it fails, and then nothing changes; otherwise exactly those units, fresh ones, join the free list as one block, merged if adjacent |
| UmallocCode.Allocator.Malloc | umalloc.c:63-90 | A block of its own, large enough, disjoint from all others; sbrk is called, once, if and only if no free block is large enough, for the units wanted but at least 4096; NULL if and only if that call fails; both loops end |
| UmallocCode.Allocator.Search | umalloc.c:74-89 | The loop visits every free block once before it asks for memory, and afterwards finds the block that joined; NULL if and only if no block fits and sbrk fails |
| PageTables.SetPteAt | vm.c:68-78 | Writing one table entry changes the flat map at that page and nowhere else |
| PageTables.AddTableAt | vm.c:44-53 | A new zeroed table changes the flat map nowhere |
| PageTables.MapUser | vm.c:68-78 | Mapping a user page to a frame that was not in use keeps the ownership of frames exact, with every directory entry as permissive as walkpgdir makes it |
| PageTables.UnmapUser | vm.c:269-276 | Clearing the entry of a user page takes exactly its frame from those owned |
| PageTables.SpaceFrame | vm.c:35-55 | Only the directory and the tables determine the flat map and who owns what |
| FrameList.Pop | kalloc.c:90-92 | Taking the first free frame leaves a list of the others |
| FrameList.Push | kalloc.c:69-75 | A freed frame, filled with junk, heads the list of the others |
| VmCode.Kernel.Kalloc | kalloc.c:83-96 | The first free frame, or null if and only if none is free |
| VmCode.Kernel.Kfree | kalloc.c:60-78 | The frame heads the list and no other memory changes; the panic if and only if it is outside free memory |
| VmCode.Kernel.Freerange | kalloc.c:46-54 | Exactly the whole frames of the range are added; the panic if and only if the addresses are in the wrong order or one of the frames is outside free memory |
| VmCode.Kernel.Walk | vm.c:35-55 | The table of a page, a new zeroed one if asked for; null if and only if there is none and none may or can be made; the flat map unchanged, frames conserved, one frame taken if and only if there was no table |
| VmCode.Kernel.Mappages | vm.c:60-80 | Successive pages get successive frames up to the first that is mapped already or whose table is missing with no frame free; the rest of the flat map unchanged, frames conserved, one frame taken for each table that was missing |
| VmCode.Kernel.Deallocuvm | vm.c:255-279 | Exactly the pages between the sizes are unmapped, missing tables skipped whole, and their frames freed; frames conserved |
| VmSpaces.Allocuvm | vm.c:221-249 | The pages between the sizes are new: zeroed frames that were free, user-writable; or, without memory, all of them are unmapped and every user frame taken is free again; or the panic over a page that was mapped. Memory is short only if fewer frames are free than one for each page and one for each missing table, and success takes exactly that many |
| VmSpaces.FailureKeepsMapIff | vm.c:234-246 | A failed allocuvm leaves the flat map as before if and only if no page of the range was mapped |
| VmSpaces.Freevm | vm.c:283-298 | Every user frame, table and the directory is put on the free list, once, and nothing else |
| VmCopy.KernelMapMeans | vm.c:105-115 | The rows of kmap as one map: kernel memory, a gap, devices, and nothing below KERNBASE |
| VmCopy.Setupkvm | vm.c:118-136 | An address space with exactly the kernel's map, the rows never overlapping, of exactly 65 frames; or none, with every frame free that was, if and only if fewer than 65 are free |
| VmCopy.Copyuvm | vm.c:315-345 | A copy with equal contents and flags in frames that were free, the parent unchanged; or every frame free that was; or the panic over a page that is not mapped. Memory is short only if fewer frames are free than the kernel's 65, one for each page and one table for each 1024 of them, and success takes exactly that many |
| ProcTable.AdoptMeans | proc.c:277-283 | The loop of exit gives init exactly the children of the process, and wakes it if and only if one of them is a zombie |
| ProcTable.Ptable.Alloc | proc.c:98-112 | The first unused slot becomes an embryo with a new pid, or there is none |
| ProcTable.Ptable.Wakeup1 | proc.c:494-502 | A process is runnable afterwards if and only if it was, or slept on the channel; nothing else of it changes |
| ProcTable.Ptable.Exit | proc.c:271-286 | The table after exit: parent woken, children adopted slot by slot, the process a zombie |
| ProcTable.Ptable.Reap | proc.c:302-322 | The first zombie child is reaped and its pid returned; otherwise whether there are children |
| ProcTable.Ptable.Kill | proc.c:516-534 | The first slot with the pid is marked killed, and runnable if it slept, on whatever channel; nothing else changes; -1 if and only if there is none |
| ProcTable.Ptable.Pick | proc.c:356-382 | The first runnable process from the slot on, unless one of a lower priority value is runnable, and then the first of those with the lowest; none if and only if the rest of the table has no runnable process |
| ProcCorrect.StepInv | proc.c:200-429 | Every step of every CPU keeps the invariant: family, waiters, CPUs and locks, and what each process that holds the lock relies on |
| ProcCorrect.ParentsLive | proc.c:245-289 | In every run, every fully forked process other than init has a parent that is neither unused nor a zombie |
| ProcCorrect.NoWaitOverZombie | proc.c:293-333 | In every run, no process sleeps in wait while it has a zombie child |
| ProcCorrect.RunningOnOneCpu | proc.c:343-419 | In every run, with ptable.lock free, a process is running if and only if a CPU's proc field names it, and one CPU at most does |
| ProcCorrect.NoTwoCpusOnOneProcess | proc.c:343-429 | In every run, with the lock held or free, no two CPUs execute one process |
| ProcCorrect.DispatchesBest | proc.c:358-383 | In every run, what is dispatched is at that moment on no CPU and runnable, and no runnable process has a lower priority value, although other CPUs write parts of the table without the lock |
| ProcRuns.ScanPicks | proc.c:343-396 | In every run, a scan of the scheduler, from the taking of the lock or the return of a process, ends with a dispatch of what Pick chooses on the table it began with, or, if and only if no slot from there on is runnable, with the release of the lock |
| ProcRuns.ScanEnds | proc.c:356-382 | In every run, a scan is over after at most twice as many turns of its loops as there are slots |
| ProcRuns.ActsTakeEffect | proc.c:201-588 | In every run, what the table holds after each completed yield, sleep, wakeup, kill, nice and fork: exactly the processes they are for are runnable, asleep, killed or of the new priority, and nothing else changes; who then has lock and CPU |
| ProcRuns.AllocTakesEffect | proc.c:98-112 | In every run, allocproc in fork makes the first unused slot an embryo, or there is none |
| ProcRuns.ForkMakesChild | proc.c:201-243 | In every run, the slot that a fork took is an embryo until the fork is over, on whichever CPUs its process ran since; then it is runnable, a child of the process, of priority 0 |
| ProcRuns.AbortFreesSlot | proc.c:213-218 | In every run, a fork that fails leaves the slot it took unused again |
| ProcRuns.ExitTakesEffect | proc.c:249-288 | In every run, exit ends after its turns with the process a zombie without children, and those it had are children of init |
| ProcRuns.WaitTakesEffect | proc.c:294-333 | In every run, each turn of wait does what it should at its slot, no earlier slot having a zombie child: the zombie child is reaped and the call returns; at the end, it returns if there is no child or the process is killed, and otherwise sleeps |
| ProcRuns.NoDeadlock | proc.c:200-429 | In every run, the CPU that has ptable.lock can go on with what it took it for, and when the lock is free every CPU can take a step |
| SleepLock.StepInv | sleeplock.c:22-42 | Every step keeps: one holder for each spinlock, a process named in each held lock, and whoever waits waits for a lock that is held or is about to be woken |
| SleepLock.AtMostOneHolder | sleeplock.c:22-53 | In every run: of the processes that have returned from acquiresleep and not called releasesleep since, told from the calls alone, at most one holds a lock, and the fields of the lock name it; a process they name holds the lock, or is on its way out of acquiresleep or into releasesleep |
| SleepLock.HoldingsleepIsExact | sleeplock.c:44-54 | In every run, holdingsleep is true of a process that is in no call of its own if and only if it holds the lock |
| SleepLock.ReleasedAfterReturn | sleeplock.c:34-42 | In every run, when releasesleep has returned, its caller neither holds the lock nor is named in it |
| SleepLock.SleepersWaitForHolder | proc.c:454-511 | In every run, while the inner spinlock is free a process sleeps only on a lock that another process holds or is about to release |
| SleepLock.NoDeadlock | sleeplock.c:22-54 | In every run, while some process is in a call and awake, some process can go on with its call: no spinlock is waited for in a circle |
| PipeRing.CountersCount | pipe.c:85-114 | The tests for empty and full on 32-bit counters that wrap are tests of the number of bytes |
| PipeRing.PutAppends | pipe.c:93-93 | Storing a byte appends it to the queue |
| PipeRing.AdvanceTakesFirst | pipe.c:116-116 | Reading a byte takes the oldest |
| PipeCode.Pipe.Write | pipe.c:84-94 | What fits is appended in order; what stops the writer exactly |
| PipeCode.Pipe.Read | pipe.c:106-117 | The oldest bytes, as many as asked for and present; what stops the reader exactly |
| PipeCode.Pipe.Close | pipe.c:59-75 | One end closed; the page is to be freed if and only if both are |
| PipeProtocol.StepInv | pipe.c:59-121 | Every step keeps: delivered bytes and queue make up the accepted bytes, lock holders, sleeping writers, the use of the ends, one free |
| PipeProtocol.DeliveredInOrder | pipe.c:78-121 | In every run the delivered bytes are a prefix of the accepted ones, with at most 512 between |
| PipeProtocol.WriterSleepsOnlyWhenFull | pipe.c:85-92 | In every run, with the lock free, a sleeping writer faces a full pipe with the read end open |
| PipeProtocol.FreedAtMostOnce | pipe.c:70-74 | In every run the page is freed at most once, and no process is inside afterwards |
| PipeProtocol.StepReadersWait | pipe.c:86-111 | A step leaves every waiting reader before an empty pipe with a writer left, or about to be woken, if and only if it is not a killed writer's silent return |
| PipeProtocol.KilledWriterStrandsReader | pipe.c:85-92 | A run in which a killed writer fills the pipe and returns, and a reader sleeps on with the lock free |
| PipeProtocol.ReadersStrandedOnlyByKilledWriter | pipe.c:78-121 | A run leaves a reader asleep before bytes or a closed end, with the lock free, if and only if a killed writer left the pipe full without a wakeup while a reader waited |
| PipeCalls.WritePutsAll | pipe.c:78-100 | In every run, a write that returns from its end has put in all its bytes, in order, however often it slept and whoever wrote between |
| PipeCalls.WriteFailsWhenFull | pipe.c:85-89 | In every run, a write returns before its end only from a full pipe, killed or with the read end closed, with a proper part of its bytes put in, the first ones |
| PipeCalls.ReadTakesOldest | pipe.c:106-117 | In every run, a read takes the oldest bytes, exactly as many as it wants or are there; of an empty pipe with a writer left it takes none and returns only if killed |
| PipeCalls.FreedIffBothClosed | pipe.c:59-75 | In every run, when no process is in a call, the page has been freed, once, if and only if both ends have been closed |
| PipeCalls.NoDeadlock | pipe.c:59-121 | In every run, while some process is in a call and awake, some process can go on with its call |
| Shell.GetToken | sh.c:265-308 | A token is a place in the buffer in order, not empty unless at the end, and a word is a whole word; the characters are in GetTokenMeans |
| Shell.ParseLine | sh.c:344-359 | The grammar of a line, for every buffer: a panic, or a tree and a place not before the start |
| ShellRoundTrip.RestTrip | sh.c:430-442 | A simple command is read item by item, redirections anywhere; the twentieth word is refused |
| ShellRoundTrip.LineTrip | sh.c:344-446 | Any written command, at the end of a line or before a closing parenthesis, is read up to its end as what it means |
| ShellRoundTrip.ParseUndoesRender | sh.c:327-342 | parsecmd of the text of any command within MAXARGS gives a tree that means the same |
| ShellRoundTrip.TreeRoundTrip | sh.c:327-446 | Any tree within MAXARGS, written with every part in parentheses, is read back as itself |
| ShellTerse.LineTextTrip | sh.c:344-446 | Any tree, written with parentheses only where the grammar needs them, at the end of a line or block, is read back as itself |
| ShellTerse.TerseRoundTrip | sh.c:327-446 | parsecmd reads that text of any tree within MAXARGS back as the tree: pipes bind tighter than ampersands and those tighter than semicolons, pipes and lists nest to the right, redirections of simple commands need no parentheses |
| ShellTerse.FlatMeans | sh.c:415-446 | A simple command with redirections around it is what its words and redirections, written one after the other, mean |
| ShellTerse.HowOperatorsBind | sh.c:344-372 | Commands without operators are joined without parentheses in a background pipeline before a semicolon and in chains to the right, and with parentheses in chains to the left |
| ShellBlanks.GetTokenMeans | sh.c:262-308 | gettoken by characters: spaces, tabs, carriage returns, newlines and vertical tabs before and after, and between them the end, one of the seven symbols, two '>', or the longest word; and which token that is |
| ShellBlanks.SpacedTokens | sh.c:262-308 | The tokens of a text made of tokens with any runs of those five characters around them, at least one where two would be read as one, are those tokens |
| ShellBlanks.TextIsSpaced | sh.c:262-308 | Every text is made so, of its own tokens |
| ShellBlanks.SameTokensSameCommand | sh.c:327-446 | parsecmd depends on the tokens only: two texts with the same tokens give commands that mean the same, or the panic |
| ShellBlanks.BlanksDoNotMatter | sh.c:262-446 | Two texts that differ only in runs of the five blanks before, between and after their tokens give the same command, or the panic |
| ShellBlanks.SpacedRoundTrip | sh.c:262-446 | Any tree within MAXARGS is read back as itself from every text that differs only in blanks from its text with the fewest parentheses |
| ShellBlanks.BlanksAround | sh.c:262-342 | Any line with any blanks in front of it and after it gives the same command as without them |
| ShellBlanks.NewlineAtEnd | sh.c:262-342 | In particular a newline at its end makes no difference |
| ShellRoundTrip.TooManyArgs | sh.c:436-440 | Twenty words or more are refused |
| ShellRoundTrip.ArgsAfterRedirection | sh.c:426-445 | In a simple command all words are arguments of the one command, also those after a redirection, and the redirections go around it in order |
| ShellCode.NextToken | sh.c:265-308 | The loops of gettoken compute the token |
| ShellCode.PeekAt | sh.c:310-320 | The cursor past blanks, and whether one of the characters is there |
| ShellCode.Redirs | sh.c:374-397 | The loop of parseredirs, for every input; it ends |
| ShellCode.ExecCmd | sh.c:415-446 | The loop of parseexec, for every input; it ends |
| ShellCode.BlockCmd | sh.c:399-413 | A parenthesised line with its redirections |
| ShellCode.PipeCmd | sh.c:361-372 | A pipeline, for every input; the recursion ends |
| ShellCode.LineCmd | sh.c:344-359 | A line, for every input; loop and recursion end |
| ShellTerminate.LineWords | sh.c:344-446 | Every string of a parsed command is a whole word of the buffer |
| ShellTerminate.CutStrings | sh.c:448-493 | Once a NUL stands after every string, the C strings of the tree are its tokens |
| ShellTerminate.NulTerminate | sh.c:448-493 | A NUL after every string of the tree, written only over characters outside words |
| ShellTerminate.Parse | sh.c:327-342 | parsecmd on the buffer: the tree of the grammar with every argument and file name equal to its token, or the panic with the buffer unchanged |
| Regex.MatchesCons | grep.c:98-106 | What a pattern means: some first part of the text stands for its first atom, and the rest matches |
| Regex.AtomsWritten | grep.c:85-96 | The atoms of any pattern, written out, are the pattern again: '$' is the end only as its last character, a character before '*' is repeated, '.' is any |
| Regex.WrittenAtoms | grep.c:85-96 | And any atoms that can be written so are read back |
| Regex.MatchHere | grep.c:85-96 | 1 if and only if the pattern matches at the start of the text; no pointer passes a terminator; the mutual recursion ends |
| Regex.MatchStar | grep.c:98-106 | 1 if and only if c* followed by the pattern matches at the start of the text |
| Regex.Match | grep.c:72-82 | 1 if and only if some suffix of the text matches, or after '^' the text itself |

## Left out

- Port I/O, interrupts, boot, traps and assembly: the disk is one atomic step for each block, `swtch` a step.
- The disk queue of ide.c: block reads and writes are synchronous, as in memide.c.
- WriteAheadLogCode.Log.ReadHead: the header block lists at most LOGSIZE blocks, since the loop of `read_head` would write past its array otherwise; `write_head` never stores another number.
- WriteAheadLogCode.Log.RecoverFromLog: the same bound, which is part of the validity of a disk.
- WriteAheadLogCode.Log.Update: one process uses the log, so no buffer is held by another; the steps of several are in the step system, as `Bread`, `Modify`, `LogGuard`, `LogStore` and `Brelse`.
- WriteAheadLogCode.Log.EndOp: the same; an `end_op` while other operations are in progress is the step `EndOp`. At most as many blocks are logged as the area has room for, as `Update` ensures.
- FsCrash.LoggedChunk: one file operation at a time; the changes of a transaction are stored in the cached blocks at its end and not one by one, which no disk shows.
- FsCrash.LoggedFileWrite: the same, on a log area of more than MAXOPBLOCKS + 1 blocks.
- Locking and caching in fs.c: inode and buffer locks, `iget`, `iput` and the table of cached inodes; file operations are modelled one at a time, above the log.
- FsCode.FileSystem.Bfree: block numbers from the size of the disk on, which no inode holds.
- FsIo.Readi: device inodes, whose reads go to the device switch.
- FsIo.Writei: device inodes, whose writes go to the device switch.
- FsIo.Iupdate: type, device numbers and link count, which are not part of the modelled inode; `FsDisk.PutInodeHolds` leaves their words.
- FsTrunc.FileWrite: pipes, whose writes are in `PipeCode`, the test of `writable`, and reference counts of open files.
- FsInit.Format: the root directory and the files that mkfs copies in; the invariant is shown for the empty file system it starts from.
- FsCrash.MakeDisk: the same, and the boot block and super block.
- FsDir.Dirlookup: the panic on an inode that is not a directory, and `iget`, which gives the number found to the table of inodes.
- Path names.
- umalloc.c: the sizes of requests do not overflow 32 bits, and `sbrk` gives fresh, higher addresses, or fails.
- VmCode.Kernel.Kfree: a frame that is free already, which the code does not detect: the list would become circular.
- VmCode.Kernel.Freerange: ranges with a frame that is free already, for the same reason.
- VmCode.Kernel.Mappages: is called with at least one page, as all callers do; a size of 0 would run through the whole address space. A user page gets a frame that is not in use, as all callers ensure; no frame has two owners.
- VmCode.Kernel.Deallocuvm: the old size is at most KERNBASE, as all callers ensure; above it the loop would free frames of the kernel's map.
- VmCopy.Copyuvm: the size is at most KERNBASE, which `allocuvm` ensures for every process.
- vm.c: `loaduvm`, `inituvm`, `clearpteu`, `copyout` and the hardware's view of the tables; addresses are page and frame numbers.
- kalloc.c: the lock around the list, which has one user at a time.
- ProcRuns.ActsTakeEffect: kill and nice are for a slot; the search for the pid is the loop of `ProcTable.Ptable.Kill`.
- ProcRuns.AllocTakesEffect: without the pid, which `ProcTable.Ptable.Alloc` gives.
- proc.c: `userinit` before the first process runs, kernel stacks and file descriptors; no fairness is claimed; `proc_nice`, whose loop never runs.
- sh.c: `runcmd`, the prompt, `cd`, and a `malloc` that fails while parsing; the nodes of the tree are values, so the filling of an exec node below its redirections is modelled as an update of the tree.
- grep.c: the reading of lines.
- Toy devices, other user programs, console, printf and string helpers: they would only add easy members.
