# xv6 in Dafny

A model of the parts of this repository's xv6 kernel that keep invariants across many functions, with proofs that
they do: the redo log over the buffer cache, the file layer, the user-level storage allocator, page tables over the
page allocator, the MLFQ + stride scheduler, the sleep/wakeup protocol, pipes, and grep's matcher. The kernel files are
those of `xv6-public/`; the scheduler is the one of `project1/xv6-public/`.

Code that works by changing state in place is a class whose methods follow the C functions loop by loop, proved against
functions and predicates on values; protocols with many processes or with crashes are state machines with theorems
over all their runs.

## What is modelled, and how it fits together

**Log, cache, disk** (`Blocks`, `LogSpec`, `LogRun`, `LogTheorems`, `LogReservation`, `LogProgress`, `Ring`, `Bio`,
`Log`, `LogRoom`, `EndToEnd`, `FileRun`). `LogSpec`
says which disk states commit and recovery pass through, one block write at a time, and proves group commit atomic for
a crash at any of them and any number of crashed recoveries. `LogRun` is the whole machine: any number of processes
that begin, read, change, log and end, buffers filled and evicted at any time, commit as separate block writes, and a
crash at any point; `LogTheorems` and `LogReservation` state durability and log space over all its runs, and
`LogProgress` that a run can always go on: a commit or a recovery to its end, and from there any write to durability. `Bio` and
`Log` are the C code of bio.c and log.c as classes: the cache keeps a record of every state the disk has been in, and
`Log.Commit` is proved to take it through exactly the states of `LogSpec.CommitDisk`. `EndToEnd` and `FileRun` join this
with the file layer: whatever moment a run of writes, truncations, links and unlinks is cut at, what recovery leaves is a
volume in order that shows each operation whole or not at all.

Capacity of the log: mkfs.c makes the log area LOGSIZE blocks with its header (`xv6-public/mkfs.c:25`), and log_write
panics at `LOGSIZE` or `size - 1` entries, before it looks for an entry to absorb the block. So operations that use up
the MAXOPBLOCKS blocks begin_op reserves for them can panic, although begin_op says that they may not exceed the log
space. `LogReservation.PanicFreeIff` gives the exact per-operation budget for which no run panics.

Buffers: a commit needs one buffer that nobody has taken, and LOGSIZE equals NBUF (`xv6-public/param.h:11-12`).
`Log.Log.EndOp` finishes exactly when the blocks logged, and the other blocks that somebody has or waits for at that moment,
are together fewer than NBUF; a reader of a logged block is waited for. The log area mkfs makes holds 29 blocks, so with nobody reading
it always finishes. `LogRoom.NoBufferLeft` is a run in which three operations within their budgets log 29 blocks: the last
end_op finishes, unless somebody is reading a thirtieth block, and then bget has no buffer to give.

**Files** (`FsLayout`, `FsState`, `FsFile`, `FileWrite`, `FsDir`). Blocks, inodes and the free map, with one function
from block numbers to the slot that owns each; files as flat byte strings; directories as maps from names cut to DIRSIZ
bytes. The class `FsFile.FileSys` works on the contents the buffer cache shows a reader; `logged` collects the blocks an
operation passes to log_write, and every operation passes all the blocks it changes (`FsFile.Noted`). An operation panics on
a full volume only if it needs a block that is not there: writing inside a file and unlinking never do. `FileWrite` proves that each chunk of filewrite fits the log's budget of ten blocks for
volumes of any size, given that files have no holes: a chunk touches at most four data blocks, an unaligned first one
of which already exists, so at most three are new, and the free-map blocks for these, an indirect block with its own
free-map block, and the inode block make ten.

**Storage allocator** (`KrSpec`, `Kr`). umalloc.c over a break that other callers of sbrk may move too. Addresses count
header-sized units; `base` lies below the heap. Rounding a request up in 32 bits can wrap; `Kr.RoomIffNoWrap` says
exactly for which requests the block returned is big enough.

**Page tables** (`VmSpec`, `VmRoom`, `Vm`). Every frame has one recorded use: free, held by a caller of kalloc, page directory,
page table, or user page. Address spaces are maps from pages to a table entry and contents, tied word by word to the
frames. Contracts equate these maps, so what is not named is unchanged. `VmRoom` counts the directories, tables and pages
an operation needs; each allocation succeeds exactly when the free list holds that many frames.

**Scheduler** (`Heap`, `Fair`, `Share`, `SchedSpec`, `Sched`, `ShareRun`). The array heap once, ordered by a key function,
for both queues; the timer branch and the dispatch loop on one processor. `Fair` bounds the lag between the two passes,
`Share` the spread inside the stride queue, over all runs of their machines; the methods of `Sched.Cpu` are proved to make
steps of both. Strides and passes are integers, which is what the code stores in its floats.

Among processes of one level the queue is not fair. It is an array heap, so up to three that each yield run in turn, but of
four or more the one in the second slot never gets the processor (`Heap.SecondWaits`, `Sched.Cpu.YieldInTurn`), until a
level changes or the queue does.

Three facts about the code bound what can be stated. set_cpu_share queues the caller while it is running, so its next tick
changes the key of a queued process: `Heap.RekeyIff` and `Sched.Cpu.Tick` say exactly when the queue stays in order,
`Sched.Cpu.ShareThenTick` says it of the state before the call, and `ShareRun.OutOfOrder` is a run from the start of the
kernel, with shares of 50, 10, 10 and 1 percent, that ends with the queue out of order. All other contracts hold in such
states too, those about order where the queue was in order before. The same call leaves the process on both sides until
the MLFQ next hands it out and drops it (`Sched.Cpu.Dispatch`). And with an empty stride queue the lag grows without bound
(`Fair.NoBoundWhenEmpty`).

**sleep, wakeup, sleeplocks** (`SleepLock`). Any number of processes, one spinlock operation per step, with kills.

**Pipes** (`Pipe`). One method per stretch between taking and giving up the pipe's lock. A writer that is killed returns
without waking readers (`xv6-public/pipe.c:86-89`); `Pipe.Pipe.Write` says exactly when that leaves a reader asleep
beside a pipe with bytes in it, and `Pipe.ReaderLeftAsleep` is a run in which it does. Order, bound and close behaviour
hold before and after such a kill.

**grep** (`Grep`). The recursive matcher with its loops, against a meaning of patterns that does not mention matching.

A panic of the original shows as a result (`None`, `false`) or is excluded by a precondition that names its test.

## Model

| member | source | states |
|---|---|---|
| LogSpec.CrashAtomicity | xv6-public/log.c:68-122 | after a crash at any write of a commit that starts from an empty header, any number of recoveries crashed at any write, and a final one, every home block is old if the crash came before the header write and new if after |
| LogSpec.CommitCut | xv6-public/log.c:178-202 | the disk after k writes of commit can be recovered, to all-old or all-new contents by whether the header write was made |
| LogSpec.RecoverCut | xv6-public/log.c:70-122 | recovery cut after any of its writes still leads to the same home contents |
| LogSpec.RecoveredShowsHome | xv6-public/log.c:115-122 | recovery run to its end puts the logged contents in their home blocks and empties the log |
| LogSpec.CrashedRecoveriesKeepHome | xv6-public/log.c:115-122 | any number of crashed recoveries changes nothing a later one restores |
| LogSpec.InstalledAt | xv6-public/log.c:70-82 | k rounds of install_trans: which blocks have been copied and that all others are untouched |
| LogSpec.LogPhaseNext | xv6-public/log.c:102-113 | each write of write_log and the first write_head, computed from the disk at that moment, is the next state of CommitDisk |
| LogSpec.InstallPhaseNext | xv6-public/log.c:70-82 | the same for the installs and the header that clears the log |
| LogRun.KeepInv | xv6-public/log.c:125-233 | every step of every process, of commit, of recovery, and every crash keeps the invariant tying disk, cache, log and durable history |
| LogRun.CacheFrame | xv6-public/bio.c:78-91 | changes confined to buffers that are neither pinned nor logged cannot disturb what a crash would restore |
| LogTheorems.RunInv | xv6-public/log.c:125-233 | the invariant holds in every state of every run from power-on |
| LogTheorems.WholeRunDurability | xv6-public/log.c:125-233 | at each moment of each run the disk recovers to the last committed state, home blocks outside the install phase already are that state, and with nothing in flight readers see exactly it |
| LogTheorems.HistoryIsQuietViews | xv6-public/log.c:145-174 | each committed state is the file system as seen at a moment when no operation was half done, so groups commit whole |
| LogTheorems.HistoryGrows | xv6-public/log.c:145-174 | committed states are never taken back |
| LogProgress.ComesToRest | xv6-public/log.c:54-122 | from any state of any run with nothing locked and no operation open, crash states included, what is being committed or recovered can be brought to its end |
| LogProgress.AnyWriteCommits | xv6-public/log.c:125-233 | from there any process can give any home block any contents: the operation can run and commit, and then that block alone has changed, in what readers see and in what a crash restores |
| FileRun.FileRunsAreSafe | xv6-public/log.c:9-22 | in a run whose stretches of changes come to file operations one after the other: cut at any moment the disk recovers to a volume in order, equal in inodes, free map and data to what readers saw at a moment with no operation running, or to the one the run began with |
| FileRun.FileOpsKeep | xv6-public/log.c:9-14 | such stretches take a volume in order to one in order |
| FileRun.StretchEffect | xv6-public/log.c:204-212 | what a stretch of operations does to the contents readers see is the changes its processes made to held buffers, in order |
| FileRun.Do | xv6-public/sysfile.c:184-233 | writei, itrunc, dirlink and unlink leave the volume alone when they refuse, and else do what FileRun asks of a file operation; every block they change has been passed to log_write |
| EndToEnd.VolumeUnique | xv6-public/fs.c:66-78 | the contents determine the inodes and who owns which block |
| EndToEnd.EveryCrashIsSafe | xv6-public/log.c:9-22 | the same from the bare promise that every stretch of operations takes a volume in order to one in order, whatever the operations |
| EndToEnd.AlwaysGood | xv6-public/log.c:125-174 | from that promise: in every state of every run all committed states, and the view whenever no operation is running, are volumes in order |
| EndToEnd.GoodAgrees | xv6-public/fs.h:8-10 | whether a volume is in order does not depend on the log area |
| LogReservation.Reservation | xv6-public/log.c:125-174 | log entries plus unused budgets of outstanding operations fit in LOGSIZE, entries are distinct, and no operation is outstanding during a commit, so end_op does not panic |
| LogReservation.NoPanic | xv6-public/log.c:213-221 | with budgets small enough for both limits, no reachable log_write panics |
| LogReservation.PanicRun | xv6-public/log.c:213-221 | otherwise two processes within their budgets drive log_write into its panic |
| LogReservation.PanicFreeIff | xv6-public/log.c:126-141 | no run panics if and only if MAXOPBLOCKS plus twice the budget is below LOGSIZE and below size - 1 |
| Ring.InsertFront | xv6-public/bio.c:131-135 | the four link updates put the buffer first in the ring, in both directions |
| Ring.Remove | xv6-public/bio.c:131-132 | the two link updates take exactly that buffer out of the ring |
| Bio.Bcache.constructor | xv6-public/bio.c:39-56 | binit's ring holds all buffers once and the cache shows the disk |
| Bio.Bcache.CachedOnce | xv6-public/bio.c:68-76 | no block of the device is in two buffers |
| Bio.Bcache.CleanView | xv6-public/bio.c:78-91 | a block that is not pinned, and whose own buffer is not being changed, reads as on disk, whatever happens to other buffers |
| Bio.Bcache.Observed | xv6-public/bio.c:97-106 | what a reader gets for a block is the data of its buffer if that has been read, else the disk's; and that buffer holds the block |
| Bio.Bcache.FindVictim | xv6-public/bio.c:81-90 | the least recently released unreferenced clean buffer, or none exists |
| Bio.Spare | xv6-public/bio.c:81-92 | with fewer blocks pinned or referenced than buffers, bget finds one to recycle |
| Bio.AllTaken | xv6-public/bio.c:78-92 | with as many blocks pinned or referenced as buffers, only those are cached and bget finds none to recycle |
| Bio.Bcache.Bget | xv6-public/bio.c:62-93 | the block's own buffer if cached, with one more reference and a wait iff somebody holds it, else the victim recycled; none iff the block is not cached and nothing can be recycled; other buffers, pins and views are untouched |
| Bio.Bcache.Iderw | xv6-public/memide.c:38-60 | one atomic transfer: a dirty buffer is written, an invalid one read |
| Bio.Bcache.Bread | xv6-public/bio.c:97-106 | waits iff somebody holds the block; else a locked buffer with the latest contents of the block; nothing reaches the disk; none iff the block is neither pinned nor referenced and those that are take up all buffers |
| Bio.Bcache.BreadLocked | xv6-public/bio.c:73-105 | a wait that has come to its end: the buffer locked, with the latest contents |
| Bio.Bcache.BreadThrough | xv6-public/bio.c:97-106 | bread with its wait for the reader of a pinned block, whose brelse ends it: buffers as before, in other hands; none on the same condition as bread |
| Bio.Bcache.Bwrite | xv6-public/bio.c:110-116 | the one disk write this makes, recorded as a crash state |
| Bio.Bcache.Brelse | xv6-public/bio.c:121-141 | the lock and reference go, and the last reference moves the buffer to the front of the ring |
| Log.Log.TryBegin | xv6-public/log.c:126-141 | begin_op admits an operation iff no commit runs and its whole budget still fits |
| Log.Log.LogWrite | xv6-public/log.c:213-233 | fails exactly when the log is full or no operation is open, changing nothing; else the block is logged once and its buffer pinned, and no other buffer and no reference changes |
| Log.Log.InstallTrans | xv6-public/log.c:70-82 | the disk passes through the installs in order, the installed blocks are no longer pinned and read as on disk, and their readers have been waited for; it finishes if a buffer is left over and the logged blocks are pinned, or two are |
| Log.Log.WriteHead | xv6-public/log.c:102-113 | one disk write that stores the in-memory header; fails iff its block finds no buffer |
| Log.Log.CommitToLog | xv6-public/log.c:178-197 | up to the header write the disk passes through the states of CommitDisk; readers of logged blocks are waited for; it finishes on the same condition as write_log |
| Log.Log.WriteLog | xv6-public/log.c:178-190 | the logged contents go to the log slots in order, home blocks read as before, and it finishes whenever the blocks logged or referenced are fewer than NBUF, and only then if those referenced are home blocks |
| Log.Log.Commit | xv6-public/log.c:193-202 | every disk state during commit is the next one of CommitDisk, which CrashAtomicity is about; at the end log and pins are empty and home blocks read as before; nothing is written if nothing is logged; it finishes if the blocks logged and the others referenced are fewer than NBUF, and only then if those referenced are home blocks |
| Log.Log.EndOp | xv6-public/log.c:146-174 | the last operation out commits: every disk state on the way is the next one of CommitDisk, home blocks read as before, and when it finishes, whoever else has or waits for buffers; others leave disk, buffers and log alone; ending during a commit fails |
| LogRoom.NoBufferLeft | xv6-public/param.h:10-12 | three operations within their budgets log 29 blocks; the last end_op finishes iff nobody is reading a thirtieth |
| Log.Log.RecoverFromLog | xv6-public/log.c:116-122 | the disk passes through RecoverDisk's states and ends recovered, with an empty log; it finds its buffers if two are not referenced |
| FsLayout.InodeRoundTrip | xv6-public/fs.h:29-36 | decoding an encoded dinode gives the inode back |
| FsLayout.SetBit | xv6-public/fs.c:66-70 | exactly the one bit of the block changes |
| FsState.UsedIffOwnedOnce | xv6-public/fs.c:56-95 | the free map marks a block iff it is metadata or held by a slot, and then by one slot of one inode only |
| FsState.Conservation | xv6-public/fs.c:56-95 | free, owned and metadata blocks add up to the volume |
| FsState.LinkOk | xv6-public/fs.c:378-396 | storing a fresh zeroed block in an empty slot keeps ownership and changes that slot alone |
| FsState.EmptyOk | xv6-public/fs.c:414-431 | emptying a slot leaves exactly its blocks to be freed |
| FsState.WriteBlockOk | xv6-public/fs.c:499-503 | writing a data block changes the bytes of one block of one file |
| FsState.IupdatedOk | xv6-public/fs.c:221-236 | iupdate makes the cached inode and its disk inode equal and disturbs no other inode, file or owner |
| FsFile.FileSys.Balloc | xv6-public/fs.c:57-78 | the first free block, zeroed and marked; none only if all are in use |
| FsFile.FileSys.Bfree | xv6-public/fs.c:82-95 | clears exactly one bit and logs its block; fails iff the block was free |
| FsFile.FileSys.Iupdate | xv6-public/fs.c:221-236 | the inode's slot in its block is overwritten, nothing else |
| FsFile.FileSys.Bmap | xv6-public/fs.c:373-400 | the block's address, allocated if missing, through direct and indirect slots; no other slot gets a block; ownership, other files and the bytes already there are kept; which blocks it logs, all it changes among them; none only if the block was missing and the volume is full |
| FsFile.FileSys.ReadI | xv6-public/fs.c:453-476 | exactly the requested range of the file's bytes, cut at its size, and no change; -1 iff the start is past the end or the sum wraps |
| FsFile.FileSys.WriteI | xv6-public/fs.c:482-511 | the file's bytes are the old ones with src written over them, size and disk inode to match; all other files are unchanged, and blocks are added only where the range needs them; -1 exactly for the code's three tests; every changed block and the block of every written byte is logged, within a bound; none only if some block of the range was missing and the volume is full |
| FsFile.NoHole | xv6-public/fs.c:485-496 | no block is missing for bytes below a file's size, so writing there never panics |
| FsFile.FileSys.Itrunc | xv6-public/fs.c:408-435 | exactly the inode's blocks become free, bfree never panics, the file is empty, no other file changes, and every changed block is logged |
| FileWrite.ChunkCost | xv6-public/file.c:126-134 | a chunk of (MAXOPBLOCKS-4)/2 blocks at any offset logs at most MAXOPBLOCKS blocks |
| FileWrite.Refused | xv6-public/file.c:138-148 | a chunk is refused exactly when the bytes that can be accepted have been written |
| FileWrite.File.WriteChunk | xv6-public/file.c:138-146 | one transaction: the chunk is in the file and the offset moved, within the log's budget and with every changed block logged, or nothing changed |
| FileWrite.File.Write | xv6-public/file.c:118-156 | the chunked loop leaves the file as one writei of the accepted bytes would, and succeeds iff it accepted all; it panics only if some block of the range was missing and the volume is full, so never inside the file |
| FsDir.AgreeIsSameCut | xv6-public/string.c:59-66 | strncmp finds two names equal iff their bytes before the first NUL, cut to n, are |
| FsDir.NameCmp | xv6-public/fs.c:517-520 | zero iff the two names have the same key |
| FsDir.NameCopy | xv6-public/string.c:69-79 | the stored field is the name's key and then NULs, whatever the name's length |
| FsDir.LinkName | xv6-public/fs.c:564-575 | a record put in a free place or at the end adds exactly its binding, and names stay unique |
| FsDir.ClearName | xv6-public/sysfile.c:218-220 | zeroing a record removes exactly its binding |
| FsDir.DirLookup | xv6-public/fs.c:525-548 | the inode number the name is bound to and its record's offset, or none |
| FsDir.FindFree | xv6-public/fs.c:564-569 | the first free record, or the end |
| FsDir.DirLink | xv6-public/fs.c:552-578 | refuses iff the name is bound; else adds exactly the binding, in the first free record or at the end; panics only when every record is in use and the next one goes past the largest size or into a missing block of a full volume; every changed block is logged |
| FsDir.IsDirEmpty | xv6-public/sysfile.c:168-181 | true iff no record after the first two is in use |
| FsDir.Unlink | xv6-public/sysfile.c:203-233 | refuses exactly ".", "..", an unbound name and a directory with something in it, changing nothing; panics exactly for a link count below 1, never for want of space; else the name's binding goes and no other, the inode it led to loses a link, the parent one if that was a directory, and all other inodes and files stay; every changed block is logged |
| FsFile.FileSys.DropLink | xv6-public/sysfile.c:222-228 | the link count, a short, goes down in memory and on disk, and no file changes; the inode's block is logged |
| KrSpec.FreedOk | xv6-public/umalloc.c:24-44 | free keeps the circular address order, the partition of all units into free and live blocks, and that no two free neighbours touch |
| KrSpec.FreedKeeps | xv6-public/umalloc.c:24-44 | free changes no byte and no size of any block still in use |
| KrSpec.FreeWritesFreed | xv6-public/umalloc.c:33-42 | the code's two-step writes are insertion followed by joining with the neighbours it touches |
| KrSpec.PlaceIff | xv6-public/umalloc.c:30-32 | the search stops at one place of the list only, the one where the block belongs |
| KrSpec.FreedRoom | xv6-public/umalloc.c:59-60 | after free some free block is at least as big as the one freed |
| KrSpec.TakenOk | xv6-public/umalloc.c:76-77 | unlinking a whole block keeps list, partition and gaps |
| KrSpec.CarvedOk | xv6-public/umalloc.c:79-81 | carving the tail off a free block keeps list, partition and gaps |
| KrSpec.GrantedOk | xv6-public/umalloc.c:54-58 | memory from sbrk joins the partition as one block |
| KrSpec.StoreOk | xv6-public/umalloc.c:84 | a caller writing behind its block's header cannot disturb the heap |
| Kr.RoomIffNoWrap | xv6-public/umalloc.c:69 | the block found holds the request iff the request is at most 2^32 - 8 bytes, and then a block with a unit less would not |
| Kr.WrapWitness | xv6-public/umalloc.c:69 | the largest request rounds to one unit, which has no room |
| Kr.NextFitFirst | xv6-public/umalloc.c:74-85 | the block malloc finds is the first big enough one behind the search's start, once round the list; none iff all are too small |
| Kr.Heap.FindPlace | xv6-public/umalloc.c:30-32 | free's search ends, at the block just below |
| Kr.Heap.Free | xv6-public/umalloc.c:24-44 | the whole new heap, where the search starts next, and that other live blocks are untouched |
| Kr.Heap.Morecore | xv6-public/umalloc.c:46-61 | fails iff sbrk does; else the break rises by the units asked for, at least 4096, and a free block is big enough |
| Kr.Heap.Malloc | xv6-public/umalloc.c:63-90 | a fresh block of exactly the units looked for: given by the first big enough free block behind the search's start if there is one, else the last units of the new memory; 0 iff no free block suffices and sbrk fails; the break rises by those units, at least 4096, when none does, and else stays; the search ends |
| VmSpec.NoSharing | xv6-public/vm.c:61-80 | two user pages never share a frame, and none is on the free list or a directory |
| VmSpec.MappedOk | xv6-public/vm.c:68-79 | writing a table entry maps exactly that page and keeps every invariant |
| VmSpec.UnmapAndRelease | xv6-public/vm.c:269-275 | kfree before the entry is cleared comes to unmapping and then freeing |
| VmSpec.SweptLast | xv6-public/vm.c:290-297 | freeing tables and then the directory frees all and only that address space's frames |
| VmSpec.AbsentTable | xv6-public/vm.c:266-268 | the jump to the next directory entry skips no mapped page |
| VmSpec.KernMapIs | xv6-public/vm.c:106-115 | which kernel pages are mapped, to which frames, and that text is read-only and none is the user's |
| VmSpec.TakenWereFree | xv6-public/kalloc.c:83-95 | directory, tables and user frames of a new address space were free before, and no frame serves it twice |
| Vm.Memory.Kalloc | xv6-public/kalloc.c:83-95 | the head of the free list, or 0 iff it is empty |
| Vm.Memory.Release | xv6-public/kalloc.c:60-77 | the frame becomes free, first on the list, its contents gone; no other frame, address space or table changes |
| Vm.Memory.Freerange | xv6-public/kalloc.c:47-53 | exactly the whole pages inside the range become free |
| Vm.Memory.Walkpgdir | xv6-public/vm.c:36-55 | the table behind a page, made from one free frame if asked; fails iff missing and not to be had |
| Vm.Memory.Mappages | xv6-public/vm.c:61-80 | all pages of the range mapped to consecutive frames iff the free list holds a frame for each table the range lacks; else the first few |
| Vm.Memory.Setupkvm | xv6-public/vm.c:119-136 | a new address space with the kernel's map iff 65 frames are free, its directory and 64 tables; else all frames as they were |
| VmRoom.KernNeeds | xv6-public/vm.c:106-115 | the tables each region of the kernel's map adds to those of the regions before it |
| VmRoom.TooFew | xv6-public/vm.c:36-50 | an allocation that finds the free list empty needed more frames than were free at the start |
| Vm.Memory.Deallocuvm | xv6-public/vm.c:256-279 | exactly the present pages from PGROUNDUP(newsz) up to oldsz go, their frames free, as page by page |
| Vm.Memory.Allocuvm | xv6-public/vm.c:222-249 | zeroed user pages up to newsz iff the free list holds those pages and the tables they lack; else 0 with every user frame taken given back |
| Vm.Memory.Freevm | xv6-public/vm.c:284-298 | all frames of the address space become free, no others change |
| Vm.Memory.Copyuvm | xv6-public/vm.c:316-345 | a child equal to the parent byte for byte and flag for flag on frames that were free, iff the free list holds the kernel part, the pages and their tables; parent and all else unchanged; on failure no frame has changed hands |
| Vm.Memory.Store | xv6-public/vm.c:316-345 | a write through one address space is seen in no other |
| Heap.RootLeast | project1/xv6-public/scheduler.c:72 | in heap order the root has a least key |
| Heap.UpStep | project1/xv6-public/scheduler.c:53-59 | moving a larger parent into the hole keeps order around the hole |
| Heap.DownStep | project1/xv6-public/scheduler.c:82-85 | moving the smaller child into the hole keeps order around the hole |
| Heap.DownEnd | project1/xv6-public/scheduler.c:77-91 | the process brought in from the end comes to stand where all right below it have strictly larger keys: it goes behind its equals |
| Heap.InTurn | project1/xv6-public/scheduler.c:66-94 | up to three queued processes of one key, each put back after it is taken, come out in turn |
| Heap.SecondWaits | project1/xv6-public/scheduler.c:66-94 | of four or more processes of one key, each put back after it is taken, the one in slot 2 never comes out |
| Heap.RekeyIff | project1/xv6-public/scheduler.c:25-34 | a queued process whose key changes leaves the queue in order iff the new key is no larger than its children's and no smaller than its parent's |
| Heap.Queue.Enqueue | project1/xv6-public/scheduler.c:40-63 | exactly p is added, larger parents moved down to make room, and order kept if there was order; or the queue is full and unchanged |
| Heap.Queue.Dequeue | project1/xv6-public/scheduler.c:66-94 | the root leaves, in an ordered queue a process of least key, the others stay in order, and which process stands where; none from an empty queue |
| Heap.Queue.SiftDown | project1/xv6-public/scheduler.c:77-91 | the last process goes down from the root past all that are no larger, as DownEnd says, and order is restored |
| Heap.Queue.TakeTurn | project1/xv6-public/proc.c:347-366 | taking the next process and putting it back is a turn as in InTurn and SecondWaits |
| Heap.Queue.Drain | project1/xv6-public/scheduler.c:123-151 | dequeuing until empty hands out every process with keys never falling |
| Fair.LeftFalls | project1/xv6-public/trap.c:119-137 | a tick that does not end the turn uses up one of at most four |
| Fair.Ladder | project1/xv6-public/trap.c:115-137 | with no boost a process is on level 0 for its first five ticks, on level 1 for the next ten, and on level 2 from then on |
| Fair.QuantumLasts | project1/xv6-public/trap.c:119-137 | a turn taken from the start of a quantum lasts one, two or four ticks on levels 0, 1 and 2 |
| Fair.FairStep | project1/xv6-public/proc.c:340-398 | the bound on the lag is kept by dispatch, tick, early leave and boost |
| Fair.PassesCount | project1/xv6-public/trap.c:115-143 | each pass moves by its stride per tick of its side and by nothing else |
| Fair.BoundedLag | project1/xv6-public/proc.c:340-398 | between any two dispatches the weighted tick counts differ by at most four MLFQ strides and one stride of the other side |
| Fair.FourIsNeeded | project1/xv6-public/param.h:15-20 | the factor four is reached |
| Fair.NoBoundWhenEmpty | project1/xv6-public/proc.c:347 | with an empty stride queue there is no bound |
| Share.SpreadRun | project1/xv6-public/proc.c:374-391 | in every state of every run any two passes in the stride queue are at most the largest stride apart |
| Share.FairShares | project1/xv6-public/trap.c:142-144 | of two processes awake in the stride queue, the ticks each got meanwhile, weighted by its stride, differ by at most two largest strides |
| Share.SpreadIsNeeded | project1/xv6-public/trap.c:142 | the bound on the passes is reached |
| SchedSpec.RoomFor | project1/xv6-public/scheduler.c:42-44 | a queue of distinct processes has room for one it does not hold, so requeueing never fails |
| SchedSpec.TicksCount | project1/xv6-public/trap.c:114-144 | over k ticks a process without tickets goes down the levels and its pass stays; one with tickets gains k strides of pass and its level stays |
| SchedSpec.LevelAfter | project1/xv6-public/trap.c:115-137 | the level of a newly forked process after any number of ticks, five on level 0 and ten on level 1 |
| Sched.Cpu.PickMlfq | project1/xv6-public/proc.c:347-361 | a process of least level is taken and run, parked so that nobody stands lower, or dropped, by its state and tickets, and where the others then stand; fails iff the queue is empty |
| Sched.Cpu.PickStride | project1/xv6-public/proc.c:374-386 | the head, a process of least pass while in order, is taken and run, put back with the pass of the process in the last slot, or dropped; fails iff a sleeper is alone |
| Sched.Cpu.Dispatch | project1/xv6-public/proc.c:340-388 | the round turns to the MLFQ iff its pass is not ahead or the other queue is empty; a step of Fair's machine and, in order, of Share's; a process on both sides that is dropped is on one; fails iff it would read through the null pointer |
| Sched.Cpu.Requeue | project1/xv6-public/proc.c:363-396 | the process rejoins the queue it came from, which has room, brought in at its end; order is kept |
| Sched.Cpu.Tick | project1/xv6-public/trap.c:111-146 | level, ticks, passes and the decision to yield for both kinds of process, as a step of both machines; a process already queued for stride keeps that queue in order iff its new pass fits where it stands |
| Sched.Cpu.GiveUp | project1/xv6-public/proc.c:437-444 | a process that yields, sleeps or exits rejoins its queue with nothing charged |
| Sched.Cpu.YieldInTurn | project1/xv6-public/proc.c:334-372 | dispatched processes of one level that yield at once: up to three get the processor in turn; of four or more, the one in the queue's second slot never gets it |
| Sched.Cpu.Fork | project1/xv6-public/proc.c:225-228 | a new process joins the MLFQ at the top level and neither bound is disturbed |
| Sched.Cpu.Wake | project1/xv6-public/proc.c:509-517 | a sleeper becomes runnable where it is queued and neither bound is disturbed |
| Sched.Cpu.BoostIfDue | project1/xv6-public/trap.c:139-140 | the test a process makes when it goes on after its MLFQ tick: all levels are lifted iff the number of MLFQ ticks is then a positive multiple of a hundred |
| Sched.Cpu.PriorityBoost | project1/xv6-public/proc.c:401-408 | exactly the processes in the array's slots, stale and null ones included, are reset, and order holds |
| Sched.Cpu.SetCpuShare | project1/xv6-public/scheduler.c:11-37 | tickets are conserved and at most MAXSHARE percent, a hundred for each percent unless the product wraps; when it refuses, divides by zero, or grants; the strides are the integer quotients; where the caller lands in the queue, and that it is then among those that stand last |
| Sched.Cpu.ShareThenTick | project1/xv6-public/scheduler.c:11-37 | after a first purchase and the tick that follows the queue is in order iff, where the caller lands, one more stride does not pass a child; and the caller is on both sides |
| ShareRun.OutOfOrder | project1/xv6-public/scheduler.c:25-34 | a run from power-on that buys four shares and ends with the stride queue out of order |
| SleepLock.KeepStep | xv6-public/proc.c:418-474 | every lock operation of every process and every kill keeps the invariant |
| SleepLock.MutualExclusion | xv6-public/sleeplock.c:22-42 | in every state of every run at most one process holds the sleeplock, the one in its pid field |
| SleepLock.EveryStage | xv6-public/sleeplock.c:21-42 | a process that wanted the lock and is out again has in between been granted it, held it, cleared it and gone past all sleepers |
| SleepLock.OwnedBetween | xv6-public/sleeplock.c:21-31 | between wanting the lock and being out again a process has owned it, alone |
| SleepLock.NoLostWakeup | xv6-public/proc.c:429-447 | whenever the spinlock is free and the sleeplock not taken, nobody sleeps on it |
| SleepLock.SleeperIsOwed | xv6-public/proc.c:458-474 | a sleeper always has an owner of the lock or a wakeup still to pass it |
| SleepLock.NoDeadlock | xv6-public/sleeplock.c:21-42 | in every state of every run, if anybody is inside the lock's operations, somebody inside can go on |
| SleepLock.HastySleepLosesWakeup | xv6-public/proc.c:429-437 | releasing lk before taking ptable.lock would lose a wakeup |
| Pipe.Counters | xv6-public/pipe.c:85-93 | wrapped 32-bit counters tell full from empty and give the right slot |
| Pipe.Pipe.Fifo | xv6-public/pipe.c:78-121 | delivered bytes followed by buffered ones are the accepted ones, in order, at most PIPESIZE buffered |
| Pipe.Pipe.Write | xv6-public/pipe.c:79-98 | how many bytes go in, how the stretch ends, and exactly when it leaves a reader asleep that could go on: when the writer was killed while readers slept |
| Pipe.Pipe.Read | xv6-public/pipe.c:101-121 | the next bytes in order, at most n, and the sleepers that remain |
| Pipe.Pipe.Close | xv6-public/pipe.c:60-75 | the other side is woken; the pipe is freed iff both sides are closed |
| Pipe.ReaderLeftAsleep | xv6-public/pipe.c:85-91 | a killed writer fills the pipe and leaves the reader asleep |
| Grep.HereOne | xv6-public/grep.c:93-94 | a literal or dot first: one fitting character, then the rest |
| Grep.HereStar | xv6-public/grep.c:99-106 | a starred character first: some run of fitting characters, then the rest |
| Grep.Match | xv6-public/grep.c:73-82 | true iff some substring is in the pattern's language, at the start for ^ and at the end for $ |
| Grep.MatchHere | xv6-public/grep.c:85-96 | true iff the pattern occurs from that position, in the code's order of tests |
| Grep.MatchStar | xv6-public/grep.c:99-106 | true iff after some run of the character the rest occurs |
| Grep.ParseConcat | xv6-public/grep.c:85-96 | a pattern cut anywhere but in front of a star is its parts one behind the other, a $ that closed the first a literal one |
| Grep.EndIff | xv6-public/grep.c:91-92 | the match is tied to the end of the text iff $ is the pattern's last character |
| Grep.Corners | xv6-public/grep.c:87-94 | in any pattern: a character in front of a star is starred, $ and ^ too; an inner ^ and a $ with something behind it stand for themselves; a star at the start is a character like any other |

## Left out

- The log's and the cache's waiting: begin_op's sleep is `TryBegin` answering false, and a block that somebody holds is
  `Bget` answering that it waits. A commit that waits for a reader (`Bio.Bcache.BreadThrough`) goes on when that reader lets
  go; what other processes do meanwhile is the subject of `LogRun`.
- Running out of buffers: `Bget` answers `None` where the original panics, and the log's methods then answer false. For
  commit, when that happens is exact if those who have or wait for buffers have or wait for home blocks.
- Several devices: buffers start at device 0, block 0 as in the original, and uniqueness is stated for the root device.
- `FsFile.FileSys` works on block contents, not through `Bio`; that a reader sees the logged contents is `Bio.Bcache.Bread`.
- FileRun.FileRunsAreSafe: that operations which overlap under the inode locks come to the same as some order of them is
  taken from the run, not proved; for operations that take turns there is one to a stretch.
- Files with holes, device files (T_DEV), inode reference counts and locks (iget, iput, ilock), path names.
- FileWrite.ChunkCost: is about files without holes; a hole at an unaligned start would add a free-map block.
- Kr.Heap.Malloc: requests whose byte count would reach sbrk as a negative int are excluded; sbrk is called with whole
  units, and new units read as zero.
- Vm.Memory.Mappages: user mappages calls of more than one page, which no caller makes, are excluded.
- Vm.Memory.Deallocuvm: sizes above KERNBASE, which no caller passes, are excluded.
- inituvm, loaduvm, copyout, clearpteu and the switch of page tables.
- Sched.Cpu.SetCpuShare: a second purchase by the same process puts it into the stride queue twice; the contract says so,
  but the contracts of the other operations are about queues without repeats.
- Fair.BoundedLag: is about stretches of a run in which no share is bought, since a purchase changes the strides.
- Rounding of passes in floats, overflow of ticket totals, several processors, and reuse of slots that are still queued.
- exec, wait, the rest of fork and exit, system call plumbing, the shell, user programs, drivers, and the spinlock
  instruction sequence.
- pipealloc's file table entries, and pipewrite with a negative count.
- grep's buffering of lines.
