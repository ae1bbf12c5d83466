# xv6, modelled and verified

xv6 with copy-on-write fork, a multi-level feedback scheduler and kernel semaphores, modelled in Dafny: the write-ahead
log over the buffer cache, shared address spaces, the file system on its blocks, the run queues, the semaphores, and
four self-contained programs. `dafny verify dfyconfig.toml` checks everything.

## How to read it

Code that changes things step by step is a class or a method; a pointer into a static table is an index into a sequence
field, -1 or 0 for null as in the source. A panic is a false or negative result. Every method is proved against
functions or predicates on values, and lemmas say what those mean. Locks are taken as given: a region under a lock is
one step, and steps of different processes interleave freely in the modules about protocols (`GroupCommit`, `LogSpace`,
`Cow`, `Starvation`, `Semaphores`, `Pipe`).

| files | what they model |
|---|---|
| `Common` | definitions that several modules use |
| `Blocks`, `Wal`, `Log`, `GroupCommit`, `LogSpace` | log.c: bytes of a block, crash atomicity, the code, group commit over all interleavings, log space |
| `Ring`, `BufferCache` | bio.c over the in-memory disk of memide.c |
| `Cow`, `PageTable`, `Vm` | vm.c and kalloc.c: isolation over all runs, two-level tables, the code |
| `FsImage`, `FsOwn`, `Fs`, `FsFile`, `Mkfs` | fs.h, fs.c, file.c and mkfs.c |
| `DList`, `Scheduler`, `Starvation` | the run queues of proc.c |
| `Semaphores` | semaphore.c with sleep and wakeup |
| `Umalloc`, `ShellSpec`, `Shell`, `ShellGrammar`, `Pipe`, `Grep` | user/umalloc.c, user/sh.c, pipe.c, user/grep.c |

## What turned out

- The log's reservation of MAXOPBLOCKS blocks an operation is one too many for its 30 blocks: the panic of log_write()
  can happen iff operations may log 10 blocks (`LogSpace.PanicIff`). A filewrite() operation logs at most 7.
- mkfs rounds the root directory's size up even when it is a whole number of blocks. It leaves a hole in the root iff
  the number of files is 30 modulo 32 (`Mkfs.RootWhole`, `Mkfs.ThirtyFiles`).
- malloc() serves a request iff it is at most 8 * (2^28 - 2) bytes; above, the unit count wraps or sbrk() is passed
  a negative or zero size (`Umalloc.ServedIff`).
- A killed pipe writer can leave a reader asleep with data (`Pipe.StrandedReader`). That is the only way: a step
  strands a reader iff it is a killed writer with more than 512 bytes to go that finds one asleep
  (`Pipe.ReadersStep`, `Pipe.NoReaderStranded`).
- A fault on an absent page whose page table is there is answered as if it were resolved, so it comes again; only
  where the table is absent too is the process killed (`Vm.Vm.HandlePgFlt`).
- The shell's > and >> build the same command (`ShellSpec.PartsTrip`). The age of a process is never reset, not even for a new process in the
  slot.

## Model

| member | source | states |
|---|---|---|
| Wal.HeadRoundTrip | log.c:84-113 | a header written by write_head() is the header that read_head() reads back, as bytes of one block |
| Wal.CommitCrash | log.c:177-202 | a crash after any number k of commit()'s block writes leaves a disk that means the old home blocks if k is at most the number of log blocks, and the logged ones from the header write on |
| Wal.CommitDone | log.c:192-202 | a commit() that ends leaves an empty header and the home blocks at their logged values |
| Wal.RecoverCrash | log.c:69-122 | no block write of a recovery changes what the disk means |
| Wal.RecoverDone | log.c:115-122 | a recovery that ends leaves an empty header and home blocks equal to what the disk meant |
| Wal.BootRecovers | log.c:115-122 | any number of recoveries that crash anywhere, then one that ends, give the home blocks the first disk meant |
| Wal.CrashAtomicity | log.c:69-122 | crash anywhere in commit(), any crashes in recovery, then a completed recovery: every home block is as before, or every logged one is new, decided exactly by whether the first write_head() reached the disk |
| Log.EncodeHead | log.c:101-113 | the loop of write_head() builds the encoded header |
| Log.DecodeHead | log.c:84-96 | the loop of read_head() decodes the header |
| Log.Log.WriteLog | log.c:177-190 | with nobody holding a block of the log or of the transaction, the blocks written are the log copies in order; all of them if two buffers can be recycled |
| Log.Log.WriteHead | log.c:101-113 | exactly one block write, of the encoded header |
| Log.Log.InstallTrans | log.c:69-82 | the home blocks get their logged contents, in order |
| Log.Log.InstallAndErase | log.c:198-200 | install, then erase the header: the last part of commit() and recover_from_log() |
| Log.Log.LogTransaction | log.c:196-197 | log blocks, then the header, and no home block changes |
| Log.Log.Commit | log.c:192-202 | whatever the cache holds, the writes are a prefix of the commit sequence of the crash theorem, all of it when two buffers can be recycled; what blocks read as does not change |
| Log.Log.BeginOp | log.c:125-141 | admission exactly when not committing and every outstanding operation still has its reservation; otherwise the process sleeps, and nobody ever sleeps who would be let in |
| Log.Log.EndOp | log.c:145-163 | the last operation out, and only it, must commit, any other wakes every sleeper; panics exactly during a commit; afterwards nobody sleeps who would be let in |
| Log.Log.EndCommit | log.c:166-173 | the commit is over and every sleeper awake |
| Log.Log.LogWrite | log.c:213-233 | panics exactly when the header has 30 numbers or fills the log, or outside an operation; otherwise absorbs the block number and pins the buffer, which lets no sleeper in |
| Log.Absorb | log.c:223-230 | absorption adds the number if it is not there, keeps the others in place and all of them distinct |
| Log.Log.ReadHead | log.c:84-96 | the in-memory header becomes the one on disk |
| Log.Log.RecoverFromLog | log.c:115-122 | the writes are a prefix of the recovery sequence, all of it when two buffers can be recycled |
| BufferCache.BCache.constructor | bio.c:38-56 | the initial cache satisfies the invariant |
| BufferCache.BCache.Binit | bio.c:45-55 | the prev/next links form one ring through all NBUF buffers |
| BufferCache.BCache.FindCached | bio.c:68-76 | finds the block's buffer iff there is one |
| BufferCache.BCache.FindVictim | bio.c:78-91 | finds the clean unreferenced buffer released longest ago, iff there is one |
| BufferCache.BCache.Bget | bio.c:61-93 | keeps one buffer a block; recycles only when the block is not cached, and the right victim; panics exactly when there is none |
| BufferCache.BCache.ReadIn | memide.c:38-60 | iderw() of an invalid buffer reads the block, panics exactly off disk 1 or out of range |
| BufferCache.BCache.Bread | bio.c:96-106 | the locked buffer holds what the block reads as, equal to the disk unless dirty; sleeps only if the block's buffer is locked, a user of it already; fails only out of range or without buffers |
| BufferCache.BCache.Bwrite | bio.c:109-116 | the disk block becomes the buffer's contents and the buffer clean |
| BufferCache.BCache.Brelse | bio.c:120-141 | at the last reference the buffer becomes the most recent one; the invariant (one buffer a block, ring a permutation, unlocked valid clean buffer equals disk, release order) is kept iff changed contents were passed to bwrite() or log_write() |
| BufferCache.BCache.MakeRecent | bio.c:130-138 | the four pointer updates move a buffer to the front of the ring |
| BufferCache.MoveToFront | bio.c:132-137 | unlinking and relinking a node keeps the ring a permutation |
| BufferCache.Recycle | bio.c:81-90 | recycling a clean buffer keeps every clean cached block equal to the disk |
| GroupCommit.StepKeeps | log.c:125-233 | every step of any process, and every crash, keeps the protocol invariant |
| GroupCommit.RunKeeps | log.c:125-233 | so it holds after every run |
| GroupCommit.LogWriteReads | log.c:213-233 | after a log_write() the block reads as the new contents, also if it was logged before, and every other block as it did |
| GroupCommit.MatchesStep | log.c:125-233 | each step adds to the record of the history what the step alone says |
| GroupCommit.HistoryRun | log.c:125-233 | so in every run the record is the history computed from the steps: writes with their contents, and at a crash what the last header write made durable |
| GroupCommit.EffectsLast | log.c:213-233 | the effect of a history on a block is its last write |
| GroupCommit.GroupCommitRefines | log.c:125-233 | in every interleaving and after every crash, the recovered disk is the effect of a prefix of the history of the steps that no operation straddles; with nothing open, the prefix is everything |
| GroupCommit.AllOrNothing | log.c:124-174 | a cut at which nothing is open has every operation entirely on one side |
| GroupCommit.NothingLeaksEarly | log.c:145-174 | committing implies no outstanding operation; until a header is written no uncommitted block is at its home |
| GroupCommit.ReadsOwnWrites | bio.c:78-90 | what a process reads is the last log_write() of the block in the history, committed or not, or what the disk meant at first |
| GroupCommit.WakeupStep | log.c:125-174 | no step leaves an operation asleep in begin_op() that would be let in |
| GroupCommit.SleepersRun | log.c:125-174 | in every run, an operation sleeps in begin_op() only while it could not be let in, and then a commit is under way or an operation is open, so a wakeup is to come |
| LogSpace.NeverTooBig | log.c:132-133 | if each operation logs at most MAXOPBLOCKS - 1 blocks, "too big a transaction" never fires with a 30-block log |
| LogSpace.PanicRun | log.c:218-219 | a run in which every operation keeps to MAXOPBLOCKS and log_write() panics all the same |
| LogSpace.PanicIff | log.c:125-141 | the panic is reachable iff operations may log MAXOPBLOCKS blocks or more |
| Cow.StepKeeps | vm.c:320-442 | fork, fault, growth, shrinkage and exit keep the sharing invariant and do what the eagerly copying system does |
| Cow.EagerFunctional | vm.c:320-350 | the eager system leaves no choice |
| Cow.AloneIsCountOne | vm.c:430-439 | a frame has reference count 1 iff no other entry maps it |
| Cow.Isolation | vm.c:361-442 | after every run each process sees exactly the memory it would see had fork copied every page, and a writable page has count 1 |
| PageTable.FlatSet | vm.c:35-55 | setting an entry of a two-level table changes one page of the flat map |
| PageTable.FlatNewTable | vm.c:44-53 | a new empty table maps nothing |
| PageTable.NoTableNoPages | vm.c:266-268 | where there is no table there are no pages, so deallocuvm() may skip its range |
| PageTable.PageCountAt | mmu.h:85-92 | PGROUNDUP(sz) counts the pages with a byte below sz |
| PageTable.SizedBytes | vm.c:221-249 | in a process of sz bytes every address below sz is on a mapped page |
| Vm.CountsFit | kalloc.c:63-131 | a count is at most the number of address spaces that map any page; with at most NPROC of those the unsigned char never wraps; a page is on the free list iff its count is 0 |
| Vm.Vm.constructor | kalloc.c:35-57 | the free list initially holds every page once |
| Vm.Vm.Kalloc | kalloc.c:87-102 | fails exactly on an empty list; hands out its first page with count 1 |
| Vm.Vm.Kfree | kalloc.c:63-82 | the page is free with count 0 and filled with junk |
| Vm.Vm.Incref | kalloc.c:105-113 | count plus one, without wrap below 255 |
| Vm.Vm.Decref | kalloc.c:116-124 | count minus one |
| Vm.Vm.WalkPgdir | vm.c:35-55 | no mapping changes; a missing table is made if asked and memory is left |
| Vm.Vm.MapPage | vm.c:60-80 | one page is mapped, or nothing changes: a panic exactly if it was mapped, a failure only if memory ran out |
| Vm.Vm.DropPage | vm.c:269-281 | one mapping goes; the page is freed iff it was the last |
| Vm.Vm.DeallocPage | vm.c:265-281 | one page of the range goes, if it is there |
| Vm.Vm.DeallocUvm | vm.c:255-284 | exactly the pages that begin from newsz on and below oldsz are unmapped, so every page with a byte below newsz stays; counts exact, skipping included |
| Vm.Vm.AllocPage | vm.c:234-246 | a zeroed page no one maps, mapped writable, or no mapping changes |
| Vm.Vm.AllocUvm | vm.c:221-249 | every address below newsz is on a mapped page, the new ones zeroed and shared with no one, or every mapping is restored; succeeds below KERNBASE whenever two frames a page are free |
| Vm.Vm.FreeVm | vm.c:288-303 | the address space goes, its tables are freed once each, shared pages live on |
| Vm.Vm.SetupKvm | vm.c:118-136 | a directory without user pages, or no mapping changes; cannot fail with 65 free frames |
| Vm.Vm.CowUvm | vm.c:361-391 | the child maps exactly the pages with a byte below sz, the frames of its parent, read-only in both; on failure the child is gone and the parent only lost write bits; cannot fail with enough free frames |
| Vm.Vm.SharePage | vm.c:371-383 | one page becomes read-only in both and its count goes up by one |
| Vm.Vm.HandlePgFlt | vm.c:410-442 | a shared page is copied to a page no one maps, a sole one made writable, and this fails only when no frame is free; an absent page kills the process iff its page table is absent too |
| Vm.Vm.UserWrite | vm.c:410-442 | a user store with its fault resolved changes what its own process sees and nothing else |
| FsImage.WithBitAt | fs.c:66-68 | setting or clearing a bit of the free map changes no other block's bit |
| FsImage.PutNodeAt | fs.c:221-237 | iupdate() changes one inode of its block and no other |
| FsImage.DecodeEncode | fs.h:28-36 | an inode survives being written and read |
| FsOwn.BitIffReachable | fs.c:56-96 | the bits set are exactly the metadata and the blocks that inodes reach, each from one slot |
| FsOwn.AttachDirect | fs.c:380-389 | giving a fresh block to an empty address keeps the ownership invariant |
| FsOwn.AttachIndirect | fs.c:390-395 | and so does listing it in the indirect block |
| FsOwn.Drop | fs.c:415-431 | a slot's block has its bit set, so it can be freed once |
| Fs.Fs.Claim | fs.c:67-71 | the free block is marked, zeroed and unowned |
| Fs.Fs.Balloc | fs.c:56-78 | the first free block, never 0, unowned and zeroed; panics exactly when the disk is full |
| Fs.Fs.Bfree | fs.c:81-96 | "freeing free block" exactly when the bit is clear; otherwise clears it |
| Fs.Fs.Iupdate | fs.c:221-237 | the disk copy equals the inode in memory |
| Fs.Fs.AllocAddr | fs.c:380-389 | a new block in addrs, nothing else of any inode changed |
| Fs.Fs.AllocListed | fs.c:392-395 | a new block in the indirect block |
| Fs.Fs.Bmap | fs.c:373-401 | the block at that place; allocates only if there is none, and then a zeroed block; panics only on a full disk |
| Fs.Fs.BmapIndirect | fs.c:384-398 | the same through the indirect block |
| Fs.SlotIsBlock | fs.c:373-401 | block bn of a file is address bn of the inode, or entry bn - 12 of its indirect block on disk |
| Fs.Fs.DropDirect | fs.c:415-420 | frees the direct blocks without panic |
| Fs.Fs.DropListed | fs.c:425-428 | frees the listed blocks without panic |
| Fs.Fs.Itrunc | fs.c:408-436 | every block of the inode is freed once, no panic; all other owners and all data stay; memory and disk copy agree |
| FsFile.HoldsOne | fs.c:363-369 | the table and the blocks determine the contents |
| FsFile.PatchSplices | fs.c:500-503 | writing into one block is splicing into the contents |
| FsFile.SpliceAt | fs.c:499-505 | a splice has the new bytes at the offset and the old ones elsewhere |
| FsFile.OthersKeep | fs.c:482-512 | a write leaves the contents of every other inode |
| FsFile.WrapsIff | fs.c:465-466 | the test off + n < off in 32 bits is overflow |
| FsFile.ReadI | fs.c:453-477 | -1 exactly on a bad offset; otherwise the slice of the contents cut at the end, and nothing changes |
| FsFile.WriteChunk | fs.c:499-505 | one turn of the loop splices one piece |
| FsFile.WriteLoop | fs.c:499-505 | the loop splices all bytes; a write within the file changes no inode |
| FsFile.WriteI | fs.c:482-512 | -1, and nothing changes, exactly if the offset is beyond the size or the end beyond 140 blocks; otherwise the splice of the contents, other inodes untouched, and inode in memory equal to disk though only a growing write updates it |
| FsFile.AtMostSeven | file.c:127-133 | an operation of at most 1536 bytes logs at most 7 blocks when one bit-map block covers the disk |
| FsFile.WriteOp | file.c:140-145 | one begin_op()/end_op() bracket of filewrite(), refused exactly as writei() refuses |
| FsFile.FileLoop | file.c:132-151 | the loop takes 1536 bytes an operation and gets through them as long as they fit |
| FsFile.FileWrite | file.c:117-154 | all bytes are written iff the offset is within the file and every byte fits; otherwise the operations that fit, counted exactly; the contents are one splice of what was written; every operation stays below MAXOPBLOCKS |
| Mkfs.MapBits | mkfs.c:237-251 | the map that balloc() fills has exactly its first bits set |
| Mkfs.Mkfs.constructor | mkfs.c:93-115 | the zeroed disk is an empty file system, and the seven words of the super block are the layout's |
| Mkfs.Mkfs.Place | mkfs.c:269-286 | iappend() finds or allocates the block of the offset |
| Mkfs.Mkfs.Iappend | mkfs.c:255-297 | the bytes are appended to the contents, with zeros to the end of the last block; no other file changes; the file has exactly the blocks its size needs |
| Mkfs.Mkfs.Winode | mkfs.c:183-195 | the disk copy equals the inode |
| Mkfs.Mkfs.Rinode | mkfs.c:197-208 | reads back what winode() wrote |
| Mkfs.Mkfs.Ialloc | mkfs.c:223-235 | the next unused inode, without blocks |
| Mkfs.Mkfs.FixRoot | mkfs.c:158-163 | rounds the root size up to the next whole block, always at least one byte more |
| Mkfs.RootHole | mkfs.c:158-163 | the rounding leaves a hole in the root directory iff its size was a multiple of BSIZE |
| Mkfs.RootWhole | mkfs.c:117-163 | so mkfs leaves a block below the root's size missing iff the number of files is 30 modulo 32 |
| Mkfs.ThirtyFiles | mkfs.c:117-163 | thirty files: one full block of entries, a size of two blocks, and the second one missing |
| Mkfs.RootLength | mkfs.c:126-150 | the root has 16 bytes for each file and for the two dots |
| Mkfs.RootEntry | mkfs.c:145-150 | entry k + 2 of the root gives back inode k + 2 and the name of file k |
| Mkfs.DotEntries | mkfs.c:117-128 | the first two entries give back inode 1 and the dots |
| Mkfs.SuperRead | mkfs.c:96-115 | the super block reads back as 1000 blocks, 941 of data, 200 inodes, 30 of log, at 2, 32 and 58 |
| Mkfs.Mkfs.Balloc | mkfs.c:237-251 | with the bit map written the image satisfies the kernel's file-system invariant |
| Mkfs.Mkfs.AppendFile | mkfs.c:152-153 | the read loop stores the whole file |
| Mkfs.Mkfs.AddFile | mkfs.c:145-153 | one file of the command line: inode, directory entry, contents |
| Mkfs.Mkfs.Build | mkfs.c:117-165 | every file is stored whole and zero-padded, the root lists them, and the image is a file system in order with its super block; the root reads as its entries and zeros up to the rounded size iff the number of files is not 30 modulo 32, else its last block is missing; it fails only if the disk is full or a file too large |
| Scheduler.RunnableIffQueued | proc.c:37-141 | a process is RUNNABLE iff it is on a list, and then once, on the level of its nice value |
| Scheduler.EnqueueKeeps | proc.c:37-54 | enqueue() completes the invariant |
| Scheduler.RemoveKeeps | proc.c:114-141 | cutting any process out leaves acyclic, well-ended lists |
| Scheduler.Scheduler.constructor | proc.c:143-148 | empty lists and unused processes satisfy the invariant |
| Scheduler.TakeLast | proc.c:68-77 | the pointer updates of dequeue() cut the last node |
| Scheduler.TakeOut | proc.c:117-140 | the four cases of removefromlevel() are one cut |
| Scheduler.Scheduler.Enqueue | proc.c:37-54 | RUNNABLE and at the head of its level |
| Scheduler.Scheduler.Dequeue | proc.c:59-80 | the process at the end of the level |
| Scheduler.Scheduler.RemoveFromLevel | proc.c:114-141 | the process leaves, the order of the rest stays |
| Scheduler.Scheduler.Dispatch | proc.c:468-486 | runs the last of the first level that is not empty |
| Scheduler.Scheduler.Start | proc.c:349-352 | a new process is queued on its level |
| Scheduler.Scheduler.AllocProc | proc.c:202-216 | the first unused slot, at the default level; -1 iff there is none |
| Scheduler.Scheduler.Yield | proc.c:556-570 | one level down, behind what waits there |
| Scheduler.Scheduler.Sleep | proc.c:616-618 | off the lists, waiting on the channel |
| Scheduler.Scheduler.Nice | proc.c:685-705 | only a running process changes its level, within range |
| Scheduler.Scheduler.Wake | proc.c:641-645 | runnable one level up, or at level 0, at the head of exactly that level's list; age, pid, killed and chan as before |
| Scheduler.Scheduler.Wakeup1 | proc.c:635-646 | wakes all sleepers of the channel and no other, each one level up; on each list they are in front of what waited, the later in the table first |
| Scheduler.RousedOrder | proc.c:635-646 | what wakeup1() queues is in front, in reverse table order |
| Scheduler.Scheduler.Kill | proc.c:660-680 | marks the first process with the pid and wakes it if asleep; -1 iff there is none |
| Scheduler.Scheduler.KillAt | proc.c:665-674 | the process found is marked, and woken on its own level if it sleeps |
| Scheduler.Scheduler.Exit | proc.c:383-398 | the process is a zombie; the parent, and init if it inherits a zombie, are runnable one level up |
| Scheduler.Scheduler.AgeOne | proc.c:513-519 | one process grows older and rises one level at the limit |
| Scheduler.Scheduler.AgeLevel | proc.c:510-523 | although it unlinks what it walks over, each process of the level is treated once |
| Scheduler.Scheduler.Aging | proc.c:500-527 | all waiting below level 0 age by one; levels become the risen ones in front of those that stayed |
| Scheduler.AgingKeepsWaiting | proc.c:500-527 | no queued process is lost or doubled |
| Scheduler.StayAt | proc.c:507-523 | those that stay keep their order |
| Scheduler.RiseAt | proc.c:515-519 | those that rise are reversed |
| Starvation.ValidIsFine | proc.c:37-141 | states of the run queues are states of the runs below |
| Starvation.FineAging | proc.c:500-527 | an aging pass keeps every waiting process on the list of its new level, once |
| Starvation.FineStep | proc.c:37-680 | a dispatch, an aging pass, an arrival and a change of a process that is not queued keep the run-queue invariant |
| Starvation.FineRun | proc.c:37-680 | so it holds throughout every run that begins in order |
| Starvation.KillIsStep | proc.c:660-680 | kill() is one of these steps |
| Starvation.WakeupIsRun | proc.c:635-646 | wakeup1() is a run of arrivals |
| Starvation.LeavesByDispatch | proc.c:455-495 | only its own dispatch ends a process's waiting |
| Starvation.RisesToTop | proc.c:500-527 | a process that waits at level k for AGELIMIT - 1 + k aging passes is at level 0 |
| Starvation.ServedFromTop | proc.c:455-495 | from level 0 it is dispatched within one more dispatch than entries before it, whatever arrives |
| Starvation.NoStarvation | proc.c:455-527 | so every run with AGELIMIT - 1 + k aging passes and then NPROC dispatches runs it |
| Semaphores.GetKeeps | semaphore.c:119-151 | semget() keeps the invariant |
| Semaphores.AttachKeeps | semaphore.c:64-79 | semattach() outside the lock keeps it |
| Semaphores.ReleaseKeeps | semaphore.c:164-179 | semfree() keeps it |
| Semaphores.TryKeeps | semaphore.c:199-209 | a turn of semdown()'s loop keeps it |
| Semaphores.UpKeeps | semaphore.c:215-232 | semup() keeps it, whatever the value |
| Semaphores.WakeKeeps | proc.c:635-655 | the wakeup after the unlock keeps it |
| Semaphores.KillKeeps | proc.c:660-680 | a kill at any moment keeps it, makes a sleeper try again and changes nothing else |
| Semaphores.CopyOneKeeps | semaphore.c:250-259 | semcopy() at fork keeps it |
| Semaphores.NoSleeperOnFree | semaphore.c:40-49 | nobody sleeps on a slot that can be recycled |
| Semaphores.StepKeeps | semaphore.c:119-261 | every step of any process keeps the invariant |
| Semaphores.StepEffect | semaphore.c:119-261 | each step changes the value and the references of a semaphore as the step alone says, by one or not at all, or creates it |
| Semaphores.NoLostWakeup | semaphore.c:199-237 | in every run, a process asleep on a positive value has a waker between its unlock and its wakeup, which will make it try again |
| Semaphores.ValueConserved | semaphore.c:119-261 | in every run, counted from the events since its creating semget(): value is the initial one plus ups minus completed downs, not negative if it began so; references are one plus opens minus closes, and attachments do not exceed them |
| Semaphores.SemTable.SemCreate | semaphore.c:39-49 | the first free slot |
| Semaphores.SemTable.Search | semaphore.c:70-76 | the first matching descriptor |
| Semaphores.SemTable.SemGet | semaphore.c:119-155 | each error code exactly on its test; creates the first free slot, which no one is on, with the initial value and one reference, or adds a reference |
| Semaphores.SemTable.SemAttach | semaphore.c:64-79 | attaches at the first free descriptor iff there is one |
| Semaphores.SemTable.SemFree | semaphore.c:164-179 | detaches the first descriptor and drops one reference, or EINVAL exactly if the key is not in use or not attached |
| Semaphores.SemTable.TryDown | semaphore.c:199-209 | takes one iff the value is positive, else sleeps |
| Semaphores.SemTable.SemDown | semaphore.c:185-210 | takes one iff the value is positive, else sleeps; EINVAL exactly if the key is not in use or not attached |
| Semaphores.SemTable.SemUp | semaphore.c:215-232 | value plus one and nothing else; a waker exactly from 0; EINVAL exactly if the key is not in use or not attached |
| Semaphores.SemTable.Wakeup | proc.c:635-655 | every sleeper of the semaphore, and no other, tries again |
| Semaphores.SemTable.SemCopyOne | semaphore.c:250-259 | the child's descriptor with its own reference |
| Umalloc.FreeKeeps | user/umalloc.c:24-44 | joining a freed block to its neighbours keeps one address-ordered cycle without touching blocks, and the partition of all memory |
| Umalloc.PlacedRing | user/umalloc.c:33-42 | the two joins give the cycle of the new list, in all four cases |
| Umalloc.UnlinkKeeps | user/umalloc.c:76-77 | an exact fit leaves the cycle |
| Umalloc.CutKeeps | user/umalloc.c:78-82 | a larger fit is cut at its end |
| Umalloc.GrowKeeps | user/umalloc.c:54-58 | new memory joins the partition |
| Umalloc.ServedIff | user/umalloc.c:54-69 | the 32-bit arithmetic serves a request iff it is at most 8 * (2^28 - 2) bytes |
| Umalloc.WrapExample | user/umalloc.c:69 | a request of 2^32 - 1 bytes gets a block for none; 2^31 asks sbrk() for a negative size |
| Umalloc.Arena.Search | user/umalloc.c:30-32 | the loop ends, at the block before bp in address order |
| Umalloc.Arena.Join | user/umalloc.c:33-42 | the header updates |
| Umalloc.Arena.Free | user/umalloc.c:24-44 | the block is free, nothing is lost |
| Umalloc.Arena.FindFit | user/umalloc.c:74-89 | once around: the next block large enough, or none is |
| Umalloc.Arena.Take | user/umalloc.c:75-84 | the end of the block found, and freep before it |
| Umalloc.Arena.Morecore | user/umalloc.c:46-61 | the new memory is free and large enough, or nothing changes |
| Umalloc.Arena.Init | user/umalloc.c:70-73 | the first call makes the cycle of base alone; later ones change nothing |
| Umalloc.Arena.Malloc | user/umalloc.c:63-90 | at least nbytes, overlapping no live block; null only if no block fits and the kernel refuses; ends although morecore() moves freep |
| ShellSpec.SimpleTrip | user/sh.c:374-446 | commands, redirections and blocks parse back |
| ShellSpec.PipeTrip | user/sh.c:361-372 | pipelines parse back |
| ShellSpec.BackTrip | user/sh.c:349-353 | background commands parse back |
| ShellSpec.LineTrip | user/sh.c:344-359 | lists parse back |
| Shell.LexSpaced | user/sh.c:262-308 | tokens shown with any white space between them, and none where it is not needed, are scanned as the same tokens |
| Shell.LexSound | user/sh.c:262-308 | every line is its tokens with white space between them |
| Shell.RoundTrip | user/sh.c:265-446 | printing any command tree of at most 9 words a command, however spaced, and parsing the line, gives the tree back |
| ShellSpec.PartsTrip | user/sh.c:374-446 | words and redirections in any order: the words are the command's, the redirections wrap it in order, >> as >; a panic exactly from the tenth word on |
| ShellSpec.NoFile | user/sh.c:382-383 | a redirection without a file name is a panic |
| Shell.PartsLine | user/sh.c:265-446 | the same for a line of text, however spaced |
| ShellGrammar.LineFull | user/sh.c:344-446 | a line with a derivation in the grammar is accepted, with the derivation's command |
| ShellGrammar.LineSound | user/sh.c:344-446 | an accepted line has a derivation |
| ShellGrammar.AcceptedIff | user/sh.c:327-446 | parsecmd() panics exactly on the lines without a derivation |
| ShellGrammar.BuiltIsDerived | user/sh.c:327-446 | the command built is that of any derivation, so the grammar is not ambiguous |
| ShellGrammar.TextAcceptedIff | user/sh.c:262-446 | in characters: a line is accepted iff it spells the tokens of a derivation |
| Shell.Parser.Peek | user/sh.c:310-320 | tells the next token's first character and consumes white space only |
| Shell.Parser.GetToken | user/sh.c:265-308 | consumes exactly the next token |
| Shell.Parser.Scan | user/sh.c:276-300 | the token's kind and end |
| Shell.Parser.ParseRedirs | user/sh.c:374-397 | agrees with the grammar |
| Shell.Parser.ParseExec | user/sh.c:415-446 | agrees with the grammar, panics included |
| Shell.Parser.ParseArgs | user/sh.c:431-445 | words go to the command inside the redirections, at most 9 |
| Shell.Parser.ParseBlock | user/sh.c:399-413 | agrees with the grammar |
| Shell.Parser.ParsePipe | user/sh.c:361-372 | agrees with the grammar |
| Shell.Parser.ParseLine | user/sh.c:344-359 | agrees with the grammar and ends on every line |
| Shell.Parser.ParseCmd | user/sh.c:327-339 | everything must be read |
| Shell.NulTerminate | user/sh.c:449-493 | a NUL at the end of every word and file name, nowhere else |
| Shell.WordsSurvive | user/sh.c:449-493 | every word, as a C string, is still its token |
| Shell.Parsecmd | user/sh.c:327-342 | the command of the line's tokens, its words usable in place; panic exactly where the grammar says |
| Pipe.Counters | pipe.c:85-117 | full, empty and the ring index are right across 32-bit wrap-around |
| Pipe.Pipe.constructor | pipe.c:33-36 | an empty open pipe |
| Pipe.Pipe.Fill | pipe.c:84-94 | bytes go in until done or 512 are unread |
| Pipe.Pipe.Drain | pipe.c:113-117 | bytes come out in order |
| Pipe.Pipe.RunWrite | pipe.c:78-98 | writes what fits, then returns, fails or sleeps as the code says; wakes readers; leaves no reader asleep with data iff it is not a killed writer of more than 512 bytes that finds one |
| Pipe.Pipe.RunRead | pipe.c:100-121 | returns the next bytes written, fewer only if the ring is empty; sleeps exactly on an empty open pipe; wakes writers |
| Pipe.Pipe.Close | pipe.c:59-75 | wakes the other end; the pipe is freed exactly when both ends are closed |
| Pipe.Pipe.Kill | proc.c:660-680 | marks and wakes the process; no reader or writer is stranded by it |
| Pipe.StepKeeps | pipe.c:59-121 | every step of any process keeps the order of bytes, at most 512 unread, and no writer asleep that could go on |
| Pipe.FifoRun | pipe.c:59-121 | in every run the bytes handed to readers are a prefix of the bytes written |
| Pipe.ReadersStep | pipe.c:86-94 | a step leaves a reader asleep with data, or with the write end closed, iff it is a killed writer with more than 512 bytes left that finds a sleeping reader |
| Pipe.NoReaderStranded | pipe.c:59-121 | in every run: no reader is ever stranded iff no step is of that kind |
| Pipe.StrandedReader | pipe.c:86-88 | a run of the code in which a killed writer fills the ring and leaves a reader asleep |
| Grep.FirstItem | user/grep.c:89-106 | a pattern matches iff its first item takes a piece and the rest the rest |
| Grep.Denotes | user/grep.c:85-106 | what the characters of a pattern stand for: a starred character any run of it, a dot any one character, a last $ the end, any other character itself |
| Grep.Match | user/grep.c:72-82 | true iff some suffix, or the whole text after ^, has a prefix in the language of the pattern |
| Grep.MatchHere | user/grep.c:85-96 | true iff a prefix of the text is in the language, all of it before a final $ |
| Grep.MatchStar | user/grep.c:99-106 | true iff some run of the character leaves a text that matches |

## Left out

- Boot, devices, traps, the console, system-call argument fetching, exec, directories and path names: thin or foreign code; the disk is a sequence of blocks.
- Spinlocks and sleep locks themselves, and interleavings inside a locked region.
- Several file-system operations at a time: `Fs` and `FsFile` run one operation after another, each on the blocks as bread() returns them; `GroupCommit` covers interleaved operations on blocks.
- The inode cache (iget, iput, reference counts) and ialloc(): every inode is taken as read in, and equal to the disk between operations.
- FsFile.ReadI: device inodes are excluded, their reads go to the device; so are inodes with holes, on which readi() allocates outside the log.
- FsFile.WriteI: device inodes are excluded, their writes go to the device; contents are stated for inodes without holes.
- FsFile.FileWrite: inode files without holes only; pipes are in `Pipe`, device inodes excluded.
- mkfs's command line and reading of files: names come padded to 14 bytes and without a leading _.
- Mkfs.Mkfs.Build: stops when an image of FSSIZE blocks is full, where mkfs itself goes on writing beyond it.
- Semaphores.SemTable.SemGet: creation with no free slot and the key SYSMAXSEM are excluded, where the code indexes outside its table; sems.used is counted as the code does, but nothing is claimed of it.
- Semaphores.SemTable.SemFree: the key SYSMAXSEM is excluded, which the code's test lets through to an entry outside its table.
- Semaphores.SemTable.SemDown: the key SYSMAXSEM is excluded, as for SemFree.
- Semaphores.SemTable.SemUp: the key SYSMAXSEM is excluded, as for SemFree.
- Semaphores.ValueConserved: attachments are at most the references, not equal to them, since a failed attach and exit() keep references.
- Vm.Vm.HandlePgFlt: two faults at once on one page are not interleaved, although refcount() takes no lock; the write bit set in an absent entry, which nothing reads, is not kept.
- Vm.Vm.SetupKvm: the kernel's own mappings are the 64 tables they need, not their entries.
- Vm.Vm.MapPage: one page a call, as allocuvm() and cowuvm() use it.
- Vm.Vm.CowUvm: fewer than 255 address spaces map anything, which NPROC processes, kpgdir and the directory of an exec() keep to.
- copyout(), copyuvm() as code (its effect is the eager system of `Cow`), growproc(), and TLB flushes.
- Scheduler.Scheduler.Exit: closing files and the search for children are parameters (the parent, and whether init inherits a zombie).
- Starvation.NoStarvation: the age is unbounded, where the code has an int.
- wait(), the quantum of the timer interrupt, and the tick counts.
- Umalloc.Arena.Morecore: 2^28 units or more are excluded, for which sbrk() is not asked for the units.
- Umalloc.Arena.Malloc: requests of 2^28 units or more are excluded, for which sbrk() is not asked for the units; memory obtained elsewhere moves the break by whole units.
- Pipe.Pipe.Close: nobody is inside that end, which the reference counts of file.c ensure.
- runcmd() and the line loops of the shell and of grep.
