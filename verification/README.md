# Verified models of the xv6/MLF kernel

This project models the parts of the kernel and its user programs that keep data structures consistent while
many things happen to them, and proves what they keep: the crash-safe storage stack, the multi-level feedback
scheduler with the process life cycle, the K&R heap allocator, user page tables over the frame allocator, the pipe
ring buffer, the shell parser and the regular-expression matcher.

`dafny verify dfyconfig.toml` checks everything.

## How it is organised

Each component has value-level modules (states, steps and the theorems about every run) and a class or method layer
written the way the C code is written: fields updated in place, loops with invariants, one method per function or
per locked region. A class method is tied to the value level by its postcondition, so the theorems about values hold
of what the code does.

| component | files |
|---|---|
| redo log and crashes | `LogSpec`, `LogCrash`, `Log` |
| buffer cache and disk step | `CacheSpec`, `CacheRuns`, `BufferCache` |
| bitmap, inodes, file contents | `FsLayout`, `FsState`, `FsMap`, `FsFile`, `FsOnDisk`, `FsCharge`, `FsTrunc`, `FileSystem`, `FsImage`, `FileWrite` |
| the file system on the log and the cache | `FsOverLog` |
| file writes cut by crashes | `FileCrash` |
| directories, paths, inode references | `PathSpec`, `Path`, `FsDir`, `FsPath` |
| scheduler and process life cycle | `SchedState`, `SchedLife`, `SchedRuns`, `SchedEffects`, `ProcTable` |
| heap allocator | `HeapSpec`, `HeapCanon`, `Heap` |
| page tables and frames | `VmSpec`, `VmGrow`, `AddressSpace` |
| pipe, shell parser, matcher | `Pipe`, `ShellSpec`, `ShellGrammar`, `ShellText`, `ShellSpelling`, `Shell`, `Grep` |
| shared | `Words`, `Lists`, `CStrings`, `MemLayout`, `Panics` |

The main results, one per component:

* `LogCrash.RunCrashesAtomicity`: cut any run of transactions after any sector write, let recovery itself be cut any
  number of times, and the home sectors are those of exactly the transactions whose header write reached the disk.
* `CacheRuns.CacheRefinesDisk`: in every history of the buffer cache, each sector reads as the last value a holder
  stored; `CacheRuns.NoBuffersIffFull`: it runs out of buffers exactly when every buffer is held or logged.
* `FileSystem.FileSystem.Writei` and `Itrunc`: through direct and indirect blocks a file is a flat byte array, every
  block has one owner, the on-disk inode is never stale, and the boot block and superblock are never written;
  `FsOnDisk.DiskHoldsFiles`: whoever reads the bytes of the disk as fs.h lays them out finds every inode and every byte
  of every file.
* `FileWrite.OpenFile.Filewrite`: the chunks of a write together are one write. With one bitmap block, a full-size log
  and at most two buffers held by other processes, it panics exactly if the bytes that fit in the file need more blocks
  than are free, and then for want of blocks: no transaction overflows the log, and the cache has a buffer whenever one
  is needed.
* `FsOverLog`: the bread, log_write and commit_trans that these results rest on panic exactly when those of log.c over
  bio.c do, and keep the same transaction and the same blocks, from booting (`Boot`) through a whole iupdate.
* `FileCrash.ChunksSurviveCrash` puts the layers together: a crash anywhere in the transactions that Filewrite made,
  the last of which may have stopped half-way, leaves, after recovery, a consistent file system in which a whole number
  of chunks has been written and every other file is as it was.
* `SchedRuns.SchedulerSafety`, `LevelIsFifo`, `NoChildExitLost`: every reachable state of the process table;
  `SchedEffects.StepEffect`: what each locked region does to every field of every process; `NoLostWakeup`: a process
  asleep on a channel stays so through everything but a wakeup of it or its own kill, and the wakeup finds it.
* `Heap.Heap.Malloc`, `Free` and `HeapCanon.FreeListIsCanonical`: the free list is the maximal unused runs of memory.
* `AddressSpace.AddressSpace.Allocuvm` with `VmGrow.LeaksIffSplit`: growing is all or nothing, exactly unless the free
  list runs out between a page and its page table; then exactly one frame is lost, and if it was the last page the call
  even reports success (`AddressSpace.SuccessWithoutPage`). `VmGrow.ResultIsMmuGrown` says what the MMU then sees.
* `Path.Names.Namex`: path lookup is a fold over directory maps, with balanced reference counts on every exit, and it
  panics exactly if an inode it locks is not allocated or one it needs finds the inode cache full; `FsPath.Namex` and
  `FsPath.Dirlink`: the maps are the contents of the directories' files, and one record written is one binding.
* `Shell.ParseCmd` with `ShellGrammar.GrammarIsParsed`: the parser accepts exactly the lines of the grammar and returns
  the command of their only syntax tree; with `ShellText.LineSpellsTree` and `ShellSpelling.SpelledOnce`, on the
  characters: it returns the one command that the line spells, and panics exactly if it spells none.
* `Pipe.PipeIsFifo`, `Grep.Match`.

## Hypotheses

What the code relies on but does not establish is stated as a hypothesis, never hidden in a step:

* Home sectors lie outside the log (`LogCrash.Admissible`), and the bitmap marks the metadata and the log as used
  (`FsState.Reserved`). mkfs marks only the first blocks (mkfs.c:237); `FsMap.LowestFreeIsDataIffRoom` gives the exact
  moment when that matters. File images start without holes (`FsFile.FsInv`); mkfs can leave one (mkfs.c:146).
* Other processes hold buffers while a transaction is open. Which ones, at each moment, is the parameter
  `FileSystem.others`; `quota` bounds their number, and the results about running out of buffers say for which quota
  they hold (two for a chunk of filewrite). Nobody but log.c reads a block of the log, and while commit_trans runs
  nobody holds a block of the transaction (`Log.NoneHeld`).
* A run of cache or scheduler steps is constrained by the guard of each step only (`CacheRuns.Guard`,
  `SchedRuns.Guard`); that the invariant holds at every step is proved.
* `set_priority` takes any integer (proc.c:125-129). Runs use levels 0..3; `SchedRuns.SetPriorityIffLevel` shows that
  the invariant survives for exactly those, and `SchedRuns.LevelAccess` which later step leaves the queue table
  otherwise. Process ids do not wrap around.
* A process that calls exit is not inside fork; only wait sleeps on a process structure; each region under
  `ptable.lock` is one step.
* `malloc` requests are at most KERNBASE - 16 bytes, below the wrap-around of the rounding in user/umalloc.c:69, and
  sbrk answers with memory above what it gave before.
* The user image is contiguous for `allocuvm`, `deallocuvm` and `freevm`. Nothing is assumed about free frames: the
  ignored result of mappages (vm.c:240) is modelled, and the resulting leak characterised.

Pointers into fixed tables are indices, user memory and disks are sequences or maps of words, 32-bit wrap-around is
written out where counters can wrap (the pipe) and excluded by a bound where it cannot (sizes below KERNBASE). The
file-system classes see the log and cache through what those guarantee: the current contents of every block, the
blocks logged in the open transaction, and the blocks that cannot leave the cache. They keep the list of their
log_write calls (`FileSystem.Traced`), which is what the crash theorems of the log are about. `FsImage.FirstFile` builds
a file system that meets the invariant, with a file of any contents up to a block.

## Model

| member | source | states |
|---|---|---|
| LogSpec.HeadRoundTrip | log.c:85-113 | a header written by write_head is read back by read_head as the same count and sectors |
| LogSpec.HeadInBytes | log.c:36-39 | the header block on disk: the count in bytes 0..3, the sector numbers from byte 4 on, four bytes each |
| LogSpec.HeadFromBytes | log.c:85-97 | recovery takes count and sector numbers from those bytes |
| LogSpec.ReplayAbsorbs | log.c:69-83 | installing the log over a disk that already holds part of the installation gives the same disk |
| LogCrash.SectorsExact | log.c:164-179 | the recorded sectors are exactly those logged, each once (absorption), never more than the writes |
| LogCrash.SlotHoldsLastWrite | log.c:169-176 | the log slot of a sector holds the last content logged for it |
| LogCrash.RecoveryRestarts | log.c:115-122 | recovery cut after any of its writes and started again ends in the same disk |
| LogCrash.RecoveryToleratesCrashes | log.c:69-122 | the same for any number of interrupted recoveries |
| LogCrash.CommittedRecovers | log.c:135-143 | once the header is on disk, recovery applies the whole transaction |
| LogCrash.AfterCommitPoint | log.c:135-143 | what commit_trans does after its header write is what recovery does |
| LogCrash.CrashAtomicity | log.c:69-181 | a crash after any prefix of one transaction's sector writes recovers to all of it or none, decided by the header write |
| LogCrash.TransactionDone | log.c:135-150 | a completed commit leaves the transaction's writes at home and an empty log |
| LogCrash.BetweenTransactions | log.c:124-150 | after any run of transactions the disk is that of applying them in order |
| LogCrash.RunCrashAtomicity | log.c:69-181 | a crash anywhere in any run recovers to exactly the committed transactions |
| LogCrash.RunCrashesAtomicity | log.c:69-181 | the same when recovery is cut any number of times |
| LogCrash.StoppedRun | log.c:164-181 | a run whose last transaction stopped before its commit counts for what came before |
| Log.DecodeHead | log.c:85-97 | the copy loop of read_head yields the header's count and sectors |
| Log.EncodeHead | log.c:101-113 | the copy loop of write_head stores exactly that count and those sectors |
| Log.Log.ReadHead | log.c:85-97 | reads the header through the cache without writing to the disk; out of buffers exactly if all are held or logged |
| Log.Log.WriteHead | log.c:101-113 | one sector write, of the header with the recorded sectors, byte for byte; out of buffers exactly if all are held or logged |
| Log.Log.InstallTrans | log.c:69-83 | writes exactly the installation trace, in order, and a prefix of it if it panics; out of buffers exactly if the first round is, with the home blocks pinned or not |
| Log.Log.Finish | log.c:140-142 | installation and the erased header, as commit and recovery both end, with its exact panic |
| Log.Log.RecoverFromLog | log.c:115-122 | on an idle cache always finishes, leaving the recovered disk by exactly the recovery trace |
| Log.Log.BeginTrans | log.c:124-133 | one transaction at a time |
| Log.Log.FindSlot | log.c:169-172 | the slot of a sector already logged, or the next one |
| Log.Log.LogWrite | log.c:159-181 | one more logged write: absorbed or appended, the buffer pinned dirty; which of the three panics, in the order of the tests, and none otherwise |
| Log.Log.CacheBoundsLog | log.c:173-180 | logged blocks stay in the cache: a call that found a buffer leaves fewer than NBUF of them |
| Log.Log.CommitTrans | log.c:135-150 | header, installation and cleared header; the disk holds the transaction, every home block reads as before; out of buffers exactly if something is logged and all buffers are held or logged |
| Log.Log.RoomLeft | bio.c:81-92 | with fewer than NBUF buffers held or logged in all, commit_trans and bread find one |
| Log.ConsistentCall | log.c:159-181 | log_write keeps the agreement of header, slots and the writes made so far |
| Log.CommitDone | log.c:135-150 | the writes of commit_trans leave the transaction at home on the disk and the log empty |
| CacheRuns.GetKeeps | bio.c:61-93 | bget keeps the cache invariant: one buffer per sector, held buffers valid, idle buffers equal to disk or dirty |
| CacheRuns.ReadAbove | bio.c:96-105 | bread changes no sector's logical contents and holds exactly the sector asked for |
| CacheRuns.ModifyAbove | bio.c:96-115 | a holder's store changes exactly that sector's logical contents |
| CacheRuns.FlushAbove | bio.c:108-115 | bwrite changes no logical contents and cleans that sector |
| CacheRuns.ReleaseAbove | bio.c:118-138 | brelse changes no logical contents and releases exactly that sector |
| CacheRuns.CacheRefinesDisk | bio.c:61-138 | in every history each sector's logical contents are the last value stored by a holder |
| CacheRuns.OrderIsRecency | bio.c:118-138 | the list is always ordered by last release |
| CacheRuns.RecyclesLeastRecent | bio.c:81-91 | the recycled buffer is clean and idle and no such buffer was released earlier; there is one whenever some buffer is idle |
| CacheRuns.NoBuffersIffFull | bio.c:81-92 | bget finds no buffer exactly if the sector is not held or marked and NBUF sectors are |
| CacheSpec.ToFrontPermutes | bio.c:127-133 | moving a buffer to the front keeps every buffer in the list once |
| BufferCache.BufferCache.constructor | bio.c:38-56 | binit links all buffers in one ring; every sector reads as on disk |
| BufferCache.BufferCache.FindCached | bio.c:66-79 | the forward scan finds the buffer of the sector if there is one |
| BufferCache.BufferCache.FindVictim | bio.c:81-91 | the backward scan finds the last clean idle buffer of the ring |
| BufferCache.BufferCache.Bget | bio.c:61-93 | returns the cached, recycled or busy buffer, or panics, as the value-level lookup says |
| BufferCache.BufferCache.Iderw | memide.c:36-58 | writes a dirty buffer or fills an invalid one; panics in exactly the four listed cases |
| BufferCache.BufferCache.Bread | bio.c:96-105 | a held, valid buffer with the sector's contents; waits exactly when the buffer is busy; panics exactly when every buffer is held or marked |
| BufferCache.BufferCache.Bwrite | bio.c:108-115 | one sector write; panics exactly without the lock |
| BufferCache.BufferCache.Relink | bio.c:127-133 | the pointer updates move the buffer to the front of the doubly linked ring |
| BufferCache.BufferCache.Brelse | bio.c:118-138 | releases to the front; panics exactly without the lock |
| FsLayout.PutBitmapBits | fs.c:64-67 | setting a bitmap bit changes that bit and no other |
| FsLayout.InodeRoundTrip | fs.c:201-217 | an inode stored in its block is read back, and the other inodes of the block are unchanged |
| FsOnDisk.InodeStored | fs.h:26-40 | an inode is stored as 64 bytes of its block: four shorts, the size, thirteen addresses, little-endian |
| FsOnDisk.FlushedBytes | fs.h:37-40 | inode i is at byte 64 (i mod 8) of block 2 + i / 8 |
| FsOnDisk.DiskHoldsFiles | fs.h:22-46 | read from the bytes of the disk alone, through twelve direct addresses and the indirect block, every inode and every byte of every file is what the model says |
| FsOnDisk.BitmapOnDisk | fs.h:42-46 | block b is in use exactly if bit b mod 8 of byte (b mod 4096) / 8 of block 2 + ninodes / 8 + 1 + b / 4096 is set |
| FsState.AllocatedKeepsOwned | fs.c:357-384 | putting a free block in an empty slot keeps every block marked and in one place |
| FsMap.LowestFreeIsDataIffRoom | fs.c:53-76 | the lowest clear bit is a data block exactly while a data block is free |
| FsFile.UpdatedContents | fs.c:463-492 | an updated block map with the new size is the flat overwrite of the contents |
| FsFile.UpdatedOthers | fs.c:463-492 | every other file keeps its contents |
| FsFile.UpdatedNoHoles | fs.c:463-492 | writing at or below the end leaves no hole |
| FsFile.WriteInside | fs.c:486-491 | a write that does not grow the file leaves the on-disk inode current without iupdate |
| FsFile.WriteGrows | fs.c:486-491 | a write that grows the file and calls iupdate leaves the on-disk inode current |
| FsTrunc.EmptiedOwned | fs.c:391-419 | an inode without blocks whose bits were cleared keeps ownership for all others |
| FsTrunc.TruncateDone | fs.c:391-419 | truncation clears exactly the owned bits and empties the file |
| FsMap.TransactionGrows | log.c:159-181 | one more log_write keeps the open transaction equal to its list of writes and recorded sectors |
| FsCharge.ChargedTrans | fs.c:357-384 | blocks taken for two stretches of a file, adjacent or overlapping, add up to those the whole needs |
| FsCharge.MappedCharged | fs.c:357-384 | bmap takes exactly the missing block and the missing indirect block, and maps nothing else |
| FsCharge.AccountStuck | fs.c:463-492 | a round of writei that overflows log or cache after n data blocks had n + 3 sectors logged or n + 4 pinned |
| FsCharge.WriteNext | fs.c:474-480 | one round of writei's loop extends what is written, mapped, taken and logged by that round |
| FsCharge.WriteStuck | fs.c:474-480 | a round that panics means that the whole write lacks blocks, log or buffers |
| FileSystem.FileSystem.Hold | bio.c:61-105 | bread as the file system sees it: out of buffers exactly if the block is not pinned and NBUF are |
| FileSystem.FileSystem.LogWrite | log.c:159-181 | log_write as the file system sees it: the same two panics, in the same order, and one more logged write otherwise |
| FileSystem.FileSystem.Balloc | fs.c:52-76 | the lowest free block, marked, and all its 512 bytes zero; out of blocks only if none is free, and each other panic only with log or cache full |
| FileSystem.FileSystem.Bfree | fs.c:79-95 | clears one bit; the outcome as a function of the bit, the log and the buffers pinned at each of its three steps |
| FileSystem.FileSystem.Bmap | fs.c:356-384 | the block of the map, allocated with the indirect block if needed; nothing else moves; out of blocks only with fewer free than needed; on a mapped block nothing changes and only buffers can run out |
| FileSystem.FileSystem.Iupdate | fs.c:201-217 | the 64 bytes of the inode in block 2 + i / 8 hold its type, device, links, size and addresses; boot block and superblock untouched; the outcome as a function of the log and the buffers pinned at both steps |
| FileSystem.FileSystem.Readi | fs.c:434-459 | the clipped slice of the contents; nothing is allocated or logged; only buffers can run out |
| FileSystem.FileSystem.Writei | fs.c:462-492 | contents, sizes, other files, ownership, holes, the on-disk inode, the boot block and the superblock after a write; when it refuses; exactly the needed blocks are taken; at most the data blocks and three more are logged; what each panic means |
| FileSystem.FileSystem.Itrunc | fs.c:391-419 | the file is empty, exactly its blocks are free, "freeing free block" is unreachable; no panic in a transaction of its own |
| FileSystem.FileSystem.Ifree | fs.c:318-335 | the last reference to an unlinked inode: its blocks and the inode are free, on disk too, and every other file is as it was |
| FsImage.EmptyImage | mkfs.c:229-242 | an image with one empty file, no data, and metadata and log marked in the bitmap meets the invariant, for every layout; exactly the blocks from ninodes / 8 + 3 + (size / 4096 + 1) up to the log are free |
| FsImage.FirstFile | fs.c:462-492 | writing to that image gives a file system with a file of the given contents |
| FsOverLog.SamePinned | bio.c:81-92 | the sectors held or marked in the cache are those the file system counts as pinned |
| FsOverLog.Boot | log.c:54-66 | cache, recovered log and file system over one disk agree, with a transaction open and nothing held; the log is the last nlog blocks |
| FsOverLog.Bread | bio.c:96-105 | bread of the file system and of the cache panic together, and deliver the same block |
| FsOverLog.Change | fs.c:207-214 | a holder's store in a buffer leaves all other blocks as both layers see them |
| FsOverLog.LogWrite | log.c:159-181 | log_write of the file system and of the log give the same outcome and stay on the same transaction and blocks |
| FsOverLog.Release | bio.c:118-138 | whoever releases a block it has not changed since logging it meets brelse's discipline |
| FsOverLog.Iupdate | fs.c:201-217 | iupdate on both layers: bread, store, log_write and brelse give the outcome of FileSystem.Iupdate and the same stored inode |
| FsOverLog.Commit | log.c:135-150 | commit_trans of both panic together; afterwards the disk holds what the file system sees |
| FileWrite.ChunkSpan | file.c:132-140 | a chunk touches at most four blocks at any offset |
| FileWrite.ChunkFits | file.c:132-140 | with one bitmap block, a full-size log and at most two buffers held elsewhere, a chunk can only fail for want of free blocks |
| FileCrash.WriteDoneTwice | file.c:136-150 | two writes one after the other are one write |
| FileCrash.SameFiles | fs.c:356-492 | invariant and contents of all files depend only on the blocks below the log |
| FileCrash.ChunksAreOneWrite | file.c:136-150 | any number of chunk transactions is one write of the bytes so far |
| FileCrash.ChunksAreRun | file.c:140-146 | the chunk transactions are an admissible run of the log and the disk follows the file system |
| FileCrash.ChunksSurviveCrash | file.c:136-150 | a crash after any sector write of a chunked write, whose last chunk may have stopped before its commit, with recovery cut any number of times, leaves a whole number of chunks written, the file system consistent and other files unchanged |
| FileWrite.StopsAtAccepted | file.c:136-150 | the loop stops exactly at the last whole chunk that fits in a file |
| FileWrite.OpenFile.WriteTrans | file.c:140-146 | one chunk is one transaction below the log; on a small file system it panics exactly if it is not refused and needs more blocks than are free |
| FileWrite.PanicIsTotal | file.c:136-150 | a chunk lacks blocks only if the whole accepted write does |
| FileWrite.OpenFile.Filewrite | file.c:116-155 | the chunks together are one write at the old offset, which advances by the bytes written; success exactly when all fit; on a small file system a panic exactly when the accepted bytes need more blocks than are free, and on any other what the panicking chunk lacked; the transactions made are those of the crash theorem |
| PathSpec.ComponentsAreNonEmptyPieces | fs.c:562-599 | skipelem's components are the non-empty slash-separated pieces, each cut to its first 14 characters |
| PathSpec.PiecesJoin | fs.c:562-599 | the pieces have no slash in them and joined by slashes are the path |
| PathSpec.ResolveIsTrail | fs.c:614-631 | a path leads to an inode exactly if there is a trail of directories with an entry for each component to the next |
| PathSpec.LinkAddsOne | fs.c:545-558 | dirlink changes the directory map at one name and makes no duplicate |
| FsDir.EntryBytes | fs.h:49-54 | entry k of a directory is bytes 16 k.. of its file: the inode number low byte first, then 14 characters |
| FsDir.OverwriteEntry | fs.c:553-556 | overwriting or appending one 16-byte record changes exactly that entry |
| FsDir.LinkWritten | fs.c:553-556 | a record written at the first free place is dirlink on the tree of directories |
| FsDir.FindEntry | fs.c:514-526 | dirlookup's loop over readi finds the first entry that binds the name; a record cut short is told apart |
| FsDir.AddEntry | fs.c:545-556 | dirlink's second half: the first free record through readi, written through writei, is one more binding in the tree, and these 16 bytes of the file: inode number, name, NULs; each panic with its cause |
| FsPath.Dirlookup | fs.c:505-529 | dirlookup over the directory's file with iget: which of entry, none, cut record and full inode cache, exactly |
| FsPath.Dirlink | fs.c:532-559 | over file and inode cache: refuses exactly a bound name, else exactly one binding in the file and the tree; references balanced; each panic with its cause |
| PathSpec.ResolveAppend | fs.c:614-631 | following a path is following its first part and then the rest |
| FsPath.ResolveIsFollow | fs.c:614-631 | resolution in the tree is following the records of the directories' files |
| PathSpec.TargetGone | fs.c:616-628 | where the walk stops early there is no target, for lookups and for parents |
| PathSpec.CanGetIff | fs.c:227-244 | iget finds no entry exactly if the inode is not referenced and NINODE others are |
| Path.Skipelem | fs.c:576-599 | the first element after the slashes: the field of 14 holds its first 14 characters, with a NUL if it is shorter; the rest of the path without leading slashes; nothing exactly if only slashes are left |
| Path.Namecmp | fs.c:497-501 | equal exactly as names of at most 14 characters |
| Path.Names.Iget | fs.c:222-253 | one more reference in the only entry of that inode; a panic exactly if it has none and all are in use |
| Path.Names.Iput | fs.c:334-335 | one reference less and nothing else |
| Path.Names.Dirlookup | fs.c:505-529 | the inode bound to the name with one more reference, or nothing changed; a full inode cache exactly if bound and iget fails |
| Path.Names.Dirlink | fs.c:532-559 | refuses exactly a bound name, else links in the first free entry; panics exactly if the inode or the directory is full; reference counts balanced |
| Path.Names.Descend | fs.c:615-630 | one component: the reference moves from the directory to the entry, or is dropped, and all locks are released; halts exactly if the inode is not allocated or the entry finds the inode cache full |
| Path.Names.Namex | fs.c:604-637 | the target of the fold over directory maps with one reference, or none and balanced counts; panics exactly if the walk locks an inode that is not allocated or needs a place in a full inode cache |
| FsPath.Namex | fs.c:604-637 | the inode reached by following the directories' files, or the directory for the last component, with one reference; none and balanced counts if there is none; the same exact panic |
| SchedState.MakeRunnableKeeps | proc.c:107-113 | queueing a process that is not queued keeps the queue invariant |
| SchedState.DispatchKeeps | proc.c:87-104 | taking the head of a level keeps the queue invariant although next is never cleared |
| SchedState.PidTest | proc.c:91-91 | comparing pids tells whether first and last are the same process |
| SchedState.ReachesLast | proc.c:64-84 | following next from first reaches last in size - 1 steps |
| SchedState.QueuedIffRunnable | proc.c:64-121 | a process is in the queue of a level, once, exactly if it is RUNNABLE at that level |
| SchedLife.WaitReturns | proc.c:320-358 | wait reaps a zombie child if there is one, gives up exactly if there is none and it has no child or was killed, and otherwise sleeps on itself; a reaped entry is UNUSED with pid 0, no parent and not killed, and nothing else changes |
| SchedRuns.WakeEffect | proc.c:503-515 | wakeup1 makes exactly the sleepers on the channel RUNNABLE and changes nothing else |
| SchedRuns.ReparentEffect | proc.c:302-309 | exit's loop hands all children to init and wakes it if one is a zombie |
| SchedRuns.ExitKeeps | proc.c:278-315 | exit keeps queues, live parents and no lost exit |
| SchedRuns.KillKeeps | proc.c:530-552 | kill keeps the invariant, waking a sleeper at its level |
| SchedRuns.WaitKeeps | proc.c:320-358 | reaping and going to sleep in wait keep the invariant |
| SchedRuns.SetPriorityIffLevel | proc.c:124-129 | set_priority keeps the invariant exactly for levels 0..3 |
| SchedRuns.LevelAccess | proc.c:44-60 | after set_priority, yield indexes the queue table exactly for -1..3, wakeup for 0..4 and kill for 0..3 |
| SchedRuns.NextKeeps | proc.c:107-552 | every locked step keeps the invariant |
| SchedRuns.SchedulerSafety | proc.c:64-121 | in every reachable state: queued exactly if RUNNABLE, once; first reaches last; sizes add up; the head is RUNNABLE, so the panic is unreachable |
| SchedRuns.LevelIsFifo | proc.c:64-104 | over any run the processes taken from a level are a prefix of those queued to it |
| SchedRuns.NoChildExitLost | proc.c:278-358 | in every reachable state nobody sleeps in wait with a zombie child, and parents are alive |
| SchedEffects.WakeRows | proc.c:503-515 | wakeup1 makes exactly the sleepers on the channel RUNNABLE, one level up but not above 0, and changes no other field of any process |
| SchedEffects.WakeOrder | proc.c:503-515 | the woken join their queues behind everybody there, in the order of the table |
| SchedEffects.KillMarks | proc.c:530-552 | kill marks the first entry with the pid; if it sleeps it becomes RUNNABLE and joins the tail of its own level; no other field changes, and nothing without such an entry |
| SchedEffects.ExitEffect | proc.c:278-315 | after exit: the process is a zombie, its children are init's, its parent is woken if it waits and init if it waits and got a zombie, parent first; no other field changes |
| SchedEffects.WaitEffect | proc.c:320-358 | wait erases exactly the first zombie child (UNUSED, pid 0, no parent, not killed), or changes nothing, or puts the caller to sleep on itself |
| SchedEffects.StepEffect | proc.c:107-552 | every locked region, field by field: what it does to each process, each queue, nextpid and initproc |
| SchedEffects.StepLevels | proc.c:44-60 | level 0 at fork, down one to at most 3 at yield, up one to at most 0 at wakeup, otherwise unchanged by every step but set_priority |
| SchedEffects.StepExtends | proc.c:369-406 | a step from a reached state reaches the state of the extended history |
| SchedEffects.StaysAsleep | proc.c:466-515 | a process asleep on a channel keeps state, channel and level through any steps but a wakeup of the channel and its own kill |
| SchedEffects.NoLostWakeup | proc.c:466-515 | sleep, any such steps, then wakeup of the channel: the process is RUNNABLE and queued, one level up, and nothing else of it has changed |
| SchedEffects.ExitReachesParent | proc.c:298-315 | the exit of a child makes a parent that waits RUNNABLE, and is there for it to find |
| ProcTable.ProcTable.Enqueue | proc.c:64-84 | the pointer updates of encolar append to the level |
| ProcTable.ProcTable.Dequeue | proc.c:87-104 | the pointer updates of desencolar remove the head |
| ProcTable.ProcTable.RunFirst | proc.c:375-403 | the first process of the level leaves the queue and runs, with its channel cleared; it was RUNNABLE; nothing else changes |
| ProcTable.ProcTable.Wakeup1 | proc.c:503-515 | the table scan is the wake step |
| ProcTable.ProcTable.AllocProc | proc.c:143-157 | the lowest unused slot becomes an EMBRYO with the next pid, or nothing changes |
| ProcTable.ProcTable.Publish | proc.c:268-270 | the child becomes RUNNABLE at the tail of level 0; no other field changes |
| ProcTable.ProcTable.Yield | proc.c:432-440 | RUNNABLE at the tail of the level below, of the same one from level 3; no other field changes |
| ProcTable.ProcTable.Sleep | proc.c:466-498 | exactly this process becomes SLEEPING on exactly this channel; no other field of any process and no queue changes |
| ProcTable.ProcTable.Kill | proc.c:530-552 | found exactly if some entry has the pid; a sleeper is made RUNNABLE |
| ProcTable.ProcTable.GiveAway | proc.c:302-309 | the loop is the reparenting of the value level |
| ProcTable.ProcTable.Exit | proc.c:278-315 | the exit step; refuses exactly for init |
| ProcTable.ProcTable.Wait | proc.c:320-358 | one turn of wait: reaps the first zombie child, all fields, and returns its pid, or gives up, or sleeps on itself; nothing else changes |
| HeapSpec.Release | user/umalloc.c:29-37 | a live block inserted at its spot keeps order, disjointness, units and bytes |
| HeapSpec.Fuse | user/umalloc.c:33-42 | coalescing touching neighbours keeps order, disjointness, units and bytes |
| HeapSpec.JoinUpLinks | user/umalloc.c:33-37 | the upper assignments of free make the ring of the upper coalescing |
| HeapSpec.JoinDownLinks | user/umalloc.c:38-42 | the lower assignments of free close the ring; the freed space is in one block |
| HeapSpec.TakeWhole | user/umalloc.c:76-77 | an exact fit leaves the ring and becomes live |
| HeapSpec.TakeTail | user/umalloc.c:78-82 | the tail of a larger block becomes live, the head stays free |
| HeapSpec.Obtain | user/umalloc.c:46-58 | memory above all blocks adds exactly its units and bytes |
| Heap.SpotTest | user/umalloc.c:30-32 | free's loop stops exactly at the block's place and each step is nearer to it |
| Heap.NothingFits | user/umalloc.c:74-88 | a full turn without success means no free block is large enough |
| Heap.Heap.FindSpot | user/umalloc.c:30-32 | the search ends at the last free block below |
| Heap.Heap.Free | user/umalloc.c:24-44 | the block is free, coalesced both ways; other live blocks, units and memory unchanged; freep is the last free block below |
| Heap.Heap.Morecore | user/umalloc.c:46-61 | at least 4096 units more, in a free block large enough; nothing if sbrk refuses |
| Heap.Heap.Take | user/umalloc.c:75-84 | the tail of the block becomes live, the rest stays free, freep is the block before |
| Heap.Heap.Search | user/umalloc.c:74-89 | next fit: the first block after freep that is large enough; after a full turn without one, morecore once |
| Heap.Heap.Malloc | user/umalloc.c:63-90 | a new live block of just enough units, whose bytes are the heap's and no other block's; null exactly if nothing fits and sbrk refuses; morecore exactly once if nothing fits, else never; morecore gets max(4096, units) units |
| Heap.Heap.MallocThenFree | user/umalloc.c:24-90 | free undoes malloc: the same ring with the same sizes |
| HeapCanon.Maximal | user/umalloc.c:33-42 | the bytes next to a free block are not free |
| HeapCanon.FreeListIsCanonical | user/umalloc.c:24-90 | the ring and its sizes depend only on the live blocks and the memory obtained |
| VmSpec.PopKeeps | kalloc.c:82-95 | kalloc keeps the free list threaded through exactly the free frames |
| VmSpec.PushKeeps | kalloc.c:59-77 | kfree keeps it, junk filling included |
| VmSpec.WithTableKeeps | vm.c:54-62 | a new zeroed table maps nothing and keeps every mapping |
| VmSpec.WithPageKeeps | vm.c:79-83 | one page-table entry maps one page to its own frame |
| VmSpec.UnmapKeeps | vm.c:263-270 | unmapping a page frees its frame and keeps every other page and its contents |
| VmGrow.MapsIffEnough | vm.c:220-243 | growing succeeds exactly with enough free frames for the pages and their missing tables |
| VmGrow.CallsCount | vm.c:220-243 | the frames needed are one for each page and one for each directory entry on the way that has no table |
| VmGrow.LeaksIffSplit | vm.c:220-243 | a frame leaks exactly when the free list runs out between a page and its table |
| VmGrow.NoTableNoMore | vm.c:260-262 | skipping 4 MB without a table skips no mapped page of a contiguous image |
| VmGrow.RolledBack | vm.c:234-237 | after the rollback every page is as before |
| VmGrow.ResultIsMmuGrown | vm.c:220-243 | read from the words of directory and tables: the new pages are present, writable and user in both entries, all zeros, in frames that were free; mapped pages keep entry, flags and contents; no other page appears; no two pages share a frame |
| VmGrow.ShrunkIsMmuShrunk | vm.c:249-273 | read from those words: the pages given up are not present and their frames free; every other page keeps entry, flags and contents |
| AddressSpace.AddressSpace.Freerange | kalloc.c:45-52 | exactly the whole pages of the range go on the free list |
| AddressSpace.AddressSpace.Kalloc | kalloc.c:82-95 | the first free frame, at KERNBASE + 4096 times its number, or null exactly when there is none |
| AddressSpace.AddressSpace.Kfree | kalloc.c:59-77 | accepts exactly aligned frames above the kernel and below PHYSTOP; the frame is filled with ones and linked to the old head |
| AddressSpace.AddressSpace.Walk | vm.c:45-65 | the table of the address, made if asked and possible |
| AddressSpace.AddressSpace.MapPage | vm.c:70-90 | maps the page, or fails exactly without a table, or panics exactly on a mapped page |
| AddressSpace.AddressSpace.Deallocuvm | vm.c:249-273 | exactly the pages from the rounded new size up to the old one are unmapped and their frames freed, each once |
| AddressSpace.AddressSpace.Allocuvm | vm.c:220-243 | exactly the new pages get distinct zeroed frames, present, writable and user in both page-table entry and directory entry, and mapped pages keep theirs, or everything is as before, or exactly one frame is lost: on the last page with success reported and that page unmapped, otherwise with everything else as before |
| AddressSpace.SuccessWithoutPage | vm.c:240-242 | a fresh kernel with one free frame: growing to one page returns the new size, the page is not mapped and the frame is lost |
| AddressSpace.AddressSpace.Freevm | vm.c:277-292 | every frame of the address space ends on the free list once, everyone else's frames are untouched |
| Pipe.WrapIndex | pipe.c:92-92 | the ring index survives the wrap-around of the counters |
| Pipe.WrapCompare | pipe.c:84-113 | the wrapped counters tell empty and full exactly |
| Pipe.Pipe.Write | pipe.c:77-97 | appends the next bytes until done or 512 are unread; sleeps or fails only when full |
| Pipe.Pipe.Read | pipe.c:99-120 | takes the next unread bytes, as many as asked and available; sleeps only when empty and the writer is open |
| Pipe.PipeIsFifo | pipe.c:77-120 | for every interleaving, bytes read followed by at most 512 buffered are all bytes written |
| ShellSpec.WordsOrdered | user/sh.c:266-309 | the words of a line are disjoint with a gap between any two |
| ShellGrammar.SequenceSound | user/sh.c:345-447 | what the parser has read are the tokens of a well-formed syntax tree, in order |
| ShellGrammar.SequenceComplete | user/sh.c:345-447 | the tokens of a syntax tree are read as that tree if what follows cannot belong to it |
| ShellGrammar.GrammarIsParsed | user/sh.c:345-447 | the parser accepts exactly the token sequences of the grammar, each with one syntax tree |
| ShellGrammar.TreeHasLineWords | user/sh.c:437-438 | the command of a line has exactly the words of the line, left before right |
| ShellText.LineSpellsTree | user/sh.c:328-447 | the characters of a line spell the command it is parsed to: bars, semicolons, ampersands, parentheses, redirections and words where the tree says, with the precedence of the tree |
| ShellText.LineRight | user/sh.c:375-398 | for every redirection the last character before its file that is not blank is `<` for reading on descriptor 0 or `>` for writing on 1, and of two redirections of one command the later is outside |
| ShellSpelling.SpelledIsParsed | user/sh.c:328-447 | a command of fewer than ten arguments that a line spells is what a syntax tree of the line stands for |
| ShellSpelling.SpelledOnce | user/sh.c:328-447 | no line spells two commands |
| Shell.Parser.GetToken | user/sh.c:266-309 | the next token with its kind and extent, and the cursor after the following blanks |
| Shell.Parser.Peek | user/sh.c:311-321 | skips blanks only, and tells whether a listed character comes next |
| Shell.Parser.ParseRedirs | user/sh.c:375-398 | the redirections written at the cursor, character by character: after `<` the file is for reading on 0, after `>` or `>>` for writing on 1, in their order; as the grammar reads them; a panic exactly if a file is missing |
| Shell.Parser.ParseExec | user/sh.c:416-447 | the command the grammar reads at the cursor, or its panic |
| Shell.Parser.ParseBlock | user/sh.c:400-414 | a command in parentheses with its redirections as the grammar reads it, or its panic |
| Shell.Parser.ParsePipe | user/sh.c:362-373 | the pipeline the grammar reads at the cursor, or its panic |
| Shell.Parser.ParseLine | user/sh.c:345-360 | background and sequence as the grammar reads them, or its panic; the mutual recursion terminates |
| Shell.NulTerminate | user/sh.c:450-494 | exactly the ends of the command's words are overwritten |
| Shell.TreeWordsApart | user/sh.c:437-438 | the intervals recorded in a tree are pairwise disjoint |
| Shell.ParseCmd | user/sh.c:328-343 | accepts exactly the lines of the grammar, with the command of their syntax tree, which is the one the characters spell, redirections in their place; a line that is refused spells none; every word is in the buffer as a C string equal to its token; a panic leaves the buffer alone |
| Grep.MatchHere | user/grep.c:83-95 | true exactly if the items of the pattern split some stretch that starts here |
| Grep.MatchStar | user/grep.c:97-105 | true exactly if a run of the character and then the rest match here |
| Grep.ParsedIsShown | user/grep.c:83-95 | a pattern is read as items that are written like it, with a star only on the character before it and `$` special only at the end |
| Grep.ShownOnce | user/grep.c:83-95 | there is one such list of items |
| Grep.StarMeans | user/grep.c:97-105 | a starred character matches any run of it, or of anything for `.` |
| Grep.LiteralMeans | user/grep.c:71-95 | a plain word matches the texts that contain it; after `^` those that begin with it, before `$` those that end with it, between the two itself |
| Grep.Match | user/grep.c:71-81 | true exactly if the pattern matches somewhere, or at the start after `^` |

## Left out

- Device, CPU and assembly code, spin locks and context switches: a region under a lock is one step.
- System-call argument fetching, open-file tables, console and other user programs: they move values between the parts modelled here and keep no invariant of their own.
- FileSystem.FileSystem.LogWrite: stands for Log.Log.LogWrite by its effect on contents, recorded sectors and pinned blocks (`FsOverLog` joins the two); the panic outside a transaction is in Log only.
- FileSystem.FileSystem.Hold: a block that another process holds is waited for, not refused; the waiting itself is not a step.
- Log.Log.CommitTrans: for the same reason it starts when no other process holds a block of the transaction; where the code waits for one, the holder's release comes first (`FsOverLog.Release`).
- FileSystem.FileSystem.Balloc: that log and buffers run out only when the bounds say so is stated; the converse depends on what other processes hold at each of its many reads.
- FileSystem.FileSystem.Bmap: the same; what forces a panic is stated for free blocks (a completed call took exactly the needed ones) and, on small file systems, for filewrite as a whole.
- FsImage.EmptyImage: marks the log in the bitmap, as the hypothesis on images asks; mkfs does not.
- Path.Names.Iput: one reference less; the freeing of an inode without links is FileSystem.FileSystem.Ifree, and link counts are not modelled.
- Path.Names.Dirlookup: searches a list of entries; FsPath.Dirlookup is the same search over the 16-byte records of the directory's file.
- ialloc, readsb's contents and mkfs's input files are not part of this model.
- AddressSpace.AddressSpace.MapPage: mappages as allocuvm calls it, for one page; the kernel mappings of setupkvm are not part of this model.
- copyuvm, loaduvm and exec loading are not part of this model.
- Fairness between levels and absence of starvation: the scheduler does not go back to level 0 after a dispatch, so neither is claimed.
- ProcTable.ProcTable: the steps UserInit, GiveUp, Adopt and SetsPriority are single assignments and exist on values only.
- Pipe wake-ups: which process runs next is not part of the FIFO property; a killed writer returns without waking readers.
- Shell.Parser.ParseExec: the node is filled in at the end instead of while it is already wrapped in redirections; the resulting tree is the same.
- The shell's runcmd, and the line buffering of grep, are not part of this model.
