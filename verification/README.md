# xv6 in Dafny: storage, memory, processes, pipes and the shell

A model of the hard parts of this xv6 kernel (with system-call tracing, a priority scheduler and
priority inheritance) and of three of its user programs, with proofs about it. Code that updates
state in place is modelled by classes and loops, and each method is proved against a function on
values or against a step of a state machine; the theorems are about those functions and machines.
`dafny verify dfyconfig.toml` checks everything.

| part | files |
|---|---|
| redo log | `LogFormat`, `LogHeader` (format), `LogProtocol`, `LogProofs`, `LogOverflow`, `LogHistory` (machine over all interleavings and crashes), `RedoLog` (log.c as code), `LogRefinement` (the code's writes are runs of the machine), `Transactions` (the code's calls are steps of it; boot after a crash) |
| buffer cache | `BufferRing`, `BufferRingProofs`, `CacheHistory` (machine), `Bio` (bio.c and memide.c as code), `LoggedCache` (cache and log as one machine) |
| files | `Bitmap`, `Dinode`, `FileSpec` (values), `LogEntries` (what a write logs), `Space` (what it allocates), `Files` (fs.c and file.c as code) |
| names | `Directories`, `LinkCounts`, `NameLaws`, `Paths` |
| user heap | `FreeList`, `Heap` (umalloc.c) |
| processes | `Processes`, `ProcessProofs`, `ProcessLaws`, `Priority`, `Inversion` (machine), `ProcTable` (proc.c as code), `SleepLock` |
| virtual memory | `PageTables`, `PageSpaces`, `UserMemory`, `KernelMap`, `FrameCost` (values), `VirtualMemory` (vm.c and kalloc.c as code) |
| pipes, programs, tracing | `Pipes`, `Grep`, `ShellGrammar`, `ShellLexer`, `ShellParser`, `TraceRing` |
| shared | `Blocks`, `Options`, `Sequences` |

A machine's step is what one process does between taking and dropping the lock involved, or one
block write; runs are arbitrary sequences of steps. A disk block write happens or does not. Where
the source panics, a method returns `ok == false` or an absent result; where it sleeps, the method
ends and a later step goes on. Time, device interrupts and the moment at which fork gives up are nondeterministic.

## Findings

Properties that the comments or the README suggest and the code does not have. For each there is a
failing input or run, and the exact condition under which the code does have the property.

- The reservations of begin_op do not keep log_write within the log. log_write tests the list's length
  before it takes log.lock (log.c:216-221). From any boot with the LOGSIZE blocks mkfs lays out (mkfs.c:25), or
  fewer, three operations that each keep to MAXOPBLOCKS can reach the panic (`LogOverflow.BootPanics`), and in
  another interleaving two of them append where one place is left and commit() writes its last slot over
  the home block after the log, with no header written (`LogOverflow.BootOverflows`). On a device with at least as
  many home blocks as log blocks, no run of such operations outgrows the log or is refused if and only if the log has
  more than LOGSIZE blocks (`LogOverflow.ExactLength`); none outgrows it if and only if it has more than LOGSIZE
  blocks or just one (`LogOverflow.ExactFit`). What the reservations do bound, for a log of any size, is the list
  itself (`LogProofs.ReservationBound`). When log_writes do not overlap their test is enough (`LogProofs.SerialFits`).
- A filewrite chunk is sized from LOGSIZE (file.c:133) and so does not keep to MAXOPBLOCKS: a full chunk logs at
  least 13 blocks. A write exceeds MAXOPBLOCKS by its data blocks alone exactly when it reaches past ten blocks
  (`LogEntries.TouchedMany`, `LogEntries.EntryCount`, `LogEntries.Overdraws`).
- nice forgets who asked for a lock. Raising the nice value of an unboosted holder lets a dispatch pick a process worse
  than a requester (`Inversion.NiceInverts`); nice on a boosted holder leaves a stale saved value. A nice call keeps
  inheritance sound exactly when it is refused, or the process is not boosted and the value is at most every
  outstanding request (`Priority.NiceInherits`); it is enough that the value does not rise (`Priority.LoweringIsSafe`).
- sys_lock on a held lock does not wait (`Priority.LockDoesNotWait`), and any effective sys_release drops the whole boost, other
  contested locks or not (`Priority.ReleaseDropsBoost`).
- Within a priority level there is no round robin, though README.md:32 says so: a process that yields is dispatched again exactly
  when every other runnable process is worse, or equal and in a higher slot (`Priority.YieldThenDispatch`).
- kill matches empty slots by pid: kill(0) marks one, and the first child forked into it starts out killed
  (`Priority.KillZero`). Only that and a failed fork of a killed child leave such a mark (`Priority.StepMarks`).
- A killed writer leaves pipewrite without waking readers, so a reader can sleep on a full pipe (`Pipes.KilledWriter`). A step breaks
  the sleeping discipline exactly in that case (`Pipes.StepSleep`).
- growproc shrinking to exactly 0 unmaps everything and reports failure; that is the one case in which the mapped pages stop
  matching the size (`VirtualMemory.Frames.Growproc`).
- malloc passes sbrk an int. From 0x7FFFFFF1 bytes on the argument is not positive, sbrk adds nothing, and morecore puts its header where there
  is no memory (`Heap.FirstBadRequest`). malloc keeps the heap's invariant exactly when the request fits a free block or is in range
  (`Heap.Allocator.Malloc`, `Heap.RequestFits`); requests above 0xFFFFFFF8 bytes wrap to a block that is too small (`Heap.UnitsSuffice`).
- A name added to a directory that has been removed does not count: create, link and mkdir there leave wrong link counts, and mkdir revives the
  directory (`LinkCounts.CreateInRemoved`, `LinkCounts.LinkInRemoved`, `LinkCounts.MkdirInRemoved`). Every other call keeps the counts exact (`LinkCounts.StepInv`).
- copyuvm does not give back the frame in hand when no page table can be made for it, and setupkvm gives back nothing when it fails; the ghost results
  `lost` and `gone` of `VirtualMemory.Frames.CopyUvm` name exactly what is not given back.
- `>` and `>>` build the same command (sh.c:552-557); the model's redirection has one mode for both.

## Model

| member | source | states |
|---|---|---|
| LogFormat.RedoMeaning | log.c:69-82 | recovery gives a block the header lists the contents of its log slot, and any other block what it has |
| LogFormat.SlotWrite | log.c:175-188 | while the header lists nothing, filling log slots changes no block's recovered contents |
| LogFormat.HeaderWrite | log.c:98-113 | writing the header is the commit point: it switches every home block from old to new recovered contents at once |
| LogFormat.InstallWrite | log.c:69-82 | copying a listed slot home changes no recovered contents, so installing may be cut short and repeated |
| LogFormat.ClearWrite | log.c:190-200 | once everything listed is home, erasing the header changes no recovered contents |
| LogHeader.ListedIs | log.c:34-37 | a header block whose words are a count and block numbers is read back as that list, within the array |
| LogProofs.StepInv | log.c:115-231 | every step of begin_op, log_write, end_op, commit, recovery or a crash keeps the invariant if and only if it is not an append that outgrows the log |
| LogProofs.RunInv | log.c:115-231 | so does every run in which no append outgrows the log |
| LogProofs.CrashAtomicity | log.c:115-231 | in every such interleaving of operations and crashes the disk recovers to the effect of a set of whole finished operations, never part of one, and the cache shows the effect of all of them |
| LogHistory.HistoryStep | log.c:115-231 | one step: a log_write is recorded and shown, a crash forgets what is not durable, and only commit's header write makes anything durable |
| LogHistory.HistoryIsRun | log.c:115-231 | the history of a run, and its durable part, are what the run's own log_write, crash and header-write steps make them |
| LogHistory.EntriesAreRun | log.c:212-231 | the entries counted against an operation are those its own log_writes added since begin_op |
| LogHistory.RunAtomicity | log.c:115-231 | crash atomicity in those terms: the disk recovers to the log_writes saved by the run's last header write, and the cache shows all that are kept |
| LogProofs.GroupCommit | log.c:126-172 | while committing no operation is outstanding or inside log_write, so the end_op panic is unreachable; after a commit the disk equals the cache |
| LogProofs.RecoveryKeepsHistory | log.c:115-122 | crashes and recoveries, however interleaved, neither lose nor add a durable operation |
| LogProofs.RepeatedRecovery | log.c:115-122 | after any number of recoveries cut short anywhere, one that completes leaves every home block at its durable contents and the header empty |
| LogProofs.CommitProgress | log.c:175-200 | no home block on disk changes before the header write, which makes everything logged durable |
| LogProofs.CommitAllOrNothing | log.c:175-200 | a crash after k of commit's 2n+2 writes, then recovery: all home blocks old if k is at most n, all new otherwise |
| LogProofs.ReservationBound | log.c:126-141 | for a log of any size, in every interleaving of operations of at most MAXOPBLOCKS entries, crashes and outgrown logs included: listed blocks plus unused reservations never exceed LOGSIZE |
| LogProofs.ReservationsSuffice | log.c:126-141 | with more than LOGSIZE log blocks and operations of at most MAXOPBLOCKS entries, no interleaving outgrows the log and no operation with entries left is refused |
| LogProofs.SerialFits | log.c:212-231 | if no log_write starts between another's test and append, the test suffices for any log and any operations |
| LogOverflow.SmallLogPanics | log.c:212-219 | from any idle state of a log of at most LOGSIZE blocks, a run of three modest operations whose next log_write panics |
| LogOverflow.SmallLogOverflows | log.c:212-231 | from any idle state of such a log, a run of three modest operations after which commit writes a slot over the home block behind the log while the header lists nothing |
| LogOverflow.BootPanics | log.c:53-66 | the panic is reached from every boot of such a log, whatever the disk held |
| LogOverflow.BootOverflows | log.c:53-66 | so is the overwritten home block, with any contents and with no operation durable |
| LogOverflow.ExactLength | log.c:126-141 | on a device with as many home blocks as log blocks: no run of modest operations from boot outgrows the log or is refused, if and only if the log has more than LOGSIZE blocks |
| LogOverflow.ExactFit | log.c:212-231 | none outgrows the log if and only if it has more than LOGSIZE blocks, or one, in which every log_write panics |
| Blocks.ApplyBoth | memide.c:38-59 | writing two lists of blocks one after the other is writing their concatenation |
| Bio.MemDisk.Write | memide.c:38-59 | the disk is its first image with every write so far applied in order |
| BufferRingProofs.VictimIsOldest | bio.c:78-92 | bget recycles the least recently released unreferenced clean buffer, and gives up only when there is none |
| BufferRingProofs.HitIsUnique | bio.c:66-76 | a cached block other than (0,0) is in one buffer and the scan finds that one |
| BufferRingProofs.StepInv | bio.c:61-141 | every step of every process keeps: each buffer once in the list, ordered by last release; no block cached twice; reference counts exact; one holder per buffer |
| BufferRingProofs.InitInv | bio.c:38-56 | binit's list has these properties |
| BufferRingProofs.RunInv | bio.c:61-141 | they hold in every reachable state |
| BufferRingProofs.IdentityKept | sleeplock.c:22-42 | whatever others do while a reference waits in acquiresleep or is held, its buffer keeps the identity asked for |
| BufferRingProofs.StepCoherent | bio.c:61-141 | every step keeps valid buffers equal to the block map, and the disk equal to it but for dirty buffers |
| BufferRingProofs.RunCoherent | bio.c:95-116 | in every interleaving a held buffer that has been read shows the last contents given to log_write or bwrite, evictions and rereads included |
| CacheHistory.ListByRelease | bio.c:118-141 | in every run the list is ordered by the run's own last release of each buffer |
| CacheHistory.VictimReleasedFirst | bio.c:78-92 | the buffer bget recycles is the free one the run released longest ago |
| CacheHistory.ContentsAreRun | bio.c:95-116 | block map and disk hold what the run's own log_write and bwrite steps last gave each block |
| CacheHistory.HolderSeesLastGiven | bio.c:95-116 | a holder that has read sees what its block was last given, by whichever process |
| Bio.BufferCache.constructor | bio.c:38-56 | binit links all buffers, the last one first, with identity (0,0), and the block map is the disk |
| Bio.BufferCache.PushFront | bio.c:132-138 | the four assignments put a buffer first in both directions of the ring |
| Bio.BufferCache.Unlink | bio.c:130-133 | the two assignments take a buffer out of the ring in both directions |
| Bio.BufferCache.FindCached | bio.c:68-76 | the forward walk along next finds the first buffer with the identity |
| Bio.BufferCache.FindFree | bio.c:78-91 | the backward walk along prev finds the last free buffer in the list |
| Bio.BufferCache.Bget | bio.c:61-93 | a hit gains a reference and nothing else; a miss recycles a clean unreferenced buffer released before every other such buffer; no contents are lost |
| Bio.BufferCache.Bread | bio.c:95-106 | the buffer returned shows the block map; it fails only when the block is not cached and no buffer is free |
| Bio.BufferCache.Load | memide.c:38-59 | reading into an invalid buffer gives it the block map's contents |
| Bio.BufferCache.Bwrite | bio.c:108-116 | buffer, disk and block map agree on the new contents; one block write is issued |
| Bio.BufferCache.Pin | log.c:226-230 | marking a buffer dirty changes the block map and leaves the disk behind at that block only |
| Bio.BufferCache.Brelse | bio.c:118-141 | the count drops; at zero the buffer moves to the front of the list and becomes the most recently released |
| RedoLog.Log.constructor | log.c:53-66 | an empty list over a clean cache |
| RedoLog.Log.ReadBlock | bio.c:95-141 | with any other buffers locked, reading a block none of them holds returns the block map's contents and changes neither map nor disk; it succeeds if no other buffer is referenced and the block is listed or a buffer is left |
| RedoLog.Log.LogWrite | log.c:212-231 | with any other buffers locked: refused exactly where the source panics; otherwise the block is listed once, pinned, and changed in the map but not on disk |
| RedoLog.Log.UpdateBlock | log.c:202-231 | read, change, log_write, release: the map changes at one block, the disk and the counts of operations not at all; it fails where log_write panics and succeeds otherwise if a buffer is left |
| RedoLog.Log.WriteLog | log.c:175-188 | with any buffers locked by others but those of log and listed blocks: the block writes issued are, in order, the listed blocks' contents into the log slots; no home block changes |
| RedoLog.Log.WriteHead | log.c:98-113 | one block write, of a header that reads back as the in-memory list, whoever holds other buffers |
| RedoLog.Log.InstallTrans | log.c:69-82 | with any buffers locked by others but those of log and listed blocks: the block writes issued are, in order, the log slots' contents to the home blocks; buffers are unpinned |
| RedoLog.Log.Commit | log.c:190-200 | the writes issued are a beginning of slots, header, homes, empty header; buffers others hold stay as they are; it finishes if listed and held blocks together are fewer than NBUF and nothing else is referenced; then disk equals map, no home block's contents changed, and the header is empty |
| RedoLog.Log.EndOp | log.c:144-172 | only the last operation out commits; the panic is exactly a commit in progress; the map does not change outside the log |
| RedoLog.Log.ReadHead | log.c:84-96 | the in-memory list becomes what the header block lists, blocks listed twice and log blocks included; it stops exactly at a count that leaves the array, or when no buffer is left |
| RedoLog.Log.Recover | log.c:115-122 | the writes issued are a beginning of homes, empty header, and none for a count that leaves the array; when complete the disk equals the map and the header is empty; the counts of operations do not change |
| LogRefinement.CommitRun | log.c:175-200 | any beginning of the code's commit writes is a run of the protocol with the same disk image |
| LogRefinement.RecoverRun | log.c:115-122 | any beginning of the code's recovery writes is a run of the protocol with the same disk image |
| LogRefinement.AttemptsRun | log.c:115-122 | so is any number of recoveries, each cut short somewhere by a crash |
| LogRefinement.AsProtocol | log.c:39-48 | list, cache and disk of a log that is ready to commit are a protocol state satisfying the invariant |
| LogRefinement.LogState | log.c:39-48 | what the code's invariant says, whoever holds buffers: cache and disk differ at listed blocks only, the header is empty, the disk is its image with all writes applied |
| LogRefinement.CrashSafety | log.c:115-200 | from any state of the log's code, whoever holds buffers: stop after any k of the writes commit issues, cut any number of recoveries short, complete one; every home block is old if k is at most n and new otherwise, the header is empty, and every recovery finds a header it can read |
| Transactions.Journal.constructor | log.c:53-66 | boot of any disk image whose header recovery can read ends in a state the protocol reaches, over the contents recovery gives the image |
| Transactions.Journal.BeginOp | log.c:126-141 | one pass of begin_op's loop takes the protocol's begin step exactly when the protocol allows it, and otherwise changes nothing |
| Transactions.Journal.Write | log.c:212-231 | bread, change, log_write, brelse are the test and append steps of the protocol; it fails where the protocol's log_write panics, and otherwise succeeds if a buffer is left |
| Transactions.Journal.Read | bio.c:95-141 | a reader sees the effect of every log_write since boot, of finished and unfinished operations, over what boot recovered |
| Transactions.Journal.EndOp | log.c:144-172 | end_op is the protocol's end step, and of the last operation also all its commit steps, one per block write issued; then every operation since boot is durable and home |
| Transactions.WholeCommit | log.c:175-200 | any beginning of the writes of commit is a run of the protocol; operations become durable with write n+1 |
| Transactions.Booted | log.c:115-122 | a completed recovery of an image is a run of the protocol from a boot state to an idle one with the same disk |
| Transactions.Recovered | log.c:115-122 | after any protocol state and any recoveries cut short, the image can be booted and recovers to the effect of the durable operations |
| Transactions.CrashBetween | log.c:126-141 | a crash between calls: the next boot finds exactly the operations durable before |
| Transactions.CrashInCommit | log.c:144-200 | a crash after k writes of the last end_op's commit: the next boot finds the operations durable before if k is at most n, all of them otherwise; no operation is split |
| Transactions.BootAfterCrash | log.c:53-66 | the code booted on the image such a crash leaves runs on exactly those operations' effect |
| LoggedCache.MoveRefines | log.c:69-82 | with any processes holding buffers: a log_write on a held buffer, a copy between the held buffers of a slot and a home block, and a header write are the steps the log protocol allows next |
| LoggedCache.MoveInv | bio.c:61-141 | every step of buffer cache and log together keeps both invariants and keeps them agreeing on block map and disk |
| LoggedCache.Refines | log.c:69-231 | every run of cache and log together is a run of the log protocol |
| LoggedCache.HoldersSeeLog | bio.c:61-141 | in every interleaving, crashes included: whoever holds a home block and has read it sees every log_write so far; the disk recovers to the durable ones; a block whose disk copy is behind is listed and stays in a dirty buffer |
| Bitmap.PutBlockBitMeaning | fs.c:64-73 | setting one bit of a bitmap block changes that bit and no other |
| Bitmap.MarkMeaning | fs.c:81-97 | marking one block changes the mark of that block and no other |
| Dinode.InodeRoundTrip | fs.c:208-225 | an inode stored by iupdate is read back equal, and no other inode of the block changes |
| FileSpec.OneOwner | fs.c:346-383 | a block address occurs in one slot of one inode, and its bitmap bit is set |
| FileSpec.TakenKeeps | fs.c:56-79 | balloc disturbs no owned block, no inode block and no address |
| FileSpec.AdoptDirect | fs.c:361-371 | a fresh block put into a direct or the indirect slot keeps ownership exact |
| FileSpec.AdoptIndirect | fs.c:374-377 | so does one put into an entry of the indirect block |
| FileSpec.GrownOthers | fs.c:356-383 | growing one file touches no other file |
| FileSpec.DataSplice | fs.c:493-499 | writei's memmove into one block splices the file's byte sequence |
| FileSpec.SpliceMore | fs.c:493-499 | splicing two adjacent pieces is splicing their concatenation |
| FileSpec.TruncStep | fs.c:397-412 | a block itrunc frees is marked, so the "freeing free block" panic is unreachable, and only that mark goes |
| FileSpec.EndTrunc | fs.c:385-418 | at the end exactly the inode's blocks are free and no other file is touched |
| LogEntries.DataCount | fs.c:493-499 | different blocks of a file are different disk blocks, so a range of them counts its length |
| LogEntries.TouchedMany | file.c:133-138 | a write touches more than ten file blocks exactly when its offset in the first block plus its length exceeds 5120; a full chunk touches 13, or 14 if not aligned |
| LogEntries.EntryCount | fs.c:469-506 | a write logs exactly its data blocks, the indirect block if it is new or has a new entry, one bitmap block per group of new blocks, and the inode's block if the file grew, none counted twice |
| LogEntries.Overdraws | file.c:126-154 | such a write exceeds MAXOPBLOCKS if it touches more than ten blocks, and an overwrite in place only then; a full chunk needs at least 13 entries |
| Space.FreeIs | fs.c:56-79 | the free blocks are the data blocks without an owner, so counting owners counts them |
| Space.RoomFor | fs.c:56-79 | balloc can find a block exactly when the count of free blocks is positive |
| Space.WantsGains | fs.c:353-383 | what bmap allocates for the block at or before the end of a file is the difference in blocks between the longer and the present file, indirect block included |
| Files.FileSystem.constructor | fs.c:165-179 | starts from any blocks and inodes with exact ownership |
| Files.FileSystem.Balloc | fs.c:56-79 | the lowest free block, marked and zeroed; refused only when every block is in use; logs the bitmap block and the block |
| Files.FileSystem.Bfree | fs.c:81-97 | clears one mark; panics exactly on a free block |
| Files.FileSystem.Bmap | fs.c:353-383 | the address of the file block, allocated if missing, with ownership exact and every other address kept; an existing block changes nothing; it succeeds exactly when as many blocks are free as it has to allocate, the indirect block included |
| Files.FileSystem.Iupdate | fs.c:208-225 | the inode on disk becomes the one in memory; no file and no other inode changes |
| Files.FileSystem.WriteChunk | fs.c:493-499 | one turn of writei's loop splices the bytes into the file, touches no other file, and logs what it allocated and the data block; it succeeds exactly when the blocks the longer file needs are free |
| Files.FileSystem.WriteLoop | fs.c:493-499 | the loop splices all of them, across direct and indirect blocks; it succeeds exactly when all the blocks it needs are free, and takes that many |
| Files.FileSystem.Writei | fs.c:466-506 | refused exactly for a bad range; otherwise the file is the old one with src spliced in at off, no other file changes, every new address is on disk, and the log entries are exactly those of EntryCount; on a good range it succeeds exactly when the blocks the new length needs beyond the old are free |
| Files.FileSystem.Readi | fs.c:431-464 | refused exactly for a bad range; otherwise the exact slice, cut at the end of file, and nothing changes or is allocated |
| Files.FileSystem.Itrunc | fs.c:385-418 | succeeds, leaves the file empty, frees exactly the inode's blocks, touches no other file |
| Files.FileSystem.Filewrite | file.c:115-156 | chunk by chunk; it returns the length, with the file as one whole write would leave it, exactly when the whole range is good, else -1 with the chunks before the first bad one written; on a good range it succeeds exactly when all the blocks of the whole write are free, and on any range whenever a file of full size would fit |
| Directories.OneSlot | fs.c:517-543 | in a directory with distinct names a name has one slot |
| Directories.LinkFind | fs.c:545-573 | dirlink adds one binding to the map from names cut to 14 bytes and changes no other |
| Directories.ClearFind | sysfile.c:206-219 | clearing an entry removes one binding and changes no other |
| Directories.Lookup | fs.c:517-543 | the inode number bound to the name, and the slot |
| Directories.LinkEntry | fs.c:545-573 | refused exactly when the name is present, else the entry goes into the first empty slot |
| Directories.IsEmpty | sysfile.c:166-180 | true exactly when no entry beyond the first two is in use |
| LinkCounts.StepInv | sysfile.c:117-283 | create, mkdir, link, unlink and the reclaiming of an inode keep every link count equal to the number of names other than "." in directories with links, and the directories a tree, if and only if no name is added to a removed directory |
| LinkCounts.LinkExact | sysfile.c:117-164 | a link call, failed or not, keeps the counts exact if and only if the parent has links or already has the name |
| LinkCounts.CreateInRemoved | sysfile.c:240-283 | a file created in a removed directory has a wrong count |
| LinkCounts.LinkInRemoved | sysfile.c:117-164 | a link made in a removed directory leaves a wrong count |
| LinkCounts.MkdirInRemoved | sysfile.c:240-283 | mkdir in a removed directory gives it a link again and leaves its old parent's count wrong |
| LinkCounts.UnlinkInv | sysfile.c:182-238 | unlink keeps counts and tree, directories included |
| NameLaws.UnlinkLaw | sysfile.c:182-238 | the name leads nowhere and every other name where it did; what it named loses a link, its parent too for a directory, and no other inode changes |
| NameLaws.CreateLaw | sysfile.c:240-283 | the name leads to the new node, of the kind asked for with one link; every other name and inode is as before |
| NameLaws.MkdirLaw | sysfile.c:240-283 | the same for a directory, whose dots lead to itself and its parent, which gains a link |
| NameLaws.LinkLaw | sysfile.c:117-164 | the name leads to the file, which gains a link, or nothing changes if the name is taken |
| NameLaws.LinkThenUnlink | sysfile.c:117-238 | unlink undoes link: every name, kind and count is as before |
| NameLaws.CreateThenUnlink | sysfile.c:182-283 | unlink and the reclaiming of the inode undo create |
| LinkCounts.ChildOnce | sysfile.c:206-223 | an empty directory about to be removed is named exactly once |
| LinkCounts.ParentStays | sysfile.c:220-223 | losing a subdirectory never removes the parent |
| LinkCounts.ReclaimInv | fs.c:320-335 | freeing an inode without links keeps everything |
| LinkCounts.InitInv | mkfs.c:117-128 | mkfs's root has exact counts |
| LinkCounts.RunInv | sysfile.c:117-283 | counts stay exact over every sequence of calls that adds no name to a removed directory |
| LinkCounts.CountsFit | fs.h:33-33 | while directories hold at most 32767 entries every count fits its short |
| LinkCounts.Inodes.Ialloc | fs.c:184-206 | the first free inode, or none if there is none |
| LinkCounts.Inodes.SysLink | sysfile.c:117-164 | result and new state on every path, including the count taken back on failure; counts exact if and only if it fails or the parent has links |
| LinkCounts.Inodes.SysUnlink | sysfile.c:182-238 | result and new state on every path; the nlink panic is unreachable; counts stay exact |
| LinkCounts.Inodes.MakeNode | sysfile.c:240-283 | create's existing file, new file, new directory and failure paths; counts exact if and only if nothing is made or the parent has links; it fails only without a parent, with the name taken by anything but a file asked for as a file, or with no inode free |
| Paths.JoinBack | fs.c:590-613 | the components of a path written from plain names are those names |
| Paths.SkipElem | fs.c:590-613 | the next component cut to 14 bytes and where the next one starts; none exactly when only slashes are left |
| Paths.Cache.Namex | fs.c:619-652 | the fold of lookup over the components (all but the last for nameiparent), holding one reference to the result and to nothing else taken on the way |
| FreeList.FreedSeparated | umalloc.c:33-43 | after free the list is in address order, disjoint and fully coalesced |
| FreeList.FreedUnits | umalloc.c:33-43 | free gives back exactly the units of the freed block |
| FreeList.TakenSeparated | umalloc.c:75-85 | after malloc the list keeps that shape, apart from the block handed out |
| FreeList.TakenUnits | umalloc.c:75-85 | malloc takes exactly the units it hands out |
| FreeList.PlaceUnique | umalloc.c:30-32 | an address has one place in the list |
| FreeList.TakeThenFree | umalloc.c:24-90 | freeing what malloc just handed out restores the list, merges included |
| Heap.UnitsSuffice | umalloc.c:69-69 | the block holds the request exactly when the rounding does not wrap |
| Heap.RequestFits | umalloc.c:52-55 | sbrk's argument is positive exactly for requests up to 0x7FFFFFF0 bytes, or those that wrap |
| Heap.FirstBadRequest | umalloc.c:52-55 | the least request whose sbrk argument is negative |
| Heap.SearchStops | umalloc.c:30-32 | free's two stopping tests hold together at exactly one block of the ring, and every other step comes nearer to it |
| Heap.FreeStep | umalloc.c:24-44 | one free keeps the whole invariant and every cell of every held block |
| Heap.TakeStep | umalloc.c:74-85 | so does one successful malloc |
| Heap.GrowStep | umalloc.c:54-60 | memory from sbrk joins as one held block |
| Heap.Allocator.FindPlace | umalloc.c:30-32 | the search ends, at the block after which the address belongs |
| Heap.Allocator.Free | umalloc.c:24-44 | the block returns to the ring, merged with the free blocks it touches; the rest is kept |
| Heap.Allocator.Sbrk | sysproc.c:45-57 | grows or refuses for a positive argument; otherwise returns the old break, having lowered it if enough is there, or unmaps everything and fails |
| Heap.Allocator.Morecore | umalloc.c:46-61 | adds at least MIN_CORE units exactly when sbrk's int can name them |
| Heap.Allocator.Scan | umalloc.c:74-89 | one turn of the ring ends, at the first block after freep that is large enough, or knowing there is none |
| Heap.Allocator.Malloc | umalloc.c:63-90 | the invariant is kept if and only if the request fits a free block or is in range; then the result is a block of the computed size apart from every held one, or 0 only if nothing fitted and sbrk refused; units come only from above the old break |
| ProcessProofs.StepInv | proc.c:254-600 | every step of every CPU keeps: RUNNING means current on one CPU; parents alive; no process asleep in wait with a zombie child or without children; pids unique; exits collected once |
| ProcessProofs.InitInv | proc.c:193-229 | the state after userinit has these properties |
| ProcessProofs.RunInv | proc.c:254-600 | they hold throughout every run |
| ProcessProofs.RunningOnOneCpu | proc.c:394-497 | whenever ptable.lock is free a process is RUNNING exactly when a CPU runs it, and only one does |
| ProcessProofs.NoMissedExit | proc.c:301-384 | a zombie's parent is alive and not asleep in wait |
| ProcessProofs.CollectedOnce | proc.c:301-384 | a pid that exited is either still a zombie or has been returned by wait, never both, and returned at most once |
| ProcessProofs.StepExists | proc.c:254-600 | in a reachable state no enabled step is blocked |
| ProcessLaws.SleepersWake | proc.c:520-600 | in any step a sleeper becomes runnable if and only if the step is a wakeup on its channel, a kill of it, or the exit of a child, or for init of a process leaving a zombie; otherwise it sleeps on the same channel |
| ProcessLaws.ParentsKept | proc.c:254-384 | a process keeps the parent that forked it until the parent exits, which hands it to init, or wait collects it |
| ProcessLaws.SleepLaw | proc.c:520-555 | sleep records the channel given, frees the CPU and changes no one else |
| ProcessLaws.WakeupLaw | proc.c:570-577 | exactly the sleepers on the channel become runnable |
| ProcessLaws.KillLaw | proc.c:582-600 | the first process with the pid is marked, and runnable if it slept on anything |
| ProcessLaws.ForkLaw | proc.c:254-296 | the child is the forker's and runnable; only the two slots change |
| ProcessLaws.AllocLaw | proc.c:143-191 | the lowest unused slot gets the next pid and the default priority, or nothing happens when there is none |
| ProcessLaws.WaitLaw | proc.c:343-384 | the first zombie child is collected; with none, a killed or childless caller returns at once and any other sleeps on itself |
| ProcessLaws.ExitLaw | proc.c:301-341 | the caller becomes a zombie, every child goes to init, and exactly the parent, and init if it gets a zombie, are woken |
| ProcessLaws.StrangerRelease | proc.c:105-130 | a release by anyone but the recorded holder changes nothing |
| ProcessLaws.DispatchLaw | proc.c:405-436 | a runnable process of least priority value runs on the CPU and no one else changes |
| ProcessLaws.NiceLaw | proc.c:42-70 | both values of the first live process with the pid are set, for a value from 1 to 5, and nothing else changes |
| ProcessLaws.ForkFailLaw | proc.c:254-272 | the slot is given back and only the forker besides changes |
| Priority.LeastMeaning | proc.c:89-98 | the minimum of nice and the requests is below all of them and is one of them |
| Priority.LockLends | proc.c:74-101 | a free lock is recorded to the caller; on a held one the holder then runs at the better of the two priorities, the request is recorded, and no other slot changes |
| Priority.AskedIsHistory | proc.c:74-130 | the requests recorded against a process are exactly those the run's own sys_lock calls made since its last effective release or allocation |
| Priority.NiceInherits | proc.c:42-70 | nice keeps inheritance sound if and only if it is refused, or the process is unboosted and the value at most every request since the last release |
| Priority.LowersIsSafe | proc.c:42-70 | an unboosted process whose nice value does not rise is such a case |
| Priority.StepInherits | proc.c:42-130 | every step keeps each process's priority at the minimum of nice and the requests since its last effective release, with nice saved while boosted, if and only if it is not an unsafe nice call |
| Priority.RunInherits | proc.c:42-130 | so it holds throughout every run with safe nice calls |
| Priority.LoweringIsSafe | proc.c:42-130 | runs whose effective nice calls never raise a value or meet a boosted process are such runs |
| Priority.NoInversion | proc.c:405-436 | in such runs: after a sys_lock call of the run for a lock recorded to a process, until that process next releases a lock or its slot is reused, no dispatch at which it is runnable picks a process worse than the caller was |
| Inversion.NiceInverts | proc.c:42-130 | a run from boot in which raising an unboosted holder's nice value makes a dispatch pick a process at 4 while one at 3 had asked |
| Priority.ReleaseDropsBoost | proc.c:105-130 | an effective release restores nice whatever other locks are held |
| Priority.LockDoesNotWait | proc.c:74-101 | on a held lock the caller keeps its CPU and the holder its lock |
| Priority.YieldThenDispatch | proc.c:405-436 | who runs after a yield: the yielder exactly when all others are worse, or equal in higher slots |
| Priority.StepMarks | proc.c:582-600 | an empty slot gets a kill mark exactly from kill of a pid found there or a failed fork of a killed child |
| Priority.KillZero | proc.c:582-600 | from boot, kill(0) and a fork give a child that is born killed |
| ProcTable.Kernel.Pick | proc.c:408-418 | the loop finds the runnable process of least priority value, lowest slot among equals, or none |
| ProcTable.Kernel.Schedule | proc.c:405-436 | one turn of the priority scheduler is the Dispatch step |
| ProcTable.Kernel.TakeTurn | proc.c:438-460 | the round-robin loop runs the next runnable process at or after a slot, skipping none |
| ProcTable.Kernel.Wakeup1 | proc.c:557-568 | wakes exactly the sleepers on the channel |
| ProcTable.Kernel.Yield | proc.c:489-497 | is the Yield step |
| ProcTable.Kernel.Sleep | proc.c:520-555 | is the Sleep step |
| ProcTable.Kernel.AllocProc | proc.c:143-191 | is fork's allocation step: first unused slot, fresh pid, default priority |
| ProcTable.Kernel.AbandonFork | proc.c:254-272 | is fork's failure step |
| ProcTable.Kernel.FinishFork | proc.c:254-296 | is fork's completion step and returns the child's pid |
| ProcTable.Kernel.PassChildren | proc.c:328-335 | children go to init, which is woken exactly if one is a zombie |
| ProcTable.Kernel.Exit | proc.c:301-341 | is the Exit step |
| ProcTable.Kernel.Wait | proc.c:343-384 | one pass is the Wait step; what it returns says which of the three outcomes it was |
| ProcTable.Kernel.Kill | proc.c:582-600 | is the Kill step; fails exactly when no slot has the pid |
| ProcTable.Kernel.Nice | proc.c:42-70 | is the Nice step; returns the old value or -1 |
| ProcTable.Kernel.Lock | proc.c:74-101 | is the Lock step; -1 exactly for a bad id |
| ProcTable.Kernel.Release | proc.c:105-130 | is the Release step; -1 exactly for a bad id |
| SleepLock.StepInv | sleeplock.c:22-42 | every line of acquiresleep, releasesleep and the sleep and wakeup inside them keeps the lock's invariant |
| SleepLock.RunInv | sleeplock.c:22-42 | so does every interleaving, kills included |
| SleepLock.MutualExclusion | sleeplock.c:22-42 | at most one process is inside |
| SleepLock.NoLostWakeup | proc.c:520-577 | when no update is in progress, a sleeper means the lock is held and its holder will release it |
| PageSpaces.TrimSkip | vm.c:265-278 | skipping 4 MB from a page whose table is missing loses no page, because user pages are a prefix |
| UserMemory.GrewUndone | vm.c:233-247 | a growth that fails part way and is cut back restores the space and every frame but page tables |
| UserMemory.DropOwned | vm.c:284-299 | after freevm every frame's use is exact and no other space has changed |
| UserMemory.TwoPrefixes | vm.c:222-280 | a space maps exactly one number of pages |
| KernelMap.RowFacts | vm.c:114-124 | the kernel's four regions lie in order above KERNBASE without overlap |
| KernelMap.Abandon | vm.c:316-344 | a copy that fails and is freed leaves every other space, and every frame but those named, as before |
| FrameCost.TooFew | vm.c:66-89 | when the next page cannot be paid for, the free list was too short for the whole range at the start |
| FrameCost.UserCost | vm.c:314-344 | a new space of n pages costs a frame for each and a table for every 1024 begun, whatever the kernel's tables |
| VirtualMemory.Frames.constructor | kalloc.c:30-36 | before kinit no frame is free |
| VirtualMemory.Frames.Freerange | kalloc.c:45-52 | exactly the whole frames between the addresses become free |
| VirtualMemory.Frames.Kalloc | kalloc.c:79-95 | hands out a free frame, once; none exactly when the list is empty |
| VirtualMemory.Frames.Kfree | kalloc.c:54-77 | the frame joins the list, filled with junk |
| VirtualMemory.Frames.Walk | vm.c:44-64 | finds or makes the table; no translation of any space changes; it succeeds exactly when the table is there or a frame is free |
| VirtualMemory.Frames.MapUser | vm.c:66-89 | one page is mapped and nothing else, or nothing happened; it fails exactly when the table is missing and no frame is free |
| VirtualMemory.Frames.AllocUvm | vm.c:220-250 | the mapped pages become exactly those below the new size, each a fresh frame; on failure the space and all frames but tables are as before; it succeeds exactly when the free frames number at least the new pages plus the missing tables they go through |
| VirtualMemory.Frames.DeallocUvm | vm.c:252-280 | exactly the pages from the new size up are unmapped and their frames freed, though tables that are missing are skipped 4 MB at a time |
| VirtualMemory.Frames.FreeVm | vm.c:282-299 | every frame of the space, tables and directory included, becomes free, and nothing else changes |
| VirtualMemory.Frames.Setupkvm | vm.c:126-143 | a fresh space maps exactly the kernel regions; on failure what it took is named; it succeeds exactly with 65 frames free, and takes 65 |
| VirtualMemory.Frames.CopyUvm | vm.c:314-344 | the copy has the same pages with equal bytes and flags on frames of its own; on failure other spaces are untouched and what is not given back is named; it succeeds exactly when 65 frames, one per page and one per 1024 pages begun are free |
| VirtualMemory.Frames.Growproc | proc.c:231-249 | new size and result; the mapped pages match the size if and only if it was not a shrink to exactly zero; growth succeeds exactly below KERNBASE with those frames free, and a shrink fails exactly when the size would be zero |
| Pipes.Counters | pipe.c:85-85 | the full and empty tests on counters that wrap at 32 bits mean what they say |
| Pipes.FillStands | pipe.c:84-94 | pipewrite copies as much as fits, in order, across wrap-around |
| Pipes.DrainStands | pipe.c:113-117 | piperead takes the oldest bytes, in order, across wrap-around |
| Pipes.StepInv | pipe.c:59-121 | every step of every reader and writer keeps the ring equal to what is written and not read |
| Pipes.RunInv | pipe.c:59-121 | so does every run |
| Pipes.BytesInOrder | pipe.c:77-121 | bytes read are a prefix of bytes written, and the ring holds exactly the difference |
| Pipes.ReadsAll | pipe.c:102-121 | a read takes the oldest bytes not taken, as many as asked for and there, wakes the sleeping writers and ends; on an empty pipe with its write end open it takes nothing and sleeps, or leaves if killed |
| Pipes.WritesAll | pipe.c:77-99 | a write puts as many bytes as there is room for; with all in it wakes the readers and ends, else it leaves if killed or the read end is closed, else wakes them and sleeps with the rest |
| Pipes.WriteCall | pipe.c:77-99 | over a whole call, whatever happens between its sleeps: what it put and what it has left make up its bytes, and when it ends it has put all of them, or was killed or found the read end closed and has put a beginning |
| Pipes.StepSleep | pipe.c:77-121 | a step keeps "a sleeping reader means empty, a sleeping writer means full" if and only if it is not a killed writer leaving silently |
| Pipes.RunSleep | pipe.c:77-121 | so it holds throughout runs without such a step |
| Pipes.NeverBothAsleep | pipe.c:77-121 | without kills a reader and a writer are never both asleep |
| Pipes.KilledWriter | pipe.c:85-91 | a run that ends with a reader asleep on a full pipe |
| Pipes.Ring.Fill | pipe.c:84-94 | the array and counter after the copying loop, and how much was copied |
| Pipes.Ring.Drain | pipe.c:113-117 | the bytes taken and the counter after the copying loop |
| Grep.OneStep | grep.c:85-96 | a single element matches one character and the rest |
| Grep.StarStep | grep.c:98-106 | a star matches nothing, or one character and itself again |
| Grep.Match | grep.c:71-82 | true exactly when the declarative meaning of the pattern matches at some position of the text |
| Grep.MatchHere | grep.c:84-96 | true exactly when it matches at the start; the recursion ends |
| Grep.MatchStar | grep.c:98-106 | true exactly when the starred element and the rest match at the start |
| ShellGrammar.TokenRoundTrip | sh.c:491-610 | every command tree with at most 9 arguments per command is what its printed tokens parse to |
| ShellGrammar.LineBack | sh.c:508-523 | a printed line is read back by parseline, leaving what follows |
| ShellGrammar.PipeBack | sh.c:525-536 | a printed pipeline is read back by parsepipe |
| ShellGrammar.ExecBack | sh.c:563-610 | a printed simple or bracketed command is read back by parseexec |
| ShellGrammar.AnyOrder | sh.c:579-610 | words and redirections in any order: all words are arguments, all redirections apply in the order written, >> as >; it fails exactly from ten words on |
| ShellLexer.Lexed | sh.c:429-472 | the tokens found in a rendered line, >> included, are the tokens rendered |
| ShellLexer.RoundTrip | sh.c:429-610 | for every command tree of plain words, parsing its printed line gives it back |
| ShellLexer.SimpleLine | sh.c:429-610 | the same for the text of a line such as `ls > f -l >> g` |
| ShellParser.Parser.Peek | sh.c:474-484 | skips space, consumes nothing, and tests the next token |
| ShellParser.Parser.GetToken | sh.c:429-472 | consumes exactly one token and delimits a word exactly |
| ShellParser.Parser.Redirs | sh.c:538-561 | agrees with the grammar, panic included |
| ShellParser.Parser.Args | sh.c:579-610 | agrees with the grammar, the two panics included |
| ShellParser.Parser.ExecOrBlock | sh.c:563-610 | agrees with the grammar; the recursion consumes input |
| ShellParser.Parser.PipeCmd | sh.c:525-536 | agrees with the grammar |
| ShellParser.Parser.LineCmd | sh.c:508-523 | agrees with the grammar |
| ShellParser.EndsOutside | sh.c:613-657 | no terminator falls inside a word |
| ShellParser.Terminated | sh.c:613-657 | with the terminators in place every word reads back as its original token |
| ShellParser.Nulterminate | sh.c:613-657 | writes a terminator at exactly the word ends |
| ShellParser.ParseCmd | sh.c:491-506 | the tree is the grammar's, every argument and file name a C string equal to its token, and None exactly on a panic |
| TraceRing.LatestMeaning | syscall.c:189-211 | the record a row should hold is one of the last five, and each of the last five is in its row |
| TraceRing.Ring.Add | syscall.c:189-211 | each row holds exactly the latest record with its number modulo five, zero-padded, with nothing left of an older one |

## Left out

- Hardware and boot, drivers, console, interrupts and all assembly; the disk is memide.c's.
- Memory ordering and interrupt flags of spin locks; lock sections are atomic steps. SleepLock alone is at the grain of single lines.
- exec, ELF loading, traps, argument fetching, copyout and exec's guard page.
- Liveness: that a waiting begin_op, sleeper or runnable process eventually proceeds, and fairness of the schedulers.
- Trace line formatting, flag filtering and the strace commands of the shell; running of parsed commands; grep's read loop.
- Concurrency between file system calls on different inodes; `Files` and `LinkCounts` treat each call as one step. Inode cache slots and their locks.
- Directory entries as 16-byte records inside file blocks, and dirlink's panic when a directory reaches MAXFILE; entries are a sequence.
- Device inodes in readi and writei, and the pipe and read-only branches of fileread and filewrite.
- Page-table frames and free-list links as bytes; a frame is bytes or 1024 entries.
- `execcmd` arrays filled in place: the shell's argument lists are values.
- wait's second scan after a wakeup is a separate step from the dispatch before it, which allows more interleavings than the source.
- LinkCounts.Inodes.SysLink: nlink is unbounded, not a 16-bit short; CountsFit says when that makes no difference.
- ProcTable.Kernel.AllocProc: nextpid does not wrap at 32 bits.
- Heap.Allocator.Sbrk: sizes are multiples of one 8-byte header, so a break that another caller leaves unaligned is not modelled, nor the mapped rest of the page above a break.
- Heap.Allocator.Malloc: where the request is out of range the model ends at the header morecore stores outside memory, and does not follow the process further.
- RedoLog.Log.ReadHead: for a count above LOGSIZE the model stops where read_head goes on to copy past its array.
- RedoLog.Log.Recover: headers that list a block twice or a block of the log, which no run of the log writes, are excluded.
- RedoLog.Log.Commit: bread of a log or listed block that another process holds waits for it; the method starts when none is held.
- LogOverflow.SmallLogOverflows: the run ends with the home block overwritten; entries beyond the header's array, possible with immodest operations, are not followed into memory.
- VirtualMemory.Frames.Kfree: the range test of kfree is replaced by the frame being one of those modelled.
