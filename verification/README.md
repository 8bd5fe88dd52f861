# Verified models of the storage, memory and graph code

This project models the parts of the repository whose correctness is hardest to see, each in the form its source has: classes with the fields the code updates, arrays it works in place on, loops with invariants, and beside them the specification each method is proved against. What the code is for is then proved about the specification, over all inputs, all runs or all reachable states.

One module is one file; `Basics` holds the few notions all of them share. Files that carry the name of a source component (`Log`, `Bpt`, `Fs`, `Vm`, ...) hold its operations; the others hold the specification and the lemmas those operations rest on.

## xv6: log, buffer cache and recovery (`Blocks`, `Bio`, `RedoLog`, `Log`, `LogProtocol`, `LogRefines`, `LogShort`, `LogGroup`)

`Bio` is the cache of `bio.c` over the disk of `memide.c`: thirty buffers, the most-recently-used list, `B_VALID` and `B_DIRTY`. `Log` is `log.c` on top of it, down to the bytes of the header block. `RedoLog` says what recovery makes of a disk, and proves what every single disk write does to that: log writes, installs, erasure and recovery's own writes leave it alone, and the first header write switches it from the state before the transaction to the state after it. `CrashAtomicity` follows, with recovery itself cut short any number of times. `LogProtocol` is the step machine of all interleavings: calls that begin, log and end, cache traffic, the writes of a commit, crashes and boots. `log_write` makes its size test before it takes the lock, so it is two steps there, the test and the entry, and any number of calls may be between the two. `LogRefines` joins the two: what each method of class `Log` does to the cache, the disk and the list of logged blocks is a path of steps of that machine, panics inside a commit included, so the machine's invariant and its crash safety are those of the class. `LogGroup` says what they mean for calls: of the calls between two commits a crash keeps all or none (`AllOrNothing`).

What does not hold is proved as such:

- `log_write` compares `lh.n` with `log.size - 1`, and `mkfs.c:25` gives the log exactly LOGSIZE blocks, so a call within its promise may panic (`ShortLogPanics`). A log area larger than LOGSIZE always suffices for the reservations (`ReservedLogWriteFits`).
- Two or three calls may pass that test before any of them enters its block. The list then gets as long as the log area, or one block longer (`TestsOverfill`), never more (`NeverMore`). With a log area of 2 to LOGSIZE - 1 blocks the commit then copies a block to the first block behind the log area, before the header write; a crash leaves it there, and no recovery undoes it (`ShortLogLosesBlock`). With LOGSIZE blocks, which is what mkfs makes, it is the number of buffers that saves the disk: the thirty blocks of the full list pin all thirty, commit panics for want of one before it has written anything, and the disk is as it was (`MkfsLogOverfills`). With more than LOGSIZE blocks the reservation alone bounds the list, and a log area of one block admits nothing. So crash safety holds for log areas of one block and of NBUF blocks and more, and for no others: `SafeExactly`.
- A transaction of 30 blocks pins all 30 buffers, and `write_log` finds none for the log block. `RoomToCommit` and the last `ensures` of `Commit` and `EndOp` state exactly when a commit gets its buffers.
- The size test stands before absorption, so a full log refuses even a block it already holds (`FullLogRefusesAbsorption`).

A method's `ok` out-parameter is false where the source panics. A panic inside a commit is a run cut short, and the contracts say which prefix of the writes was made.

## xv6: inodes and files (`FsBitmap`, `FsTree`, `FsLink`, `FsFile`, `FsInode`, `FsTrunc`, `FsCount`, `Fs`, `File`, `FsScatter`, `FsCut`, `FsCrash`)

`balloc`, `bfree`, `iupdate`, `bmap` with its direct, indirect and double-indirect slots, `itrunc`, `readi`, `writei` and `filewrite`, on the disk that readers of the cache see. A ghost map from disk blocks to the slots that own them carries the proof that block trees of all inodes are disjoint and marked in the bitmap. `itrunc` never reaches the panic "freeing free block", and frees everything except the middle-level blocks of the double-indirect tree; the model keeps those as a set of leaked blocks, so that metadata, owned, leaked and free blocks are all the blocks of the disk. `writei` and `readi` refine a file that is a sequence of bytes; the size and addresses of every inode are on disk as they are in memory after each of them; a write succeeds exactly when there are as many free blocks as it has slots to fill, and every block that changed was logged.

`filewrite` cuts a write into chunks that are to fit into MAXOPBLOCKS logged blocks. They do wherever the data blocks span at most two bitmap blocks (`Narrow`, a condition on the superblock), and only there: on every other superblock there is a valid file system in which one chunk logs 11 blocks (`FsScatter.WideChunk`). mkfs with FSSIZE 20000 makes such a superblock (`FsScatter.MkfsIsWide`). `itrunc` logs the bitmap blocks of what it frees and the inode's block: it fits MAXOPBLOCKS where the data blocks span at most nine bitmap blocks, as with FSSIZE 20000, and on every other superblock there is a file whose truncation logs 11 (`FsCut.VastTrunc`).

A chunk is a call of the log's step machine: `FsCrash.CrashedWrite` runs one on a narrow superblock and shows that after a power failure at any moment, and recoveries cut short anywhere, the disk is that before the chunk or that after all of it; `MountsSame` says what mounting such a disk gives. `FileWriteAmong` lets any writes and truncations of other inodes run between the chunks of a write: the chunks are still one write of the bytes.

## xv6: malloc, page tables, pipe (`FreeRing`, `Umalloc`, `PageTables`, `Vm`, `Pipe`, `PipeCut`)

`Umalloc` is the circular first-fit list of `umalloc.c`, with addresses counted in headers and other callers of `sbrk` allowed, for requests of any number of bytes a uint can hold. Two kinds of requests go wrong, and `SizesRight` says which: within seven bytes of 2^32 the rounding wraps around and the block handed out is a header without payload; and from 2^28 units on, when no free block has room, `sbrk` is asked for nothing or for a negative number of bytes. The model stops there (`ok` is false), since what `morecore` then puts in the list is no memory of the program.

`Vm` is `kalloc.c` and `vm.c` on physical frames by number (physical address / 4096, with 0 for a null pointer). The free list is threaded through word 0 of free frames. A ghost owner per frame (free, directory, table, data, other) carries distinctness and conservation. Preconditions are those of the callers: page-aligned kernel data between KERNBASE + EXTMEM and KERNBASE + PHYSTOP, sizes up to KERNBASE, and user pages mapped where `copyuvm` expects them; under them the panics "remap", "kfree" and those of `copyuvm` are out of reach.

`Pipe` is a step machine over all interleavings of readers, writers, closers and kills, at the grain of one step of `pipe.c` or of `sleep` and `wakeup1`, with counters that wrap at 32 bits. A killed writer, or one that finds the read end closed on a full pipe, returns -1 after having put bytes in without waking anybody; the ghost flag `cut` records that. It is the only way to lose a wakeup (`NoLostWakeup`, `CutWhen`), and it does happen (`PipeCut.WakeupLost`).

## The disk B+tree (`BptTree`, `BptMerge`, `BptStore`, `BptPage`, `BptGrow`, `BptShrink`, `BptChain`, `BptOverflow`, `BptReach`, `Bpt`)

`bpt.c` on an array of pages with parent links, leaf chain and free-page list, with leaf order 32 and internal order 249. The invariant is local: a ghost map gives each tree page its level and its key interval, and all ordering, separator, parent, depth, size and leaf-chain facts are stated page by page. `Insert` refines map insert on every well-formed store. `Delete` refines map removal with one exception: `coalesce_nodes` always merges, so a merge into an internal neighbour that already holds 248 keys writes past the page's array. `Fits` is the condition, computed from the pages on the path before anything is changed, under which that does not happen; `Delete` succeeds if and only if it holds, `NoFullPageFits` gives a simpler sufficient condition, and `OverflowHappens` a concrete store where it fails: `DeleteOverflows` opens it and runs into the overflow. Inserts and deletes alone get there too: `BptReach.ReachOverflow` starts with a new file, inserts ever lower keys until the leftmost page above the leaves is full, deletes below its neighbour until that has one record in a page of one entry left there, and deletes that record.

## The buffer pool (`BufPool`, `BufManager`)

`project3/src/bpt.c`: frames, hash chains, the next and prev links, pins and dirty flags. `ReadPage` is proved transparent: the frame it returns holds the latest content of (table, page) whatever eviction did, and the victim is the least recently used frame nobody holds. The source follows a null pointer when all frames are held; the model returns `!ok` and says exactly when. `prev` of the tail may be stale, so the list invariant does not speak of it.

## The hash join (`JoinTables`, `JoinTree`, `JoinRun`, `Join`)

`project4/src/bpt.cpp`, `join`, `Run`, `build_hash` and `result_sum`, with all their swaps and reorderings. Hypotheses are those the code relies on: join columns are not negative, and predicates connect the tables, each adding one. The sum is taken modulo 2^64.

## Graph, search and set programs

- `MinHeap`, `ShortestPath`, `Dijkstra`: Dijkstra's algorithm without decrease-key. `SumsFit` asks that shortest distances plus one edge stay below INFINITY; 32-bit wrap-around is in the model.
- `PinballBoard`, `Pinball`: the pinball loop, for boards on which every wormhole number occurs at most twice.
- `MazeSets`, `MazeWalls`, `Maze`: union-find maze generation for at least two rows and columns; the values of `rand()` are a given sequence, and the loop ends at its goal or when the sequence does; it reaches its goal whenever every wall is in the sequence.
- `TopOrder`, `TopSort`: Kahn's algorithm with its queue of fixed capacity, for at most 100 vertices.
- `AvlTree`, `Avl`: the four rotations and `Insert` on mutable nodes.

## Model

| member | source | states |
|---|---|---|
| Blocks.WordAtSetWord | OperatingSystem/xv6-public/log.c:102-113 | storing a uint in a block changes that word and no other, byte order and all |
| Bio.BufferCache.constructor | OperatingSystem/xv6-public/bio.c:39-56 | binit: thirty unused buffers in list order, a cache that is coherent with the disk |
| Bio.BufferCache.Bget | OperatingSystem/xv6-public/bio.c:62-93 | the one buffer that caches the block, or else the least recently used clean unreferenced one re-used for it; a dirty buffer is never recycled; the panic "no buffers" exactly when neither exists |
| Bio.BufferCache.Bread | OperatingSystem/xv6-public/bio.c:97-106 | the buffer holds what every reader must see of the block; no reader's view and no pinned block changes; fails exactly when bget panics |
| Bio.BufferCache.Bwrite | OperatingSystem/xv6-public/bio.c:110-116 | the block reaches the disk (memide.c), the buffer is clean again, and views of all other blocks stay |
| Bio.BufferCache.Brelse | OperatingSystem/xv6-public/bio.c:121-141 | the reference is dropped and the last one moves the buffer to the front, the list staying a permutation; views stay |
| Bio.BufferCache.MarkDirty | OperatingSystem/xv6-public/log.c:231 | B_DIRTY pins the block without changing what readers see |
| Bio.PutAllConcat | OperatingSystem/xv6-public/log.c:70-82 | writing two runs of blocks one after the other is writing their concatenation, for disk, views, history and pins |
| RedoLog.HeadRoundTrip | OperatingSystem/xv6-public/log.c:86-113 | read_head undoes write_head for any list of blocks and any old header block |
| RedoLog.Logs | OperatingSystem/xv6-public/log.c:224-230 | log_write's list: the block is there afterwards, nothing else is added, and a block already there is absorbed |
| RedoLog.AppendHarmless | OperatingSystem/xv6-public/log.c:178-190 | writing any prefix of the log blocks over an empty log leaves the outcome of recovery as it was |
| RedoLog.HeaderCommits | OperatingSystem/xv6-public/log.c:102-113 | the header write makes the whole transaction, and exactly it, the outcome of recovery |
| RedoLog.InstallHarmless | OperatingSystem/xv6-public/log.c:70-82 | copying any prefix of the logged blocks home leaves the outcome of recovery as it was |
| RedoLog.EraseHarmless | OperatingSystem/xv6-public/log.c:116-122 | erasing the header once all blocks are home leaves the outcome of recovery as it was, and on disk |
| RedoLog.RecoveryPrefixHarmless | OperatingSystem/xv6-public/log.c:116-122 | a recovery cut short after any of its writes loses nothing; one that ends leaves the outcome on disk and the log empty |
| RedoLog.RecoveryIdempotent | OperatingSystem/xv6-public/log.c:116-122 | recovery interrupted any number of times anywhere ends where one undisturbed recovery ends |
| RedoLog.CommitSwitchPoint | OperatingSystem/xv6-public/log.c:193-202 | after k of commit's writes recovery gives the old state for k up to n and the new one beyond: the switch is the first header write |
| RedoLog.CrashAtomicity | OperatingSystem/xv6-public/log.c:68-202 | a crash between any two of commit's writes, then any number of interrupted recoveries: the home blocks are exactly those before or exactly those after the transaction |
| Log.ReadBoth | OperatingSystem/xv6-public/log.c:74-75 | two blocks held at once, each showing what readers see; goes through when a buffer is free and the second block is pinned, or when two are free |
| Log.CopyBlock | OperatingSystem/xv6-public/log.c:74-80 | the shared body of both copy loops puts one block's view on the other, on disk and in the cache, and every buffer that was free is free again |
| Log.Log.ReadHead | OperatingSystem/xv6-public/log.c:86-96 | lh holds the header block's list; nothing else changes |
| Log.Log.WriteHead | OperatingSystem/xv6-public/log.c:102-113 | one disk write, of the header block with lh in it |
| Log.Log.InstallTrans | OperatingSystem/xv6-public/log.c:70-82 | exactly the home writes of the logged blocks, in order, or a prefix of them when the cache panics |
| Log.Log.WriteLog | OperatingSystem/xv6-public/log.c:178-190 | exactly the log writes of the cached blocks, in order, or a prefix |
| Log.Log.Commit | OperatingSystem/xv6-public/log.c:193-202 | the writes of a commit in order, or a prefix when the cache panics; afterwards the transaction is empty; with nobody holding a buffer it goes through exactly when fewer than NBUF blocks are logged |
| Log.RoomToCommit | OperatingSystem/xv6-public/param.h:11-12 | LOGSIZE and NBUF are the same number: a transaction of that many blocks pins every buffer and leaves none for the log, any smaller one leaves enough |
| Bio.DirtyCount | OperatingSystem/xv6-public/bio.c:62-93 | there are as many dirty blocks as dirty buffers |
| Log.Log.RecoverFromLog | OperatingSystem/xv6-public/log.c:116-122 | the writes of a recovery in order, or a prefix; disk and views agree throughout; goes through whenever two buffers are free, as at boot |
| Log.Log.BeginOp | OperatingSystem/xv6-public/log.c:126-141 | admits a call exactly when no commit runs and its reservation fits |
| Log.Log.LogWrite | OperatingSystem/xv6-public/log.c:213-233 | fails exactly when the log is too full or there is no transaction; else the block is listed once, pinned, and no view changes |
| Log.Log.EndOp | OperatingSystem/xv6-public/log.c:146-174 | the last call out commits everything logged; the others write nothing; panics when a commit is running or commit does |
| Log.StageIsCommitPrefix | OperatingSystem/xv6-public/log.c:193-202 | what Commit leaves on disk after k writes is the disk CrashAtomicity speaks of |
| LogProtocol.NextKeeps | OperatingSystem/xv6-public/log.c:126-233 | for a log area of one block, or of NBUF blocks and more: every step of every interleaving of calls (the size test of log_write and the entry under the lock are two steps), cache traffic, commits, crashes and recoveries keeps the invariant |
| LogProtocol.RunInv | OperatingSystem/xv6-public/log.c:126-233 | so it holds in every state of every run |
| LogProtocol.RunCrashSafe | OperatingSystem/xv6-public/log.c:116-122 | for such a log area: cut the power in any state of any run, and boots interrupted anywhere end with the last state a header write made durable |
| LogProtocol.UncommittedStaysOffDisk | OperatingSystem/xv6-public/log.c:219-232 | for such a log area: until the header write no block of the open transaction has reached its home, and all its blocks are pinned |
| LogProtocol.DurableMovesAtCommit | OperatingSystem/xv6-public/log.c:193-202 | for every log area: what is durable changes only at a header write made with no call running, and becomes what readers see: all calls of the group or none |
| LogProtocol.CommittedView | OperatingSystem/xv6-public/log.c:70-82 | between header write and erasure readers see exactly what is durable |
| LogProtocol.ViewStable | OperatingSystem/xv6-public/bio.c:62-141 | reading, eviction, logging, committing and installing change no reader's view |
| LogProtocol.CommitRunsAlone | OperatingSystem/xv6-public/log.c:146-174 | commit runs only with no call running, so the panic "log.committing" is out of reach |
| LogProtocol.ReservationHolds | OperatingSystem/xv6-public/log.c:126-141 | blocks in the log plus unused reservations never exceed LOGSIZE |
| LogProtocol.ReservedLogWriteFits | OperatingSystem/xv6-public/log.c:218-219 | with a log area larger than LOGSIZE a call with reservation left never meets the size panic |
| LogShort.ShortLogPanics | OperatingSystem/xv6-public/mkfs.c:25 | with a log area of LOGSIZE blocks or fewer, which is what mkfs makes, some run has a call within its promise that panics |
| LogShort.FullLogRefusesAbsorption | OperatingSystem/xv6-public/log.c:218-228 | the size test precedes absorption: in a full log even a block already logged panics |
| LogShort.NeverMore | OperatingSystem/xv6-public/log.c:126-233 | whatever the log area and however calls interleave, the list never holds more than two blocks above what the test admits, nor more than LOGSIZE |
| LogShort.TestsOverfill | OperatingSystem/xv6-public/log.c:218-230 | two or three calls past the test before either enters its block make the list as long as the log area, or one block longer, all within their promise |
| LogShort.ShortLogLosesBlock | OperatingSystem/xv6-public/log.c:178-190 | for every log area of 2 to LOGSIZE - 1 blocks some run of calls within their promise overwrites the home block behind the log area before the header write; no number of recoveries undoes it |
| LogShort.MkfsLogOverfills | OperatingSystem/xv6-public/param.h:11-12 | for a log area of LOGSIZE blocks some run fills it to the last block; the thirty blocks pin the thirty buffers, so that commit cannot make its first copy, and the disk is as it was |
| LogShort.SafeExactly | OperatingSystem/xv6-public/log.c:213-233 | every crash in every state of every run comes back to the last durable state if and only if the log area has one block, or NBUF blocks or more |
| LogGroup.AllOrNothing | OperatingSystem/xv6-public/log.c:126-202 | however the calls of a group interleave, a crash up to the header write of their commit undoes all of them, and a crash after it keeps all of them as readers saw them |
| LogGroup.OneCall | OperatingSystem/xv6-public/log.c:126-233 | a call that logs up to MAXOPBLOCKS home blocks and runs alone takes the log from rest to rest, and whenever the power fails the home blocks are those before the call or those after it |
| LogRefines.BeginShown | OperatingSystem/xv6-public/log.c:126-141 | begin_op is one step of the machine |
| LogRefines.LogWriteShown | OperatingSystem/xv6-public/log.c:213-233 | a block read, changed, tested and entered is three or four steps, which end in the cache contents, pins and list that LogWrite promises |
| LogRefines.CommitShown | OperatingSystem/xv6-public/log.c:193-202 | the first k writes of a commit are k steps of the machine, for every k |
| LogRefines.EndShown | OperatingSystem/xv6-public/log.c:146-174 | end_op, cut short anywhere or not, is one step and as many more as the commit makes writes |
| LogRefines.RecoverShown | OperatingSystem/xv6-public/log.c:116-122 | a boot cut short anywhere or not is a crash step and one step for each write of recovery |
| LogRefines.PathInv | OperatingSystem/xv6-public/log.c:126-233 | the machine's invariant holds in every state on the way of a method, for a log area of one block or of NBUF blocks and more |
| LogRefines.StepBegin | OperatingSystem/xv6-public/log.c:126-141 | BeginOp on the class takes that step, and only when it admits the call |
| LogRefines.StepLogWrite | OperatingSystem/xv6-public/log.c:213-233 | LogWrite on the class takes a path of steps and ends where the machine does |
| LogRefines.StepEnd | OperatingSystem/xv6-public/log.c:146-174 | EndOp on the class takes a path of steps, the panics inside a commit included, and ends where the machine does |
| LogRefines.StepBoot | OperatingSystem/xv6-public/log.c:116-122 | RecoverFromLog on the class takes a path of steps from a crash and ends where the machine does |
| BptTree.OnePlace | DataBaseSystem/bpt/src/bpt.c:108-140 | intervals of pages of one level are disjoint: a key has one place |
| BptTree.Inhabited | DataBaseSystem/bpt/src/bpt.c:108-140 | every interval between separators contains some key |
| BptTree.SplitKeeps | DataBaseSystem/bpt/src/bpt.c:215-396 | splitting any page, in the exact entries the code deals out, keeps the tree well-formed but for the sizes of its three pages |
| BptTree.SplitStores | DataBaseSystem/bpt/src/bpt.c:215-396 | and keeps exactly what is stored |
| BptMerge.MergeKeeps | DataBaseSystem/bpt/src/bpt.c:607-672 | merging an emptied page with its neighbour and dropping the separator keeps the tree well-formed but for sizes |
| BptMerge.MergeStores | DataBaseSystem/bpt/src/bpt.c:607-672 | and keeps exactly what is stored |
| BptMerge.AddRoot | DataBaseSystem/bpt/src/bpt.c:429-454 | a fresh page over the old root is a root |
| BptMerge.DropRoot | DataBaseSystem/bpt/src/bpt.c:582-605 | an internal root without entries gives way to its only child |
| BptStore.StoredFunctional | DataBaseSystem/bpt/src/bpt.c:477-509 | no key is stored twice: what is stored is a map |
| BptStore.AddIsUpdate | DataBaseSystem/bpt/src/bpt.c:195-213 | adding a record with a new key is a map update |
| BptStore.DropIsRemoval | DataBaseSystem/bpt/src/bpt.c:534-580 | dropping a record is a removal from the map |
| BptStore.PagesConserved | DataBaseSystem/bpt/src/bpt.c:54-86 | header, tree pages and free pages are all the pages of the file |
| BptChain.LeafChain | DataBaseSystem/bpt/src/bpt.c:215-299 | following ompo from the leftmost leaf lists exactly the stored records, keys strictly ascending |
| BptPage.PageBuf.InsertRecord | DataBaseSystem/bpt/src/bpt.c:195-213 | the shifting loop leaves the record sequence with the new record put in at its place |
| BptPage.PageBuf.SplitLeaf | DataBaseSystem/bpt/src/bpt.c:215-290 | the temporary array and copy loops deal the 32 records to two chained leaves in order |
| BptPage.PageBuf.LeftIndex | DataBaseSystem/bpt/src/bpt.c:182-193 | the entry whose pointer is the left page, -1 for the first child |
| BptPage.PageBuf.InsertEntry | DataBaseSystem/bpt/src/bpt.c:301-320 | the shifting loop puts the entry in after the left child |
| BptPage.PageBuf.SplitEntries | DataBaseSystem/bpt/src/bpt.c:322-380 | 249 entries dealt to two pages, the middle key going up and its pointer becoming the first child of the right page |
| BptPage.PageBuf.RemoveRecord | DataBaseSystem/bpt/src/bpt.c:534-580 | exactly the key's record goes, the rest closes up, the unused end is zeroed |
| BptPage.PageBuf.RemoveEntry | DataBaseSystem/bpt/src/bpt.c:534-580 | exactly the key's entry goes |
| BptPage.PageBuf.NeighborIndex | DataBaseSystem/bpt/src/bpt.c:517-532 | one less than the entry that points at the page, -2 for the first child |
| BptPage.PageBuf.AppendRecords | DataBaseSystem/bpt/src/bpt.c:655-666 | the right leaf's records appended, its neighbour taken over |
| BptPage.PageBuf.AppendEntries | DataBaseSystem/bpt/src/bpt.c:631-644 | the separating key comes down before the right page's entries |
| Bpt.Db.constructor | DataBaseSystem/bpt/src/bpt.c:11-51 | a new file: a header and 100 free pages, an empty map |
| Bpt.Db.AllocPage | DataBaseSystem/bpt/src/bpt.c:54-75 | the first free page; the file grows, by one page, exactly when the free list is empty; the tree untouched |
| Bpt.Db.Open | DataBaseSystem/bpt/src/bpt.c:41-45 | any file whose tree and free list are well-formed opens to a valid store |
| Bpt.Db.FreePage | DataBaseSystem/bpt/src/bpt.c:78-86 | the page heads the free list; the tree untouched |
| Bpt.Db.FindLeaf | DataBaseSystem/bpt/src/bpt.c:108-140 | the leaf whose interval covers the key; the descent ends |
| Bpt.Db.Find | DataBaseSystem/bpt/src/bpt.c:142-170 | the value the map has for the key, if any |
| Bpt.Db.StartNewTree | DataBaseSystem/bpt/src/bpt.c:456-475 | the first record's leaf becomes the root |
| Bpt.Db.InsertIntoLeaf | DataBaseSystem/bpt/src/bpt.c:195-213 | a leaf with room takes the record: the map gains exactly it |
| Bpt.Db.InsertIntoLeafAfterSplitting | DataBaseSystem/bpt/src/bpt.c:215-299 | a full leaf is split and the split carried up: the map gains exactly the record |
| Bpt.Db.InsertIntoParent | DataBaseSystem/bpt/src/bpt.c:398-427 | a split is made known to the parent, through any cascade of splits up to a new root: the store is well-formed and means the same |
| Bpt.Db.InsertIntoPage | DataBaseSystem/bpt/src/bpt.c:301-320 | the parent has room |
| Bpt.Db.InsertIntoPageAfterSplitting | DataBaseSystem/bpt/src/bpt.c:322-396 | the parent is full: it is split, its moved children told, and the split carried on |
| Bpt.Db.InsertIntoNewRoot | DataBaseSystem/bpt/src/bpt.c:429-454 | the root was split: the tree grows by a level |
| Bpt.Db.Insert | DataBaseSystem/bpt/src/bpt.c:477-509 | insert refines map insert on every well-formed store: -1 and nothing changes exactly when the value is too long or the key is there, else exactly the new binding is added; when the page above the leaf has room, no other page above the leaves changes |
| Bpt.Db.AdjustRoot | DataBaseSystem/bpt/src/bpt.c:582-605 | an empty root gives way to its only child or to no tree; its page is freed |
| Bpt.Db.CoalesceNodes | DataBaseSystem/bpt/src/bpt.c:607-672 | an emptied page is merged away and the parent loses the separator, with the same map; overflows exactly when a full internal neighbour is met |
| Bpt.Db.MergePair | DataBaseSystem/bpt/src/bpt.c:607-672 | two neighbours with room become one page, its children told, the other page freed: the same map, the parent one separator short |
| Bpt.Db.DeleteEntry | DataBaseSystem/bpt/src/bpt.c:674-713 | one entry out of a page and all merges that causes, up to the root: the map loses exactly the key |
| Bpt.Db.Delete | DataBaseSystem/bpt/src/bpt.c:715-737 | delete refines map removal: -1 and nothing changes exactly when the key is absent; else exactly the key goes, unless the chain of merges overflows a page, which happens exactly when Fits fails; when the leaf, or the page above it, has an entry to spare, nothing above that page changes |
| BptShrink.NoFullPageFits | DataBaseSystem/bpt/src/bpt.c:631-644 | if no internal page holds 248 entries every removal fits |
| BptShrink.FitsAfter | DataBaseSystem/bpt/src/bpt.c:674-713 | whether the parent's own removal fits is not changed by the merge below it |
| BptOverflow.OverflowHappens | DataBaseSystem/bpt/src/bpt.c:631-644 | a concrete well-formed store with a well-formed free list, and a stored key whose removal does not fit |
| BptOverflow.DeleteOverflows | DataBaseSystem/bpt/src/bpt.c:631-644 | opened from that store, deleting that key writes past a page's array |
| BptReach.UnderFew | DataBaseSystem/bpt/src/bpt.c:301-320 | a page above the leaves has at most 31 * 249 records below it |
| BptReach.High | DataBaseSystem/bpt/src/bpt.c:429-454 | a tree with more records than that has two levels of pages above its leaves |
| BptReach.ReachOverflow | DataBaseSystem/bpt/src/bpt.c:607-672 | open_db on a new file, then inserts and deletes alone, lead to a delete that writes past a page's array |
| BufPool.RecentTouch | DataBaseSystem/project3/src/bpt.c:267-303 | moving the frame of the page asked for to the recent end keeps the list in order of last use |
| BufPool.DropIndexed | DataBaseSystem/project3/src/bpt.c:158-182 | taking a frame's entry out of its chain leaves the chains indexing exactly the other frames |
| BufPool.AddIndexed | DataBaseSystem/project3/src/bpt.c:183-196 | adding an entry behind the head, or in an empty head, indexes the new page too |
| BufPool.WriteView | DataBaseSystem/project3/src/bpt.c:258-266 | writing a frame back changes nothing for readers |
| BufPool.SwapView | DataBaseSystem/project3/src/bpt.c:197-201 | a frame given to another page, its old one safe in the file, changes nothing for readers |
| BufPool.GrowView | DataBaseSystem/project3/src/bpt.c:217-222 | nor does a frame more |
| BufPool.LinkMiddle | DataBaseSystem/project3/src/bpt.c:293-300 | relinking a frame from the middle leaves one chain along next and prev in the new order |
| BufPool.LinkTail | DataBaseSystem/project3/src/bpt.c:284-292 | so does relinking the least recently used frame; the prev of the tail is never looked at |
| BufManager.Manager.constructor | DataBaseSystem/project3/src/bpt.c:10-24 | an empty pool of num_buf frames |
| BufManager.Manager.FindLocation | DataBaseSystem/project3/src/bpt.c:231-255 | the frame that holds the page, -1 exactly when none does |
| BufManager.Manager.InsertLru | DataBaseSystem/project3/src/bpt.c:267-303 | the frame becomes the most recent one in a list that stays linked both ways; nothing but links changes |
| BufManager.Manager.Victim | DataBaseSystem/project3/src/bpt.c:144-150 | the first frame from the least recent end that nobody holds; fails (a null pointer is followed) exactly when all are held |
| BufManager.Manager.DropHash | DataBaseSystem/project3/src/bpt.c:158-182 | the three cases of deletion from a chain remove exactly the frame's entry |
| BufManager.Manager.AddHash | DataBaseSystem/project3/src/bpt.c:183-196 | the page is indexed under its frame, all others as before |
| BufManager.Manager.WritePage | DataBaseSystem/project3/src/bpt.c:258-266 | the frame's content is in the file; readers see what they saw |
| BufManager.Manager.ReadPage | DataBaseSystem/project3/src/bpt.c:129-229 | transparency: the frame returned holds the latest content of the page and no table's contents change; a recycled frame was the least recently used one not held; held frames keep their pages; fails exactly when the page is in no frame and all frames are held |
| BufManager.Manager.Store | DataBaseSystem/project3/src/bpt.c:466 | a holder's change of its page changes exactly that page for all readers |
| BufManager.Manager.AllocPage | DataBaseSystem/project3/src/bpt.c:85-108 | a page off the free list or one at the end of the file, pinned once, the header updated and let go; succeeds whenever two frames are free |
| BufManager.Manager.FreePage | DataBaseSystem/project3/src/bpt.c:111-126 | the page is emptied and heads the free list; all pins are as before |
| BufManager.Manager.OpenTable | DataBaseSystem/project3/src/bpt.c:31-82 | -1 exactly after ten tables or when open fails; else a new id whose contents are the file's, other tables untouched |
| BufManager.Manager.CloseTable | DataBaseSystem/project3/src/bpt.c:304-323 | the file holds the table's contents, its frames are clean and let go; no other file is written |
| BufManager.Manager.Shutdown | DataBaseSystem/project3/src/bpt.c:325-343 | every file holds its table's contents |
| BufManager.AllocTakes | DataBaseSystem/project3/src/bpt.c:85-108 | allocation takes the first page of the free list, or extends the file when it is empty, and keeps the list well-formed |
| BufManager.FreeAdds | DataBaseSystem/project3/src/bpt.c:111-126 | freeing puts the page at the head of the list |
| BufManager.AllocUndoesFree | DataBaseSystem/project3/src/bpt.c:85-126 | a page freed and allocated again is the page allocated, the header as it was |
| BufManager.FreshList | DataBaseSystem/project3/src/bpt.c:53-63 | a new file's hundred pages are on its free list, the last one first |
| JoinTables.JoinStep | DataBaseSystem/project4/src/bpt.cpp:1161-1285 | the rows Run makes of matching pairs are the join with the new table and predicate: each solution once |
| JoinTables.ColumnHolds | DataBaseSystem/project4/src/bpt.cpp:1174-1182 | a column found by its number in the category row holds that table's value |
| JoinTree.SomeTouches | DataBaseSystem/project4/src/bpt.cpp:1090-1101 | for connected predicates some predicate still to do touches a table already joined |
| JoinTree.TouchesOnce | DataBaseSystem/project4/src/bpt.cpp:1103-1119 | and brings in a new table |
| JoinTree.AllThere | DataBaseSystem/project4/src/bpt.cpp:1089-1124 | when all predicates are done all tables are joined |
| JoinTree.SameSolutions | DataBaseSystem/project4/src/bpt.cpp:1047-1129 | swapping predicates and their sides does not change the solutions |
| JoinRun.NextStep | DataBaseSystem/project4/src/bpt.cpp:1089-1124 | one turn of join's loop keeps: the intermediate result is the join under the predicates done |
| JoinRun.FirstStep | DataBaseSystem/project4/src/bpt.cpp:1074-1087 | the first Run joins two base tables |
| JoinRun.EmptyEarly | DataBaseSystem/project4/src/bpt.cpp:1121-1123 | an empty intermediate result means an empty answer |
| JoinRun.TotalUnique | DataBaseSystem/project4/src/bpt.cpp:1142-1159 | the sum does not depend on the order in which rows are listed |
| JoinRun.TotalIs | DataBaseSystem/project4/src/bpt.cpp:1142-1159 | summing key columns table by table is summing row by row |
| JoinRun.ListsKept | DataBaseSystem/project4/src/bpt.cpp:1047-1129 | the rows of the query as written are those of the query as rearranged |
| Join.MatchesMore | DataBaseSystem/project4/src/bpt.cpp:1195-1210 | the chain of a right row's hash holds all left rows that match it |
| Join.Joiner.BuildHash | DataBaseSystem/project4/src/bpt.cpp:1287-1303 | each row is once in the bucket its value hashes to |
| Join.Joiner.Run | DataBaseSystem/project4/src/bpt.cpp:1161-1285 | entry 0 becomes the equi-join: one row for each matching pair, as a nested loop would give |
| Join.Joiner.ResultSum | DataBaseSystem/project4/src/bpt.cpp:1142-1159 | the 64-bit sum of the key columns over the rows |
| Join.Joiner.FirstRun | DataBaseSystem/project4/src/bpt.cpp:1059-1087 | a predicate on the smallest table goes first when there is one, and the side with fewer rows is the one hashed |
| Join.Joiner.NextRun | DataBaseSystem/project4/src/bpt.cpp:1103-1123 | a turn of the loop: the new table joins the result so far |
| Join.Joiner.Join | DataBaseSystem/project4/src/bpt.cpp:1047-1129 | for connected predicates each adding a table and non-negative join columns: the answer is the sum of the key columns over the cross product filtered by all predicates |
| FsBitmap.BitOfWithBit | OperatingSystem/xv6-public/fs.c:64-66 | setting or clearing a bit of a byte changes that bit and no other |
| FsBitmap.MarkMarks | OperatingSystem/xv6-public/fs.c:57-96 | marking a block changes its bit in the bitmap and no other |
| FsTree.FilesDisjoint | OperatingSystem/xv6-public/fs.c:374-425 | distinct (inode, block index) pairs have distinct disk blocks, marked in use |
| FsTree.OneOwner | OperatingSystem/xv6-public/fs.c:374-425 | no block has two owners |
| FsTree.Alloced | OperatingSystem/xv6-public/fs.c:57-78 | balloc's two writes give a zeroed block that is in use and nobody's |
| FsLink.Linked | OperatingSystem/xv6-public/fs.c:374-425 | hanging a fresh block into one slot keeps all block trees disjoint and accounted for |
| FsLink.LinkedBytes | OperatingSystem/xv6-public/fs.c:374-425 | and leaves all files reading as before |
| FsFile.DataWritten | OperatingSystem/xv6-public/fs.c:526-555 | writing a data block changes no pointer and no other block of any file |
| FsFile.ChunkWritten | OperatingSystem/xv6-public/fs.c:542-548 | one turn of writei's loop: exactly the chunk's bytes change |
| FsTrunc.FreeTurn | OperatingSystem/xv6-public/fs.c:433-479 | when a slot's turn comes its block is still in use: freeing it never hits "freeing free block" |
| FsTrunc.Truncated | OperatingSystem/xv6-public/fs.c:433-479 | after the last turn the other files own what they owned; the middle-level blocks stay marked and are nobody's |
| FsTrunc.TruncBytes | OperatingSystem/xv6-public/fs.c:433-479 | the other files read as before |
| FsCount.BlocksConserved | OperatingSystem/xv6-public/fs.c:57-96 | metadata, owned, leaked and free blocks are all the blocks of the disk |
| FsCount.ChunkFits | OperatingSystem/xv6-public/file.c:126-153 | a chunk of filewrite touches at most 4 data blocks, 3 index blocks and the inode's block |
| FsCount.ContentWritten | OperatingSystem/xv6-public/fs.c:526-555 | as bytes, the file becomes c[..off] + src + c[off + n..], of size max(size, off + n) |
| FsCount.Spent | OperatingSystem/xv6-public/fs.c:57-78 | free blocks and the slots still without a block go down together: a write takes exactly one free block for each slot it fills |
| FsCount.BitmapFew | OperatingSystem/xv6-public/fs.h:49-52 | where the data blocks span at most k bitmap blocks no call logs more than k of them |
| FsCount.TruncFits | OperatingSystem/xv6-public/fs.c:433-479 | so itrunc logs at most k + 1 blocks, and fits MAXOPBLOCKS where the data blocks span at most nine |
| FsCount.OtherContent | OperatingSystem/xv6-public/fs.c:526-555 | every other file is the same sequence of bytes |
| FsInode.GetPutInode | OperatingSystem/xv6-public/fs.c:222-237 | an inode written into its place in an inode block is read back as it was, and the other inodes of the block stay |
| FsInode.ReadBack | OperatingSystem/xv6-public/fs.c:299-307 | when every inode is on disk as it is in memory, reading all of them from the disk gives the inodes in memory |
| FsInode.InodeSaved | OperatingSystem/xv6-public/fs.c:222-237 | writing one inode to its block brings disk and memory into step again and changes neither a pointer nor a byte of any file |
| Fs.FileSystem.constructor | OperatingSystem/xv6-public/mkfs.c:97-115 | the disk mkfs has zeroed, its bitmap marked up to the data blocks, is a valid file system of empty inodes |
| Fs.FileSystem.Mount | OperatingSystem/xv6-public/fs.c:289-313 | the inodes in memory are those on the disk: any disk whose inodes own disjoint marked blocks mounts to a valid file system |
| Fs.FileSystem.Balloc | OperatingSystem/xv6-public/fs.c:57-78 | the first free block, marked and zeroed; none only when every bit is set |
| Fs.FileSystem.Bfree | OperatingSystem/xv6-public/fs.c:82-96 | clears exactly the block's bit |
| Fs.FileSystem.Bmap | OperatingSystem/xv6-public/fs.c:374-425 | the disk block of a file block, allocated with its index blocks if need be; a second call gives the same; every file reads as before |
| Fs.FileSystem.BmapDouble | OperatingSystem/xv6-public/fs.c:400-422 | the double-indirect branch |
| Fs.FileSystem.ITrunc | OperatingSystem/xv6-public/fs.c:433-479 | frees all data blocks and top index blocks of the file and nothing else; leaks exactly the middle-level blocks; every block that changes is logged; nothing but bitmap blocks and the inode's block is, so at most k + 1 where the data blocks span at most k bitmap blocks |
| Fs.FileSystem.FreeDouble | OperatingSystem/xv6-public/fs.c:458-475 | the double-indirect part: every data block below, and the top block, but not the blocks a[j] |
| Fs.FileSystem.ReadI | OperatingSystem/xv6-public/fs.c:497-520 | -1 past the end or on wrap-around; else exactly the slice of the file, cut at its size |
| Fs.FileSystem.WriteI | OperatingSystem/xv6-public/fs.c:526-555 | -1 and nothing changes past the end, on wrap-around or beyond MAXFILE; else exactly bytes off to off + n are replaced, the size grows to hold them, every block below the size is allocated; succeeds exactly when there are as many free blocks as slots to fill, and takes that many; every block that differs is logged |
| Fs.FileSystem.IUpdate | OperatingSystem/xv6-public/fs.c:222-237 | the inode's size and addresses are put into its place in its inode block, which is logged; no other block changes |
| File.OpenFile.FileRead | OperatingSystem/xv6-public/file.c:97-113 | the bytes at the offset, which moves past them |
| File.OpenFile.WriteOp | OperatingSystem/xv6-public/file.c:140-145 | one transaction of at most CHUNK bytes: succeeds exactly when there are as many free blocks as it needs; every block it changes is logged; the log_writes are of blocks from the first inode block on, and fit MAXOPBLOCKS wherever the data blocks span at most two bitmap blocks |
| File.OpenFile.FileWrite | OperatingSystem/xv6-public/file.c:118-156 | chunk after chunk is one write of all the bytes; "short filewrite" is out of reach |
| File.OpenFile.Elsewhere | OperatingSystem/xv6-public/fs.c:433-555 | any writes and truncations of other inodes leave this inode and every byte of its file as they were |
| File.OpenFile.FileWriteAmong | OperatingSystem/xv6-public/file.c:118-156 | with any such calls of other processes before each chunk, the chunks are still one write of the bytes to this file; it stops short only past the end or at MAXFILE |
| FsScatter.MkfsIsWide | OperatingSystem/xv6-public/mkfs.c:23-25 | the superblock mkfs makes for FSSIZE 20000 is one whose data blocks span more than two bitmap blocks |
| FsScatter.WideChunk | OperatingSystem/xv6-public/file.c:126-145 | on every such superblock there is a valid file system and a chunk of filewrite that succeeds and logs 11 blocks, one more than it reserved |
| FsCut.MkfsIsNotVast | OperatingSystem/xv6-public/mkfs.c:23-25 | on the file system mkfs makes for FSSIZE 20000 the data blocks span at most nine bitmap blocks: every truncation fits |
| FsCut.VastTrunc | OperatingSystem/xv6-public/fs.c:433-479 | on every superblock whose data blocks span more than nine there is a valid file system and a file whose truncation logs 11 blocks |
| FsCrash.CrashedWrite | OperatingSystem/xv6-public/file.c:126-153 | one chunk on a disk whose data blocks span at most two bitmap blocks, run as a call of the log's step machine: it takes the log from rest to rest, and whenever the power fails the disk is that before the chunk or that after all of it |
| FsCrash.MountsSame | OperatingSystem/xv6-public/fs.c:289-313 | a disk that comes back with the home blocks of another mounts to the same inodes, the same blocks in use and owned, and the same bytes in every file |
| File.WrittenOn | OperatingSystem/xv6-public/file.c:126-153 | two writes one after the other are one write |
| FreeRing.Inserted | OperatingSystem/xv6-public/umalloc.c:25-44 | putting a block at its place keeps the ring address-ordered |
| FreeRing.Absorbed | OperatingSystem/xv6-public/umalloc.c:33-41 | a block taking over the one it touches keeps the ring and all units |
| FreeRing.TakenWhole | OperatingSystem/xv6-public/umalloc.c:75-83 | taking a whole block out of the ring |
| FreeRing.TakenTail | OperatingSystem/xv6-public/umalloc.c:78-82 | cutting a block's tail off: the new block is disjoint from all live and free ones |
| FreeRing.Ascending | OperatingSystem/xv6-public/umalloc.c:30-32 | free blocks in order of address never overlap |
| FreeRing.SlotOne | OperatingSystem/xv6-public/umalloc.c:30-32 | there is one place for a block in the ring |
| FreeRing.Obtained | OperatingSystem/xv6-public/umalloc.c:47-61 | what sbrk returns is disjoint from everything |
| Umalloc.StopsAt | OperatingSystem/xv6-public/umalloc.c:30-32 | free's search loop stops exactly where the block belongs |
| Umalloc.Freed | OperatingSystem/xv6-public/umalloc.c:33-43 | the two ifs merge the block with exactly the neighbours it touches |
| Umalloc.Allocator.Search | OperatingSystem/xv6-public/umalloc.c:30-32 | the walk ends, at the block's place |
| Umalloc.Allocator.Free | OperatingSystem/xv6-public/umalloc.c:25-44 | the block joins the free ring, no two free blocks touching; live blocks are the others, unchanged; all units accounted for |
| Umalloc.Allocator.Morecore | OperatingSystem/xv6-public/umalloc.c:47-61 | at least 4096 units from sbrk, freed into the ring, or null, exactly when sbrk fails; from 2^28 units on the number of bytes asked for is not positive |
| Umalloc.Allocator.FirstFit | OperatingSystem/xv6-public/umalloc.c:73-89 | the loop goes once round the ring and, after morecore, on to a block with room; it ends, and null comes back exactly when no free block had room and sbrk failed; fails otherwise only on a request of 2^28 units or more that no free block has room for |
| Umalloc.Allocator.Malloc | OperatingSystem/xv6-public/umalloc.c:64-90 | for every uint: null exactly when no free block has room and sbrk fails; else a block disjoint from all live and free ones, large enough exactly when the rounding did not wrap around; live plus free units are the units obtained; the loop ends, the lap after morecore included |
| Umalloc.Allocator.OtherSbrk | OperatingSystem/xv6-public/umalloc.c:54 | memory that other callers obtain from sbrk in between leaves the ring and all blocks in order |
| Umalloc.SizesRight | OperatingSystem/xv6-public/umalloc.c:51-69 | which requests malloc gets wrong: the last seven byte counts of a uint wrap to a header without payload, and from 2^28 units on sbrk is asked for nothing or a negative number |
| PageTables.FramesDiffer | OperatingSystem/xv6-public/vm.c:36-80 | distinct user pages, of one directory or of two, are mapped to distinct frames |
| PageTables.AddTable | OperatingSystem/xv6-public/vm.c:45-52 | a new page table changes no mapping |
| PageTables.SetPte | OperatingSystem/xv6-public/vm.c:61-80 | writing one entry changes one page of one mapping |
| PageTables.MapUser | OperatingSystem/xv6-public/vm.c:61-80 | mapping a fresh frame keeps: every frame is reached from exactly where its owner says |
| PageTables.Unmap | OperatingSystem/xv6-public/vm.c:256-279 | unmapping gives up exactly that frame |
| PageTables.DropDir | OperatingSystem/xv6-public/vm.c:284-298 | a directory given up with all its frames leaves the other address spaces in order |
| Vm.Kernel.Kalloc | OperatingSystem/xv6-public/kalloc.c:83-95 | the first free frame, 0 exactly when there is none; no frame is lost or given twice |
| Vm.Kernel.Kfree | OperatingSystem/xv6-public/kalloc.c:60-77 | the frame heads the free list |
| Vm.Kernel.constructor | OperatingSystem/xv6-public/kalloc.c:32-53 | after kinit every frame of the pool is free, once |
| Vm.Kernel.Walk | OperatingSystem/xv6-public/vm.c:36-55 | the table for the address, made if asked for; mappings unchanged; fails only without memory |
| Vm.Kernel.MapPages | OperatingSystem/xv6-public/vm.c:61-80 | maps exactly the pages of the range to consecutive frames, or a prefix of them and -1 when memory for tables runs out; "remap" is ruled out |
| Vm.Kernel.SetupKvm | OperatingSystem/xv6-public/vm.c:119-136 | a new space that maps the kernel's four regions and nothing else, or 0 with every frame back; succeeds with 67 free frames |
| Vm.Kernel.DeallocUvm | OperatingSystem/xv6-public/vm.c:256-279 | unmaps exactly the pages from newsz up to oldsz and frees exactly their frames, across the jump over absent directory entries; "kfree" panic ruled out |
| Vm.Kernel.AllocUvm | OperatingSystem/xv6-public/vm.c:222-249 | maps exactly the new pages to distinct zeroed frames nobody held; or 0 with mappings and memory as before; succeeds with two free frames a page |
| Vm.RollBack | OperatingSystem/xv6-public/vm.c:235-246 | deallocating what an allocation had done undoes it, but for page tables |
| Vm.Kernel.FreeVm | OperatingSystem/xv6-public/vm.c:284-298 | frees every data, table and directory frame of the space, each once, and no other |
| Vm.Kernel.CopyUvm | OperatingSystem/xv6-public/vm.c:316-345 | a new space with the same bytes and flags at every page below sz, in frames of its own, the source untouched; or 0 with every frame back |
| MinHeap.Heap.Insert | DataStructure/Lab12/p12.c:137-149 | the heap gains exactly the entry and stays ordered; a full heap is left as it is |
| MinHeap.Heap.DeleteMin | DataStructure/Lab12/p12.c:151-168 | the least entry leaves the heap |
| MinHeap.RootLeast | DataStructure/Lab12/p12.c:151-168 | the root of an ordered heap is its least entry |
| ShortestPath.WalkOut | DataStructure/Lab12/p12.c:94-105 | a walk out of the finished vertices costs at least the least heap entry |
| ShortestPath.PopStep | DataStructure/Lab12/p12.c:94-95 | deleteMin gives a vertex whose distance is final, stale duplicates included |
| ShortestPath.RelaxStep | DataStructure/Lab12/p12.c:96-104 | a relaxation that shortens keeps all, at an edge not used before |
| ShortestPath.EdgesFew | DataStructure/Lab12/p12.c:78 | there are fewer edges than heap places |
| ShortestPath.Answered | DataStructure/Lab12/p12.c:94-105 | with the heap empty every distance is the true one |
| ShortestPath.PrevWalk | DataStructure/Lab12/p12.c:106-118 | the chain of predecessors of a reached vertex leads to vertex 1 along a walk of its cost |
| Dijkstra.ShortestPaths | DataStructure/Lab12/p12.c:71-123 | for non-negative weights whose sums fit an int: each distance is the shortest, or INFINITY exactly for vertices out of reach; each printed line is such a walk; an edge inserts at most once, so "Heap is Full" is out of reach |
| Dijkstra.Relax | DataStructure/Lab12/p12.c:96-104 | the edges out of one vertex relaxed |
| Pipe.NextKeeps | OperatingSystem/xv6-public/pipe.c:59-121 | every step of every interleaving of readers, writers, closers and kills keeps the invariant |
| Pipe.RunInv | OperatingSystem/xv6-public/pipe.c:59-121 | so it holds in every state of every run |
| Pipe.ReadsArePrefix | OperatingSystem/xv6-public/pipe.c:79-121 | bytes read are a prefix of bytes written, never more than 512 behind, counters wrapping at 32 bits |
| Pipe.Wraps | OperatingSystem/xv6-public/pipe.c:85 | the 32-bit test for a full pipe is exact |
| Pipe.PutKeeps | OperatingSystem/xv6-public/pipe.c:93 | putting a byte in keeps the buffer the bytes written and not yet read |
| Pipe.GetKeeps | OperatingSystem/xv6-public/pipe.c:116 | so does taking one out |
| Pipe.OneInside | OperatingSystem/xv6-public/proc.c:832-892 | no two processes are inside the pipe lock, or inside ptable.lock |
| Pipe.NoLostWakeup | OperatingSystem/xv6-public/proc.c:832-892 | with the lock free, a reader asleep waits on an empty pipe open for writing (unless a writer was cut short), a writer asleep on a full one open for reading |
| Pipe.CutWhen | OperatingSystem/xv6-public/pipe.c:86-89 | the exception arises only when a write that has put bytes in returns -1 on a full pipe |
| PipeCut.WakeupLost | OperatingSystem/xv6-public/pipe.c:86-89 | and it does arise: a run that ends with a reader asleep on 512 bytes, both ends open, nobody inside |
| PinballBoard.Reversible | Samsung_SW_Practice/S_5650.cpp:53-124 | the step map is injective on valid states, on every board with paired wormholes |
| PinballBoard.StaysIn | Samsung_SW_Practice/S_5650.cpp:53-124 | the ball never leaves the board and its ring |
| PinballBoard.ExitBack | Samsung_SW_Practice/S_5650.cpp:106-123 | wormholes lead back |
| PinballBoard.TurnsDiffer | Samsung_SW_Practice/S_5650.cpp:75-105 | each block turns different ways to different ways |
| Pinball.PathMore | Samsung_SW_Practice/S_5650.cpp:53-124 | no place and way comes twice before the game is over |
| Pinball.OneGame | Samsung_SW_Practice/S_5650.cpp:53-124 | the game a start and a way give is one |
| Pinball.Pinball.FindExit | Samsung_SW_Practice/S_5650.cpp:106-123 | the scan finds the other end |
| Pinball.Pinball.Bounce | Samsung_SW_Practice/S_5650.cpp:75-105 | the turning of the way and the count |
| Pinball.Pinball.Play | Samsung_SW_Practice/S_5650.cpp:48-125 | the loop ends, at a black hole or at the start cell, and the score is the number of blocks and walls hit |
| Pinball.Pinball.Best | Samsung_SW_Practice/S_5650.cpp:44-129 | the best score of all games |
| MazeSets.LinkForest | DataStructure/Lab9/p9.c:56-67 | joining two roots keeps parents acyclic, with the loser's cells now under the winner |
| MazeSets.LinkRanked | DataStructure/Lab9/p9.c:56-67 | a root keeps minus its tree's exact height, and 2 to the height never exceeds the size of the set |
| MazeSets.ZeroParentLost | DataStructure/Lab9/p9.c:60-66 | were cell 0 ever the winner, the array would read as if nothing had been joined |
| Maze.LinkZero | DataStructure/Lab9/p9.c:60-66 | it never is: cell 0 is a lone root or no root, so a positive entry is a parent and nothing else is |
| Maze.JoinedMore | DataStructure/Lab9/p9.c:90-94 | taking down a wall between two sets keeps: one root exactly when there is a way |
| Maze.StillNoCircle | DataStructure/Lab9/p9.c:90-94 | and keeps the walls taken down a forest |
| Maze.WallLeft | DataStructure/Lab9/p9.c:76-97 | while a cell is apart from the first, some wall still up separates two sets |
| Maze.AllWallsDone | DataStructure/Lab9/p9.c:76-97 | once every wall has been drawn the last cell is connected to the first |
| Maze.DisjointSets.Find | DataStructure/Lab9/p9.c:51-55 | ends, at the root |
| Maze.DisjointSets.Union | DataStructure/Lab9/p9.c:56-67 | the two sets become one under the taller root |
| Maze.Init | DataStructure/Lab9/p9.c:35-48 | every cell a set of its own, every wall up |
| Maze.Draw | DataStructure/Lab9/p9.c:77-78 | numbers are drawn until one is of a wall still up |
| Maze.Take | DataStructure/Lab9/p9.c:80-95 | the wall is taken down exactly when its sides were not connected |
| Maze.CreateMaze | DataStructure/Lab9/p9.c:68-98 | for any numbers rand() returns: it ends exactly when the first and last cell are connected through walls taken down, or when the numbers run out; every wall drawn is down or has a way around it; when every wall is among the numbers it reaches its goal |
| TopOrder.NoCycle | DataStructure/Lab11/p11_2.c:146-162 | a graph with such an order has no cycle |
| TopOrder.CycleFrom | DataStructure/Lab11/p11_2.c:156-159 | when every vertex left over has an edge from one left over there is a cycle |
| TopSort.FollowLast | DataStructure/Lab11/p11_2.c:149-153 | following the last edge into a vertex queues it, once, after all its predecessors |
| TopSort.LeftOver | DataStructure/Lab11/p11_2.c:156-159 | fewer vertices out than there are means a cycle |
| TopSort.Queue.Enqueue | DataStructure/Lab11/p11_2.c:198-204 | the value goes behind all ever queued; the array is not circular |
| TopSort.Queue.Dequeue | DataStructure/Lab11/p11_2.c:190-196 | the oldest value not taken out |
| TopSort.Graph.constructor | DataStructure/Lab11/p11_2.c:81-101 | the nodes before the first -1, no edges |
| TopSort.Graph.InsertEdge | DataStructure/Lab11/p11_2.c:103-112 | an edge from every node numbered a to every node numbered b, no other |
| TopSort.Graph.CountEdges | DataStructure/Lab11/p11_2.c:132-138 | indegree counts the edges into each vertex |
| TopSort.Graph.Drain | DataStructure/Lab11/p11_2.c:146-155 | no vertex is queued twice, so rear stays within the array |
| TopSort.Graph.Topsort | DataStructure/Lab11/p11_2.c:123-166 | with at most 100 vertices: a permutation in which every edge goes forward exactly when there is no cycle |
| AvlTree.InsBalanced | DataStructure/Lab6/p6_2.c:92-131 | balance within 1 at every node, at most one level more |
| AvlTree.InsSearch | DataStructure/Lab6/p6_2.c:92-131 | search order kept, exactly X added |
| AvlTree.InsPresent | DataStructure/Lab6/p6_2.c:124-127 | an element already there changes nothing |
| AvlTree.InsSize | DataStructure/Lab6/p6_2.c:92-131 | a new element makes the tree one larger |
| AvlTree.EnoughElements | DataStructure/Lab6/p6_2.c:92-131 | a balanced tree of height h has Fib(h + 3) - 1 elements or more |
| AvlTree.AllInserted | DataStructure/Lab6/p6_2.c:37-41 | every tree main can make is a balanced search tree of exactly the numbers read |
| Avl.SingleRotateWithLeft | DataStructure/Lab6/p6_2.c:52-63 | the nodes relinked are the rotated tree, heights correct |
| Avl.SingleRotateWithRight | DataStructure/Lab6/p6_2.c:64-75 | its mirror image |
| Avl.DoubleRotateWithLeft | DataStructure/Lab6/p6_2.c:76-83 | the double rotation |
| Avl.DoubleRotateWithRight | DataStructure/Lab6/p6_2.c:84-91 | its mirror image |
| Avl.Insert | DataStructure/Lab6/p6_2.c:92-131 | on mutable nodes: the result is the tree insertion makes, in all the old nodes and at most one new one, every stored height correct |
| Avl.InsertAll | DataStructure/Lab6/p6_2.c:37-41 | the loop over the file |

## Left out

- Sleep locks, the `ide` interrupt path and the time a disk write takes: a block write is one step. Locks appear only where a property is about them (`Pipe`, the step machine of `LogProtocol`).
- Inodes: the table of in-memory inodes is a map, filled at the mount; of an on-disk inode the type, device and link fields are carried along unread. `ialloc`, directories, path lookup, link counts and device files are not part of this model.
- Fs.FileSystem.Balloc: the panic "balloc: out of blocks" is a return value; a caller that meets it stops, as the panic would stop it, and what `bmap` had hung into the tree before stays there.
- File.OpenFile.FileWriteAmong: calls of other processes between the chunks of one write are writes and truncations of other inodes; calls on the same inode between two chunks, which the inode's lock allows, are not modelled, nor are two calls of the file system interleaved within their transactions.
- LogProtocol.NextKeeps: what a call computes is any sequence of blocks within its promise of MAXOPBLOCKS; class `Log` is joined to the machine (`LogRefines`), of the computations of `Fs` and `File` one chunk that runs alone (`FsCrash.CrashedWrite`).
- Vm: TLB and CR3 loads, `inituvm`, `loaduvm`, `clearpteu`, `copyout`, `uva2ka` and the lock of `kalloc.c`. Page tables that `allocuvm` made before it failed may stay, as in the source.
- Umalloc: the heap after a request of 2^28 units or more that found no room, where `sbrk` is asked for nothing or less; the contents of payloads, and double frees or frees of foreign pointers, which the source does not detect.
- Pipe: reference counts of files, and freeing of the pipe's page once both ends are closed.
- Bpt: page offsets are page numbers; values are opaque strings of which only the length matters; `open`, `pread` and `pwrite` are an array of pages that never fails; a crash in the middle of an operation is not modelled.
- BufManager: hash chains are sequences behind each head slot, so the allocation and freeing of chain nodes is not modelled; a table's file opened twice under two ids, read and write errors and a crash are not modelled. Changes callers make to a page they hold, and the release of a pin, are the methods `Store` and `Unpin`.
- Bpt and BufManager are not composed: `bpt.c` of the first project has no pool, and the tree code of the third repeats it.
- The limit of NBUF buffers is in class `Bio.BufferCache` and class `Log`; the step machine has one consequence of it, that `write_log` makes no copy when NBUF blocks are pinned, and for the rest a panic for want of a buffer is there a run that goes no further.
- Join.Joiner.Join: reading tables from files and parsing the query text.
- Maze.CreateMaze: that `rand()` eventually draws every wall; when it does the maze is done.
- Avl, TopSort, Dijkstra, Pinball: reading the input files, printing, failure of `malloc`, and `DeleteTree`.
- S_5656.cpp (block game), grep.c (regular expressions) and p13_2.c (breadth-first search): smaller programs of kinds already covered.
- project5 (lock table), the process and thread life cycle and the schedulers of proc.c, exec, hardware and boot code, mkfs, user programs, printing and menus, and the remaining exercises.
