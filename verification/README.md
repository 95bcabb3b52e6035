# xv6 with stride scheduling, threads and large files: a Dafny model

This project models the core of an x86 xv6 kernel that has been extended with double and triple
indirect file blocks, a scheduler that combines an MLFQ with stride scheduling, and light-weight
threads, and proves what that core is for: that the log makes file-system operations atomic across
crashes, that the block map is a flat byte array that never shares a block, that the buffer cache
never shows stale data, that scheduling is fair and nobody waits forever, that no wakeup is lost,
that page frames and heap blocks are neither lost nor shared.

`dafny verify dfyconfig.toml` checks everything.

| files | what they model |
|---|---|
| `LogDisk`, `LogMachine`, `LogRefinement`, `LogQuiescence`, `LogReservation` | the write-ahead log as a state machine with a crash possible between any two block writes; its refinement of a disk with atomic transactions; what a crash brings back; the space it reserves |
| `BufferCache`, `LogCode`, `LogRun` | bio.c's cache over the synchronous disk of memide.c; log.c's functions over that cache, each shown to take the disk through the states of the machine; and every sequence of their calls, with crashes, as a run of the machine |
| `BlockTree`, `InodeCode`, `FileBytes`, `FileCode` | the bitmap, the four-way block tree of an inode, and readi, writei and filewrite over it |
| `OpLog`, `OpBudget`, `FileBuild`, `OpExact` | what bmap, writei, filewrite and itrunc give to log_write, exactly when that keeps to MAXOPBLOCKS, and the files built to show when it does not |
| `FileLog` | a chunk of filewrite as a transaction of log.c's code: the blocks writei changes, on a disk image, through begin_op, log_write and end_op, with power cut anywhere |
| `SchedState`, `SchedFair`, `SchedWait`, `SchedShare`, `SchedCode`, `Circle` | the scheduler as functions, its fairness, its bounded waiting, its shares, and its loops |
| `SleepProtocol` | sleep and wakeup with a program counter per thread; sleep locks and the log as clients |
| `ProcTable`, `UserStacks` | the process and thread tables, and the user stacks that threads hand on |
| `PageFrames`, `VmCode`, `VmSpaces` | page directories, page tables and the frame free list; the address spaces of many processes under sbrk, fork and wait |
| `HeapList`, `HeapCode` | the K&R allocator |
| `PipeRing`, `GrepMatch` | the pipe's ring buffer and grep's matcher |
| `Arith` | the range of an unsigned int, and facts about division |

Where the source works in place, the model is a class or a method with loops whose contract ties
it to functions on values; what is promised is proved about those functions, for all inputs and
over all runs. Where the source panics, a method returns `ok == false` (or the contract shows that
it cannot happen). The block geometry (NINDIRECT) and the number of log blocks are parameters.

Where code and intent disagree, the model follows the code, and a lemma says exactly when the
intended property holds:

- the guard of log_write is `log.size - 1`, and mkfs makes `log.size == LOGSIZE`: one block short of
  what the reservation promises (`LogReservation.GuardHoldsIff`);
- log_write refuses an already listed block when the list is full, so an operation may log a block of
  its own again if and only if it has not used up its reservation (`LogReservation.RepeatHoldsIff`);
- NBUF equals LOGSIZE, and commit needs one buffer more than the list is long (`LogCode.Log.Commit`): no
  log size makes both the guard and the commit safe unless NBUF exceeds LOGSIZE (`LogReservation.NoLogSize`);
- itrunc logs a bitmap block for every 4096 blocks of disk that the file touches, so it keeps to
  MAXOPBLOCKS on every file if and only if the disk has at most nine bitmap blocks, and the one mkfs
  makes has ten (`OpBudget.TruncFitsIff`, `OpBudget.TruncExceeds`);
- a chunk of filewrite may allocate across a boundary between bitmap blocks, so from the double-indirect
  blocks on every chunk keeps to MAXOPBLOCKS if and only if the disk has at most two bitmap blocks, and from
  the triple-indirect blocks on if and only if it has one or cannot hold such a file
  (`OpExact.ChunksFitIff`); on the disk mkfs makes some chunk goes over on either level (`OpExact.ChunksExceed`);
- sbrk of exactly minus the size unmaps every page and reports failure with the size kept, so growproc
  keeps every page below the size mapped if and only if that is not the request
  (`VmSpaces.Spaces.Growproc`), and a fork after it meets the panic of copyuvm (`VmSpaces.EmptiedSpace`);
- a shrinking sbrk does not look at the stacks of threads: they stay inside the process if and only if
  the new size lies above them (`UserStacks.SizedOk`);
- ualloc puts a new stack at the size, whatever it is, while pages are mapped and guarded whole: the stack's
  pages lie beyond the old memory, and the next stack's guard page is not its last page, if and only if the size
  was a multiple of a page (`UserStacks.BeyondIff`, `UserStacks.SecondShares`); a step keeps the stacks on whole
  pages if and only if it is not such a call (`UserStacks.StaysAligned`);
- brelse accepts a buffer that was changed and neither pinned nor written: the cache stays coherent if
  and only if there is none (`BufferCache.UnlockedCoherent`);
- set_cpu_share compares an unsigned difference, so it keeps the shares in order if and only if the
  request does not exceed what there is (`SchedShare.ConservedIff`);
- malloc's rounding wraps for the last seven sizes (`HeapCode.LargeEnoughIff`), and its request to
  sbrk is negative from 2 GB on (`HeapCode.SbrkCountIff`);
- bmap maps fewer blocks than MAXFILE promises, because it does not rebase the block number between
  its levels (`FileCode.ShortOfMaxfile`); an accepted write panics if it reaches beyond them, and
  otherwise only on a full disk (`FileCode.Writei`);
- wait gives a zombie's share back to nobody, so it keeps the sum of shares if and only if the
  process had left STRIDE before (`SchedShare.ReapIff`).

## Model

| member | source | states |
|---|---|---|
| `LogDisk.InstalledKeepsRecovered` | xv6-public/log.c:69-82 | install_trans cut after any of its writes leaves a disk that stands for the same contents |
| `LogDisk.RecoveryStateKeepsRecovered` | xv6-public/log.c:115-122 | recovery cut after any write stands for the same contents; when it finishes the home blocks hold them and the log is empty |
| `LogDisk.RepeatedRecovery` | xv6-public/log.c:115-122 | any number of crashes during recovery, then one that finishes, gives the contents of one uninterrupted recovery |
| `LogDisk.CommitPoint` | xv6-public/log.c:98-113 | writing the header is the commit point: the disk then stands for the cached contents |
| `LogDisk.CommitAtomic` | xv6-public/log.c:176-202 | commit cut after any write stands for the old contents up to the header write and for the new ones from then on |
| `LogDisk.CrashAtomicity` | xv6-public/log.c:69-122 | a crash after any write of commit, any number of crashes in recovery, then a finished recovery: exactly the old contents, or exactly the new ones once the header had reached the disk |
| `LogMachine.InitInv` | xv6-public/log.c:53-66 | every power-up state satisfies the invariant |
| `LogMachine.LogEntry` | xv6-public/log.c:213-233 | log_write, with or without absorption, keeps the state from which commit may start |
| `LogMachine.StepInv` | xv6-public/log.c:125-233 | begin_op, log_write, end_op, each write of commit and recovery, and a crash all keep the invariant that the disk stands for the contents as of the last commit |
| `LogRefinement.StepRefines` | xv6-public/log.c:125-233 | each step is one step of a disk with atomic transactions |
| `LogRefinement.RunRefines` | xv6-public/log.c:125-233 | every run, with any interleaving and any crashes, does to the disk what the atomic disk does |
| `LogRefinement.FrozenWhileCommitting` | xv6-public/log.c:145-174 | while committing no operation is outstanding, nothing changes the list or the cached contents, and the panic in end_op is unreachable |
| `LogHistory.RunHistInv` | xv6-public/log.c:125-233 | over every run the committed contents are those of a prefix of the surviving writes, and the cache shows all of them |
| `LogHistory.AllOrNothing` | xv6-public/log.c:125-174 | after any run from power-up, no operation has writes on both sides of the committed prefix: each is wholly committed or wholly not |
| `LogQuiescence.CommittedStep` | xv6-public/log.c:192-202 | the committed contents change only with the header write, and then to what readers see with no operation running |
| `LogQuiescence.GoodAfterCrash` | xv6-public/log.c:115-202 | any property that holds of the file system whenever no operation runs holds of what recovery brings back after a crash at any point of any run |
| `LogReservation.StepReserved` | xv6-public/log.c:125-174 | each step keeps (blocks of ended operations) + outstanding * MAXOPBLOCKS <= LOGSIZE, given that no operation logs more than MAXOPBLOCKS blocks |
| `LogReservation.RunReserved` | xv6-public/log.c:132-136 | the reservation holds over every run |
| `LogReservation.ListBound` | xv6-public/log.c:132-136 | the reservation bounds the list: lh.n never exceeds LOGSIZE |
| `LogReservation.GuardHoldsIff` | xv6-public/log.c:218-219 | log_write's panic is unreachable for operations within budget if and only if LOGSIZE blocks follow the header, that is log.size >= LOGSIZE + 1 |
| `LogReservation.RepeatHoldsIff` | xv6-public/log.c:218-230 | in every run within budget an operation that has logged w blocks may log one of them again, if and only if w < MAXOPBLOCKS |
| `LogReservation.CommitFitsIff` | xv6-public/log.c:176-190 | in no run within budget does commit find every buffer pinned, if and only if the longest list the guard admits is empty or shorter than the cache |
| `LogReservation.NoLogSize` | xv6-public/param.h:11-13 | some log size makes both log_write and commit safe if and only if there are more than LOGSIZE buffers; NBUF is LOGSIZE |
| `BufferCache.MoveToFront` | xv6-public/bio.c:130-138 | the six assignments of brelse keep the list a cycle through the same buffers, with this one in front, and change nothing else |
| `BufferCache.RecycleKeepsView` | xv6-public/bio.c:81-91 | recycling an unreferenced, unpinned buffer changes what no reader of any block sees |
| `BufferCache.UpdateView` | xv6-public/bio.c:95-106 | a change of one buffer is seen by readers of its block and no other |
| `BufferCache.UnlockedCoherent` | xv6-public/bio.c:118-141 | giving up a held buffer keeps the cache coherent if and only if its change was pinned or written |
| `BufferCache.ReadableIff` | xv6-public/bio.c:61-93 | with no buffer in use, a block that is not pinned can be read if and only if fewer blocks are pinned than there are buffers |
| `BufferCache.PinnedCount` | xv6-public/bio.c:78-83 | no two buffers are pinned for one block: the pinned blocks number the buffers exactly when every buffer is pinned |
| `BufferCache.PinnedApart` | xv6-public/bio.c:78-83 | with one buffer held and not pinned, all others are pinned exactly when the pinned blocks number one less than the buffers |
| `BufferCache.Bcache.Binit` | xv6-public/bio.c:38-56 | the list is a well-linked permutation of the buffers, the last buffer first |
| `BufferCache.Bcache.FindCached` | xv6-public/bio.c:68-76 | following the links finds the one buffer for the block, if there is one |
| `BufferCache.Bcache.FindUnused` | xv6-public/bio.c:78-91 | the least recently used buffer that is neither referenced nor pinned, if there is one |
| `BufferCache.Bcache.Bget` | xv6-public/bio.c:61-93 | the cached buffer, ours or another holder's whose sleep lock we wait for; else the least recently used free one, recycled; panics exactly when there is neither; keeps at most one buffer per block and what every reader sees |
| `BufferCache.Bcache.IderwWrite` | xv6-public/memide.c:54-59 | one atomic block write; readers see what they saw; the block is no longer pinned |
| `BufferCache.Bcache.IderwRead` | xv6-public/memide.c:57-59 | the buffer gets the block's contents; readers see what they saw |
| `BufferCache.Bcache.Bread` | xv6-public/bio.c:95-106 | a held buffer with the latest contents, never a stale re-read; or a wait exactly when another holds the block; or a panic exactly when no buffer is cached or free; no reader's view and no pin changes |
| `BufferCache.Bcache.Resume` | xv6-public/bio.c:73-74 | a reader that waited gets the buffer with what readers see now, though the holder may have changed it meanwhile |
| `BufferCache.Bcache.Pin` | xv6-public/log.c:231-232 | the block joins the pinned ones; nothing else changes |
| `BufferCache.Bcache.Bwrite` | xv6-public/bio.c:108-116 | the disk gets the buffer's contents; readers see what they saw |
| `BufferCache.Bcache.Brelse` | xv6-public/bio.c:118-141 | the buffer is given up and, if nobody refers to it, becomes the most recently used; readers, pins and disk are unchanged; the cache stays coherent exactly when the holder had pinned or written what it changed |
| `LogCode.HeaderLists` | xv6-public/log.c:84-113 | the header block round trip: what write_head packs, read_head unpacks |
| `LogCode.ParseLogWrite` | xv6-public/log.c:183-186 | writing a log block on the raw disk changes that log block of the abstract disk and nothing else |
| `LogCode.ParseHomeWrite` | xv6-public/log.c:75-78 | writing a home block on the raw disk changes that home block and nothing else |
| `LogCode.ParseHeadWrite` | xv6-public/log.c:101-113 | writing the header block on the raw disk changes the list and nothing else |
| `LogCode.Log.constructor` | xv6-public/log.c:59-64 | before recovery: an empty list over a cache on a disk that has the log area |
| `LogCode.Log.WriteLog` | xv6-public/log.c:176-190 | copies what readers see of the listed blocks to the log, taking the disk through the first states of a commit; panics exactly when every buffer is pinned, before its first write |
| `LogCode.Log.InstallTrans` | xv6-public/log.c:68-82 | takes the disk through the states of a recovery and unpins exactly the listed blocks; panics exactly when the first round does, for lack of a buffer for the log's copy or, unless the first home block is pinned, for that; nothing has been written then |
| `LogCode.InstallGoesOn` | xv6-public/log.c:74-81 | once the first block is installed two buffers are free, so no later round panics |
| `LogCode.Log.PackHeader` | xv6-public/log.c:105-110 | the loop packs exactly the list into the header block |
| `LogCode.Log.WriteHead` | xv6-public/log.c:98-113 | one block write that makes the list on disk the list in memory; no home block's readers notice; panics exactly when every buffer is pinned |
| `LogCode.Log.InstallAndClear` | xv6-public/log.c:198-200 | install_trans and the clearing write go through all states of a recovery; they panic exactly when every buffer is pinned or install_trans would, with nothing written |
| `LogCode.Log.Commit` | xv6-public/log.c:192-202 | the disk goes through exactly the states of the commit, one block write at a time; readers see no change; afterwards nothing is pinned and the log is empty; panics exactly when there is something to commit and as many blocks are listed as there are buffers, and then before its first write |
| `LogCode.CommitEndsAsRecovery` | xv6-public/log.c:192-202 | from its header write on, commit goes through the states of a recovery |
| `LogCode.Log.UnpackHeader` | xv6-public/log.c:89-94 | the loop takes exactly the list out of the header block |
| `LogCode.Log.ReadHead` | xv6-public/log.c:84-96 | the list in memory becomes the list on disk; needs one buffer |
| `LogCode.Log.RecoverFromLog` | xv6-public/log.c:115-122 | the disk goes through the states of a recovery, and readers then see exactly what it recovers; finishes exactly with two buffers, or one and nothing to install, and otherwise writes nothing |
| `LogCode.Log.LogWrite` | xv6-public/log.c:213-233 | panics exactly under the source's conditions; otherwise the list gains the block unless absorbed; the pinned blocks stay exactly the listed ones |
| `LogCode.Log.Update` | xv6-public/log.c:204-233 | an operation's bread, change, log_write and brelse: readers see the change and nothing else; panics exactly when the list is full or the block is not listed and all buffers are |
| `LogCode.Log.FindEntry` | xv6-public/log.c:224-227 | the index of the block's first entry, or n |
| `LogCode.Log.EndOp` | xv6-public/log.c:143-174 | only the last operation commits, and then completely; readers see no change; panics exactly when a commit is under way or the commit has no buffer left |
| `LogRun.Begin` | xv6-public/log.c:125-141 | begin_op enters exactly when the machine's begin step is enabled, and is that step |
| `LogRun.Write` | xv6-public/log.c:204-233 | bread, change, log_write and brelse together are the machine's log-write step; they panic exactly when it is not enabled or no buffer is left |
| `LogRun.CommitRun` | xv6-public/log.c:192-202 | the writes of a commit are enabled one after the other, and lead through its states |
| `LogRun.RestoreRun` | xv6-public/log.c:115-122 | so are the writes of a recovery |
| `LogRun.EndRun` | xv6-public/log.c:145-174 | the end of the last operation and the first j writes of its commit are a run of the machine to the commit's state j |
| `LogRun.EndWholeRun` | xv6-public/log.c:143-174 | the whole of an end_op is a run of the machine that keeps the contents and, if the operation was the last, commits them and empties the list |
| `LogRun.End` | xv6-public/log.c:143-174 | end_op is exactly the machine's end step and, for the last operation, all writes of the commit and its end: readers see what they saw, and what the last operation ends with is durable; cut after any of its block writes it leaves the disk of a run of the machine; it panics, with nothing written, exactly when there is a list to commit and no buffer left |
| `LogRun.Boot` | xv6-public/log.c:53-66 | initlog on any image with a log: recovers, and readers then see the recovered contents; the disk goes through the states of a recovery |
| `LogRun.Restart` | xv6-public/log.c:53-66 | a crash, any number of power-ups cut after any of their writes, and one that is not: a run of nothing but crashes and recovery steps that brings back exactly the committed contents; comes up exactly with two buffers, or one and nothing to install |
| `LogRun.EndAndCut` | xv6-public/log.c:143-174 | power lost inside end_op after any number of its block writes, and the restarts after it: the machine's end step and that many commit writes, then crash and recovery; the transaction is there afterwards exactly if the header had been written |
| `LogRun.Step` | xv6-public/log.c:53-233 | every call, and every cut, is exactly the machine's steps for it and leaves code and machine in agreement; or a panic, exactly when the machine's state predicts one |
| `LogRun.Run` | xv6-public/log.c:53-233 | every sequence of calls and cuts of log.c's code is, call by call, the machine's steps for those calls, each from the state the last one left; it stops only at a call at which the state it has reached predicts a panic |
| `LogRun.PowerUp` | xv6-public/log.c:53-233 | the same from any image with a log on: it comes up with what recovery gives, and after the run the code's disk holds each operation wholly or not at all |
| `BlockTree.WordOfWithWord` | xv6-public/fs.c:390-393 | storing an entry of an index block changes that entry and no other |
| `BlockTree.PlaceWithin` | xv6-public/fs.c:372-452 | every block below NDIRECT + NTINDIRECT has a place inside the tree |
| `BlockTree.PlaceInjective` | xv6-public/fs.c:372-452 | no two block numbers of a file, and no two files, share a place, although bn is not rebased |
| `BlockTree.AllocRoot` | xv6-public/fs.c:378-380 | allocating for an inode slot keeps every block at exactly one place |
| `BlockTree.AllocSub` | xv6-public/fs.c:391-394 | allocating for an index entry keeps every block at exactly one place |
| `BlockTree.BelowAll` | xv6-public/fs.c:473-483 | what hangs under an index block is what its entries name and itself, each once |
| `BlockTree.TreeWithoutOk` | xv6-public/fs.c:459-537 | an inode's tree taken out leaves the other trees well formed |
| `BlockTree.MarksWithout` | xv6-public/fs.c:459-537 | with exactly that inode's bits cleared, the marked blocks are exactly those of the others |
| `InodeCode.Fs.constructor` | xv6-public/mkfs.c:238-251 | an image whose metadata blocks are marked and no others; all inodes empty |
| `InodeCode.Fs.Balloc` | xv6-public/fs.c:55-78 | the first block whose bit is clear is marked, zeroed and logged with its bitmap block; panics exactly when none is |
| `InodeCode.Fs.FreeBlock` | xv6-public/fs.c:80-95 | of a marked block: no panic, exactly its mark is gone, and exactly its bitmap block is logged |
| `InodeCode.Fs.RootBlock` | xv6-public/fs.c:378-380 | the block at a slot; allocated only if missing; nothing that was mapped changes |
| `InodeCode.Fs.SubBlock` | xv6-public/fs.c:389-395 | the block at an index entry; allocated only if missing; nothing that was mapped changes |
| `InodeCode.Fs.SingleBlock` | xv6-public/fs.c:385-397 | the single-indirect case reaches the block's place |
| `InodeCode.Fs.DoubleBlock` | xv6-public/fs.c:399-419 | the double-indirect case reaches the block's place |
| `InodeCode.Fs.TripleBlock` | xv6-public/fs.c:421-450 | the triple-indirect case reaches the block's place |
| `InodeCode.Fs.Bmap` | xv6-public/fs.c:370-452 | returns the block at the place of bn, changes nothing if it was mapped, never moves a mapped block, allocates first fit, logs exactly what it allots, the index blocks that name it and its bitmap blocks, changes no block on disk that it does not log, and panics only beyond NDIRECT + NTINDIRECT or on a full disk |
| `InodeCode.Fs.FreeIndex` | xv6-public/fs.c:473-533 | the loops over one, two and three levels of index blocks free exactly what hangs there, each block once |
| `InodeCode.Fs.TruncSlot` | xv6-public/fs.c:466-533 | one slot is emptied, and exactly what hung under it loses its bits |
| `InodeCode.Fs.TruncAll` | xv6-public/fs.c:466-533 | all slots are emptied |
| `InodeCode.Fs.Itrunc` | xv6-public/fs.c:454-537 | exactly the inode's blocks lose their bits, each once, so "freeing free block" is unreachable; data, other inodes and their trees are unchanged; the inode on disk is updated; exactly the bitmap blocks of the freed blocks and the inode are logged |
| `OpLog.AllotsBelow` | xv6-public/fs.c:385-450 | what the levels of bmap log adds up |
| `OpLog.CoveredTrans` | xv6-public/log.c:204-211 | that no block changes on disk without being given to log_write carries over from call to call |
| `OpLog.WriteLogsMore` | xv6-public/fs.c:600-606 | what the rounds of writei log adds up: the blocks spanned, what was allotted on the way, the index blocks that name it and its bitmap blocks |
| `OpBudget.SameLeaf` | xv6-public/fs.c:383-450 | blocks whose numbers agree after division by NINDIRECT hang below one index block, although bn is not rebased |
| `OpBudget.NewPlace` | xv6-public/fs.c:372-452 | a place that a write after a mapped block makes new is a data block's, or on the way to the last block; the index block that names it is on that way or above the mapped block |
| `OpBudget.ChunkBudget` | xv6-public/file.c:127-133 | a chunk of three blocks' length logs the inode, at most four data blocks, at most 0, 1, 3 or 4 index blocks by the height of the tree, and the bitmap blocks of what it allocates |
| `OpExact.ChunkCount` | xv6-public/file.c:127-133 | so it logs at most 8, 10, 8 + b or 9 + b blocks by the level of its last block, b being the bitmap blocks of the disk |
| `FileBuild.Build` | xv6-public/fs.c:372-452 | for every plan that lists places after what they hang below, with a block of its own each, there is a disk whose files have exactly those blocks at those places |
| `OpExact.ChunkExceeds` | xv6-public/file.c:127-133 | on a disk whose free blocks can straddle enough bitmap blocks there is a file and a chunk, allocated first fit, that logs more than MAXOPBLOCKS blocks |
| `OpExact.ChunkHolds` | xv6-public/fs.c:421-450 | a chunk that reaches the triple-indirect blocks needs a disk with room for every place before them |
| `OpExact.ChunksFitIff` | xv6-public/file.c:127-133 | all chunks that end on a level of the tree keep to MAXOPBLOCKS if and only if it is one of the first two levels, or the disk has at most two bitmap blocks on the third and one on the fourth, or cannot hold a file that reaches the fourth |
| `OpExact.ChunksExceed` | xv6-public/param.h:11-14 | on the disk of FSSIZE blocks, if and only if it is one of the first two levels |
| `OpBudget.RewriteLogs` | xv6-public/fs.c:600-606 | a chunk that allocates nothing and does not grow the file logs the data blocks it spans and nothing else |
| `OpBudget.TruncBound` | xv6-public/fs.c:454-537 | itrunc logs at most the inode and every bitmap block |
| `OpBudget.TruncFitsIff` | xv6-public/fs.c:454-537 | itrunc of every file on a disk keeps to MAXOPBLOCKS if and only if the disk has fewer bitmap blocks than that |
| `OpBudget.TruncExceeds` | xv6-public/param.h:11-14 | the disk of FSSIZE blocks has a file whose itrunc logs more than MAXOPBLOCKS blocks |
| `FileCode.RunBlockOps` | xv6-public/fs.c:372-537 | over every run of bmap and itrunc on many inodes, each doing what its call says to the state the last one left, each marked data block has exactly one place; it stops only at a bmap beyond NDIRECT + NTINDIRECT or on a full disk |
| `FileBytes.WroteMore` | xv6-public/fs.c:600-606 | the rounds of writei's loop add up to one write |
| `FileCode.WrapsIff` | xv6-public/fs.c:595-596 | the unsigned test detects exactly the overflow |
| `FileCode.ShortOfMaxfile` | xv6-public/fs.h:28 | bmap's range is short of MAXFILE by NINDIRECT + NDINDIRECT blocks |
| `FileCode.BeyondIff` | xv6-public/fs.c:451 | a write reaches a byte bmap cannot map if and only if it ends beyond NDIRECT + NTINDIRECT blocks |
| `FileCode.WriteRound` | xv6-public/fs.c:601-605 | one round writes its piece of the file and nothing else |
| `FileCode.WriteLoop` | xv6-public/fs.c:600-606 | the loop writes the whole range and nothing else |
| `FileCode.WroteInside` | xv6-public/fs.c:608-611 | a write that does not grow the file allocates nothing, so the inode on disk needs no update |
| `FileCode.Writei` | xv6-public/fs.c:580-613 | changes exactly the bytes off..off+n-1 of this file and its size, no other file; keeps every block below each size mapped and the inodes on disk equal to those in memory; -1 and nothing changed exactly beyond the end or MAXFILE; an accepted write that reaches beyond bmap's range panics, any other only on a full disk; logs exactly what ChunkLogs says |
| `FileCode.ReadRound` | xv6-public/fs.c:571-576 | one round returns the bytes there and allocates nothing |
| `FileCode.Readi` | xv6-public/fs.c:552-578 | returns the bytes of the flat file at off, as many as there are; -1 exactly beyond the end or on overflow; changes and logs nothing |
| `FileCode.WriteChunk` | xv6-public/file.c:135-152 | one turn of the loop writes min(n - i, three blocks) bytes where the last one stopped, or is refused by writei and changes nothing |
| `FileCode.Filewrite` | xv6-public/file.c:115-156 | all chunks together do what one flat write does; -1 only after a refused chunk; panics only on a full disk or beyond bmap's range, and there always if accepted; every transaction logs at most nine blocks besides its bitmap blocks |
| `FileCode.ReadBack` | xv6-public/fs.c:552-613 | a later read of the range returns what was written, and the rest as it was |
| `FileCode.Truncate` | xv6-public/fs.c:454-537 | one file becomes empty; every other file keeps its bytes; the operation logs what TruncLogs says |
| `FileLog.OnlyLogged` | xv6-public/log.c:204-211 | a block of the disk image that was not given to log_write is the same before and after the operation |
| `FileLog.AllUpdated` | xv6-public/log.c:204-211 | the old image with every logged block replaced is the new image |
| `FileLog.BlocksCount` | xv6-public/log.c:213-233 | no more disk blocks are logged than the operation counts: several inodes may share one |
| `FileLog.Transact` | xv6-public/log.c:125-174 | begin_op, log_write of a set of blocks and end_op in log.c's code, with power cut after any log_write or any block write: readers see and the disk stands for all of the changes, exactly when the header was written, or none; panics exactly when a block finds no room or no buffer is left |
| `FileLog.FileChunk` | xv6-public/fs.c:580-613 | what writei changes on disk is what it logs, and lies in the disk |
| `FileLog.Chunk` | xv6-public/file.c:140-145 | one transaction of filewrite over log.c's code: wherever power is cut, readers see and the disk stands for the file system before the chunk or the one after it, the latter exactly when power was not cut or the header had been written; it survives exactly when its blocks find room in list and cache, and always with room for nine blocks and the bitmap |
| `SchedState.StrideIn` | xv6-public/scheduler.c:67-85 | the ready STRIDE process of least pass, the first of equals, if there is one |
| `SchedState.MlfqFrom` | xv6-public/scheduler.c:87-102 | the first ready MLFQ process after the pin, the pin itself last, if there is one |
| `SchedState.Round` | xv6-public/scheduler.c:141-192 | a pass of the loop keeps what the code relies on: pin on the table, levels with a quantum, shares to divide by |
| `SchedState.ReduceInvisible` | xv6-public/scheduler.c:50-66 | reduce changes no pass difference, no MLFQ entry and no choice of getschedproc |
| `SchedState.HeldBack` | xv6-public/scheduler.c:58-60 | one STRIDE process below MAXPASS, asleep or not, holds reduce back |
| `SchedFair.PickLeast` | xv6-public/scheduler.c:104-123 | getschedproc serves a client of least pass among the active ones |
| `SchedFair.RoundClients` | xv6-public/scheduler.c:176-181 | a round raises the pass of the client it serves by the price of the turn, and no other, up to reduce |
| `SchedFair.StepWithin` | xv6-public/scheduler.c:141-192 | one round keeps the spread of active clients within the larger of its start and one turn's price |
| `SchedFair.SpreadBounded` | xv6-public/scheduler.c:141-192 | the same over every run with fixed shares, whatever the other processes do |
| `SchedFair.TicksPaid` | xv6-public/scheduler.c:176-181 | ticks and pass gained agree up to one truncated division a turn |
| `SchedFair.Fairness` | xv6-public/scheduler.c:141-192 | ticks of two clients that stay ready are in proportion to their shares, up to twice the spread and the truncation |
| `SchedWait.GapSplits` | xv6-public/scheduler.c:120-121 | moving the pin to a process before the waiting one shortens the way to it |
| `SchedWait.DebtPaid` | xv6-public/scheduler.c:176-177 | a STRIDE turn below the MLFQ's pass pays off at least one unit of debt |
| `SchedWait.DebtGrows` | xv6-public/scheduler.c:178-179 | an MLFQ turn adds at most 80 units of debt for every STRIDE process |
| `SchedWait.RoundCloser` | xv6-public/scheduler.c:141-192 | a round that does not dispatch the waiting process strictly lowers the bound |
| `SchedWait.BoundedWaiting` | xv6-public/scheduler.c:87-190 | a continuously RUNNABLE MLFQ process is dispatched within an explicit number of rounds in every run without set_cpu_share |
| `SchedWait.WaitingRuns` | xv6-public/scheduler.c:141-192 | such runs exist, of every length, from every state with an MLFQ process |
| `SchedShare.SumKept` | xv6-public/scheduler.c:268-306 | modulo 2^32 the sum of all shares never changes, whatever is asked for |
| `SchedShare.ConservedIff` | xv6-public/scheduler.c:288-302 | sum 100, MLFQ at least 20 and positive STRIDE shares survive a call if and only if it asks for no more than there is |
| `SchedShare.OversizedAccepted` | xv6-public/scheduler.c:293-296 | one more than there is is accepted and breaks them |
| `SchedShare.ReapIff` | xv6-public/proc.c:355-362 | reaping keeps them if and only if the process had left STRIDE |
| `SchedShare.RunConserved` | xv6-public/scheduler.c:268-306 | over every run of set_cpu_share, fork, exit and wait they hold, and shares stay in the range that bounded waiting needs |
| `SchedCode.Scheduler.constructor` | xv6-public/scheduler.c:16-24 | the initial MLFQ over an empty table |
| `SchedCode.Scheduler.Reduce` | xv6-public/scheduler.c:50-66 | the loops do what the specification's reduce says |
| `SchedCode.Scheduler.Boost` | xv6-public/scheduler.c:31-48 | the loop raises exactly the demoted MLFQ processes, once 200 ticks have passed |
| `SchedCode.Scheduler.GetStrideProc` | xv6-public/scheduler.c:67-85 | the scan finds the least pass |
| `SchedCode.Scheduler.GetMlfqProc` | xv6-public/scheduler.c:87-102 | the nested loops terminate and find the first ready process after the pin |
| `SchedCode.Scheduler.GetSchedProc` | xv6-public/scheduler.c:104-123 | the choice, and the pin moved exactly when an MLFQ process is chosen |
| `SchedCode.Scheduler.Turn` | xv6-public/scheduler.c:202-250 | a turn lasts until the process blocks or its quantum ends |
| `SchedCode.Scheduler.Account` | xv6-public/scheduler.c:176-189 | the turn is charged to its client and demotion applied |
| `SchedCode.Scheduler.Pass` | xv6-public/scheduler.c:141-192 | one pass of the loop dispatches and charges as the specification says |
| `SchedCode.Scheduler.SetCpuShare` | xv6-public/scheduler.c:266-306 | the state and the return code of the specification, with unsigned arithmetic |
| `SleepProtocol.AdvanceInv` | xv6-public/proc.c:404-464 | each step of a thread inside sleep, wakeup or the critical section keeps the protocol's invariant |
| `SleepProtocol.NextInv` | xv6-public/proc.c:404-489 | so do starting an operation, a change under the lock, a change without it, and kill |
| `SleepProtocol.RunInv` | xv6-public/proc.c:404-464 | the invariant holds in every interleaving of any number of threads |
| `SleepProtocol.NoLostWakeup` | xv6-public/proc.c:404-464 | while the lock is free, a thread asleep or past the release inside sleep still has its reason to sleep |
| `SleepProtocol.WakesAll` | xv6-public/proc.c:447-464 | the marking step of wakeup leaves no sleeper |
| `SleepLocks.LockSound` | xv6-public/sleeplock.c:22-42 | acquiresleep and releasesleep follow the rule that only a change followed by wakeup ends the condition |
| `SleepLocks.SleepLockSafe` | xv6-public/sleeplock.c:22-42 | in every interleaving a sleep lock has at most one holder, is locked exactly when it has one, and nobody sleeps on a free one |
| `LogSleep.LogSound` | xv6-public/log.c:125-174 | begin_op, log_write, end_op and commit follow the same rule |
| `LogSleep.LogSleepSafe` | xv6-public/log.c:125-174 | a thread asleep in begin_op while log.lock is free has a reason, a commit or no room; the panic in end_op is unreachable; nobody sleeps on an idle log |
| `ProcTable.MaxIs` | xv6-public/proc.c:93-97 | the scan's result is the one value that bounds every thread's state and that some thread has |
| `ProcTable.SetFast` | xv6-public/proc.c:88-91 | the short cut of setstate is the maximum too |
| `ProcTable.SetKeeps` | xv6-public/proc.c:81-98 | setstate keeps every process's state the greatest of its threads' |
| `ProcTable.JoinKeeps` | xv6-public/thread.c:214-224 | thread_join may clear a zombie's slot without touching the process's state |
| `ProcTable.ReapKeeps` | xv6-public/proc.c:337-355 | a ZOMBIE process has only zombie threads, and freeing them keeps the others' states right |
| `ProcTable.RunnableHasThread` | xv6-public/thread.c:240-258 | a RUNNABLE process always gets a thread from nextthd |
| `ProcTable.AllZombies` | xv6-public/proc.c:313-314 | a process whose threads are all zombies is a zombie |
| `ProcTable.ThreadFrom` | xv6-public/thread.c:240-258 | the first RUNNABLE thread of the process after its pin, if there is one |
| `ProcTable.Ptable.constructor` | xv6-public/proc.c:10-14 | the zeroed tables satisfy the invariant |
| `ProcTable.Ptable.SetState` | xv6-public/proc.c:81-98 | the thread's state is set and the process's becomes the maximum, whichever branch is taken |
| `ProcTable.Ptable.FindThd` | xv6-public/thread.c:245-257 | the nested loops terminate and find that thread |
| `ProcTable.Ptable.NextThd` | xv6-public/thread.c:240-258 | and the pin moves there |
| `ProcTable.Ptable.Dispatch` | xv6-public/scheduler.c:154-166 | "no thread in process (scheduler)" is unreachable; the next thread runs |
| `ProcTable.Ptable.SchedNext` | xv6-public/scheduler.c:229-233 | "no thread in process (sched)" is unreachable; with a quantum left the next thread runs, otherwise nothing changes |
| `ProcTable.Ptable.Yield` | xv6-public/scheduler.c:252-264 | the thread becomes RUNNABLE and the process's state follows |
| `ProcTable.Ptable.Sleep` | xv6-public/proc.c:428-430 | the thread sleeps on the channel and the process's state follows |
| `ProcTable.Ptable.Wakeup1` | xv6-public/proc.c:447-455 | exactly the sleepers on the channel become RUNNABLE, in any processes |
| `ProcTable.Ptable.RouseAll` | xv6-public/proc.c:479-482 | exactly the sleeping threads of the process become RUNNABLE |
| `ProcTable.Ptable.Kill` | xv6-public/proc.c:466-489 | the first slot with the pid is marked and exactly its sleeping threads are woken; fails, with nothing changed, exactly when no slot has it |
| `ProcTable.Ptable.AllocProc` | xv6-public/proc.c:105-126 | takes an UNUSED slot, and fails exactly when there is none |
| `ProcTable.Ptable.AllocThd` | xv6-public/thread.c:25-71 | takes an UNUSED slot for the process; fails exactly without a slot or a kernel stack, and then changes no process's state |
| `ProcTable.Ptable.Publish` | xv6-public/proc.c:255-260 | the new thread and its process become RUNNABLE |
| `ProcTable.Ptable.Fork` | xv6-public/proc.c:196-262 | the child is a RUNNABLE process of the caller with one RUNNABLE thread, its pin, in slots that were UNUSED, and nothing else changes; fails exactly without a process slot, memory, a thread slot or a kernel stack, and then no state changes |
| `ProcTable.Ptable.ThreadCreate` | xv6-public/thread.c:112-161 | the new thread is RUNNABLE and belongs to the caller's process, and nothing else changes; fails exactly without a slot or a kernel stack |
| `ProcTable.Ptable.ThreadExit` | xv6-public/thread.c:186-195 | the thread is a zombie, exactly the waiters on its channel are woken |
| `ProcTable.Ptable.JoinScan` | xv6-public/thread.c:207-237 | frees exactly one zombie with that id in the caller's process, or reports that there is none to wait for |
| `ProcTable.Ptable.Reap` | xv6-public/proc.c:337-367 | every thread freed was a zombie |
| `ProcTable.Ptable.WaitScan` | xv6-public/proc.c:330-376 | reaps a zombie child of the caller, none of whose threads is EMBRYO, SLEEPING, RUNNING or RUNNABLE; or reports that there are no children; or that none is a zombie yet |
| `ProcTable.Ptable.AllExited` | xv6-public/thread.c:89-101 | the scan is true exactly when every other thread of the process is a zombie |
| `ProcTable.Ptable.PassToInit` | xv6-public/proc.c:304-311 | exactly the children become init's, and exactly init's waiters are woken if one of them is a zombie; every other thread keeps its state |
| `ProcTable.Ptable.FinishExit` | xv6-public/proc.c:301-314 | the process becomes a zombie, exactly its children become init's, and exactly the parent's waiters, and init's if it inherits a zombie, are woken |
| `ProcTable.Ptable.ExecFree` | xv6-public/exec.c:107-118 | exactly the other zombie threads of the process are freed, and every state stays the maximum |
| `ProcTable.Ptable.Last` | xv6-public/proc.c:293-314 | exit's and exec's common start rouses the other threads; once they are all zombies the process ends, or its threads are freed, and otherwise nothing more happens |
| `ProcTable.Ptable.Step` | xv6-public/proc.c:81-489 | each event does to the tables what its call says, or nothing if its caller or slot is not there, and keeps every state the maximum |
| `ProcTable.Ptable.Run` | xv6-public/proc.c:81-489 | any sequence of these steps, exec's among them, does to the tables what its events say, one after the other, and keeps every state the maximum |
| `UserStacks.Partition` | xv6-public/vm.c:415-452 | free stacks have no duplicates, none is held by a thread, no two threads share one |
| `UserStacks.ChildOk` | xv6-public/proc.c:226-235 | the child's stacks are apart, and its free list is exactly every parent stack but the caller's |
| `UserStacks.SizedOk` | xv6-public/proc.c:176-194 | a change of the process's size, to any number of bytes, keeps every stack inside it and apart if and only if no stack lies above the new size |
| `UserStacks.AloneIff` | xv6-public/vm.c:415-437 | a stack is all that lies on its pages if and only if it ends on a page boundary |
| `UserStacks.SharesIff` | xv6-public/vm.c:415-437 | two stacks apart share a page if and only if the lower one does not end on a boundary and the upper one lies right behind it |
| `UserStacks.BeyondIff` | xv6-public/vm.c:422-428 | the pages of a stack made at the size lie beyond the memory before it if and only if the size is a multiple of a page |
| `UserStacks.SecondShares` | xv6-public/vm.c:422-428 | two stacks made one after the other share a page, the last of the first and the guard of the second, if and only if the size was not a multiple of a page |
| `UserStacks.AlignedAlone` | xv6-public/vm.c:415-452 | in tables where every stack ends on a page boundary each is alone on its pages |
| `UserStacks.StaysAligned` | xv6-public/vm.c:415-437 | a step keeps every stack on a page boundary if and only if it does not make one at a size that is not |
| `UserStacks.Stacks.Userinit` | xv6-public/proc.c:129-173 | userinit and initcode's exec together: the first process, with the one stack of its image, meets the invariant |
| `UserStacks.Stacks.Sbrk` | xv6-public/sysproc.c:104-114 | sbrk to any size keeps the stacks in order exactly when it cuts none off |
| `UserStacks.Stacks.Ualloc` | xv6-public/vm.c:415-437 | the first free stack, or two pages' worth at the end, whatever the size; either way apart from every stack of the process, and in the second case on pages beyond the old memory exactly when the size was a multiple of a page |
| `UserStacks.Stacks.ThreadCreate` | xv6-public/thread.c:121-132 | the new thread's stack is apart from the others |
| `UserStacks.Stacks.ThreadJoin` | xv6-public/thread.c:214-223 | the joined thread's stack becomes the first free one |
| `UserStacks.Stacks.Fork` | xv6-public/proc.c:226-235 | the loops give the child exactly every parent stack except the caller's, which its thread has |
| `UserStacks.Stacks.Exec` | xv6-public/exec.c:107-131 | only the caller is left, with the one stack of the new image and an empty list |
| `UserStacks.Stacks.Reap` | xv6-public/proc.c:337-365 | the process's slots and list are gone; others are untouched |
| `UserStacks.Stacks.Step` | xv6-public/vm.c:415-452 | each of these calls does to the tables what it says, or nothing if its caller or slots are not there |
| `UserStacks.Stacks.Run` | xv6-public/vm.c:415-452 | any sequence of these calls does to the tables what they say, one after the other, and keeps the stacks inside and apart; it stops only before an sbrk that cuts a stack off |
| `PageFrames.MappedOwned` | xv6-public/vm.c:35-55 | a mapped user page's frame is owned at that page of that directory and nowhere else |
| `PageFrames.TableAdded` | xv6-public/vm.c:44-53 | a new page table leaves every mapping as it was |
| `PageFrames.PageAdded` | xv6-public/vm.c:69-73 | mapping a page changes that page of that directory only |
| `PageFrames.PageDropped` | xv6-public/vm.c:296-303 | unmapping a page changes that page of that directory only |
| `PageFrames.OthersKeep` | xv6-public/vm.c:248-372 | an operation on one directory leaves every page of every other directory as it was, frame and contents |
| `VmCode.AllBack` | xv6-public/vm.c:369-371 | what a directory took from the free list is back there once the directory is freed |
| `VmCode.Memory.constructor` | xv6-public/kalloc.c:46-53 | freerange puts every frame on the list once |
| `VmCode.Memory.KAlloc` | xv6-public/kalloc.c:79-95 | a frame leaves the free list; fails exactly when it is empty |
| `VmCode.Memory.KFree` | xv6-public/kalloc.c:55-77 | the frame joins the free list; no mapping changes |
| `VmCode.Memory.Walk` | xv6-public/vm.c:32-55 | the page table for the address, made only if allowed; no mapping changes; fails only without it or without a free frame |
| `VmCode.Memory.MapPage` | xv6-public/vm.c:57-80 | the page is mapped to the frame and nothing else changes, or nothing changes and the free list is empty; "remap" is unreachable |
| `VmCode.Memory.MapRange` | xv6-public/vm.c:57-80 | the kernel range is mapped in order; fails only when fewer frames are free than new page tables are needed |
| `VmCode.Memory.NewDir` | xv6-public/vm.c:124-126 | a directory from a free frame; fails exactly when there is none |
| `VmCode.Memory.MapKernel` | xv6-public/vm.c:129-134 | the loop maps exactly the kernel's ranges; fails exactly when fewer frames are free than page tables are needed |
| `VmCode.Memory.SetupKvm` | xv6-public/vm.c:117-136 | a directory with exactly the kernel's mappings and no user page, or every frame back; fails exactly when fewer frames are free than the directory and its tables take |
| `VmCode.Memory.DropAt` | xv6-public/vm.c:293-303 | one turn of the loop; a missing page table lets it skip exactly that table's range |
| `VmCode.Memory.DeallocUvm` | xv6-public/vm.c:278-306 | exactly the pages from PGROUNDUP(newsz) to oldsz are unmapped and their frames freed |
| `VmCode.Memory.Rollback` | xv6-public/vm.c:262-273 | the user mapping is what it was before allocuvm, and the frame in hand is back |
| `VmCode.Memory.AllocUvm` | xv6-public/vm.c:246-276 | on success exactly the pages from PGROUNDUP(oldsz) to newsz are added, in fresh zeroed frames; on failure the user mapping is as it was; fails exactly beyond KERNBASE or when fewer frames are free than pages and missing tables are needed |
| `VmCode.Memory.FreeTables` | xv6-public/vm.c:318-324 | the page tables and the directory are freed, each once |
| `VmCode.Memory.FreeVm` | xv6-public/vm.c:308-325 | exactly the frames the directory owned go back to the free list; nothing else changes |
| `VmCode.Memory.CopyUvm` | xv6-public/vm.c:340-372 | a directory that shows the same contents and rights in frames that were all free before; or every frame back, exactly when fewer frames are free than are needed up to the first missing page; or a panic, exactly when a page is missing before memory runs out |
| `VmSpaces.WholeIff` | xv6-public/vm.c:352-356 | a space maps every page below its size if and only if copyuvm's loop meets no missing page |
| `VmSpaces.ShrunkSpace` | xv6-public/vm.c:278-306 | after deallocuvm a space that is given the size sz maps exactly the pages below it if and only if sz and the size asked for end in the same page |
| `VmSpaces.EmptiedSpace` | xv6-public/proc.c:187-190 | a space whose pages are all gone and whose size is kept has a hole at page 0, where copyuvm panics |
| `VmSpaces.Spaces.Grow` | xv6-public/proc.c:184-186 | growing keeps each space as full as it was; fails, with the size kept, exactly at KERNBASE or for lack of frames |
| `VmSpaces.Spaces.Shrink` | xv6-public/proc.c:187-190 | the size goes down unless the request is for all of it or for more; a request for exactly all returns -1 with every page gone and the size kept, one for more changes nothing |
| `VmSpaces.Spaces.Growproc` | xv6-public/proc.c:176-194 | the size and the return code are those of the request: failure exactly at KERNBASE, for lack of frames, or for a request to give back all; only this space's pages change; of spaces that each map every page below their size, growproc leaves such spaces if and only if it was not asked to give back exactly all, and then page 0 is missing |
| `VmSpaces.Spaces.Copy` | xv6-public/proc.c:214-218 | fork's copy is a new space of the same size that shows the same contents and rights in frames that were free; panics exactly when a page below the size is missing and memory lasts to it; fails exactly for lack of frames, and then every frame is back |
| `VmSpaces.Spaces.New` | xv6-public/vm.c:117-136 | a new space of size 0 beside the others; fails exactly for lack of frames |
| `VmSpaces.Spaces.Remove` | xv6-public/proc.c:350 | exactly the frames of the space go back to the free list; the other spaces stay as they are |
| `VmSpaces.Spaces.Step` | xv6-public/proc.c:176-376 | each operation does to the spaces and frames what it says, or panics, exactly when a fork meets a missing page |
| `VmSpaces.Spaces.Run` | xv6-public/proc.c:176-376 | over every run on any number of address spaces each operation does what it says to the state the last one left, every frame has exactly one place and no space maps a page beyond its size; it stops only at a fork that meets a missing page; until some process gives back exactly all of its memory every space maps every page below its size and that panic is unreachable |
| `HeapList.FreedSteps` | xv6-public/umalloc.c:33-43 | free's two coalescing steps are: link in, join with the upper neighbour, join with the lower one |
| `HeapList.FreedOk` | xv6-public/umalloc.c:24-45 | freeing keeps the list circular and address-ordered with no two free blocks touching, and changes no live block |
| `HeapList.TakenWhole` | xv6-public/umalloc.c:76-77 | an exact fit leaves the list and becomes live; nothing else changes |
| `HeapList.TakenTail` | xv6-public/umalloc.c:78-82 | a larger block is split and its tail becomes live; nothing else changes |
| `HeapList.GrownOk` | xv6-public/umalloc.c:54-57 | a region from sbrk tiles on behind the others |
| `HeapCode.LargeEnoughIff` | xv6-public/umalloc.c:69 | a block of the computed size holds the request if and only if the addition does not wrap |
| `HeapCode.SbrkCountIff` | xv6-public/umalloc.c:54 | sbrk is asked for what morecore needs if and only if that is below 2 GB |
| `HeapCode.StopIff` | xv6-public/umalloc.c:30-32 | free's loop stops exactly at the block behind which the freed one belongs |
| `HeapCode.SeekOn` | xv6-public/umalloc.c:74-89 | the search meets a large enough block before it comes round again once the heap has grown, and before that only when none is large enough |
| `HeapCode.LiveDisjoint` | xv6-public/umalloc.c:63-90 | live blocks are disjoint and lie in memory obtained from sbrk |
| `HeapCode.StoredOk` | xv6-public/umalloc.c:84-85 | a store inside a live block changes that block's contents only and cannot break the heap |
| `HeapCode.Heap.constructor` | xv6-public/umalloc.c:21-22 | before the first call nothing is live |
| `HeapCode.Heap.FindSlot` | xv6-public/umalloc.c:30-32 | the search terminates at the last free block below the freed one |
| `HeapCode.Heap.Free` | xv6-public/umalloc.c:24-45 | exactly this block stops being live; the others keep their contents; no unit is lost |
| `HeapCode.Heap.MoreCore` | xv6-public/umalloc.c:47-61 | at least the units asked for join the list; live blocks are untouched; null only when sbrk refuses; from 2 GB on, and only then, the count is negative and the process is lost |
| `HeapCode.Heap.Init` | xv6-public/umalloc.c:70-73 | the first call makes a list of base alone |
| `HeapCode.Heap.Take` | xv6-public/umalloc.c:75-85 | a block of exactly the units asked for becomes live; the others keep their contents |
| `HeapCode.Heap.Malloc` | xv6-public/umalloc.c:63-90 | terminates with a block fresh to the caller, disjoint from every live one and of the right size, or null with nothing changed; asks sbrk at most once and only when no free block is large enough; from 2 GB on, and only then, the process is lost |
| `HeapCode.Heap.Step` | xv6-public/umalloc.c:24-90 | malloc, free or a store does to the live blocks and their contents what it says; the process is lost exactly at a request of 2 GB or more |
| `HeapCode.UnnamedKept` | xv6-public/umalloc.c:24-90 | over every run a live block that no operation names stays live with its contents |
| `HeapCode.Heap.Run` | xv6-public/umalloc.c:24-90 | any program of malloc, free and stores does to the live blocks what it says, one operation after the other, and keeps the heap valid; it ends only at a request that loses the process |
| `PipeRing.RingSizeIff` | xv6-public/pipe.c:94 | slots survive the wrap-around of the counters if and only if the ring's size divides 2^32 |
| `PipeRing.SlotsApart` | xv6-public/pipe.c:94 | bytes less than a ring apart lie in different slots |
| `PipeRing.WrapTests` | xv6-public/pipe.c:85-107 | full and empty on wrapped counters mean full and empty |
| `PipeRing.Pipe.constructor` | xv6-public/pipe.c:33-36 | an empty pipe, open at both ends |
| `PipeRing.Pipe.Put` | xv6-public/pipe.c:94 | the byte joins the history and no unread byte is overwritten |
| `PipeRing.Pipe.WriteSegment` | xv6-public/pipe.c:78-99 | stores a prefix of the rest in order, all of it unless the ring is full; fails exactly when full and nobody will read |
| `PipeRing.Pipe.ReadSegment` | xv6-public/pipe.c:101-123 | returns the oldest unread bytes, as many as there are and fit; waits exactly when there is none and a writer is left |
| `PipeRing.Pipe.Step` | xv6-public/pipe.c:59-123 | a write, a read or a close does to the history what it says: a write stores what fits, a read takes the oldest bytes |
| `PipeRing.Pipe.Run` | xv6-public/pipe.c:78-123 | any interleaving of writes, reads and closes does to the history what they say, in order; the bytes read are those stored from where the first read began, and at most PIPESIZE are unread |
| `GrepMatch.OneAtom` | xv6-public/grep.c:93-94 | what a single character means |
| `GrepMatch.StarAtom` | xv6-public/grep.c:98-106 | what a star means: any number of characters it allows, then the rest |
| `GrepMatch.EndAtom` | xv6-public/grep.c:91-92 | what a final $ means |
| `GrepMatch.MatchHere` | xv6-public/grep.c:84-96 | true if and only if the text can be cut from here on so that each part of the pattern fits its piece |
| `GrepMatch.MatchStar` | xv6-public/grep.c:98-106 | the same for a starred character and the rest |
| `GrepMatch.Match` | xv6-public/grep.c:72-82 | true if and only if the pattern matches: at the start after ^, anywhere otherwise |

## Left out

- Device drivers, interrupts, boot code, segment setup and context-switch assembly: foreign hardware; a context switch is a change of the running thread.
- Directories, path names, inode allocation and the file table: easier than the block layer.
- ELF loading and argument marshalling: exec appears only through its effect on threads and stacks.
- The concrete image mkfs writes: its result is the initial state (empty log, metadata marked).
- Several CPUs in the scheduler: one CPU, since ticks and pin are shared by a process's threads.
- The 32-bit wrap-around of pass values: passes are natural numbers, as reduce intends; a STRIDE process that sleeps below MAXPASS keeps reduce from running (SchedState.HeldBack).
- The failure path of thread_create when ualloc finds no memory, and set_cpu_share by another thread between exit's call and its end: exit counts as one step.
- Threads woken early by kill inside pipewrite and piperead: they appear as the failed outcomes.
- Spinlocks themselves: a step of a protocol is one acquisition, one release, or one change under a lock.
- LogRun runs log.c's calls one after the other, with power cuts between any two of their block writes; interleavings inside a call are the state machine of LogMachine and the protocol of LogSleep.
- FileLog.Chunk: writei runs on the file system's blocks and bits, and each block it changed is then given to log_write once with its final contents; its reads do not go through the cache, and the words of an inode's type, device and link count are zero.
- OpExact.ChunksFitIff: takes the metadata to lie in the first bitmap block's range, as mkfs lays it out; that the small levels and disks fit is proved without this (OpExact.AllFit).
- uva2ka, copyout, clearpteu, loaduvm and inituvm: they read or fill pages and own no frame.
- FileCode.Filewrite: takes the end of the write below 2^32, which holds since offsets never exceed MAXFILE * BSIZE and counts are ints.
- HeapCode.Heap.Malloc: takes sbrk's results as unit-aligned; a request of 2 GB or more ends in the outcome Fault, a store to memory that sbrk has taken away or never given, after which nothing is promised.
- UserStacks.Stacks.Ualloc: takes allocuvm as successful; the free list is a sequence, not links through the stack pages.
- UserStacks.Stacks.Userinit: initcode's own page, which has no guard and no thread but the first, is not a stack; the process appears once it has run exec.
- VmCode.Memory.MapPage: one page, the only size that user mappings use.
