# A verified model of xv6's storage stack, allocators, sleep/wakeup protocol and shell parser

The kernel is xv6 with users and groups added. This project models its hardest parts in
Dafny and proves what they are for: the write-ahead log under crashes, the buffer cache
beneath it, the file layer on top of it, the two memory allocators and the page tables,
the sleep/wakeup protocol with the sleep lock, the pipe and exit/wait as its clients, the
shell's parser and the pattern matcher of grep.

`dafny verify dfyconfig.toml` checks everything. The modules, from the bottom up:

- `LogMachine`, `LogSafety`, `LogPanic`: the log as a machine of single block writes, in
  which power may fail between any two; what every run keeps; when `log_write` panics and
  how large a log must be for the rest to hold.
- `LogCode`: `kernel/log.c` as code. Each method records the machine events it performs,
  so every run of the code is a run of the machine.
- `Bio`, `BioCommit`: the buffer cache with its linked list, and a commit that goes
  through it, one machine step per block written, or stops before the first.
- `FsModel`, `FsOwnership`, `FsBytes`, `FsCode`, `FileWrite`, `Mkfs`: bitmap, block map,
  files as byte sequences, chunked writes, and the image builder. `DiskInode`: the bytes
  of inode blocks.
- `Links`: directories and link counts.
- `Umalloc`: the user-level allocator. `VmModel`, `VmCode`: the page allocator and
  two-level page tables.
- `Monitor`: sleep and wakeup under a spinlock, step by step, for any data and channels.
  `SleepLock` and `Pipe` (with `PipeRing`) are programs over those steps, `PipeCalls` says
  what one call of the pipe does in any run. `ProcTable` has
  the loops over the process table, `ExitWait` the protocol they make up.
- `Grep`. `ShellGrammar`: the shell's command language as an unambiguous grammar over
  tokens; `ShellCode`: the parser, which accepts exactly that language; `ShellPrint` and
  `ShellRead`: commands written out and read back; `ShellNul`: the C strings of the result.
  `ShellModel` and `Common` are shared.

Concurrency is modelled as interleaved steps: a test made without a lock, taking or
dropping a lock, one write of shared data, one block written to disk. In the log a section
under `log.lock` is one step. A disk block is written atomically. Runs are sequences of
events of any length, with any number of processes.

Where the code and its own account of itself differ, the model follows the code:

- `log_write` looks for room without the lock and appends with it, so two system calls can
  pass the test on the last free block. `LogPanic.OverrunExactly` gives the sizes at which
  the list outgrows the log: the overrun would land on the block behind it. Whether it gets
  there depends on the number of buffers, since a commit that finds every buffer pinned
  panics in `bget` before it writes (`BioCommit.Commit`). Crash atomicity holds of every run
  within budgets if and only if the log is large enough not to be outgrown or has at least
  as many blocks as there are buffers (`LogPanic.AtomicExactly`). `tools/mkfs.c` makes the
  log LOGSIZE blocks long, header included: one too few not to be outgrown, but with NBUF
  buffers just enough for atomicity (`LogPanic.MkfsAtomic`).
- The same size lets budgeted callers meet the panic on a new block
  (`LogPanic.PanicExactly`), and a block already in a full log cannot be logged again
  (`LogPanic.RelogPanics`).
- `malloc` promises room for the bytes asked for. Its 32-bit arithmetic, of the block and
  of the request to `sbrk`, is sound exactly for requests up to 2^31 - 16 bytes
  (`Umalloc.SoundExactly`). Past that `sbrk` is asked not to grow the process, and the new
  header lies outside it (`Umalloc.HalfTheSpace`); from 2^32 - 7 bytes on the rounding wraps
  and the block is too small.
- A link count is a short. Link counts stay in step with directory entries exactly when
  the count does not overflow and the parent is still linked (`Links.Dirs.Link`,
  `Links.Dirs.Create`, `Links.Dirs.Unlink`). `mkfs` gives every directory one link and
  counts no "..", so that `unlink` can end in its panic (`Links.RemoveHome`).
- A writer that is killed while the pipe is full returns without waking readers
  (`Pipe.KilledWriterStrandsReader`). Readers always have cause to sleep exactly in the
  runs without such a step (`Pipe.ReadersExactly`), writers always do.
- The shell reads `>>` but opens the file as for `>`.

## Model

| member | source | states |
|---|---|---|
| `LogSafety.EventKeeps` | kernel/log.c:69-233 | every event of the log (an operation begins, passes the test for room, appends a block, ends; one block write of a commit or of a recovery; a crash) keeps the invariant that ties disk, log area, pinned buffers and reservation together, except an append that outgrows the log |
| `LogSafety.CrashAtomicity` | kernel/log.c:69-122 | from any disk the kernel can boot from, stop a run anywhere, crashes and half-done recoveries included, that has not outgrown its log, as no run within budgets does with a log of more than LOGSIZE blocks: a completed recovery leaves each home block as the committed groups made it, and of each system call either all writes or none |
| `LogSafety.RunReserves` | kernel/log.c:126-174 | in every run, outgrown or not, budgets that are kept leave the list no longer than LOGSIZE, whatever the unlocked tests let through |
| `LogSafety.RecoverReaches` | kernel/log.c:116-122 | recovery from any disk that determines a target yields that target's home blocks and an empty header, so it may be repeated |
| `LogSafety.WriteHeadKeeps` | kernel/log.c:102-113 | the header write is the commit point: before it the disk recovers to the old state, after it to the new |
| `LogSafety.InstallKeeps` | kernel/log.c:74-81 | installing one block of a commit keeps the disk recoverable to the same state |
| `LogSafety.ReinstallKeeps` | kernel/log.c:115-122 | so does installing one block in a recovery |
| `LogSafety.DurableForever` | kernel/log.c:193-202 | what one completed header write made durable stays durable through every continuation of the run |
| `LogSafety.ReadersSeeLatest` | kernel/log.c:204-233 | a reader sees every logged write at once, committed or not |
| `LogSafety.ReservationHolds` | kernel/log.c:126-174 | in every interleaving the logged blocks plus all unspent budgets fit LOGSIZE, so a new entry is in bounds, and a commit runs only with no operation outstanding |
| `LogSafety.Admits` | kernel/log.c:125-233 | in every state reached without an overrun the machine admits exactly what the code does: an operation if and only if nobody commits and the list with one budget per operation, its own included, fits LOGSIZE, a list that is not empty included; a test if and only if the list is shorter than LOGSIZE and the log area; and during a commit or recovery always the next block write |
| `LogPanic.PanicExactly` | kernel/log.c:214-220 | operations that keep to their budget never meet the panic on a new block if and only if the log has at least LOGSIZE + 1 blocks |
| `LogPanic.SmallLogPanics` | tools/mkfs.c:25 | with the LOGSIZE blocks mkfs gives the log, a run of three operations within budget panics |
| `LogPanic.RelogPanics` | kernel/log.c:218-226 | whatever the size of a log with data blocks: logging a block again costs no budget but panics when the log is full, because room is required before absorption |
| `LogPanic.OverrunningRuns` | kernel/log.c:218-230 | in a log of 2 to LOGSIZE blocks two calls within budget both pass the test on the last free block, and both append |
| `LogPanic.OverrunExactly` | kernel/log.c:218-230 | runs within budgets never outgrow the log if and only if it has at least LOGSIZE + 1 blocks, or no data block at all |
| `LogPanic.SmallLogCorrupts` | kernel/log.c:182-188 | with more buffers than the log has blocks, such an overrun is copied to the block behind the log: after a crash recovery shows a write nobody committed |
| `LogPanic.AtomicExactly` | kernel/log.c:69-233 | for every log size and number of buffers, with a block behind the log: crash atomicity holds of every run within budgets if and only if the log has at least LOGSIZE + 1 blocks, or no data block at all, or at least as many blocks as there are buffers |
| `LogPanic.FewBuffersSound` | kernel/bio.c:60-92 | with no more buffers than log blocks every run within budgets keeps the invariant, or is held up with a list that has outgrown the log, has pinned every buffer and has written nothing since the disk recovered to the committed groups |
| `LogPanic.MkfsAtomic` | tools/mkfs.c:25 | the LOGSIZE blocks mkfs gives the log and the NBUF buffers of the kernel make every run within budgets crash atomic |
| `LogCode.Log.constructor` | kernel/log.c:53-66 | any disk with a well-formed log, a committed transaction in it or not, is where the machine starts |
| `LogCode.Log.WriteHead` | kernel/log.c:101-113 | the header block on disk names exactly the logged blocks, its other words kept |
| `LogCode.Log.ReadHead` | kernel/log.c:85-96 | memory holds exactly the blocks the on-disk header names |
| `LogCode.Log.CopyToLog` | kernel/log.c:182-188 | one turn of write_log is one machine step, and nothing becomes durable by it |
| `LogCode.Log.WriteLog` | kernel/log.c:177-190 | the loop ends with the whole transaction in the log area and nothing committed yet |
| `LogCode.Log.CommitHead` | kernel/log.c:197 | the header write of a commit is one machine step, the one that makes the group durable |
| `LogCode.Log.InstallTrans` | kernel/log.c:69-82 | the loop installs every logged block and commits or loses nothing |
| `LogCode.Log.InstallBlock` | kernel/log.c:74-81 | one turn of install_trans is one machine step, in a commit as in a recovery |
| `LogCode.Log.ClearHead` | kernel/log.c:199-200 | erasing the transaction is one machine step |
| `LogCode.Log.Commit` | kernel/log.c:192-202 | all pending writes become durable and the home blocks equal their performing in order |
| `LogCode.Log.RecoverFromLog` | kernel/log.c:115-122 | at boot and after any crash the home blocks are what the committed groups made them |
| `LogCode.Log.PowerLoss` | kernel/log.c:115-122 | a crash at any point keeps the disk and all that is durable |
| `LogCode.Log.BeginOp` | kernel/log.c:125-141 | in the fields: a call enters if and only if no commit is running and n + (outstanding + 1) * MAXOPBLOCKS is at most LOGSIZE; outstanding grows by one exactly then |
| `LogCode.Log.LogTest` | kernel/log.c:218-221 | the tests made without the lock panic exactly when n is at least LOGSIZE or at least the log's size less one |
| `LogCode.Log.LogAppend` | kernel/log.c:223-232 | at any time after the test the block is listed once and pinned with its new contents, the list before it kept; the list outgrows the log only past a budget or in a log of 2 to LOGSIZE blocks |
| `LogCode.Log.EndOp` | kernel/log.c:145-174 | the panic is unreachable; outstanding falls by one; while others are active disk and list stay as they are, and the last one out leaves everything durable and in place and the list empty; no write is lost or invented |
| `Bio.Unlinked` | kernel/bio.c:131-132 | the two pointer writes take exactly one buffer out of the doubly linked cycle |
| `Bio.Pushed` | kernel/bio.c:133-136 | the four pointer writes put exactly one buffer right behind the head |
| `Bio.ToFrontByRecency` | kernel/bio.c:127-137 | moving a released buffer to the front keeps the list in order of release |
| `Bio.Recycle` | kernel/bio.c:80-90 | giving a clean, unreferenced buffer to a block nobody holds keeps blocks unique and contents current |
| `Bio.Publish` | kernel/log.c:204-233 | logging or writing a locked buffer makes its contents the newest and leaves every other buffer right |
| `Bio.Cache.Binit` | kernel/bio.c:38-55 | the list becomes one cycle through every buffer |
| `Bio.Cache.Lookup` | kernel/bio.c:68-77 | finds the buffer of a block if and only if there is one |
| `Bio.Cache.FindVictim` | kernel/bio.c:80-90 | finds a clean, unreferenced buffer if there is one, the one released longest ago |
| `Bio.Cache.Bget` | kernel/bio.c:60-92 | fails only if no buffer holds the block and none is eligible; never recycles a dirty or referenced buffer; no two buffers ever hold one block |
| `Bio.Cache.Fill` | kernel/bio.c:95-105 | a reader gets the latest logged contents of the block, else the disk's |
| `Bio.Cache.LogWrite` | kernel/log.c:213-233 | the block's newest contents are the buffer's, which is pinned |
| `Bio.Cache.Bwrite` | kernel/bio.c:107-115 | panics exactly if the caller lacks the lock; else disk and newest contents are the buffer's, and the disk joins the history of disks |
| `Bio.Cache.Lock` | kernel/bio.c:72-73 | a referenced buffer is locked for the caller exactly if nobody holds it |
| `Bio.Cache.Unlock` | kernel/bio.c:119-125 | panics exactly if the caller does not hold the lock |
| `Bio.Cache.MoveToFront` | kernel/bio.c:129-137 | the relinking moves one buffer to the front and keeps the list a permutation of all buffers in order of release |
| `Bio.Cache.Drop` | kernel/bio.c:119-140 | the last reference sends the buffer to the front of the list and changes no contents |
| `BioCommit.Bread` | kernel/bio.c:95-105 | returns the newest contents and fails exactly when no buffer holds the block and none is eligible, changing nothing |
| `BioCommit.SomeEligible` | kernel/bio.c:80-92 | with nobody holding a buffer, one can be recycled if and only if fewer blocks are pinned than there are buffers |
| `BioCommit.BreadTwo` | kernel/log.c:182-183 | with nobody else holding a buffer, the two breads of a round fail exactly if every buffer is pinned |
| `BioCommit.MirrorsNow` | kernel/log.c:192-202 | a quiet cache whose dirty buffers hold the machine's pinned blocks shows every block as the machine does |
| `BioCommit.CopyToLog` | kernel/log.c:182-188 | panics exactly if every buffer is pinned, before any write; else the pinned block's newest contents reach the log block, and everything stays pinned |
| `BioCommit.InstallBlock` | kernel/log.c:74-81 | the log block's contents reach the home block, which alone is unpinned |
| `BioCommit.WriteHead` | kernel/log.c:101-113 | the header block names the logged blocks, and everything stays pinned |
| `BioCommit.WriteLog` | kernel/log.c:177-190 | panics exactly if as many blocks are logged as there are buffers, and then nothing was written; else fills the log area with the blocks' newest contents, and the disk after each write is that of one more machine step |
| `BioCommit.InstallTrans` | kernel/log.c:69-82 | unpins every buffer as it installs it, without running out of buffers, and the disk after each write is that of one more machine step |
| `BioCommit.Commit` | kernel/log.c:192-202 | for nobody else holding a buffer and the machine state that has the dirty buffers pinned: an empty transaction changes nothing; the first bread panics, and nothing is written, exactly if as many blocks are logged as there are buffers; else every home block gets its newest contents, nothing stays pinned, the header is empty, and the disks after the 2n + 2 block writes are those of the machine's steps, one by one |
| `BioCommit.CommitAtomic` | kernel/log.c:192-202 | every disk in that history, of a commit that starts in a state reached from boot with a list within the log, recovers to the committed groups |
| `FsModel.WithBitAt` | kernel/fs.c:66-68 | setting a block's bit changes that block's bit only |
| `FsModel.WithoutBitAt` | kernel/fs.c:88-92 | clearing a block's bit changes that block's bit only |
| `FsModel.SetWordAt` | kernel/fs.c:396-399 | writing one entry of an indirect block changes that entry only |
| `FsOwnership.Granted` | kernel/fs.c:378-406 | giving a free block to an empty place keeps one owner per block and the bitmap exact |
| `FsOwnership.WriteKeepsOwned` | kernel/fs.c:505-511 | writing a data block disturbs no ownership |
| `FsCode.FileSystem.Balloc` | kernel/fs.c:56-78 | returns the lowest free block, marked and zeroed, and panics only when every block is in use; exactly the block and its bitmap block are logged |
| `FsCode.FileSystem.ScanBlock` | kernel/fs.c:65-74 | the inner loop stops at the first clear bit of its bitmap block, or at its end |
| `FsCode.FileSystem.Bfree` | kernel/fs.c:81-95 | clears exactly the block's bit and panics exactly if it is clear |
| `FsCode.FileSystem.Bmap` | kernel/fs.c:378-406 | an existing block is found without a change; a missing one is allocated to that slot alone, at most with an indirect block; the answer is the direct address or the entry of the indirect block at that index; one owner per block is kept; every block that changed, bitmap blocks included, is logged |
| `FsCode.FileSystem.BmapIndirect` | kernel/fs.c:391-403 | the same for blocks behind the indirect block |
| `FsCode.FileSystem.AllocSlot` | kernel/fs.c:384-394 | an empty slot of the inode gets a free block, and nothing else changes owner |
| `FsCode.FileSystem.AllocEntry` | kernel/fs.c:397-400 | an empty entry of the indirect block gets a free block, and nothing else changes owner |
| `FsCode.FileSystem.Readi` | kernel/fs.c:460-484 | hands a device inode to its driver; else returns the matching slice of the file, cut at its end, rejects bad offsets and overflow, and changes nothing at all |
| `FsCode.FileSystem.ReadPart` | kernel/fs.c:477-482 | one turn of readi reads the matching bytes and allocates nothing |
| `FsCode.FileSystem.Writei` | kernel/fs.c:488-518 | hands a device inode to its driver; else replaces exactly the bytes written, extending the file if need be; other files read as before; every block that changed is logged, of the bitmap, of the inodes or of data, and the number logged is bounded by a function of offset and length; panics only with every block in use and past the file's end, the inodes on disk unchanged |
| `FsCode.FileSystem.WritePass` | kernel/fs.c:505-511 | one turn of writei writes the next bytes up to the end of the block, logs every block it changes and no more than a bounded set; it fails only if it needs a new block and none is free |
| `FsCode.FileSystem.WriteLoop` | kernel/fs.c:505-511 | the loop writes all bytes; every block that changed is logged; one data block is charged per block touched, a bitmap block per new one; it fails only past the file's end with every block in use |
| `FsCode.FileSystem.FreeDirect` | kernel/fs.c:420-425 | a direct block is freed and its slot emptied, without a panic; its bitmap block is logged |
| `FsCode.FileSystem.FreeIndirect` | kernel/fs.c:427-437 | all blocks behind the indirect block and that block itself are freed, without a panic; exactly their bitmap blocks are logged |
| `FsCode.FileSystem.FreeEntries` | kernel/fs.c:427-434 | frees every block an indirect block names and no other, without a panic |
| `FsCode.FileSystem.Itrunc` | kernel/fs.c:413-441 | frees exactly the file's blocks, "freeing free block" is unreachable, other files keep their bytes; logged are exactly the bitmap blocks of the freed blocks and the inode's block, among them every block that changed |
| `FsBytes.PatchBytes` | kernel/fs.c:505-511 | patching a block of one file changes those bytes of that file and no byte of any other |
| `FsBytes.SpliceNext` | kernel/fs.c:505-511 | writing the next piece behind the earlier ones is writing a longer piece |
| `FsBytes.SpliceReads` | kernel/fs.c:460-518 | what was written over a file is what is read there, and every other byte is as before |
| `FileWrite.ChunkFits` | kernel/file.c:126-133 | a chunk logs at most MAXOPBLOCKS blocks whatever its offset: of four blocks touched the first is not new |
| `FileWrite.ChunkExactly` | kernel/file.c:126-133 | the chunk is three blocks, and no larger number of bytes fits MAXOPBLOCKS at every offset |
| `FileWrite.WriteChunk` | kernel/file.c:139-144 | one transaction splices its bytes into the file and leaves the other files; the transaction is what was logged, holds every block that changed and has at most MAXOPBLOCKS blocks; it panics only past the file's end with every block in use |
| `FileWrite.WriteNext` | kernel/file.c:134-151 | one turn of filewrite's loop, a transaction as before, writes a longer prefix, or fails exactly for a bad offset or size |
| `FileWrite.Write` | kernel/file.c:116-155 | a sequence of transactions, ceil(n / chunk) of them when all is written, leads from the disk before to the disk after; each holds every block that changed in it and has at most MAXOPBLOCKS blocks; the file is the old one with a prefix of the data spliced in, all of it unless an error is returned, errors come exactly for bad offsets and sizes, other files read as before, and it panics only past the file's end with every block in use |
| `FileWrite.TruncateFits` | kernel/fs.c:413-441 | itrunc logs at most one bitmap block per BPB blocks of the disk and the inode's block, so at most MAXOPBLOCKS on a disk of up to nine bitmap blocks |
| `FileWrite.FreeInode` | kernel/fs.c:346-352 | the last iput empties the file and clears its type, leaves every other file, and logs exactly the bitmap blocks of the freed blocks and the inode's block |
| `FileWrite.UnlinkLast` | kernel/sysfile.c:376-387 | unlinking the last link zeroes exactly the entry's bytes in the directory and frees the file, without a panic, all other files as before; every block that changed is in the transaction, which is within MAXOPBLOCKS on a disk of up to three bitmap blocks |
| `DiskInode.GetAgree` | kernel/fs.c:302-316 | what ilock reads of an inode depends on that inode's bytes only |
| `DiskInode.ElsewhereAgree` | kernel/fs.h:44-48 | rewriting one of the inodes that share a block leaves the reading of the others |
| `DiskInode.Put` | kernel/fs.c:228-237 | the assignments to one inode of a block read back as assigned and touch its field bytes only |
| `DiskInode.Table.Iupdate` | kernel/fs.c:221-240 | each field stands at its offset of struct dinode in the inode's 128 bytes, the inode reads back as written, every other inode reads as before, also those in its block, and one block is logged |
| `DiskInode.Table.Ialloc` | kernel/fs.c:193-215 | takes the first inode from number 1 on whose type is 0 and sets its type, mode and owner and every other field to zero, or there is none; every other inode reads as before |
| `Mkfs.FirstBitsAt` | tools/mkfs.c:356-370 | the bitmap mkfs writes has exactly the bits below the first free block set |
| `Mkfs.Image.constructor` | tools/mkfs.c:210-234 | the empty image has one owner per block |
| `Mkfs.Image.Ialloc` | tools/mkfs.c:339-353 | the next inode becomes an empty file, all files keep their contents |
| `Mkfs.Image.MapBlock` | tools/mkfs.c:388-405 | finds the block of the file to write next, or takes the next free block for that place alone |
| `Mkfs.MarkFirst` | tools/mkfs.c:356-370 | the loop sets exactly the bits of the blocks used |
| `Mkfs.Image.Iappend` | tools/mkfs.c:374-416 | the data goes to the end of that file, no other file changes, and ownership is as the kernel requires |
| `Mkfs.Image.Balloc` | tools/mkfs.c:356-370 | the finished image satisfies the ownership invariant the kernel starts from |
| `Links.EntryCounts` | kernel/fs.c:557-584 | a new entry in a linked directory is one more reference to what it names and to nothing else |
| `Links.PutName` | kernel/fs.c:557-584 | a new entry in an empty slot makes its name lead to its inode and leaves where every other name leads; names stay unique |
| `Links.ClearName` | kernel/sysfile.c:376-377 | clearing a name's first entry leaves where every other name leads, and the name leads nowhere if names are unique, which they stay |
| `Links.OrphanCounts` | kernel/sysfile.c:376-387 | an empty directory that is unlinked takes one reference, its "..", with it |
| `Links.Created` | kernel/sysfile.c:399-441 | create's net effect on every balance of link count and references, and on the tree |
| `Links.Linked` | kernel/sysfile.c:278-324 | link's net effect on every balance, and on the tree |
| `Links.UnlinkedFile` | kernel/sysfile.c:343-397 | unlinking a file keeps every balance, and the tree |
| `Links.UnlinkedDir` | kernel/sysfile.c:343-397 | unlinking an empty directory keeps every balance unless the parent's count underflows, and the tree |
| `Links.Dirs.Dirlookup` | kernel/fs.c:530-554 | finds the first entry of that name, if and only if there is one |
| `Links.Dirs.Dirlink` | kernel/fs.c:557-584 | fills the first empty slot or a new one; the name then leads to the inode and every other name where it did; fails exactly if the name is taken, panics exactly if the directory cannot grow; no other inode changes |
| `Links.Dirs.IsDirEmpty` | kernel/sysfile.c:327-340 | true exactly if nothing follows "." and ".." |
| `Links.Dirs.Link` | kernel/sysfile.c:278-324 | failure undoes the count; success adds one to it and the name, and changes nothing else; names stay unique; every balance is kept if and only if the parent is linked and the count does not overflow |
| `Links.Dirs.Create` | kernel/sysfile.c:399-441 | a name that is taken is returned or refused by its kind and changes nothing; else create panics exactly for want of an inode or a slot, or the inode was free, has the kind asked for and one link, the name leads to it and every other name where it did, a directory has its dots and nothing else, and no other inode changes; names stay unique; every balance is kept if and only if the name was taken, or the parent is linked and its count does not overflow |
| `Links.Dirs.Fill` | kernel/sysfile.c:421-438 | the new inode has the kind asked for, count 1 and its dots, and the name leads to it |
| `Links.Dirs.Ialloc` | kernel/fs.c:193-215 | returns the first free inode, or there is none |
| `Links.Dirs.Unlink` | kernel/sysfile.c:343-397 | panics exactly at a count below one; succeeds exactly for a name other than the dots whose inode is no directory in use; then the first entry of that name is empty, every other entry and name as before, the inode has one link less, and no other inode changes; names stay unique; every balance is kept if and only if nothing was cleared, or the parent is linked and its count does not underflow |
| `Links.FreeNotNamed` | kernel/fs.c:193-215 | no entry of a linked directory names a free inode, so that ialloc may give it out |
| `Links.FreedKeeps` | kernel/fs.c:342-352 | freeing an inode without links keeps the tree if and only if no linked directory names it, and then every balance; with link counts equal to the entries it always does |
| `Links.Dirs.Iput` | kernel/fs.c:338-359 | the inode is freed, and nothing else changes, exactly if it was read from disk, has no links and this is the last reference; the tree is kept if and only if it was not freed or no entry named it, which link counts equal to the entries guarantee, and stays so |
| `Links.CreatedApart` | kernel/sysfile.c:399-441 | create in a directory that is no longer linked leaves an inode with one link and no entry that counts |
| `Links.UnlinkedApart` | kernel/sysfile.c:343-397 | unlink in such a directory takes away a link that no entry had counted |
| `Links.PanicMeansFewerLinks` | kernel/sysfile.c:369-370 | in a linked directory the panic needs an inode with fewer links than entries that name it |
| `Links.ExactNeverPanics` | kernel/sysfile.c:369-370 | with link counts equal to the entries no unlink in a linked directory panics, and what keeps every balance keeps them equal |
| `Links.MadeNotExact` | tools/mkfs.c:339-353 | the image mkfs leaves has a directory with fewer links than entries that name it |
| `Links.RemoveHome` | tools/mkfs.c:75-182 | on that image, removing /home/root and then /home ends in the panic |
| `Umalloc.PayloadFits` | user/umalloc.c:64-69 | the units computed in 32 bits hold header and payload if and only if the request is at most 2^32 - 8 bytes, and are never one too many |
| `Umalloc.AsksRightExactly` | user/umalloc.c:52-54 | morecore asks sbrk for the bytes of its units if and only if the request is at most 2^31 - 16 bytes or so large that the rounding wraps; else the break does not grow |
| `Umalloc.SoundExactly` | user/umalloc.c:46-69 | the block holds the payload and sbrk is asked for its bytes if and only if the request is at most 2^31 - 16 bytes |
| `Umalloc.HalfTheSpace` | user/umalloc.c:52-54 | malloc(0x80000000) asks sbrk for a negative number of bytes |
| `Umalloc.StopsAt` | user/umalloc.c:30-32 | the exit test of free's search holds at exactly one link of the cycle |
| `Umalloc.SplicedOrdered` | user/umalloc.c:33-43 | a freed block, merged with the neighbours it touches, leaves the list ascending with no two blocks touching |
| `Umalloc.SplicedTotal` | user/umalloc.c:33-43 | freeing adds exactly the block's units to the free ones |
| `Umalloc.SplicedOwns` | user/umalloc.c:33-43 | a unit is free afterwards exactly if it was free or in the freed block |
| `Umalloc.Relinked` | user/umalloc.c:33-43 | the pointer and size writes of free spell out that list as one cycle |
| `Umalloc.TakeLinked` | user/umalloc.c:75-84 | carving units from a block's tail, or taking the whole block, leaves one cycle |
| `Umalloc.Allocator.FindSlot` | user/umalloc.c:30-32 | the search loop of free terminates at the last free block below the address |
| `Umalloc.Allocator.Relink` | user/umalloc.c:33-42 | the writes merge with each neighbour touched and change no other header |
| `Umalloc.Allocator.Release` | user/umalloc.c:24-44 | the list is the old one with the block spliced in, still one ascending cycle |
| `Umalloc.Allocator.Carve` | user/umalloc.c:75-84 | exactly the units asked for leave the free block's tail and become a live block |
| `Umalloc.Allocator.Free` | user/umalloc.c:24-44 | exactly the block's units become free; live blocks stay apart; free plus live units equal the units obtained |
| `Umalloc.Allocator.Morecore` | user/umalloc.c:46-61 | what sbrk grants joins the free list, a refusal changes nothing; wild exactly if sbrk was asked for another number of bytes and did not refuse |
| `Umalloc.Allocator.Malloc` | user/umalloc.c:63-90 | terminates after at most one morecore, called exactly if no block fits; fails exactly if sbrk refuses; the new block is live and apart from all others, and has room for up to 2^31 - 16 bytes; goes wild exactly if no block fits, sbrk does not refuse and the request is between that and 2^32 - 8 |
| `VmModel.AddTable` | kernel/vm.c:45-54 | a zeroed page table behind an absent directory entry maps nothing and moves no page |
| `VmModel.SetPte` | kernel/vm.c:70-75 | writing an entry changes the mapping of one page of one address space |
| `VmModel.NoTable` | kernel/vm.c:266-268 | without a page table none of its 1024 pages is mapped, so deallocuvm's skip misses none |
| `VmModel.DistinctFrames` | kernel/vm.c:221-345 | no two user pages, of one address space or of two, share a frame |
| `VmModel.OthersPages` | kernel/vm.c:221-345 | an operation on one address space leaves every mapping and every user page of the others |
| `VmModel.TookConserves` | kernel/vm.c:221-249 | frames taken for page tables and pages are conserved and no longer free |
| `VmModel.GaveConserves` | kernel/vm.c:255-279 | frames given back are conserved and no longer in use |
| `VmModel.TookThenGave` | kernel/vm.c:235-246 | pages taken and given back leave only page tables taken |
| `VmModel.SpaceUndone` | kernel/vm.c:129-134 | giving back a whole new address space restores the books |
| `VmCode.ChainedPush` | kernel/kalloc.c:71-76 | a freed frame heads the list that runs through the free frames |
| `VmCode.ChainedPop` | kernel/kalloc.c:88-91 | the list goes on behind its first frame |
| `VmCode.KmapRow` | kernel/vm.c:105-115 | the rows of the kernel map do not overlap and make up the kernel half page by page |
| `VmCode.TablesClosed` | kernel/vm.c:35-56 | the page tables a range needs beyond those there, counted page by page, are one per stretch of 1024 pages without a table |
| `VmCode.RowNeeds` | kernel/vm.c:105-115 | each row of the kernel map needs the tables of its own stretches, 64 in all |
| `VmCode.Machine.Kfree` | kernel/kalloc.c:59-77 | panics exactly outside the managed frames, else the frame, and no other, is written and listed |
| `VmCode.Machine.Kalloc` | kernel/kalloc.c:82-95 | fails exactly if no frame is free, else takes one frame off the list |
| `VmCode.Machine.Freerange` | kernel/kalloc.c:46-52 | exactly the frames of the range are added to the list |
| `VmCode.Machine.Walkpgdir` | kernel/vm.c:35-56 | finds or makes the page table, fails exactly if it is absent and may not or cannot be made, and changes no mapping |
| `VmCode.Machine.MapPage` | kernel/vm.c:69-75 | maps the page and changes nothing else, panics exactly if it is mapped, fails only if no frame is free |
| `VmCode.Machine.Mappages` | kernel/vm.c:60-82 | maps the pages of the range in order to their frames, kernel or user pages, and no page outside it; stops exactly at a page that is mapped or for want of a page table, with the pages before it mapped; the frames it takes are the missing page tables, and it runs out exactly if there are fewer |
| `VmCode.Machine.ClearPage` | kernel/vm.c:269-276 | one page is unmapped and exactly its frame becomes free |
| `VmCode.Machine.DeallocTurn` | kernel/vm.c:265-277 | one turn unmaps a page or skips pages that are not mapped |
| `VmCode.Machine.Deallocuvm` | kernel/vm.c:255-279 | no page of the range stays mapped, exactly their frames become free, no other page changes |
| `VmCode.Machine.Freevm` | kernel/vm.c:283-298 | the frames that become free are exactly the directory, tables and pages the space had taken |
| `VmCode.Machine.FreeTables` | kernel/vm.c:291-297 | exactly the page tables and the directory become free |
| `VmCode.Machine.Setupkvm` | kernel/vm.c:118-136 | fails if and only if fewer than 65 frames are free, and then is net zero; else a new space holds exactly the kernel's mappings and has taken 65 frames |
| `VmCode.Machine.NewPage` | kernel/vm.c:234-241 | out of memory if and only if fewer frames are free than the page and its missing table need; else a fresh frame with the given contents is mapped at the page, or the page was mapped before |
| `VmCode.Machine.GiveUp` | kernel/vm.c:235-246 | the pages so far and the frame in hand are given back |
| `VmCode.Machine.Allocuvm` | kernel/vm.c:221-249 | it runs out of memory if and only if fewer frames are free than the pages, up to the first that is mapped already, and their missing tables need; on success no page of the range was mapped, each has a zeroed frame that was free, and nothing else changes; it panics only if a page of the range was mapped; out of memory the range is unmapped, no frame is lost, and if the range was unmapped before only page tables have been taken |
| `VmCode.Machine.CopyTurn` | kernel/vm.c:325-344 | one turn copies a page, or panics exactly if the parent lacks it, or gives everything back, for want of frames only |
| `VmCode.Machine.Copyuvm` | kernel/vm.c:315-345 | it fails if and only if fewer frames are free than 65, the parent's pages up to the first that is missing, and their tables; a panic means a page is missing, a child that none is; the child's pages have the parent's contents and flags in frames that were free; the parent is unchanged; failure is net zero |
| `Monitor.StepKeeps` | kernel/proc.c:425-481 | every interleaving of sleep, wakeup, kill and scheduling keeps, for the channels whose wakers keep the discipline: whoever waits on a channel has its condition, or the lock's holder has yet to wake them |
| `Monitor.NoMissedWakeup` | kernel/proc.c:425-481 | whenever the lock is free a process that waits on such a channel has its condition |
| `Monitor.KillWakes` | kernel/proc.c:486-504 | a kill may come whenever ptable.lock is free; the process is not asleep afterwards, whatever it waits for, and nothing else changes |
| `SleepLock.RunKeeps` | kernel/sleeplock.c:22-42 | every run of any number of processes, killed and preempted at any time, keeps the lock's invariant |
| `SleepLock.MutualExclusion` | kernel/sleeplock.c:22-42 | at most one process holds the lock |
| `SleepLock.SleeperMeansHeld` | kernel/sleeplock.c:22-42 | whenever the inner spinlock is free a process asleep on the lock means that another process holds it |
| `SleepLock.HoldingExact` | kernel/sleeplock.c:44-53 | holdingsleep is true exactly for the holder |
| `SleepLock.Returns` | kernel/sleeplock.c:22-42 | in every run acquiresleep returns only with the lock held in the caller's name, releasesleep only with it free |
| `SleepLock.Admits` | kernel/sleeplock.c:22-42 | a process that runs can always start a call, and go on in it unless another process holds a spinlock |
| `PipeRing.CountersTell` | kernel/pipe.c:82-114 | wrapped 32-bit counters tell full, empty and the number of bytes in the ring |
| `PipeRing.PushKeeps` | kernel/pipe.c:91 | a byte put into a ring that is not full goes behind the others and overwrites none |
| `PipeRing.PopKeeps` | kernel/pipe.c:110-114 | the byte taken is the next in the order of writing |
| `PipeRing.Ring.Fill` | kernel/pipe.c:81-92 | appends bytes until all are written or the ring is full, and says how many |
| `PipeRing.Ring.Drain` | kernel/pipe.c:110-114 | returns the next bytes in order, as many as asked for or there are |
| `Pipe.FirstInFirstOut` | kernel/pipe.c:58-119 | in every run, kills and closes included, the bytes read are a prefix of the bytes written and at most PIPESIZE are between |
| `PipeCalls.WriteCall` | kernel/pipe.c:76-98 | in every run the bytes a write call has added to the stream are the first bytes of its own buffer, as many as its index says, and the whole buffer once it is past its loop |
| `PipeCalls.WriteReturns` | kernel/pipe.c:76-98 | pipewrite returns with its whole buffer written, or with a proper part because the ring is full and the read end closed or the process killed |
| `PipeCalls.ReadCall` | kernel/pipe.c:100-119 | in every run the bytes handed to a read call are consecutive bytes of the stream, as many as its index says, never more than asked for, and fewer only at an empty ring |
| `PipeCalls.ReadReturns` | kernel/pipe.c:100-119 | piperead returns with no byte because it is killed at an empty ring; else with the next bytes that were written, all asked for or all there are, and none of some only if the write end is closed |
| `PipeCalls.EndsAgree` | kernel/pipe.c:58-74 | in every run an end is open until its file is closed, and then closed once the flag is cleared; closing one end leaves the other |
| `PipeCalls.Admits` | kernel/pipe.c:58-119 | a process that runs can start any call on an open end unless it is killed, and go on in it unless another process holds a lock |
| `Pipe.SleepersHaveCause` | kernel/pipe.c:76-119 | whenever the lock is free a sleeping writer means full and open for reading, in every run; a sleeping reader means empty and open for writing, in every run in which no killed writer leaves a full ring while a reader waits |
| `Pipe.ReadersExactly` | kernel/pipe.c:83-87 | readers have cause to wait in every state of a run if and only if no step of it is a killed writer leaving a full ring while a reader waits |
| `Pipe.StrandingShows` | kernel/pipe.c:83-87 | after such a step the lock is free, the ring full and the reader waiting |
| `Pipe.KilledWriterStrandsReader` | kernel/pipe.c:83-87 | a run in which a killed writer leaves a reader asleep with the ring full |
| `ProcTable.Ptable.Wakeup1` | kernel/proc.c:464-472 | exactly the sleepers on the channel become RUNNABLE, and no other field changes |
| `ProcTable.Ptable.Exit` | kernel/proc.c:250-266 | field by field: the process is a ZOMBIE; its children are init's; asleep before and RUNNABLE now are exactly those who slept on its parent's slot, or on init's if it leaves a zombie child; pids, channels and kill marks stay |
| `ProcTable.Ptable.Wait` | kernel/proc.c:272-312 | reaps the first zombie child if there is one: its slot becomes UNUSED without pid, parent or kill mark, and its pid is returned; else returns -1 exactly if there is no child or the process is killed; else sleeps |
| `ProcTable.Ptable.Kill` | kernel/proc.c:486-504 | the first slot with that pid is marked, and RUNNABLE if it was SLEEPING; its pid, parent and channel stay, and no other slot changes; -1 exactly if no slot has the pid |
| `ProcTable.Ptable.Alloc` | kernel/proc.c:74-94 | the first unused slot becomes EMBRYO with the new pid, or none is unused |
| `ExitWait.StepKeeps` | kernel/proc.c:181-312 | fork, exit, wait, kill, sleep, wakeup and scheduling keep the kinship and sleep invariants |
| `ExitWait.ParentAlive` | kernel/proc.c:228-267 | whenever ptable.lock is free every process past EMBRYO but init has a parent that is alive and no zombie |
| `ExitWait.ChainReachesInit` | kernel/proc.c:228-267 | its chain of parents leads to init |
| `ExitWait.WaiterHasChild` | kernel/proc.c:272-312 | a process asleep in wait has a child and no zombie child |
| `ExitWait.KillWakes` | kernel/proc.c:486-504 | in every run, right after a kill nobody with that pid is asleep, the process with it is marked and RUNNABLE if it slept, and no other changes: pids are unique |
| `ExitWait.WaitDecides` | kernel/proc.c:272-312 | a pass of wait can reap exactly the zombie children, sleep exactly if it has children, none of them a zombie, and is not killed, and returns -1 exactly if it can do neither |
| `ExitWait.Forked` | kernel/proc.c:181-224 | in every run fork ends with a RUNNABLE child of the process that forked, with a pid nobody else has |
| `ExitWait.Exited` | kernel/proc.c:228-267 | in every run exit leaves a ZOMBIE whose parent is not asleep in wait, whose children are init's, and init not asleep in wait if one of them is a zombie |
| `Grep.PrefixStar` | user/grep.c:99-108 | a starred character matches some number of fitting characters, then the rest of the pattern |
| `Grep.MatchHere` | user/grep.c:84-97 | true exactly if the pattern's meaning has a word that starts the text |
| `Grep.MatchStar` | user/grep.c:99-108 | true exactly if the starred pattern has a word that starts the text |
| `Grep.Match` | user/grep.c:72-82 | true exactly if some position of the text, the first one after a leading ^, satisfies the pattern's meaning |
| `Grep.ReadsBack` | user/grep.c:84-97 | every list of pattern parts that can be written is read back as written |
| `Grep.LeadingStar` | user/grep.c:84-97 | a leading * is a literal unless a second * follows |
| `Grep.DotFound` | user/grep.c:72-97 | the pattern . is found exactly in the texts that are not empty |
| `Grep.PlainFound` | user/grep.c:72-97 | a pattern without special characters is found exactly in the texts that contain it, with ^ those that start with it, with $ those that end with it |
| `Grep.AnyStar` | user/grep.c:99-108 | .* before a pattern skips any number of characters |
| `ShellPrint.WrapOuter` | user/sh.c:380-402 | a command is its base with its redirections around it in order |
| `ShellPrint.BackForm` | user/sh.c:356-359 | a command in background is printed as its core with one & each |
| `ShellPrint.LinePrinted` | user/sh.c:333-346 | the text of a command is a C string |
| `ShellGrammar.SomeTokens` | user/sh.c:271-313 | every line has a sequence of tokens |
| `ShellGrammar.LexedOnce` | user/sh.c:271-313 | and only one |
| `ShellGrammar.LineOnce` | user/sh.c:349-452 | the grammar is unambiguous: from one token on at most one command, of at most one length, stands before the end or a closing parenthesis |
| `ShellGrammar.ExecOnce` | user/sh.c:420-452 | the same for simple and parenthesised commands, before whatever may follow those |
| `ShellGrammar.SimpleNotFound` | user/sh.c:435-448 | after words and redirections, a token that is neither, an arrow without a file or a word too many means that no command stands there |
| `ShellGrammar.BlockNotFound` | user/sh.c:404-418 | nor does one after a parenthesised line that is not closed, or that an arrow without a file follows |
| `ShellRead.PrintedMade` | user/sh.c:333-346 | the tokens of a command's text make up that command and no other |
| `ShellRead.LineCut` | user/sh.c:271-313 | the words of a command are maximal runs of word characters of the line |
| `ShellRead.LineDirected` | user/sh.c:380-402 | in a command that tokens make up, the file of a redirection stands behind an arrow on the line, > or >> exactly if it is one of output; no argument does; and argv has room for the arguments |
| `ShellCode.GetToken` | user/sh.c:271-313 | finds the next symbol or maximal word with the blanks around it skipped, and moves on unless at the end |
| `ShellCode.TakeSymbol` | user/sh.c:315-325 | a symbol is taken exactly if it is the next token |
| `ShellCode.ParseRedir` | user/sh.c:386-401 | one turn of parseredirs reads the next redirection, if one is there, and refuses exactly an arrow without a file; it is one of output exactly if the character before the file, blanks aside, is > |
| `ShellCode.ParseRedirs` | user/sh.c:380-402 | reads all redirections up to the next token that is no arrow, in order and in the direction of their arrows |
| `ShellCode.ParseArg` | user/sh.c:437-448 | one turn of parseexec's loop reads the next word and the redirections after it, stops exactly at a token that may follow a command, and refuses only where the grammar does |
| `ShellCode.ParseArgs` | user/sh.c:435-451 | reads the words and the redirections among them, up to MAXARGS - 1 words, or no simple command stands there |
| `ShellCode.ParseExec` | user/sh.c:421-452 | the command it returns is the one the tokens read make up; when it refuses none stands there |
| `ShellCode.ParseBlock` | user/sh.c:405-418 | the same for a parenthesised line with its redirections |
| `ShellCode.ParsePipe` | user/sh.c:367-377 | the same for a pipe, grouped to the right |
| `ShellCode.ParseBacks` | user/sh.c:356-359 | reads each & as one more Back around the command, up to a token that is none |
| `ShellCode.ParseLine` | user/sh.c:350-364 | the same for a line; the parser terminates on every line |
| `ShellCode.ParseCmd` | user/sh.c:333-346 | a line is parsed to the one command its tokens, in order, make up, and refused if and only if they make up none; the words are maximal runs of word characters, each redirection goes the way of its arrow, and the text of any command is parsed to that command |
| `ShellNul.Nulterminate` | user/sh.c:455-499 | a NUL is written at the end of every word and nowhere else |
| `ShellNul.AllIntact` | user/sh.c:455-499 | no terminator falls into a word: every word pointer leads to a C string equal to its word on the line |
| `ShellNul.Parsecmd` | user/sh.c:333-346 | accepts exactly the lines of the grammar; the C strings of the command are its words on the line and its redirections go the way of their arrows, so that the text of any command yields that command; a refused line is untouched |

## Left out

- Boot code, device drivers, traps and segment tables: port input and output and fixed tables.
- Spinlocks and context switches are atomic steps; memory ordering, interrupts and TLB loads are not modelled.
- Users, groups and permission checks, `sys_open`, `sys_mknod`, `sys_chdir` and the account programs: finite branching on permission bits.
- The inode cache (`iget`, `ilock`) and path lookup (`skipelem`, `namex`); the file layer works on inodes, and the count of references to an inode is an argument of `iput`.
- Reference counts of open files (`filealloc`, `filedup`, `fileclose`).
- `exec`, `loaduvm`, `copyout`, `uva2ka`, `clearpteu` and `inituvm`.
- The line buffering of `grep` and of the console; only the matcher is modelled.
- `runcmd`; commands are parsed, not executed, and `malloc` in the parser does not fail.
- BeginOp: sleeping is a result that says the caller must wait; the wait loop itself is in the machine's choice of events.
- Readi: what a device's driver answers is left out, as in Writei.
- Writei: out of disk blocks is the panic of `balloc`, after which only block ownership and the inodes on disk are stated.
- Malloc: sbrk returns memory above all earlier memory; nothing is said once a header has been written outside the process.
- LogAppend: nothing is said once `log.lh.block` itself is overrun, which takes a call past its budget.
- Allocuvm: says nothing of the mapping after a panic.
- Iupdate: in `FsCode` the inodes on disk are records; their bytes are in `DiskInode`.
- The blocks that `create`'s transaction logs are not counted.
- Iappend: returns false when the image is full, where mkfs has no test.
- Copyuvm: says nothing of the machine after a panic.
- Pipe: the page of a pipe whose both ends are closed is not reused; a file is closed only when no call on it is under way, which the reference counts ensure.
- ExitWait: pids grow without bound; fork's unlocked writes are to a slot that no other process's scan acts on, so sections under ptable.lock are single steps.
