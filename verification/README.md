# A model of the xv6-64 kernel in Rust, and of three of its programs

A 64-bit xv6 in Rust, as a set of Dafny modules: the write-ahead log with its buffer cache and the file system on top
of it, the program that makes the first disk image, user address spaces over the physical page allocator, the life of
processes, pipes and open files, the heap of user programs, the shell's parser and grep's matcher. Every operation is
a method or a step that does what the code does, panics and error returns included; what the code is for is proved of
them, for every input, every run or every reachable state. `dafny verify dfyconfig.toml` checks all of it.

A panic is a result of the method (`None`, `false` or a case of a result type), except where it only checks that the
caller holds a lock. Code that runs under a lock is one step. The disk is a sequence of blocks that are written one at
a time. Machine integers are modelled where their width matters: block numbers and inode words (32 bits), page-table
entries (64 bits), the counters of pipes (modulo 2^32, as their documentation says, where the code adds without
wrapping), the argument of `sbrk`.

## The parts

**Crash safety.** `Crash` has the commit and the recovery of the log as lists of single-block writes and proves, for
runs in which any of them is cut off anywhere, any number of times, that recovery gives exactly the committed
transactions. `Log` has the code, over the cache of `Bio`, and proves that it makes exactly those writes. `Bio` and
`Lru` have the cache: its list, kept in order of release, and the relation between buffers, disk and what readers see.
`Admission` has begin_op, log_write and end_op in any interleaving. `Durable` puts the log and the files together: the
changes of blocks that `Files` makes are what the cache and the log do; after any crashes the disk is a file system
again, with the contents of the last committed transaction; and a single write is all or nothing.

**Files.** `Inodes` has the slots of inodes, who owns which block, and the bitmap; `Contents` has files as byte
sequences; `Files` has the allocator, the block map, reading, writing in one piece and in chunks, truncation, and
inodes that come and go; `Costs` has what a write costs the log, and `Chunks` counts its blocks. `Directories` has
entries, and looking them up and linking them in the contents of a file. `Mkfs` has the image builder and proves that
its image meets the invariant of `Files`, and that its files are found and read back through `Directories`. It does so
by reading the unfinished image as a file system whose bitmap marks the blocks taken so far. `Common` has the constants
and small definitions that several modules share.

**Memory.** `Paging` has the hardware's walk, the rights it grants, and the bookkeeping that says which frame is at
which place of which tree; `Trees` the elementary changes to trees; `Spaces`, `Mapping`, `Regions` and `Teardown` what the operations
promise and how the promises of their steps add up; `Vm` the code. `Heap` has malloc, free and morecore: a circular
list in address order over an arena that blocks tile.

**Processes.** `Processes` has fork, exit, wait, sleep, wakeup and kill as steps over the process table, and the loops
under its lock. `Pipes` has the ring, and readers and writers in any interleaving. `Descriptors` has the table of open
files and the system calls that open and close descriptors.

**Programs.** `ShellRoundTrip` has the shell's language over tokens, apart from any parser, and proves that the grammar
of `ShellGrammar`, which is the code's recursive descent, accepts exactly that language; `ShellLexer` has the layouts of
tokens in a line and proves that scanning inverts them; `Shell` has the code over characters, and the NUL termination.
`Grep` has the matcher and the language of a pattern.

The invariants are met by something: `Mkfs.Image.constructor` has the empty file system, `Bio.Bcache.constructor` the
fresh cache, `Heap.Allocator.Start` the empty heap, `Vm.Machine.constructor` memory before its first page is given out,
`Processes.Boot` the table with init alone, `Descriptors.FileTable.constructor` and `Pipes.Ring.constructor` the empty
table and the empty pipe.

## What does not hold, and exactly when it does

- Admission control keeps its promise if and only if the log has more than LOGSIZE blocks, the cache more than LOGSIZE
  buffers besides those that readers use, and no block is logged again while the log is exactly full
  (`Admission.AdmissionExact`, `Admission.AbsorbedPanics`). mkfs makes a log of 30 blocks and the cache has 30 buffers,
  so at every log size some run panics (`Admission.NoSizeSuffices`, `Admission.RunPanics`): three operations may log 30
  blocks, and their commit finds no buffer (`Log.FillLog`, `Log.TxnLog.Commit`).
- A write keeps within the MAXOPBLOCKS blocks that admission control assumes if and only if it adds no more to the log
  (`Chunks.StampedCount`). Writes of n bytes always do if and only if n is at most 3073 (`Costs.BudgetExact`); a full
  chunk of filewrite() never does (`Costs.FullChunk`), and two of them fill the log that mkfs makes
  (`Chunks.TwoFirstChunks`). A write does not meet a full log if there is room for as many blocks as it may add, and
  one more (`Files.FileSystem.Writei`).
- A killed writer on a full pipe can leave a reader asleep (`Pipes.SleepExact`, `Pipes.SleepsOnFull`).
- A new process starts out killed if and only if a kill(0) found its slot while it was unused
  (`Processes.StartsKilled`, `Processes.KilledAtBirth`).
- A name is looked up by its first entry that begins with it. That is the entry with the name if and only if no longer
  name comes before (`Directories.LookupExact`, `Directories.MissingExact`). Linking a name can hide another
  (`Directories.LinkKeeps`, `Directories.Shadowed`); in an image of mkfs it depends on the order of the files
  (`Mkfs.ReadFile`).
- A process that shrinks to exactly 0 loses its pages and keeps its size (`Vm.Machine.Growproc`).
- The blocks of malloc() lie in memory that sbrk handed out, until a request of 2^27 units or more reaches sbrk and is
  granted (`Heap.Allocator.Malloc`, `Heap.Request2GiB`).

## Model

| member | source | states |
|---|---|---|
| Crash.CrashSafety | crates/fs/src/log.rs:66-133 | over every run of boots and commits, each cut off after any number of its disk writes, recovery of the disk at any moment yields exactly the home blocks after the last transaction whose header write reached the disk, and while the system is up its home blocks are exactly those |
| Crash.CrashInRecovery | crates/fs/src/log.rs:66-110 | a recovery cut off after any k of its writes leaves a disk that still recovers to the same home blocks, and a finished one leaves an empty log |
| Crash.CrashInCommit | crates/fs/src/log.rs:66-133 | a commit cut off at or before its header write recovers to the old home blocks, after it to the new ones |
| Crash.InstallAgain | crates/fs/src/log.rs:66-76 | installing the log over homes that are already partly installed gives the same homes |
| Crash.InstallAt | crates/fs/src/log.rs:66-76 | after the install loop every home holds the last log block recorded for it and every other block is as before |
| Crash.CommitPoint | crates/fs/src/log.rs:92-133 | once the header is written the log holds exactly the blocks of the transaction and their contents, and no home has changed |
| Crash.StepKeepsConsistent | crates/fs/src/log.rs:66-133 | one boot or commit, complete or cut off, keeps the relation between the disk and the committed transactions |
| Log.TxnLog.Commit | crates/fs/src/log.rs:66-133 | commit() makes exactly the writes of the crash model in that order, leaves the homes as readers saw them and the log empty, while others hold buffers of other blocks; with those buffers held throughout, it panics exactly when no buffer can be recycled and one of its log blocks is not in the cache, and then it has made only writes before the header, so that recovery gives the disk from before |
| Log.TxnLog.CommitAmid | crates/fs/src/log.rs:66-133 | commit() while readers take, fill and let go of buffers of other blocks before every one of its disk writes: it makes exactly the writes of the crash model, in order, up to where it finds no buffer; wherever that is, recovery gives the disk from before if the header had not been written and what readers saw if it had |
| Log.TxnLog.ReaderStep | crates/fs/src/bio.rs:77-152 | no action of a reader makes a block dirty or clean or changes what the cache shows |
| Log.TxnLog.FinishOp | crates/fs/src/log.rs:194-203 | the commit and what end_op() does after it are the admission step; it panics exactly where admission says so, with as many clean buffers in use elsewhere as there are |
| Log.RoomExact | crates/fs/src/log.rs:113-133 | when nobody else uses a block of the log, a commit finds its buffers if and only if the logged blocks and the clean buffers in use are fewer than NBUF |
| Log.FillLog | crates/fs/src/log.rs:159-238 | on every disk with a big enough log, three operations that log ten blocks each are admitted and leave a commit of 30 blocks to do with every buffer dirty, which is exactly when commit() panics |
| Log.TxnLog.RecoverFromLog | crates/fs/src/log.rs:66-110 | recovery makes exactly the writes of the crash model and never runs out of buffers |
| Log.TxnLog.WriteLog | crates/fs/src/log.rs:113-122 | the copies to the log area are the first writes of the commit; it panics exactly when no buffer can be recycled and one of those blocks is not in the cache, and otherwise leaves as much room in the cache as there was |
| Log.TxnLog.InstallTrans | crates/fs/src/log.rs:66-76 | the blocks go home in order and the log area stays as it is; with the room that a commit or a recovery has it never runs out of buffers |
| Log.TxnLog.WriteHead | crates/fs/src/log.rs:92-102 | one write of the header, with the count in its first word and the block numbers in the next; it panics exactly when the header is not in the cache and nothing can be recycled for it |
| Log.TxnLog.ReadHead | crates/fs/src/log.rs:79-88 | the block numbers of the header on disk; a count beyond LOGSIZE is a panic |
| Log.TxnLog.LogWrite | crates/fs/src/log.rs:211-238 | a block is recorded once however often it is logged, its buffer is pinned, and exactly the logged blocks are dirty; only a block that is new is charged to the operation; it fails exactly where admission says it panics |
| Log.TxnLog.BeginOp | crates/fs/src/log.rs:159-173 | one turn of the loop is the admission step; the process is admitted exactly when no commit is running and the blocks logged, ten for every operation in progress and ten of its own make at most 30 |
| Log.TxnLog.EndOp | crates/fs/src/log.rs:178-203 | the admission step: one operation less; it commits exactly when it is the last, wakes the sleepers otherwise, and panics exactly during a commit |
| Log.OverlayIsView | crates/fs/src/log.rs:113-133 | the disk with the logged blocks laid over it is what readers of the cache see |
| Admission.AdmissionExact | crates/fs/src/log.rs:159-238 | no interleaving of operations that add at most MAXOPBLOCKS blocks each panics in log_write(), end_op() or a commit, while at most r clean buffers are in use outside of commits and nothing is logged again with the log exactly full, if and only if the log area has more than LOGSIZE blocks and the cache more than LOGSIZE + r buffers; mkfs makes a log of 30 and the cache has 30 |
| Admission.RunKeepsInv | crates/fs/src/log.rs:159-238 | in every interleaving the blocks logged and all remaining budgets fit in the log, a commit runs only with nothing outstanding, and a process sleeps only while a commit runs or its reservation would not fit |
| Admission.AdmitExact | crates/fs/src/log.rs:159-173 | after any run, one more operation is admitted exactly if no commit is running and the blocks logged, ten for every operation in progress and ten of its own make at most 30; otherwise it sleeps, and nothing else changes |
| Admission.Joins | crates/fs/src/log.rs:159-173 | there are never more than three operations at once; a third joins two that have logged nothing, a second joins one while at most ten blocks are logged, and a fourth sleeps |
| Admission.StepKeepsInv | crates/fs/src/log.rs:159-238 | each step keeps that |
| Admission.NoPanic | crates/fs/src/log.rs:159-238 | with that much log and cache no such run panics, neither in log_write(), end_op() nor a commit |
| Admission.RunPanics | crates/fs/src/log.rs:159-238 | a run panics if and only if at some point it logs a block more than the log has room for, or logs a block again with the log exactly full, or commits with every buffer pinned or in use |
| Admission.NoSizeSuffices | crates/fs/src/log.rs:113-133 | with NBUF buffers, at every log size some such run panics |
| Admission.AbsorbedPanics | crates/fs/src/log.rs:211-238 | with a log and a cache of any size beyond LOGSIZE, a run panics in a log_write() of a block that is logged already and needs no room |
| Bio.Bcache.constructor | crates/fs/src/bio.rs:55-72 | all 30 buffers are on the list, and the invariant of the cache holds |
| Bio.Bcache.Get | crates/fs/src/bio.rs:77-109 | the buffer of the block if there is one, otherwise the least recently released buffer that is unreferenced and clean; it fails only if none is |
| Bio.Bcache.FindVictim | crates/fs/src/bio.rs:94-108 | among the buffers that may be recycled the one released longest ago |
| Bio.Bcache.Find | crates/fs/src/bio.rs:82-92 | the buffer of the block, if and only if there is one |
| Bio.Bcache.Read | crates/fs/src/bio.rs:113-119 | a locked buffer with the contents that the file system shows for the block; it waits exactly when another process has the buffer locked, and panics exactly when it need not wait and has no buffer for the block or no such block |
| Bio.Bcache.Lock | crates/fs/src/bio.rs:82-105 | a process that has a reference gets the lock exactly if nobody holds it, in any state of the cache |
| Bio.Bcache.Fill | crates/fs/src/bio.rs:113-119 | the holder of the lock fills a buffer that is not valid with what the file system shows for the block, whatever others did since it took the reference |
| Bio.Bcache.Unlock | crates/fs/src/bio.rs:132-137 | the lock is let go by a holder who has logged or written what they changed |
| Bio.Bcache.Unref | crates/fs/src/bio.rs:139-152 | the reference is dropped even if another process has the lock by then; with the last reference the buffer becomes the most recently released one |
| Bio.Bcache.WriteOut | crates/fs/src/bio.rs:122-128 | one disk write; the cache shows the same blocks as before |
| Bio.Bcache.Release | crates/fs/src/bio.rs:132-152 | both together; the list stays a permutation of all buffers |
| Bio.OneBuffer | crates/fs/src/bio.rs:77-109 | no block of a device other than 0 has two buffers |
| Bio.CleanEqualsDisk | crates/fs/src/bio.rs:77-152 | every unheld, valid, clean buffer equals its disk block |
| Lru.PushFront | crates/fs/src/bio.rs:60-71 | linking in behind the head keeps both circles, by release time |
| Lru.Unlink | crates/fs/src/bio.rs:142-150 | unlinking a buffer keeps both circles |
| Lru.Inverse | crates/fs/src/bio.rs:55-72 | next and prev are inverse to each other |
| Files.FileSystem.Balloc | crates/fs/src/fs.rs:156-179 | the first free block, marked and zeroed, and nothing else changes; both blocks it changes are logged; it fails with a full disk exactly on a full disk, and otherwise only when the log has no room for the bitmap block and one more |
| Files.FileSystem.Store | crates/fs/src/log.rs:211-238 | every change of a block goes with a log_write(), which fails exactly when the log has no room left, even for a block it holds |
| Files.FileSystem.FindFree | crates/fs/src/fs.rs:156-179 | the scan finds the first unmarked block, or the size of the disk if there is none |
| Files.FileSystem.Claim | crates/fs/src/fs.rs:148-172 | marking and zeroing a free block changes only those two blocks, and logs both; it fails only when the log has no room for them, and has logged no more than the bitmap block by then |
| Files.FileSystem.Bfree | crates/fs/src/fs.rs:182-193 | clears one mark, logged; "freeing free block" exactly on a block that is free, otherwise it fails only on a full log |
| Files.FileSystem.Bmap | crates/fs/src/fs.rs:357-386 | a mapped block is found without a change, an unmapped one becomes a fresh block of zeros; no other file changes and ownership stays exact; it logs exactly the block, the bitmap blocks of new blocks and the indirect block, with an exact number of calls; "out of range" exactly past MAXFILE, otherwise it fails only on a full disk or a full log |
| Files.FileSystem.FillDirect | crates/fs/src/fs.rs:358-372 | the direct slots and the indirect block of bmap(), what they log, and their failures |
| Files.FileSystem.FillEntry | crates/fs/src/fs.rs:373-382 | the entries of the indirect block, what they log, and their failures |
| Files.FileSystem.Readi | crates/fs/src/fs.rs:429-465 | exactly the bytes of the file from off, clipped to its size; it neither allocates nor calls log_write(); the error cases exactly |
| Files.FileSystem.Writei | crates/fs/src/fs.rs:469-512 | the bytes are spliced in at off, the size is the maximum, every other byte of every file is unchanged, memory and disk agree on every inode again; only logged blocks have changed, and it logs exactly the blocks it touches, the bitmap blocks of new blocks, the indirect block if it has a new entry and the inode block if the file grows, in exactly Cost(size, off, n) calls; the error cases exactly; a panic means a full disk or a full log, and the log does not fill up if it has room for Spread(size, off, n) blocks and one more |
| Files.FileSystem.WriteLoop | crates/fs/src/fs.rs:490-505 | the loop over blocks writes exactly the bytes, with no hole, moves no block of the file, and logs exactly those blocks; it fails only on a full disk, or on a log without room for that many blocks |
| Files.FileSystem.Iupdate | crates/fs/src/fs.rs:263-275 | the inode goes to its place on disk, logged, and no other inode there changes; it fails exactly on a full log |
| Files.FileSystem.Itrunc | crates/fs/src/fs.rs:389-415 | the file becomes empty, exactly its own blocks are unmarked, no other file changes, and the panic on freeing a free block is out of reach; however long the file, it logs at most the bitmap and its inode block, and fails only if the log has no room for the bitmap |
| Files.FileSystem.FreeSlot | crates/fs/src/fs.rs:389-410 | the block in one slot is marked when its turn comes, and only its mark is cleared; it fails only on a full log |
| Files.FileSystem.Filewrite | crates/fs/src/file.rs:245-280 | whatever else the log holds when each chunk begins, chunks of 6656 bytes add up to one write of all the bytes; a failure stops between two chunks, because the file would get too long or, at the first, because the offset is past the end of the file; a panic means a full disk or a full log |
| Files.FileSystem.Ilock | crates/fs/src/fs.rs:289-312 | the inode read from disk is the one that was last written back; it panics exactly on a free inode |
| Files.FileSystem.Ialloc | crates/fs/src/fs.rs:243-259 | the first free inode, on disk too, and logged; no file changes, and zeroing it loses no block because a free inode has none; "no inodes" exactly without a free inode, otherwise it fails exactly on a full log |
| Files.FileSystem.Discard | crates/fs/src/fs.rs:326-342 | the last reference to an inode without links: exactly its blocks are unmarked, the inode is free and no other file changes; it does not fail if the log has room for the bitmap, the inode block and one more |
| Chunks.StampedCount | crates/fs/src/fs.rs:469-512 | a write adds to an empty transaction exactly the blocks it touches, the bitmap block if the file gets a block, the indirect block if it gets an entry and the inode block if it grows |
| Chunks.TwoFirstChunks | crates/fs/src/file.rs:253-262 | two operations admitted together that write the first chunk of a new file each: the log of mkfs, which takes 29 blocks, ends one of them in a panic on a disk that is not full |
| Costs.BudgetExact | crates/fs/src/fs.rs:469-512 | writes of n bytes add at most MAXOPBLOCKS blocks to the log, for every file size and offset, if and only if n is at most 3073 |
| Costs.LongWriteMayNot | crates/fs/src/fs.rs:469-512 | for every longer n a file and an offset at which it adds more |
| Costs.OverwriteExact | crates/fs/src/fs.rs:490-505 | a write inside the file fits if and only if it has bytes of at most MAXOPBLOCKS blocks |
| Costs.FullChunk | crates/fs/src/file.rs:253-262 | a full chunk adds more than MAXOPBLOCKS blocks, at every offset of every file |
| Costs.ChunkOverBudget | crates/fs/src/file.rs:253-262 | a full chunk that starts at a block boundary logs at least its 13 data blocks |
| Costs.FirstChunk | crates/fs/src/file.rs:253-262 | the first full chunk of a new file takes 43 calls of log_write() for 16 blocks |
| Costs.TurnsCostIs | crates/fs/src/fs.rs:357-386 | the calls of the write loop: one for each block, two more for each new block, one for each new entry of the indirect block, two for the indirect block |
| Files.WrittenTwice | crates/fs/src/file.rs:256-275 | two writes one after the other are one write of both |
| Inodes.AllocDirect | crates/fs/src/fs.rs:156-179 | a fresh block in an empty slot keeps every block in one slot and the bitmap exact |
| Inodes.AllocEntry | crates/fs/src/fs.rs:373-382 | a fresh block in an entry of the indirect block keeps every block in one slot and the bitmap exact |
| Inodes.StoreData | crates/fs/src/fs.rs:490-505 | new contents for a data block change that block of that file only |
| Inodes.TruncInv | crates/fs/src/fs.rs:389-415 | without exactly the blocks of one inode the rest is owned and marked as before |
| Inodes.PutOnDisk | crates/fs/src/fs.rs:263-275 | writing one inode back touches no other inode of its block |
| Contents.HalfStep | crates/fs/src/fs.rs:490-505 | one turn of the write loop extends the part of the file that is written |
| Contents.HalfDone | crates/fs/src/fs.rs:490-511 | the loop done, the bytes are the old ones with the new ones spliced in |
| Contents.ReadPiece | crates/fs/src/fs.rs:448-463 | one turn of the read loop yields the next bytes of the file |
| Bitmap.MarkOne | crates/fs/src/fs.rs:164-191 | setting or clearing one bit changes the mark of one block |
| Mkfs.Image.Build | mkfs/src/main.rs:242-309 | for any files that fit, the image meets the whole invariant of the kernel, free inodes without blocks included, and its log is empty: the root lists every file, inode 2 + k holds exactly the bytes of file k, the bitmap marks exactly the blocks below the last one taken and the files own exactly the data blocks among them; it fails only if a file or the image gets too big or there are more files than inodes |
| Mkfs.ReadFile | mkfs/src/main.rs:269-299 | in a built image, looking file k up under its name, without an underscore and cut to 14 bytes, finds inode 2 + k, if and only if no earlier entry of the root begins with that name; and reading whatever file is found returns exactly its bytes |
| Mkfs.RootDecoded | mkfs/src/main.rs:269-299 | decoded, the root has "." and ".." for inode 1 and then, for file k, inode 2 + k and its name without a leading underscore, cut to 14 bytes |
| Mkfs.RootFinds | mkfs/src/main.rs:269-299 | the entry of file k is the first that begins with its name, if and only if nothing before it does |
| Directories.Dirlookup | crates/fs/src/fs.rs:537-562 | the first entry in use whose name begins with the given one, with its place and inode number, or none; nothing changes; it panics exactly on a file that is no directory, or where an entry is cut off |
| Directories.Namecmp | crates/fs/src/fs.rs:519-532 | true exactly if the name in the entry begins with the given one |
| Directories.LookupExact | crates/fs/src/fs.rs:537-562 | of the entries with exactly that name the first is found, if and only if no longer name that begins with it comes before |
| Directories.MissingExact | crates/fs/src/fs.rs:537-562 | a name that no entry has is missing, if and only if no entry begins with it |
| Directories.Dirlink | crates/fs/src/fs.rs:566-602 | refused exactly if the name is found; otherwise the entry goes to the first free place or to the end, as one write of 16 bytes, with the failures of that write |
| Directories.LinkFinds | crates/fs/src/fs.rs:566-602 | a name just linked is found, at its own entry and with its inode number |
| Directories.LinkKeeps | crates/fs/src/fs.rs:566-602 | another name is found where it was, exactly unless the new name begins with it and took an earlier place |
| Directories.LinkMisses | crates/fs/src/fs.rs:566-602 | a name that was missing still is, exactly unless the new name begins with it |
| Directories.Shadowed | crates/fs/src/fs.rs:566-602 | it happens: with a free place before the entry "a", linking "ab" makes "a" lead to the new file |
| Directories.DirentIs | crates/fs/src/fsh.rs:55-58 | an entry is read back as it was written: the number modulo 2^16, and what fits of the name |
| Mkfs.Image.Iappend | mkfs/src/main.rs:184-239 | the bytes go to the end of the file, every other file is unchanged, and blocks are taken in order |
| Mkfs.Image.MapBlock | mkfs/src/main.rs:191-222 | the block that comes next in the file, taken from the free ones if need be |
| Mkfs.Image.Ialloc | mkfs/src/main.rs:172-182 | the next inode, of that type and empty, on disk too |
| Mkfs.Image.Finish | mkfs/src/main.rs:301-306 | the bitmap written at the end is the one the image stood for all along |
| Mkfs.Image.AddFile | mkfs/src/main.rs:282-299 | one file and its directory entry |
| Mkfs.Image.constructor | mkfs/src/main.rs:89-119 | the empty image meets the invariant of the kernel, and its superblock has the fields of the layout |
| Inodes.DecodeOnDisk | mkfs/src/main.rs:141-170 | reading an inode back gives the inode that was written |
| Inodes.DinodeLayout | crates/fs/src/fs.rs:263-275 | where the fields of an inode are in its 64 bytes on disk |
| Mkfs.Bump | mkfs/src/main.rs:195-222 | taking the next block in order is what the block allocator of the kernel would do |
| Durable.Durability | crates/fs/src/log.rs:66-133 | over every run of boots and commits, each cut off anywhere, the recovered disk meets the whole file-system invariant and every file has the contents that the last committed transaction gave it |
| Durable.WriteIsAtomic | crates/fs/src/fs.rs:469-512 | a write whose commit is cut off after any of its disk writes: recovery finds every file as before, or the file with exactly the new bytes spliced in and every other file as before |
| Durable.HomesInv | mkfs/src/main.rs:89-119 | the log is no part of the file system: two disks with the same home blocks hold the same files under the same invariant |
| Durable.OverlayIs | crates/fs/src/log.rs:113-133 | a transaction that holds the new contents of all logged blocks, laid over the old disk, is the new file system |
| Durable.Newborn | mkfs/src/main.rs:242-309 | an image that mkfs has built, with its empty log, is a start for such runs |
| Durable.StoreThrough | crates/fs/src/fs.rs:148-152 | a read, a store into the buffer, log_write() and a release do to the cache and the log exactly what the model of the file system does to its blocks and its transaction, and panic exactly when it fails |
| Durable.BehindTxn | crates/fs/src/log.rs:113-133 | so the transaction that commit() writes is the one of the file system |
| Heap.Allocator.constructor | crates/ulib/src/lib.rs:369-373 | the empty heap |
| Heap.Allocator.Malloc | crates/ulib/src/lib.rs:376-418 | the new block is the smallest number of units that holds the request and a header, and overlaps no live block; live blocks keep their size and place, sbrk is called at most once and exactly when no free block fits; null only if sbrk refused; every block still lies in memory that sbrk handed out, if and only if sbrk was not called or refused or the request is below 2^27 units |
| Heap.Allocator.Free | crates/ulib/src/lib.rs:437-471 | the block is free, free and live blocks still tile the arena, no two free blocks touch, the list is circular and in address order |
| Heap.Allocator.FindSpot | crates/ulib/src/lib.rs:444-451 | the search ends, at the neighbours of the block in address order |
| Heap.Allocator.Coalesce | crates/ulib/src/lib.rs:453-467 | with whatever neighbours it merges, the block is live no more, every other live block keeps its size, the arena is the same, the list stays circular and in order and no two free blocks touch |
| Heap.Allocator.Walk | crates/ulib/src/lib.rs:389-416 | one turn around the list from the roving pointer finds the first fit after it, whenever there is one |
| Heap.Allocator.Take | crates/ulib/src/lib.rs:391-404 | the block leaves the list whole or gives up its tail, and the roving pointer goes to its predecessor; the rest of the arena is untouched |
| Heap.Allocator.Morecore | crates/ulib/src/lib.rs:421-434 | the claimed bytes join the arena as one free block, merged with its neighbour; they lie in memory that sbrk handed out, if and only if sbrk refused or the request is below 2^27 units |
| Heap.Request2GiB | crates/ulib/src/lib.rs:376-434 | a first request of 2 GiB that sbrk grants returns a live block outside that memory |
| Heap.Allocator.Start | crates/ulib/src/lib.rs:380-387 | the first call sets up a list of BASE alone |
| Heap.FreeBlock | crates/ulib/src/lib.rs:437-471 | freeing a live block between its neighbours keeps list, tiling and separation, with or without merging |
| Heap.TakeBlock | crates/ulib/src/lib.rs:391-404 | taking a block or its tail keeps list, tiling and separation |
| Vm.Split | crates/arch/src/mmu.rs:128-160 | below 2^48 the four indices make up the page number, and PMX is in the user half exactly below 2^47 |
| Vm.SplitInjective | crates/arch/src/mmu.rs:128-141 | two addresses have the same four indices exactly if they are in the same page |
| Paging.LookupIsLeaf | crates/arch/src/vm.rs:214-255 | for a page below 2^47 the hardware walk through the four levels finds exactly what the flat map of the tree says |
| Paging.RightsAreLeaf | crates/arch/src/vm.rs:214-255 | the rights that the processor grants on a page, which are those that all four entries of its walk grant, are exactly those of its own entry |
| Paging.KernelHidden | crates/arch/src/vm.rs:172-194 | the user has no right to any page of the kernel's half |
| Spaces.OnlyRights | crates/arch/src/vm.rs:214-282 | an operation that changes no translation outside a range changes no right there |
| Spaces.ShapeMeans | crates/arch/src/vm.rs:335-355 | an address is mapped exactly if it is past the first page and its page begins below the size |
| Vm.Machine.Kalloc | crates/mm/src/kalloc.rs:123-144 | the head of the free list; it panics exactly on an empty list |
| Vm.Machine.Kfree | crates/mm/src/kalloc.rs:91-120 | the frame joins the list, filled with junk; it panics exactly on a bad address |
| Vm.Machine.Freerange | crates/mm/src/kalloc.rs:80-88 | exactly the whole frames of the range join the free list |
| Vm.Machine.Kvmalloc | crates/arch/src/vm.rs:180-194 | two frames become the tables of the kernel: its own root, and the table that trees will share, through which the first GiB from KERNBASE on and the fourth lead to the physical address, writable and not for the user, and nothing else does |
| Vm.Machine.Setupkvm | crates/arch/src/vm.rs:172-178 | a new tree that maps nothing, and no translation of another tree changes |
| Vm.Machine.Walkpgdir | crates/arch/src/vm.rs:214-255 | the page table for the address, and every entry on the way to it grants the user reading and writing; missing tables are added only when asked for, and no translation and no data change; it panics only with an empty free list |
| Vm.Machine.Mappages | crates/arch/src/vm.rs:261-282 | exactly the pages of the range get exactly these frames and flags, and on the walk of the processor exactly the rights of these flags; every other translation and all data are unchanged; it panics exactly if one of them is mapped, or with an empty free list |
| Vm.Machine.Allocuvm | crates/arch/src/vm.rs:335-355 | exactly the pages of [PGROUNDUP(oldsz), newsz) are new and zero, on frames off the free list, and the user may read and write them; all else is unchanged; "remap" is out of reach; the address space keeps its shape for every newsz |
| Vm.Machine.Deallocuvm | crates/arch/src/vm.rs:357-375 | exactly the pages of [PGROUNDUP(newsz), oldsz) are gone and their frames are free; all else is unchanged; the panics are out of reach |
| Vm.Machine.Growproc | crates/proc/src/proc.rs:224-242 | the result, the new size and the new pages in every case; the present pages are exactly those of [PGSIZE, PGROUNDUP(sz)) afterwards, if and only if the process did not shrink to exactly 0 with a page mapped |
| Vm.Machine.Copyuvm | crates/arch/src/vm.rs:429-457 | a new tree with the same pages, flags, rights and bytes on frames of its own; it panics only if a page is missing or memory runs out |
| Vm.ForkShape | crates/proc/src/proc.rs:258-267 | the copy has the shape of the original, and every size a process can have fits the 32 bits that copyuvm() takes |
| Vm.Machine.Freevm | crates/arch/src/vm.rs:381-415 | every frame of the tree is on the free list, once, the kernel table and every other tree are untouched |
| Vm.Machine.FreeTable | crates/arch/src/vm.rs:386-414 | one level of the nested loops frees exactly the frames below the table and the table |
| Vm.Machine.Clearpteu | crates/arch/src/vm.rs:421-427 | the user has no right to the page any more, and nothing else changes; it panics exactly without a page table for the address |
| Vm.Machine.Uva2ka | crates/arch/src/vm.rs:459-465 | the kernel address of the page, exactly if it is present and a user page |
| Vm.Conservation | crates/arch/src/vm.rs:172-465 | over any run of these operations, with stores into the pages of any process and into frames the kernel holds, and with kernel stacks and pipe pages taken and given back in between, every frame is free, in a tree or held, once, and these are the same frames in all; the table of slot 256 is neither freed nor changed; and once all trees are gone and the same frames are held the free list holds every other frame again, once |
| Vm.Isolation | crates/arch/src/vm.rs:172-465 | over any run of operations on other trees and stores by other processes, every translation of a process and every byte of its pages stay as they are |
| Vm.StoresKeep | crates/arch/src/vm.rs:285-333 | stores into the pages of a process or into frames the kernel holds keep every tree and the free list in order |
| Vm.BorrowsKeep | crates/mm/src/kalloc.rs:91-144 | a frame taken from or given to the allocator for a kernel stack or a pipe leaves every tree and every other frame as it was |
| Vm.PoolAndHeld | crates/mm/src/kalloc.rs:91-144 | every frame after the kernel image but its table is free, in a tree or held by somebody, and only one of these |
| Spaces.ShapeBound | crates/proc/src/proc.rs:224-242 | no address space is bigger than the memory, so sizes stay far below 2^32 |
| Trees.LinkInv | crates/arch/src/vm.rs:215-254 | a frame linked into a tree keeps every frame in one place and every entry leading to its frame |
| Trees.UnlinkInv | crates/arch/src/vm.rs:357-375 | an unmapped page leaves every other frame in its place |
| Teardown.TornDownDone | crates/arch/src/vm.rs:381-415 | with exactly the frames of one tree freed, the remaining trees are whole and translate as before |
| Pipes.Ring.Write | crates/fs/src/pipe.rs:165-185 | from where its process is to its next sleep or its return, the code on the wrapping counters takes the writer step of the model: as many bytes as there is room for, in order, then written, blocked or failed; readers are woken unless it failed |
| Pipes.Ring.Read | crates/fs/src/pipe.rs:190-213 | likewise the reader step: it sleeps or, if killed, fails on an empty pipe with a writer, and otherwise returns the next bytes, exactly as many as were asked for or are there, and wakes the writers |
| Pipes.Ring.Pipeclose | crates/fs/src/pipe.rs:142-160 | the step that closes an end; the page is freed exactly when both are closed, and then no call is left on the pipe |
| Pipes.Ring.Insert | crates/fs/src/pipe.rs:168-181 | the bytes that fit go into the ring behind those that are there |
| Pipes.Ring.Remove | crates/fs/src/pipe.rs:203-208 | the oldest bytes come out of the ring, as many as there are and were asked for |
| Pipes.Ring.constructor | crates/fs/src/pipe.rs:104-109 | a new pipe is a start for the runs of the model |
| Pipes.Ring.Tests | crates/fs/src/pipe.rs:48-59 | on counters that wrap, full and empty are what they are on the totals |
| Pipes.PipeRun | crates/fs/src/pipe.rs:142-213 | in every interleaving the bytes read are a prefix of the bytes inserted, at most 512 are between, and each writer's bytes are in order; and as long as no killed writer leaves a sleeping reader behind, readers and writers never sleep together |
| Pipes.EndOfFile | crates/fs/src/pipe.rs:190-213 | in every run, a reader that asks for at least one byte, has not been killed and gets none has seen the end: all that was ever written has been read, and nothing is ever written again |
| Pipes.ReadsNothing | crates/fs/src/pipe.rs:190-213 | a read of at least one byte returns none exactly if the pipe is empty, and its write end is closed or the reader is killed |
| Pipes.SleepExact | crates/fs/src/pipe.rs:165-213 | a step keeps every sleeping reader on an empty pipe with a writer and every sleeping writer on a full pipe with a reader, if and only if it is not a killed writer that fills the pipe and returns while a reader sleeps |
| Pipes.SleepsOnFull | crates/fs/src/pipe.rs:171-174 | a run in which that happens: the reader sleeps on a full pipe |
| Pipes.WriteReturns | crates/fs/src/pipe.rs:165-185 | a write that returns its length has inserted exactly its bytes, in order |
| Pipes.StepKeepsInv | crates/fs/src/pipe.rs:142-213 | each step keeps order and bounds |
| Processes.ProcessRun | crates/proc/src/proc.rs:133-382 | in every run every process that ran, other than init, has a live parent; no process sleeps in wait() while it has a zombie child or is killed; no pid is reaped twice and no stack or page table freed twice |
| Processes.StepKeeps | crates/proc/src/proc.rs:133-574 | every step of every process keeps the invariant |
| Processes.ExitKeeps | crates/proc/src/proc.rs:298-338 | exit() hands its children to init, and wakes its parent, and init if one of the children is a zombie |
| Processes.ReapsKeeps | crates/proc/src/proc.rs:345-373 | a zombie is reaped with its pid, stack and page table, which nobody else has |
| Processes.StartsKilled | crates/proc/src/proc.rs:133-155 | a new process starts out killed, if and only if a kill(0) found its slot while it was unused |
| Processes.MarkedRun | crates/proc/src/proc.rs:558-574 | in every run an unused slot is marked as killed, if and only if a kill(0) found it since it became unused |
| Processes.KilledAtBirth | crates/proc/src/proc.rs:558-574 | a kill(0) and then a fork() into the slot it found: the child starts out killed |
| Processes.Ptable.Exit | crates/proc/src/proc.rs:318-335 | children go to init, the process becomes a zombie, and exactly those who sleep on its parent are woken, and on init if a child was a zombie; no other field of a slot changes |
| Processes.Ptable.Wait | crates/proc/src/proc.rs:345-382 | the first zombie child is reaped; without one it fails exactly without children or when killed, and sleeps otherwise |
| Processes.Ptable.Allocproc | crates/proc/src/proc.rs:133-155 | the first unused slot, with the next pid; nothing changes if there is none |
| Processes.Ptable.Wakeup1 | crates/proc/src/proc.rs:533-540 | exactly the sleepers on the channel become runnable |
| Processes.Ptable.Kill | crates/proc/src/proc.rs:558-574 | the first slot with the pid is marked and no longer sleeps, and no other slot changes; -1 exactly if there is none |
| Processes.Boot | crates/proc/src/proc.rs:191-217 | the table with init alone meets the invariant |
| Descriptors.FileTable.Filealloc | crates/fs/src/file.rs:142-154 | the first free structure; it fails exactly if there is none |
| Descriptors.FileTable.Filedup | crates/fs/src/file.rs:158-167 | one more reference; it panics exactly on a free structure |
| Descriptors.FileTable.Fileclose | crates/fs/src/file.rs:171-205 | one reference less; with the last one the cleanup runs: a pipe whose ends are both closed is freed, an inode is put |
| Descriptors.FileTable.Fdalloc | crates/syscall/src/sysfile.rs:89-100 | the lowest free descriptor of the process, or -1 if there is none |
| Descriptors.FileTable.Dup | crates/syscall/src/sysfile.rs:107-120 | a second descriptor for the file, and counts equal to the number of slots again; it fails exactly on a bad descriptor or a full table |
| Descriptors.FileTable.Close | crates/syscall/src/sysfile.rs:150-164 | the descriptor is gone, counts equal the number of slots again, and the inode is put exactly with the last reference to its file |
| Descriptors.FileTable.Pipealloc | crates/fs/src/pipe.rs:84-138 | two structures for one new page, or nothing at all |
| Descriptors.FileTable.Pipe | crates/syscall/src/sysfile.rs:207-241 | two descriptors for the ends of one new pipe, or on any failure path no change of slots or counts; it fails only short of structures or descriptors |
| Descriptors.FileTable.Fork | crates/proc/src/proc.rs:275-280 | the child has the descriptors of its parent, and counts equal the number of slots again |
| Descriptors.FileTable.Exit | crates/proc/src/proc.rs:305-311 | no descriptor of the process is left, and counts equal the number of slots again |
| Descriptors.AllClosed | crates/fs/src/file.rs:171-205 | when no descriptor is open every structure that was ever taken was cleaned up once and every pipe page freed once |
| Descriptors.OpenPipe | crates/fs/src/pipe.rs:142-160 | an open descriptor never leads to a freed pipe page |
| Descriptors.DropKeeps | crates/fs/src/file.rs:171-205 | dropping a reference keeps the accounting, whatever references are in hand |
| Shell.Parsecmd | user/src/sh.rs:325-338 | a line that is a way to write a tree, in any layout and with redirections wherever they may stand, parses to that tree, with every argument and file name a C string equal to its token; any other line is a syntax error and stays as it was |
| ShellLexer.ParseExact | user/src/sh.rs:262-441 | for every line: if it is a layout, with any run of blanks, tabs, returns, newlines and vertical tabs between the tokens, of a way to write a tree, it parses to that tree; and if it parses to a tree, it is such a layout |
| ShellLexer.Unambiguous | user/src/sh.rs:325-441 | no line writes two trees |
| ShellLexer.PrintParse | user/src/sh.rs:272-441 | every command tree with legal words and at most nine arguments to a command is written by some line, which parses to it |
| ShellLexer.LexLaid | user/src/sh.rs:272-314 | scanning any layout of tokens gives the tokens |
| ShellLexer.LexIsLaid | user/src/sh.rs:272-314 | every line is a layout of the tokens that are scanned from it |
| ShellRoundTrip.RoundTrip | user/src/sh.rs:340-441 | over tokens, parsing any way to write a tree gives the tree: redirections before, among and after the arguments, `>` or `>>`, parentheses around any command |
| ShellRoundTrip.Sound | user/src/sh.rs:340-441 | what parses to a tree is a way to write it |
| Shell.Parser.Parse | user/src/sh.rs:325-336 | the grammar's answer, on every line |
| Shell.Parser.Parseline | user/src/sh.rs:340-355 | the line of the grammar, and the tokens left over |
| Shell.Parser.Parsepipe | user/src/sh.rs:357-366 | the pipeline of the grammar, and the tokens left over |
| Shell.Parser.Parseredirs | user/src/sh.rs:368-393 | the redirections of the grammar, in order, or an error where a file name is missing |
| Shell.Parser.Parseblock | user/src/sh.rs:395-408 | the block of the grammar, and the tokens left over |
| Shell.Parser.Parseexec | user/src/sh.rs:410-441 | the command of the grammar with its arguments and redirections, or an error at the tenth argument or a stray symbol |
| Shell.Parser.Gettoken | user/src/sh.rs:272-314 | the next token of the line, and the rest of the tokens after it |
| Shell.Parser.Peek | user/src/sh.rs:316-323 | whether the next token is one of the symbols; no token is consumed |
| Shell.Nulterminate | user/src/sh.rs:444-480 | a NUL at the end of every word of the tree and nowhere else |
| Shell.WordsStay | user/src/sh.rs:444-480 | no end of a word lies in another word, so every word is still there |
| Grep.MatchPattern | user/src/grep.rs:57-74 | true exactly if some suffix of the text, or the whole text after ^, has a prefix in the language of the pattern |
| Grep.MatchHere | user/src/grep.rs:77-91 | true exactly if the text has a prefix in the language of the pattern |
| Grep.MatchStar | user/src/grep.rs:94-106 | true exactly if some number of accepted characters is followed by a match: the shortest-first search misses none |
| Grep.StarInLanguage | user/src/grep.rs:94-106 | the language of a starred character, unrolled once |

## Left out

- Heap.Allocator.Morecore: what sbrk answers is a parameter, with a gap between the old break and the new memory allowed; the BASE header lies below the heap.
- Log.TxnLog.CommitAmid: readers act between its disk writes, not between the two reads of one copy; a logged block or one of the log that somebody holds, for which it would wait, is excluded, and nobody changes a buffer without logging it.
- Admission.AdmissionExact: "bget: no buffers" in the reads that operations make themselves is not among its panics.
- Files.FileSystem.Writei: the blocks that other operations add to the log while it runs; `logged` may hold any blocks when it begins. "log_write outside of trans" is out of reach, because it runs inside an operation.
- Log.TxnLog.RecoverFromLog: at boot, with no buffer in use.
- Bio.OneBuffer: for devices other than 0, because init() leaves every buffer at device 0, block 0.
- Mkfs.Image.Build: what the image holds after the 199th file; mkfs does not check, and from inode 208 on would write inodes over the bitmap.
- Mkfs.Image.Build: the files of the host are parameters, and the kernel's reading of the superblock is not modelled.
- Vm.Machine.Mappages: for sizes above 0 and addresses below 2^47, where the code's callers are.
- Vm.Machine.Copyuvm: the branches for a null result of kalloc() are not modelled, because kalloc() panics instead; the same holds for allocuvm(), walkpgdir() and setupkvm().
- Processes.StepKeeps: pids grow without wrapping at 2^31.
- Processes.Ptable.Wait: the stale page-table pointer in a reaped slot is cleared in the model.
- Pipes.PipeRun: the start of a call and kill() are actions of the model; an end of a pipe is closed only when no process is in a call on that end, as the descriptors guarantee.
- Descriptors.FileTable.Pipe: system calls run one after the other, not interleaved.
- copyout(), loaduvm() and inituvm(): which bytes they store; in `Vm.Conservation` and `Vm.Isolation` they are stores of any words into pages of their process.
- sys_open(): it is not part of the source, so files of type inode are in the invariant of `Descriptors` and are closed, but no operation opens one.
- iget() and the reference counts of the inode cache: the cache is a map of all inodes, and `Files.FileSystem.Discard` is the case of iput() that frees one.
- Directories.Dirlink: the inode that iget() returns for a name that is found, and that iput() lets go again, stands for its number.
- Path names: skipelem() and namex() split a path and look its parts up one by one.
- The device switch of readi() and writei(): a device is a separate result.
- exec(), the scheduler's choice of a process, context switching, traps, and the implementation of locks.
- Boot code, interrupt controllers, the disk driver, the console and the serial line.
- grep's line buffering, the execution of parsed commands, and the other user programs.
