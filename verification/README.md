# xv6 core in Dafny

A model of the hard parts of this xv6 kernel and its user programs, with proofs about them:

* **Storage** — the buffer cache (`BufferCache`), the write-ahead log with its commit and recovery (`LogCopy`, `LogSpec`,
  `Log`), group commit under every interleaving with crashes anywhere (`LogProtocol`) and the room it needs (`LogSpace`), block
  allocation and the block map of inodes (`FsSpec`, `FsLemmas`, `FileSystem`), reading and writing files (`FileIO`), truncation
  (`Truncate`), the image `mkfs` builds (`Mkfs`), the bytes of inodes (`Dinodes`), the file system over the log, with crashes
  anywhere (`FsCrash`), and the runs that operations make from the disk `mkfs` writes (`FsRuns`). `Blocks` has words and bits in blocks of bytes, `Common` the 32-bit arithmetic everything shares.
* **Memory** — `malloc` and `free` (`Umalloc`), physical pages and address spaces (`VmSpec`, `Vm`).
* **Processes** — sleep locks against sleep, wakeup, the scheduler and kill (`SleepLock`), the process table with fork, exit,
  wait and kill (`ProcSpec`, `Procs`), pipes (`Pipes`).
* **User programs** — the shell's parser (`ShellSpec`, `ShellProofs`, `Shell`) and grep's matcher (`Grep`).

Code that changes things in place is a class or a method with loops: the buffer cache with its `prev` and `next` links, the
logger, a volume, the image, the allocator's header memory, physical memory, the process table, the parser's cursor, the pipe's
ring. Protocols are state machines over their steps, with program counters and lock owners. Each is tied to a value
(an abstract disk, a byte sequence per file, a free list, an address space, a process record, a grammar), and the main results
are lemmas about those values or postconditions stated in their terms.

Sizes that the source fixes with a macro are parameters where the argument does not depend on them (`BSIZE`, `NBUF`, `LOGSIZE`,
`MAXOPBLOCKS`, `NDIRECT`) and constants elsewhere. Integers are unbounded except where the width matters: block numbers in the
log header and the block map, `malloc`'s rounding and the argument of `sbrk`, the pipe's counters, pids, and offsets in
`readi` and `writei`.

## What the code does not do

Some promises turn out to hold only under a condition.

* `log_write` panics at `LOGSIZE` logged blocks even for a block that would be absorbed, and at one block less than the log
  area. With operations that keep to a budget of blocks each, the panic is reached in some run exactly when the most blocks they
  can list, `LogSpace.Cap(budget)`, is that many (`LogSpace.LogWritePanicsExactly`). With the sizes of `param.h` and `mkfs.c`
  this is so exactly for operations that use up `MAXOPBLOCKS` (`LogSpace.ShippedSizes`).
* `mkfs` rounds the root directory's size up to the next block even when it is a multiple of the block size. The image is free
  of holes exactly when the directory did not fill its last block (`Mkfs.RootRounded`).
* `malloc` rounds and multiplies in 32 bits. The block it returns is large enough exactly for requests of at most
  2^32 - 8 bytes, and `sbrk` is asked to grow exactly for requests below 2^31 - 15 bytes and for those that wrap around to one
  header (`Umalloc.UnitsEnough`, `Umalloc.SbrkSound`).
* The shell gives `>` and `>>` the same redirection: lines that differ only in which of the two they have are the same command,
  or the same error (`ShellProofs.AppendLikeOutput`).
* `deallocuvm` steps over a missing page table by computing the next directory entry's address in 32 bits. The step goes forward
  exactly if the table is not that of the last entry, behind which it wraps around to 0, as at 0xFFC00000 (`Vm.SkipWraps`,
  `Vm.SkipAtLastTable`). Up to `KERNBASE`, which is as far as callers go, `deallocuvm` does not get there.
* `kill` looks at every slot of the process table, also unused ones, and `allocproc` does not clear the mark it sets. A process
  is marked exactly if a kill has found its slot since the slot's last process was collected (`ProcSpec.KilledSince`). After
  `kill(0)` with only the first process there, the next child starts killed (`ProcSpec.KillZero`).
* `allocuvm` and `copyuvm` panic on a page that is mapped already, or missing. `Vm.PhysMem.AllocUvm` and `Vm.PhysMem.CopyUvm` say
  exactly when. When `allocuvm` runs out of memory before such a page, it unmaps that page too.

## Model

| member | source | states |
|---|---|---|
| Blocks.GetPut | xv6/log.c:101-113 | A word stored in a block reads back and no other word of the block changes; the header and indirect blocks rest on this. |
| Blocks.PutWordsGet | xv6/log.c:101-113 | So with words stored one after the other, as in the header and in an inode's record. |
| Blocks.BitUpdates | xv6/fs.c:56-96 | Setting or clearing bit i of a bitmap block through its byte changes bit i and no other. |
| BufferCache.PushFront | xv6/bio.c:38-56 | Linking a buffer in after the head gives a list consistent in both directions with the buffer first. |
| BufferCache.MoveToFront | xv6/bio.c:120-141 | Unlinking a buffer and linking it in after the head moves it to the front of the list and leaves every other link consistent both ways. |
| BufferCache.OrderCovers | xv6/bio.c:28-56 | The LRU list is a permutation of all buffers: each is in it. |
| BufferCache.Recycles | xv6/bio.c:78-92 | Giving an unreferenced clean buffer to a block that is not cached keeps the cache invariant: no block cached twice, dirty and valid buffers as they were. |
| BufferCache.Logs | xv6/log.c:213-233 | Marking a locked buffer dirty makes its data the latest value of its block and keeps the cache coherent. |
| BufferCache.Writes | xv6/bio.c:108-116 | Writing a locked buffer makes its data the latest value of its block, on disk too, and keeps the cache coherent. |
| BufferCache.SupplySuffices | xv6/bio.c:78-92 | bget finds a buffer to recycle exactly when fewer than NBUF buffers are referenced or dirty. |
| BufferCache.FindKey | xv6/bio.c:66-75 | The first scan finds the cached buffer for the block, or there is none. |
| BufferCache.FindUnused | xv6/bio.c:77-92 | The second scan finds the least recently used buffer that is neither referenced nor dirty, or there is none. |
| BufferCache.BCache.constructor | xv6/bio.c:38-56 | binit links all buffers, last one first, none valid. |
| BufferCache.BCache.Bget | xv6/bio.c:61-93 | Fails exactly when the block is not cached and nothing can be recycled; a hit takes a reference and changes nothing else; a miss recycles the least recently used unreferenced clean buffer. |
| BufferCache.BCache.Fill | xv6/memide.c:38-60 | A read request on an invalid buffer brings in the latest value of the block. |
| BufferCache.BCache.Fresh | xv6/bio.c:95-106 | A valid buffer that nobody holds has the value last written or logged for its block. |
| BufferCache.BCache.Bread | xv6/bio.c:95-106 | Returns a locked buffer with the value last written or logged for the block; sleeps, with a reference taken, exactly when another process has the block locked; no other buffer changes. |
| BufferCache.BCache.Bwrite | xv6/bio.c:108-116 | The disk and the latest values change in this one block, to the buffer's data, and the write is recorded in order. |
| BufferCache.BCache.Pin | xv6/log.c:231-231 | The buffer is dirty, so it cannot be recycled, and its data is the latest value of its block. |
| BufferCache.BCache.Brelse | xv6/bio.c:118-141 | One reference less; a buffer with none left goes to the front of the list, the rest of the order kept. |
| LogCopy.Supply | xv6/bio.c:78-92 | With only the given buffers referenced, and pinned blocks and references below NBUF together, a buffer can be recycled. |
| LogCopy.CopyBlock | xv6/log.c:69-82 | Copies a log block and a home block one way or the other through the cache: exactly one disk write, of the latest value of the source, without running out of buffers. |
| LogSpec.HeadRoundTrip | xv6/log.c:84-113 | What write_head stores read_head reads back: the count and every block number. |
| LogSpec.RecoveredIs | xv6/log.c:115-122 | Completed recovery gives every block named in the header its logged value, clears the header and changes nothing else. |
| LogSpec.CrashDuringRecovery | xv6/log.c:68-122 | After a crash behind any write of recovery, recovering again ends with the same home blocks. |
| LogSpec.RepeatedCrashes | xv6/log.c:68-122 | However many recoveries crash, the one that completes leaves what the first would have left. |
| LogSpec.CrashBeforeHeader | xv6/log.c:176-190 | While only log blocks have been written, recovery leaves every home block as it was. |
| LogSpec.CommitSplits | xv6/log.c:192-202 | Behind the header write commit issues exactly the writes that recovery would. |
| LogSpec.CrashDuringCommit | xv6/log.c:176-202 | After a crash behind any write of commit, recovery leaves all home blocks old if the header write had not happened and all new if it had. |
| LogSpec.CrashAtomicity | xv6/log.c:68-202 | A crash anywhere in commit and any number of crashes in recovery: once recovery completes the home blocks are all old or all new, and new exactly when the header write reached the disk. |
| LogSpec.CommitCompletes | xv6/log.c:192-202 | A commit that completes leaves the disk equal to the cached view and the header empty. |
| Log.FillHead | xv6/log.c:101-113 | The loop that stores the header produces the encoding of the block list. |
| Log.LoadHead | xv6/log.c:84-96 | The loop that loads the header produces the block list it encodes. |
| Log.ReadHead | xv6/log.c:84-96 | read_head loads the header on disk and writes nothing. |
| Log.WriteHead | xv6/log.c:98-113 | write_head is one disk write, of the encoded header. |
| Log.WriteLog | xv6/log.c:176-190 | Issues exactly the log writes of the transaction, in order, from the cached values, and never lacks a buffer. |
| Log.InstallTrans | xv6/log.c:68-82 | Issues exactly the home writes of the transaction, in order, unpins its blocks and never lacks a buffer. |
| Log.Commit | xv6/log.c:192-202 | Issues exactly the sequence of writes that the crash lemmas are about and leaves no block pinned. |
| Log.Recover | xv6/log.c:115-122 | Issues exactly the sequence of recovery writes that the crash lemmas are about. |
| Log.FindSlot | xv6/log.c:222-230 | log_write's scan absorbs a block already listed and appends one that is not. |
| Log.CommitSupply | xv6/log.c:218-231 | With a log area of at most NBUF blocks, fewer than NBUF blocks are pinned. |
| Log.CommittedDisks | xv6/log.c:192-202 | After a commit the disk and the cached view agree and the header is empty, ready for the next transaction. |
| Log.Logger.constructor | xv6/log.c:53-66 | initlog recovers what the header names and starts with an empty header in memory. |
| Log.Logger.BeginOp | xv6/log.c:125-141 | Admits an operation exactly when no commit runs and the log has room for it beside all reservations. |
| Log.Logger.EndOp | xv6/log.c:144-164 | One operation less; the last one out, and no other, starts the commit; fails exactly when a commit runs already. |
| Log.Logger.CommitOp | xv6/log.c:165-174 | The commit of the listed blocks: the disk then has every home block as operations saw it, nothing is listed or pinned. |
| Log.Logger.LogWrite | xv6/log.c:213-233 | Panics exactly at a full list or outside a transaction; otherwise lists the block once, pins the buffer and makes its data the latest. |
| LogProtocol.NextRefines | xv6/log.c:124-233 | Every step of begin_op, log_write, end_op, commit, recovery or a crash keeps the invariant and refines a machine in which a transaction is one atomic event. |
| LogProtocol.RunInv | xv6/log.c:124-233 | In every run of any number of operations: while committing none is outstanding, no block is listed twice, and the list and all unspent reservations fit in the log. |
| LogProtocol.CrashSafety | xv6/log.c:68-233 | In every run a crash at any point recovers the home blocks as they were at some earlier moment with no operation running, no earlier than the last moment with nothing listed either: no operation is half in, and none that was committed is lost. |
| LogSpace.RunCap | xv6/log.c:124-233 | In every run of operations within a budget, the blocks listed and those still to be listed are at most Cap(budget). |
| LogSpace.LogWriteSafe | xv6/log.c:213-220 | In every reachable state log_write's checks pass for a block within the budget, unless the cap reaches the limit. |
| LogSpace.LogWritePanicReachable | xv6/log.c:213-220 | If the cap reaches the limit, a run of operations within the budget fills the list and log_write panics. |
| LogSpace.LogWritePanicsExactly | xv6/log.c:124-233 | log_write's panic is reachable for operations within a budget exactly when the cap reaches the limit. |
| LogSpace.ShippedSizes | xv6/param.h:10-11 | With a log of three times MAXOPBLOCKS blocks the cap reaches the limit exactly for the full budget. |
| FsSpec.SlotsDisjoint | xv6/fs.c:373-401 | Two places that hold block addresses hold different blocks, in the data area and marked used. |
| FsSpec.NoLeaks | xv6/fs.c:56-96 | A used block of the data area is held by some inode. |
| FsLemmas.MarkOne | xv6/fs.c:56-96 | Rewriting the bitmap block of b changes the mark of b alone. |
| FsLemmas.DirectAlloc | xv6/fs.c:378-384 | Giving a fresh zeroed block to an empty direct slot keeps ownership and every other block of every file. |
| FsLemmas.IndirectAlloc | xv6/fs.c:387-389 | Giving an inode an indirect block keeps ownership and every file. |
| FsLemmas.EntryAlloc | xv6/fs.c:390-396 | Giving a fresh zeroed block to an empty indirect entry keeps ownership and every other block of every file. |
| FsLemmas.DataWrite | xv6/fs.c:497-503 | Writing a data block keeps ownership and changes this block of this file alone. |
| FileSystem.FindFree | xv6/fs.c:56-78 | balloc's two loops find the first free block of the volume, or every block is used. |
| FileSystem.Volume.Balloc | xv6/fs.c:56-78 | Marks and zeroes the first free block, logging its bitmap block and itself; panics exactly on a full volume. |
| FileSystem.Volume.Bfree | xv6/fs.c:80-96 | Clears one mark, logging one block; panics exactly on a free block. |
| FileSystem.Volume.BmapIndirect | xv6/fs.c:386-397 | Behind the indirect block, which it allocates when missing, finds or allocates the entry; ownership holds and no other block of any file changes. |
| FileSystem.Volume.Bmap | xv6/fs.c:373-401 | Out of range exactly from MAXFILE on; an existing block is returned with nothing changed; a missing one is allocated zeroed, with ownership kept, every other block unchanged and the logged blocks named. |
| FileIO.BlockSlice | xv6/fs.c:467-474 | Within one block, a stretch of the file is a stretch of the block. |
| FileIO.ReadI | xv6/fs.c:453-477 | Returns the slice of the file's bytes, cut at its end, across the direct and indirect blocks; fails exactly on a bad offset; changes nothing, so it never allocates. |
| FileIO.RoundBound | xv6/fs.c:497-503 | Writing at most k blocks' worth of bytes takes k rounds of the loop, or k + 1 from inside a block. |
| FileIO.ProgressStep | xv6/fs.c:497-503 | One more round of writei's loop puts the next bytes in place and nothing else. |
| FileIO.WriteDone | xv6/fs.c:505-511 | After the loop and the size update the file is the old one with the bytes spliced in, every other file is as it was, and no file has a hole. |
| FileIO.WriteI | xv6/fs.c:481-512 | Refuses exactly a bad range; otherwise splices exactly the bytes into the file, extends it only when needed, leaves every other file alone and logs every block it changes, at most 2k + 4 for k blocks' worth of bytes; panics only on a full volume. |
| FileIO.SpliceSplice | xv6/file.c:134-152 | Two splices one behind the other are one splice. |
| FileIO.File.WriteChunk | xv6/file.c:136-151 | One chunk of filewrite stores its bytes and is an operation: it changes only what it logs, at most MAXOPBLOCKS blocks, and keeps the volume sound. |
| FileIO.File.FileWrite | xv6/file.c:117-156 | Stores all bytes, or a number of whole chunks and returns -1; all of them exactly when the whole range fits in a file. |
| Truncate.FreeDirect | xv6/fs.c:415-420 | Freeing a direct block finds it marked used, and keeps ownership and the other files. |
| Truncate.FreeEntry | xv6/fs.c:422-428 | Freeing the block of an indirect entry finds it marked used, and keeps ownership while the entry is still there. |
| Truncate.FreeIndirect | xv6/fs.c:429-432 | Freeing the indirect block once its entries are freed keeps ownership and the other files. |
| Truncate.Itrunc | xv6/fs.c:408-436 | Frees exactly the blocks of the inode, never reaching bfree's panic; the file is empty and every other file is as it was; all that changes is logged. |
| Dinodes.DinodeRoundTrip | xv6/fs.c:221-238 | An inode stored in its slot of a block reads back, and no other inode of the block changes. |
| FsCrash.IupdateStored | xv6/fs.c:221-238 | After iupdate the inode block holds the volume with the inode replaced, and the other inodes of the block. |
| FsCrash.DiskDetermines | xv6/fs.c:288-313 | Two volumes that the same disk blocks hold are both sound or neither, and have the same inodes and file contents. |
| FsCrash.OperationThen | xv6/log.c:124-174 | Operations one after another change only what they log together, and keep the volume sound. |
| FsCrash.GroupStored | xv6/log.c:144-174 | If a group shows its result in the blocks it logged, the disk's blocks hold the resulting volume. |
| FsCrash.VolumeCrashSafety | xv6/log.c:68-233 | In every run of groups of file-system operations, with crashes anywhere: what recovery leaves on the disk holds the volume of an earlier moment with no operation running, no earlier than the last quiet one, and that volume has no block shared or lost and no file with a hole. |
| FsRuns.SoundEncodable | xv6/fs.h:28-36 | The size and the addresses of every inode of a sound volume fit in the 32-bit fields of its record. |
| FsRuns.RecordsStored | xv6/fs.c:221-238 | With iupdate done for the inodes of an inode block, the block holds the volume's inodes, whatever it held before. |
| FsRuns.GroupRuns | xv6/log.c:124-233 | Any operations that begin_op can let in together and that fit in the log can be run: from a quiet state the run goes on to another, and its volume goes from the one before to the one they make, with no third on the way. |
| FsRuns.Boot | xv6/log.c:53-66 | From a disk that recovers to a sound volume a run gets past recovery with that volume. |
| FsRuns.History | xv6/log.c:53-233 | Every sequence of operations that fit in the log, one transaction each, is in some run from any such disk, which passes through their volumes and no others. |
| FsRuns.HistoryCrash | xv6/log.c:53-233 | Wherever a run through given volumes is cut short, the disk recovers to one of them, and it is sound. |
| FsRuns.ImageBoots | xv6/mkfs.c:67-168 | The disk mkfs writes, with its inode records in zeroed blocks and an empty log, recovers to the image as a sound volume exactly when the root directory did not fill its last block. |
| Mkfs.NextEntry | xv6/mkfs.c:276-283 | Handing the next block to an indirect entry keeps ownership and every other block of every file. |
| Mkfs.Image.Iappend | xv6/mkfs.c:254-297 | Appends exactly the bytes to the file and leaves the others; fails only when the image is full or the file too long. |
| Mkfs.Image.WriteBitmap | xv6/mkfs.c:237-251 | Marks exactly the blocks handed out, which makes the ownership invariant hold; its assertion fails exactly when they exceed one bitmap block. |
| Mkfs.FillBits | xv6/mkfs.c:237-251 | The loop sets exactly the first bits of the block. |
| Mkfs.Image.AddFiles | xv6/mkfs.c:123-155 | The files and the directory entries are in the image, in order, and nothing else is. |
| Mkfs.Image.constructor | xv6/mkfs.c:92-115 | The empty image satisfies the building invariant, with the first data block free. |
| Mkfs.Image.Make | xv6/mkfs.c:67-168 | The finished image holds every file's bytes, and the root directory's entries followed by the rounding; it satisfies the ownership invariant, and is free of holes exactly when the root directory did not fill its last block. |
| Mkfs.FinishedContent | xv6/mkfs.c:123-168 | A file of the finished image has exactly the bytes of the input. |
| Mkfs.RootRounded | xv6/mkfs.c:158-163 | Rounding the root's size up leaves a hole, or a size no file can have, exactly when the size was a multiple of the block size. |
| Umalloc.FreedList | xv6/umalloc.c:24-44 | Freeing a block keeps the list in address order with no two free blocks touching, and frees exactly the block's bytes. |
| Umalloc.TakenList | xv6/umalloc.c:73-84 | Taking from a block keeps the list in order and takes exactly the bytes handed out. |
| Umalloc.Canonical | xv6/umalloc.c:24-44 | The free list is determined by the bytes that are free. |
| Umalloc.TakeThenFree | xv6/umalloc.c:24-90 | Freeing what was just taken restores the very list there was. |
| Umalloc.StopsAt | xv6/umalloc.c:29-32 | One of the two stop conditions of free's search holds exactly at the one place where the block belongs. |
| Umalloc.FreeConsistent | xv6/umalloc.c:24-44 | Freeing keeps the circular list through the base as memory has it, its order, and every block handed out apart from all others. |
| Umalloc.TakeConsistent | xv6/umalloc.c:73-84 | Handing out keeps all of that, and the new block overlaps nothing handed out before. |
| Umalloc.UnitsEnough | xv6/umalloc.c:68-68 | The block is large enough exactly unless the rounding wraps around. |
| Umalloc.SbrkSound | xv6/umalloc.c:46-61 | sbrk is asked for the bytes that are then freed exactly for servable requests and those that wrap around. |
| Umalloc.Allocator.FindPlace | xv6/umalloc.c:29-32 | free's search ends, at the place where the block belongs. |
| Umalloc.Allocator.Free | xv6/umalloc.c:24-44 | Exactly the bytes of the block become free; the state stays consistent. |
| Umalloc.Allocator.MoreCore | xv6/umalloc.c:46-61 | Asks the system once; what it gives becomes free and freep leads to it; otherwise nothing is different. |
| Umalloc.Allocator.Search | xv6/umalloc.c:73-89 | The loop of malloc ends after one call of morecore at most, with a block or null. |
| Umalloc.Allocator.Malloc | xv6/umalloc.c:63-90 | Null exactly when no free block is large enough and the system gives no more; otherwise a block of free memory that overlaps nothing handed out, the rest of free memory unchanged; sbrk is misused exactly for the requests named. |
| VmSpec.MappedOnce | xv6/vm.c:59-80 | A user page frame is mapped at one virtual page of one space. |
| VmSpec.OtherSpaces | xv6/vm.c:219-345 | When nothing outside a space's own frames differs, every other space shows the same mappings and contents. |
| VmSpec.UnmapInv | xv6/vm.c:267-276 | Clearing a user entry and freeing its frame keeps every frame accounted for. |
| VmSpec.BuiltAndFreed | xv6/vm.c:118-136 | A space built from nothing and freed again leaves memory exactly as it was. |
| Vm.PhysMem.constructor | xv6/kalloc.c:31-37 | Memory starts with no page in use and none free. |
| Vm.PhysMem.FreeRange | xv6/kalloc.c:46-53 | freerange, of which kinit1 and kinit2 each call one, puts every whole page of the range on the free list once beside those there, and touches no page in use. |
| Vm.PhysMem.KAlloc | xv6/kalloc.c:82-95 | Takes the first free frame, whatever its contents, or returns 0 exactly when none is free. |
| Vm.PhysMem.KFree | xv6/kalloc.c:59-77 | The frame goes to the front of the free list; free frames and frames in use stay a partition. |
| Vm.PhysMem.Walk | xv6/vm.c:32-55 | Finds the page's table, or makes an empty one from one frame when asked; no mapping of any space changes. |
| Vm.PhysMem.MapUser | xv6/vm.c:57-80 | Panics exactly on a page that is mapped; otherwise maps one user page to the frame, no other mapping changes; fails exactly for want of a frame for a table, and then nothing shows. |
| Vm.PhysMem.MapRange | xv6/vm.c:57-80 | Maps a range of the kernel's map page by page without remapping; fails exactly for want of frames for tables. |
| Vm.KmapApart | xv6/vm.c:103-115 | The entries of the kernel's map do not overlap, so mappages never remaps. |
| Vm.KernelTablesSize | xv6/vm.c:103-115 | The kernel's map takes 64 page tables. |
| Vm.PhysMem.SetupKvm | xv6/vm.c:117-136 | A new space that shows exactly the kernel's map, or memory and the free set are as before; it succeeds exactly when there are frames for the directory and 64 tables. |
| Vm.PhysMem.AllocUvm | xv6/vm.c:219-249 | Panics exactly when it gets to a page that is mapped; on free pages the new ones show distinct zeroed frames that were free, or every mapping of every space is as before, and it succeeds exactly when there are frames for the pages and the missing tables. |
| Vm.SkipTable | xv6/vm.c:267-270 | Stepping over a missing page table passes only pages that are not mapped. |
| Vm.SkipWraps | xv6/vm.c:267-270 | In 32 bits the step over a missing table goes forward exactly if it is not the last directory entry's, and wraps around to 0 behind that. |
| Vm.SkipAtLastTable | xv6/mmu.h:80-80 | The step wraps around at 0xFFC00000 and not just below. |
| Vm.PhysMem.DeallocUvm | xv6/vm.c:251-279 | Exactly the pages between the sizes are unmapped and their frames freed, as a page-by-page loop would; it ends for sizes up to KERNBASE. |
| Vm.PhysMem.FreeVm | xv6/vm.c:281-298 | Frees exactly the frames of the space: directory, tables and user pages; all other memory is as before. |
| Vm.PhysMem.CopyUvm | xv6/vm.c:313-345 | Panics exactly when it gets to a page that is missing; otherwise the child shows the same contents and flags in frames that were free, the parent unchanged, or memory and the free set are as before; it succeeds exactly when there are enough frames. |
| Vm.UserTables | xv6/vm.c:313-345 | A user half of n pages takes one table per 1024 pages begun. |
| SleepLock.NextInv | xv6/sleeplock.c:22-42 | Every step of any process, the scheduler, the clock or kill keeps the invariant of the lock. |
| SleepLock.MutualExclusion | xv6/sleeplock.c:22-53 | In every run at most one process has the sleep lock, and locked and pid say which. |
| SleepLock.NoLostWakeup | xv6/proc.c:539-598 | In every run, when the spinlock is free and the lock not taken, no process sleeps on it or is about to. |
| ProcSpec.ExitInv | xv6/proc.c:351-392 | exit keeps the tree: children go to init, and nobody sleeping in wait misses the exit. |
| ProcSpec.CollectInv | xv6/proc.c:408-425 | Collecting a child frees its memory and its slot and ends its life, and keeps the tree. |
| ProcSpec.ProcessTree | xv6/proc.c:351-436 | No process in use has a parent that is unused or has exited, every exited process has a parent to collect it, and no process sleeping in wait has an exited child. |
| ProcSpec.ZombiesAreExited | xv6/proc.c:351-436 | The processes that have exited and not been collected are exactly those in ZOMBIE slots. |
| ProcSpec.MemoryHeldOnce | xv6/proc.c:304-436 | No kernel stack or page directory is held by two processes. |
| ProcSpec.RunInv | xv6/proc.c:196-436 | The invariant holds in every state of every run. |
| ProcSpec.CollectedOnce | xv6/proc.c:396-436 | In every run each process is collected at most once, with the pid it was given. |
| ProcSpec.KilledSince | xv6/proc.c:196-436 | In every run an entry is marked killed exactly if a kill has found its slot, in use or not, since its last process was collected. |
| ProcSpec.KillZero | xv6/proc.c:603-621 | kill(0) with only the first process in the table marks an unused slot, and the child that allocproc then puts there starts killed. |
| Procs.ProcTable.constructor | xv6/proc.c:244-278 | The table after userinit has the first process alone. |
| Procs.ProcTable.AllocProc | xv6/proc.c:196-219 | Takes an unused slot, or fails exactly when there is none. |
| Procs.ProcTable.GiveStack | xv6/proc.c:221-225 | The stack is the child's, or the slot is unused again. |
| Procs.ProcTable.CopyMemory | xv6/proc.c:316-324 | The memory and the parent are set, or the stack is freed and the slot unused again. |
| Procs.ProcTable.Publish | xv6/proc.c:337-345 | The child may run, with its parent set, and its pid is returned. |
| Procs.ProcTable.Wakeup1 | xv6/proc.c:580-589 | The scan makes exactly the sleepers on the channel runnable. |
| Procs.ProcTable.Kill | xv6/proc.c:603-621 | Marks and wakes the first entry with the pid, in use or not, and no other; fails exactly when there is none. |
| Procs.ProcTable.Abandon | xv6/proc.c:379-386 | The scan passes every child to init and wakes init exactly when one of them has exited. |
| Procs.ProcTable.Exit | xv6/proc.c:351-392 | Panics exactly for init; otherwise one exit step of the table. |
| Procs.ProcTable.Wait | xv6/proc.c:396-436 | Collects an exited child and returns its pid if there is one; otherwise returns -1 without children or when killed, or sleeps on itself. |
| Pipes.CounterTests | xv6/pipe.c:85-85 | The comparisons for a full and an empty ring on wrapped counters agree with the true counts. |
| Pipes.CounterCell | xv6/pipe.c:93-93 | The overflow of a counter does not change the cell it selects. |
| Pipes.Pipe.Write | xv6/pipe.c:78-98 | Stores, in order, as many bytes as there is room for; sleeps or fails exactly on a full ring; over all sections bytes read stay a prefix of bytes stored. |
| Pipes.Pipe.Read | xv6/pipe.c:100-121 | Takes the oldest bytes, as many as wanted and there; sleeps or fails exactly on an empty ring with a writer; over all sections bytes read stay a prefix of bytes stored. |
| Pipes.Pipe.Close | xv6/pipe.c:59-75 | Frees the pipe exactly when its second end is closed. |
| ShellProofs.LexRender | xv6/sh.c:265-308 | Tokens written out with blanks are read back. |
| ShellProofs.LineGood | xv6/sh.c:344-446 | Every tree the grammar gives is well formed. |
| ShellProofs.LineShow | xv6/sh.c:344-446 | Parsing the tokens of a printed tree gives the tree, whatever follows it. |
| ShellProofs.PrintThenParse | xv6/sh.c:327-446 | Printing a well-formed tree with parentheses where needed gives a C string, and parsing it gives the tree. |
| ShellProofs.Image | xv6/sh.c:327-446 | A tree is the result of parsing some C string exactly when it is well formed. |
| ShellProofs.PlainLine | xv6/sh.c:374-397 | Writing > for every >> in a list of tokens leaves its parse unchanged. |
| ShellProofs.AppendLikeOutput | xv6/sh.c:374-397 | Lines that differ only in which of > and >> they have are the same command, or the same error. |
| Shell.Parser.GetToken | xv6/sh.c:265-308 | Consumes exactly one token, and gives a word's place in the line. |
| Shell.Parser.Peek | xv6/sh.c:310-320 | Skips blanks and says whether the next token starts with one of the characters; consumes no token. |
| Shell.Parser.ParseRedirs | xv6/sh.c:374-397 | Reads exactly the redirections the grammar gives, or fails where it does. |
| Shell.Parser.ParseBlock | xv6/sh.c:399-413 | Reads a parenthesized line and its redirections as the grammar says. |
| Shell.Parser.ParseExec | xv6/sh.c:415-446 | Reads a simple command as the grammar says, at most nine words, with the same errors. |
| Shell.Parser.ParsePipe | xv6/sh.c:361-372 | Reads a pipeline as the grammar says. |
| Shell.Parser.ParseLine | xv6/sh.c:344-359 | Reads a line as the grammar says; the recursion ends on every input. |
| Shell.CutMeaning | xv6/sh.c:448-493 | With NULs at the ends of its words, a tree's C strings are its words. |
| Shell.NulTerminate | xv6/sh.c:448-493 | Writes a NUL at the end of every word of the tree and nothing else. |
| Shell.ParseCmd | xv6/sh.c:327-342 | Fails exactly where the grammar does, line untouched; otherwise the tree's words, read as C strings in the line, are the grammar's tree. |
| Grep.StarHere | xv6/grep.c:98-106 | A starred item and the rest match a text exactly when the rest does, or the first character is allowed and they match what follows. |
| Grep.MatchHere | xv6/grep.c:84-96 | True exactly when some prefix of the text splits into pieces of the pattern's items, all of the text if it ends in '$'. |
| Grep.MatchStar | xv6/grep.c:98-106 | True exactly when some prefix matches the starred item followed by the pattern. |
| Grep.Match | xv6/grep.c:72-82 | True exactly when the pattern matches at some place of the text, or at its start after '^'. |

## Left out

- Containers, the message calls and the custom sleep and wakeup calls of proc.c, which work on copies or outside the table lock.
- Hardware, boot and trap code, spinlock internals, the console, system-call argument fetching, exec, directories and paths, and the small user programs: they add easy members around the same invariants.
- FsCrash.VolumeCrashSafety: a run's volume changes by whole groups, whose operations may interleave in any way that amounts to some order of them; that inode and buffer locks bring this about is taken as given. FsRuns.GroupRuns has the operations of a group overlap, but write one after the other.
- FsRuns.ImageBoots: the boot block and the bytes of the superblock are left out.
- BufferCache.BCache.Brelse: a holder that changed the data has written or logged it; no caller in the kernel does otherwise.
- Log.Logger.CommitOp: no buffer is referenced while the commit runs, so processes that only read meanwhile are left out.
- Log.Logger.LogWrite: its check of the list and its update are one step; the source reads the count before it takes the lock.
- FileIO.File.FileWrite: other operations between its chunks are not modelled; each chunk starts from the state the last one left.
- FileIO.File.WriteChunk: the literal 512 in the chunk size is the block size.
- FileIO.WriteI: log_write's panic is not one of its outcomes; when that is reached is the subject of LogSpace.
- Mkfs.Image.Iappend: appends a file's bytes in one call where main reads them in block-sized pieces, and reports a full image, which the source does not check; that it fails is stated one way only.
- Umalloc.Allocator.Malloc: stops at a call of sbrk that does not grow the heap; what the program then does to its memory is not modelled. Callers keep to their blocks and free each once.
- Vm.PhysMem.DeallocUvm: sizes above KERNBASE are not covered; the step that fails there is Vm.SkipWraps.
- Vm.PhysMem.CopyUvm: sizes above KERNBASE are not covered; the size of a process never is.
- Vm.PhysMem.MapUser: covers mappages for one user page, which is how it is called; kernel ranges are MapRange.
- SleepLock.NoLostWakeup: sleeping on other channels is left out, and so is fairness: a waiter may be overtaken for ever.
- ProcSpec.RunInv: open files, the working directory, the trap frame and the container fields of a process are left out; the two writes that fork and allocproc make outside the lock are steps of their own.
- Pipes.Pipe.Write: wakeups are left out; a killed writer returns without waking readers.
- Shell.Parser.ParseExec: the source fills the command's word array under redirections already wrapped around it; the model wraps the finished command. Running commands is left out.
- Grep.Match: the loop that cuts input into lines is left out.
