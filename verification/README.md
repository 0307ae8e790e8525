# Devine kernel: a verified model

This project models the parts of the Devine kernel where its behaviour is hardest to see from the code, and proves what they promise.

* **Storage stack.** A block cache over a device, the ext2 block and inode allocator, the direct/indirect block map, file reads and writes, directory records and the inode table. Each layer is proved to stand for something simpler: the cache for an array of blocks, the bitmaps for a set of free numbers, the pointers for a partial map, a file for a sequence of bytes, a directory block for a tiled list of records.
* **Memory.** The first-fit coalescing heap (as a list of blocks and as linked headers stored inside the memory it manages), the bitmap frame allocator, and the four-level page tables of both architectures. The page tables take their frames from the modelled frame allocator, and its promise never to hand out a frame twice is what keeps the tables an unshared tree.
* **Scheduler.** Priority round robin with time slices, as a state machine with a whole-run invariant, the exact effect of every operation, a bound on waiting and an account of every tick.
* **CPUs and processes.** Per-CPU ring buffers under compare-and-swap spinlocks, as interleaved single steps: nothing is lost, and no lock is kept for more than five steps of its holder. Fork, exit and wait with zombies and waiters: no child is lost or reaped twice, and which waiters can still be woken.
* **Program start.** The initial stack image, proved against a decoder that reads it the way a program's entry code does (System V AMD64 ABI, section 3.4.1).
* **Terminal.** The escape-sequence parser (ECMA-48, section 5.4), the screen buffers and the two-screen terminal, with the generator's sequences as the other half of a round trip, and what any text and any sequence leave on the screen, cell by cell.

Code that updates objects in place is modelled by classes and methods with loops, proved against functions on values; the theorems are about those functions. Machine words are unbounded integers, with the source's wrap-around, truncation or saturation written out where it can be reached: counters in the superblock, `as u8` casts of parameters, saturating parameters, 8- and 64-bit words as lists of bits.

Where the code does not do what one would expect, the model does what the code does:

* A miss in the block cache reuses the tail of the recency list before it looks for an invalid slot, so the list never has more than one element. The list operations are still proved for lists of any length.
* A block freshly allocated by a partial write is not cleared first; the rest of the block shows what the block held before (`Ext2Writing.KeptAt`).
* Doubly indirect blocks can be read but not set.
* Freeing a free block still adds to both counters. The difference is tracked as drift.
* Adding a directory entry writes a NUL behind the name. It falls on the next record exactly when the free space equals 8 + the name length. `Ext2Dirs.SplitExactly` says that the insertion is right if and only if that byte was zero already or the NUL does not fall there, and `Ext2Names.SpillLookups` what lookups find otherwise.
* Adding an entry to a hole of a directory links the new block in a copy of the inode, and the copy is written back only if the size grew. Otherwise the entry can be lost. `Ext2DirGrowth.SurvivesExactly` says exactly when, in terms of the inode before the call, and `Ext2Names.AddEntry` carries it through the bytes of the inode table.
* The number of blocks of a directory is a 32-bit sum: a stored size within one block of 2^32 counts no block, and lookups find nothing.
* The frame allocator's bitmap is rounded up to whole words, and the padding bits are handed out like others; each costs one call that returns nothing.
* EL with mode 1 in the pending-wrap column writes one cell too far: into the next row, or past the buffer in the last row. `VtTerminals.StreamStops` says that a byte stream indexes out of range if and only if one of its bytes completes that sequence there.
* The end of a child wakes only the first waiter that accepts it. A waiter for any child can take the wake-up from the thread that waits for this child, which then never wakes (`WaitLiveness.LostWakeUp`).
* In Ground the parser ignores bytes 0x18 and 0x1A; its match leaves them out.
* A first parameter left out behind a private prefix is not counted, although one left out elsewhere counts as 0 (`VtParsing.CsiFields`). SGR without parameters changes nothing. Device control and the other string sequences end after one byte.

## Model

| member | source | states |
|---|---|---|
| `BlockCaching.UnlinkLinked` | src/fs/block_cache.c:27-42 | unlinking node i of any well-formed list leaves the well-formed list without it |
| `BlockCaching.LinkFrontLinked` | src/fs/block_cache.c:45-56 | pushing an unlisted node gives the well-formed list with it in front |
| `BlockCaching.BlockCache.LruRemove` | src/fs/block_cache.c:27-42 | in-place removal for every well-formed list; a node on no list makes the cache forget the list |
| `BlockCaching.BlockCache.LruAddFront` | src/fs/block_cache.c:45-56 | in-place insertion at the front for every well-formed list |
| `BlockCaching.BlockCache.FindSlot` | src/fs/block_cache.c:59-66 | finds the slot of a block if it is cached; no block is cached twice |
| `BlockCaching.Flushed` | src/fs/block_cache.c:74-91 | writing a dirty slot back changes no block a reader sees |
| `BlockCaching.BlockCache.FlushSlot` | src/fs/block_cache.c:74-91 | the view stays, the slot becomes clean; fails exactly for a dirty slot outside the device, which stays dirty |
| `BlockCaching.BlockCache.Victim` | src/fs/block_cache.c:69-71 | the tail if there is one, else an invalid slot, else nothing |
| `BlockCaching.Install` | src/fs/block_cache.c:204-219 | filling an expendable slot keeps the cache coherent and updates exactly one block of the view |
| `BlockCaching.BlockCache.constructor` | src/fs/block_cache.c:94-129 | an empty cache of 256 slots stands for the device itself |
| `BlockCaching.BlockCache.Evict` | src/fs/block_cache.c:173-200 | making room changes nothing a reader sees and caches no new block |
| `BlockCaching.BlockCache.Read` | src/fs/block_cache.c:149-224 | returns the view's block and never changes the view; in range it is busy exactly when every slot is valid and off the list; out of range it fails unless cached; it counts as a hit exactly if the block was cached; afterwards the block is the one on the list, clean after a miss |
| `BlockCaching.BlockCache.Write` | src/fs/block_cache.c:227-278 | updates exactly one block of the view and leaves it on the list and dirty, or is busy and changes nothing |
| `BlockCaching.BlockCache.Flush` | src/fs/block_cache.c:281-296 | afterwards the device equals the view; fails exactly when a dirty slot lies outside the device |
| `BlockCaching.CleanView` | src/fs/block_cache.c:281-296 | a cache without dirty in-range slots stands for the device itself |
| `BlockCaching.BlockCache.Invalidate` | src/fs/block_cache.c:299-317 | the block is no longer cached and the device holds what readers saw |
| `BlockCaching.BlockCache.Perform` | src/fs/block_cache.c:149-317 | one in-range operation is one step of a plain array of blocks |
| `BlockCaching.BlockCache.Run` | src/fs/block_cache.c:149-317 | over any run of in-range operations nothing fails and every read returns the plain array's block at that point |
| `BlockCaching.LastWriteWins` | src/fs/block_cache.c:149-317 | the plain array holds the last write to each block, or its initial contents |
| `Bits.FindFirstZeroBit` | src/fs/ext2/alloc.c:16-27 | the first zero bit of a bitmap, or -1 if all bits are one |
| `Bits.ZerosAfterSet` | src/fs/ext2/alloc.c:30-32 | setting a zero bit takes exactly one from the number of zero bits |
| `Bits.ZerosAfterClear` | src/fs/ext2/alloc.c:35-37 | clearing a set bit adds exactly one |
| `Bits.ClearAfterSet` | src/fs/ext2/alloc.c:30-37 | clearing undoes setting, byte for byte |
| `Ext2Layout.NumberingInverse` | src/fs/ext2/superblock.c:115-122 | bit k of group g is block first_data_block + g * blocks_per_group + k, or inode g * inodes_per_group + k + 1, and number and (group, bit) are inverse to each other, both ways |
| `Ext2Layout.WriteBitFree` | src/fs/ext2/alloc.c:75-82 | writing one bitmap bit changes the status of exactly one number |
| `Ext2Layout.WriteBitRaw` | src/fs/ext2/alloc.c:75-82 | on the bytes of the bitmap: block first_data_block + g * blocks_per_group + k, or inode g * inodes_per_group + k + 1, is bit k % 8 of byte k / 8 of the bitmap of group g, and taking or clearing it adds or subtracts that power of two and changes no other byte |
| `Ext2Layout.WriteBitZerosPerGroup` | src/fs/ext2/alloc.c:75-88 | and the zero count of exactly one group, by one |
| `Ext2Core.AllocLedger` | src/fs/ext2/alloc.c:84-88 | after an allocation the group counts are the zero bits plus drift and the superblock count their sum, with wrap-around |
| `Ext2Core.FreeLedger` | src/fs/ext2/alloc.c:130-148 | the same after a free, where freeing a free number adds one to the drift of its group |
| `Ext2Core.DoubleFree` | src/fs/ext2/alloc.c:102-152 | freeing a free number writes the bitmap it read |
| `Ext2Core.Ext2Fs.TryGroup` | src/fs/ext2/alloc.c:50-92 | takes the first zero bit of one group and debits its counters, or finds the group empty |
| `Ext2Core.Ext2Fs.Alloc` | src/fs/ext2/alloc.c:45-99 | hands out the first free number of the first group with a nonzero count, for blocks and inodes; in the bitmap's bytes the bit of that number went from 0 to 1 and nothing else changed; failure changes nothing and, unless counters wrapped, happens exactly when no number is free |
| `Ext2Core.AllocFailure` | src/fs/ext2/alloc.c:155-208 | if no group yields a number and no count has wrapped, no number is free |
| `Ext2Core.Ext2Fs.Free` | src/fs/ext2/alloc.c:102-152 | the number becomes free and nothing else changes, in the bitmap's bytes too; refused exactly for a block below first_data_block or from blocks_count on, inode 0 or above inodes_count, or a group that does not exist; a double free changes no bitmap and adds exactly one to the drift of its group |
| `Ext2Core.Ext2Fs.ClearAndCredit` | src/fs/ext2/alloc.c:211-259 | bitmap bit, both counters and the other kind's books after a free |
| `Ext2Core.Ext2Fs.Churn` | src/fs/ext2/alloc.c:45-259 | over any run of block and inode allocations and frees: which numbers are free at each point follows from the start and the results; every result is right at its point (a number handed out was free, a refused free is of a number that does not exist, out of memory while no count had wrapped by then means nothing was free); the drift of each group grew by exactly the number of successful frees of a free number |
| `Ext2Core.FreedBetween` | src/fs/ext2/alloc.c:45-259 | a number handed out twice in a run was successfully freed in between |
| `Ext2Core.BooksBalance` | src/fs/ext2/alloc.c:84-148 | after a run without double frees that starts without drift every group count is the number of zero bits and the superblock count their sum |
| `Ext2BlockMap.PlaceOfInjective` | src/fs/ext2/inode.c:103-188 | different file blocks have their pointers in different places |
| `Ext2BlockMap.PlaceOfIs` | src/fs/ext2/inode.c:103-188 | with a pointers to a block: file blocks 0 to 11 are the direct pointers, the next a the cells of the indirect block in order, the next a * a row j, column k of the doubly indirect tables in order, and no other has a place |
| `Ext2BlockMap.WriteIndCell` | src/fs/ext2/inode.c:228-243 | writing one pointer of the indirect block changes one place of the map |
| `Ext2BlockMap.InstallInd` | src/fs/ext2/inode.c:204-226 | a zeroed indirect block adds no pointer and moves none |
| `Ext2BlockMap.AllocKeepsMap` | src/fs/ext2/inode.c:207-211 | allocating a block leaves the map well formed and the block outside it |
| `Ext2Files.GetBlockNum` | src/fs/ext2/inode.c:103-188 | the pointer of a file block, through direct, indirect and doubly indirect blocks; an error past them |
| `Ext2Files.EnsureInd` | src/fs/ext2/inode.c:204-226 | gives the inode a zeroed indirect block if it had none, or fails and changes nothing; out of memory without wrapped counts means no block is free |
| `Ext2Files.SetBlockNum` | src/fs/ext2/inode.c:191-248 | sets one pointer, allocating the indirect block if needed; refused exactly for blocks past the single indirect range, out of memory only if the indirect block is missing and no block is free or counts wrapped; failure changes nothing; the map stays well formed |
| `Ext2Files.PartialMap` | src/fs/ext2/inode.c:103-248 | after a set, get returns the new block for this file block and the old answer for every other, doubly indirect ones included |
| `Ext2Files.ReadFile` | src/fs/ext2/file.c:18-71 | as many bytes as asked for or as there are up to the file size, whichever is less, and each is the file's byte there, holes as zeros; fails exactly when the range, cut at the size, ends past the map |
| `Ext2Files.DiskFormat` | src/fs/ext2/inode.c:103-188 | the bytes of the volume behind each position of a file: which block and byte, through direct, indirect and doubly indirect pointers read as four little-endian bytes |
| `Ext2Files.ChunkContents` | src/fs/ext2/file.c:36-67 | the part of one block that a turn of the read loop copies |
| `Ext2Writing.MapBlock` | src/fs/ext2/file.c:92-114 | finds or allocates and links the block and counts its sectors; if linking fails the allocation is undone completely; out of memory without wrapped counts means at most one block is free |
| `Ext2Writing.AllocThenFree` | src/fs/ext2/file.c:106-111 | freeing what was just allocated restores the volume |
| `Ext2Writing.WriteChunk` | src/fs/ext2/file.c:85-135 | one turn of the write loop: its bytes are written, all other bytes kept; failure changes nothing, and out of memory without wrapped counts means at most one block is free |
| `Ext2Writing.OverwriteChunk` | src/fs/ext2/file.c:116-130 | patching a mapped block changes the bytes of that range and of no other position of the file |
| `Ext2Writing.LinkThenWrite` | src/fs/ext2/file.c:99-130 | the same for a block linked on the way |
| `Ext2Writing.WroteTrans` | src/fs/ext2/file.c:84-136 | two adjacent writes are one write |
| `Ext2Writing.WriteFile` | src/fs/ext2/file.c:74-148 | on success exactly the range is written, the size grows to its end, cut to 32 bits, or stays, and the sector count grows by the blocks that were holes; on failure a prefix is written and the size stays; out of memory without wrapped counts means at most one block is free; map, books and drift are kept |
| `Ext2Writing.ReadAfterWrite` | src/fs/ext2/file.c:18-148 | after a write every read returns the data inside the range; outside it, bytes of mapped blocks are unchanged and blocks still unmapped read as zeros |
| `Ext2Writing.WriteThenRead` | src/fs/ext2/file.c:18-148 | the two calls in a row: reading back the range just written returns the data, if and only if the new size did not wrap or the range was inside the old one |
| `Ext2Writing.OthersUntouched` | src/fs/ext2/file.c:74-148 | no block of another file or of the metadata changes |
| `Ext2Dirs.LookupBlock` | src/fs/ext2/dir.c:54-70 | the inode of the first live record with the name |
| `Ext2Dirs.LookupDir` | src/fs/ext2/dir.c:22-75 | the same over all blocks of a directory, holes skipped; not found exactly if absent |
| `Ext2Dirs.SplitExactly` | src/fs/ext2/dir.c:209-222 | splitting a record inserts the new record, keeps the tiling and all other records if and only if the NUL does not fall on a nonzero byte behind the record |
| `Ext2Dirs.SpillErases` | src/fs/ext2/dir.c:209-222 | a block of 32 bytes where it does: the inode number of the next record becomes 0 |
| `Ext2Dirs.NulledSplit` | src/fs/ext2/dir.c:209-222 | splitting a record does the same to a block whose byte under the NUL is already zero, and there it does no harm |
| `Ext2Dirs.NulledRecords` | src/fs/ext2/dir.c:209-222 | zeroing that byte takes the low byte off the inode number of the record there and changes no other record |
| `Ext2Dirs.CutLookups` | src/fs/ext2/dir.c:54-70 | lookups among records of which one lost that byte: other names as before, its own name exactly |
| `Ext2Dirs.LookupAfterInsert` | src/fs/ext2/dir.c:209-222 | a name that was absent now finds the new inode, every other name what it found before |
| `Ext2Dirs.InsertInBlock` | src/fs/ext2/dir.c:187-230 | splits, in place, the first record with room; if there is none the buffer is unchanged |
| `Ext2Dirs.FillFresh` | src/fs/ext2/dir.c:190-206 | an empty block becomes one record that takes the whole block |
| `Ext2DirGrowth.FreshBlock` | src/fs/ext2/dir.c:163-206 | a hole gets a block with one record and no other block of the directory changes; it fails only past the indirect range or, without wrapped counts, for want of a free block (two if the indirect block is missing), and a failed link leaves the block allocated; the size grows, in 32-bit arithmetic, exactly when the inode is to be written back |
| `Ext2DirGrowth.LinkThenFill` | src/fs/ext2/dir.c:163-198 | linking and filling a block changes one block of the directory |
| `Ext2DirGrowth.AddDirEntry` | src/fs/ext2/dir.c:137-235 | on an inode in memory: the first block with room gets the entry, by splitting its first record with room or, if it is a hole, by a new block; it fails only if every block is full or the first hole cannot be filled, and what failure leaves behind |
| `Ext2DirGrowth.LookupAfterLink` | src/fs/ext2/dir.c:22-235 | through the inode in memory the new name is found and every other lookup is unchanged |
| `Ext2DirGrowth.GrownBlocks` | src/fs/ext2/dir.c:154-203 | a size that grows counts exactly the blocks that were looked at |
| `Ext2DirGrowth.PointersKept` | src/fs/ext2/dir.c:169 | the inode keeps its own pointers if and only if the block lies in the indirect range and the indirect block was there |
| `Ext2DirGrowth.SurvivesExactly` | src/fs/ext2/dir.c:163-206 | through the size and pointers on disk the entry of a filled hole is found if and only if the size grows or the pointer went into an existing indirect block; every other lookup is unchanged |
| `Ext2Dirs.LookupAfterAdd` | src/fs/ext2/dir.c:22-235 | after adding an entry without spill the directory is tiled, the new name is found and every other lookup is unchanged |
| `Ext2Inodes.SlotsDisjoint` | src/fs/ext2/inode.c:16-52 | two inodes never share a byte of the table |
| `Ext2Inodes.InodeAddress` | src/fs/ext2/inode.c:16-52 | the block and byte where an inode is, in sums and quotients of the superblock's numbers |
| `Ext2Inodes.InodeStride` | src/fs/ext2/inode.c:29-33 | where blocks hold whole numbers of inodes the inodes of a group are one run of bytes |
| `Ext2Inodes.ReadInode` | src/fs/ext2/inode.c:16-52 | the inode's bytes; refused exactly for 0, numbers above inodes_count and groups that do not exist |
| `Ext2Inodes.WriteInode` | src/fs/ext2/inode.c:55-100 | the inode reads back as written, every other byte of the volume is as before; refused for the same numbers |
| `Ext2Names.EncodedReads` | src/include/ext2.h:92-111 | a size and fifteen pointers put into the 128 bytes of an inode read back, and no other byte changes |
| `Ext2Names.LookupEntry` | src/fs/ext2/dir.c:22-75 | by inode number, through the bytes of the inode table: refused exactly for inodes that do not exist or are no directories, otherwise the entry or not found |
| `Ext2Names.ApartStays` | src/fs/ext2/dir.c:163-198 | a block in use outside the directory's map keeps its contents while the map grows |
| `Ext2Names.StoredApart` | src/fs/ext2/inode.c:55-100 | storing the inode of a directory changes no lookup in it |
| `Ext2Names.FreshAddsSaved` | src/fs/ext2/dir.c:163-206 | a filled hole whose inode was written back, seen through the table afterwards |
| `Ext2Names.FreshAddsStale` | src/fs/ext2/dir.c:163-206 | a filled hole whose inode was not |
| `Ext2Names.SplitAdds` | src/fs/ext2/dir.c:209-229 | an entry split off a record is found through the table if and only if the size counts its block; every other name is found as before, but for the record the NUL hits |
| `Ext2Names.SpillLookups` | src/fs/ext2/dir.c:209-229 | when the NUL hits a record, the new name and all names but that record's are found as they should be; that name leads to the inode number without its low byte, or nowhere if that is zero |
| `Ext2Names.LostEntry` | src/fs/ext2/dir.c:201-204 | a sound volume with a directory of one block, by its size, and no block: the first hole is block 0, and no entry put there will be found |
| `Ext2Names.LoseEntry` | src/fs/ext2/dir.c:22-235 | on that volume the call that adds an entry succeeds and the next lookup does not find it |
| `Ext2Names.AddEntry` | src/fs/ext2/dir.c:137-235 | by inode number: what every later lookup through the inode table finds, told from the inode and the blocks before the call, a spilling NUL included; it fails only if every block is full or the first hole cannot be filled, and then changes no lookup |
| `Ext2Format.InodeFields` | src/include/ext2.h:92-111 | size at byte 4, sectors at 28, pointers from 40, directory exactly if the high half of byte 1 is 4 |
| `Ext2Format.BlocksOfSize` | src/fs/ext2/dir.c:39 | the number of blocks is the least that holds the size, while the sum does not wrap |
| `Ext2Format.SizeAfterEntry` | src/fs/ext2/dir.c:201-204 | a directory grows to the start of the block plus the entry's own length, in 32 bits, if that is more than its size |
| `Ext2Format.FirstOfName` | src/fs/ext2/dir.c:54-70 | a lookup gives the first record with a nonzero inode number and the name; nothing exactly if there is none |
| `Ext2Format.LookupFound` | src/fs/ext2/dir.c:22-75 | in bytes: what a lookup finds is the inode number of a record of that name in a block the size covers, reached from the block's start by adding record lengths |
| `Ext2Format.LookupMissed` | src/fs/ext2/dir.c:22-75 | and if it finds nothing there is no such record |
| `Ext2Format.RoomMeans` | src/fs/ext2/dir.c:209-213 | a record can take a name exactly if it is live and both lengths, rounded up to four, fit its record length |
| `HeapSpec.FirstFit` | src/memory/heap.rs:37-73 | the first free block that can hold the aligned request |
| `HeapSpec.MergeCoalesces` | src/memory/heap.rs:110-126 | merging an address-ordered list leaves no two adjacent blocks |
| `HeapSpec.MergeTotal` | src/memory/heap.rs:110-126 | and neither gains nor loses a byte |
| `HeapSpec.MergeApart` | src/memory/heap.rs:110-126 | and covers no byte it did not cover before |
| `HeapSpec.InsertPacked` | src/memory/heap.rs:76-105 | inserting a freed block keeps the list ordered and disjoint |
| `HeapSpec.AllocStepOk` | src/memory/heap.rs:33-74 | allocation keeps every invariant of the heap |
| `HeapSpec.DeallocStepOk` | src/memory/heap.rs:76-108 | so does deallocation |
| `HeapSpec.EveryRunOk` | src/memory/heap.rs:26-126 | in every state of every run the free list is ordered, fully coalesced and disjoint from all live blocks, and free + live + leaked bytes are constant |
| `HeapSpec.AllocPromise` | src/memory/heap.rs:33-74 | refused exactly if no free block has an aligned place for the request; otherwise the block is cut at the lowest aligned place of the first block that has one, what is left behind it stays free if it is more than 16 bytes, and the leak is exactly the padding plus what does not stay |
| `HeapSpec.DeallocPromise` | src/memory/heap.rs:76-126 | exactly the freed block's bytes become free, and no other byte changes hands |
| `HeapMemory.ReplaceOk` | src/memory/heap.rs:49-59 | writing the remainder's header and relinking gives the list with the block replaced, although headers live in the managed memory |
| `HeapMemory.RemoveOk` | src/memory/heap.rs:60-66 | relinking past a block gives the list without it |
| `HeapMemory.InsertOk` | src/memory/heap.rs:77-105 | writing a header into a freed block and linking it in gives the list with it inserted |
| `HeapMemory.JoinOk` | src/memory/heap.rs:117-119 | joining two neighbours in memory joins them in the list |
| `HeapMemory.LinkedListAllocator.constructor` | src/memory/heap.rs:26-31 | one free block covers the heap |
| `HeapMemory.LinkedListAllocator.AllocFromRegion` | src/memory/heap.rs:33-74 | the linked headers in memory follow the first-fit specification, and only free blocks are written to |
| `HeapMemory.LinkedListAllocator.DeallocToRegion` | src/memory/heap.rs:76-108 | and the insert-and-merge specification, writing only to free blocks and the block given back |
| `HeapMemory.LinkedListAllocator.FindPredecessor` | src/memory/heap.rs:85-100 | the last block at or below the freed address |
| `HeapMemory.LinkedListAllocator.MergeAdjacentBlocks` | src/memory/heap.rs:110-126 | the in-place loop computes the merged list |
| `HeapMemory.LiveUntouched` | src/memory/heap.rs:33-126 | writes that stay inside free blocks and the block being freed change no word of any other live block |
| `HeapMemory.Serve` | src/memory/heap.rs:33-126 | one request served by the linked list is one step of the heap machine, the address returned is that of the new live block or 0, and no word inside a block that stays live changes |
| `Frames.BitFrameBit` | src/memory/frame_allocator.rs:82-108 | bit to frame to bit is the identity |
| `Frames.FrameBitFrame` | src/memory/frame_allocator.rs:82-108 | frame to bit to frame is the identity on page-aligned frames of the regions |
| `Frames.BitRange` | src/memory/frame_allocator.rs:94-108 | exactly the padding bits have no frame |
| `Frames.Numbering` | src/memory/frame_allocator.rs:82-108 | frame j of region k has the number of frames of the regions before it plus j, both ways |
| `Frames.FrameToBitIndex` | src/memory/frame_allocator.rs:82-92 | the loop with its running offset computes the numbering |
| `Frames.BitIndexToFrame` | src/memory/frame_allocator.rs:94-108 | so does its inverse |
| `Frames.BitmapFrameAllocator.constructor` | src/memory/frame_allocator.rs:68-80 | at first every frame of every region is free and every bit, padding included, is set |
| `Frames.BitmapFrameAllocator.AllocateFrame` | src/memory/frame_allocator.rs:112-128 | takes exactly the next set bit going round from the search position and hands out its frame; nothing exactly if no bit is set or that bit is padding |
| `Frames.BitmapFrameAllocator.DeallocateFrame` | src/memory/frame_allocator.rs:130-136 | frees exactly the frame containing the address, or does nothing; the search position stays |
| `Frames.BitmapFrameAllocator.Life` | src/memory/frame_allocator.rs:68-136 | over any life: which frames are free at each point follows from the regions and the results, a frame handed out was free, and at most 63 requests return nothing while a frame is free |
| `Frames.InOrder` | src/memory/frame_allocator.rs:68-128 | a new allocator hands out its frames in the order of the regions, each once, and then nothing |
| `Frames.GivenBetween` | src/memory/frame_allocator.rs:110-136 | a frame handed out twice was given back in between |
| `PageTree.EntryAddr` | src/memory/paging/arm_lpae.rs:51-65 | an entry made of a frame and flag bits holds that frame |
| `PageTree.Zeroed` | src/memory/paging/arm_lpae.rs:80-84 | the loop that clears a table |
| `PageTree.LinkWalk` | src/memory/paging/arm_lpae.rs:152-165 | linking a zeroed frame from outside the tree reaches exactly one new table and changes no other walk |
| `PageTree.LinkTree` | src/memory/paging/arm_lpae.rs:152-165 | and keeps the tables whole and unshared |
| `PageTree.LinkLeaf` | src/memory/paging/arm_lpae.rs:152-165 | and changes no last-level entry |
| `PageTree.SetLeaf` | src/memory/paging/arm_lpae.rs:190 | writing a last-level entry changes that entry of the tree and no other |
| `PageTree.SamePath` | src/memory/paging/arm_lpae.rs:110-124 | two addresses take the same four indices exactly when they agree in bits 12 to 47 |
| `PagePool.TranslationIsHardware` | src/memory/paging/arm_lpae.rs:232-258 | the walk on the words of memory: nine index bits a level from bit 39 down, bit 0 for present, bit 1 (Arm) or a clear bit 7 (x86) for a table, the address in bits 12 to 47 or 51 |
| `PagePool.LinkPool` | src/memory/paging/arm_lpae.rs:152-165 | a frame the allocator hands out can be linked, and afterwards still no table frame is free |
| `PagePool.LeafSetTranslates` | src/memory/paging/arm_lpae.rs:232-258 | replacing one last-level entry retranslates exactly one page |
| `PagePool.StandsStep` | src/memory/paging/arm_lpae.rs:167-230 | one operation carries the partial map from run to longer run |
| `PagePool.OutcomeNow` | src/memory/paging/arm_lpae.rs:167-230 | and its outcome is the one the partial map calls for |
| `PagePool.EntryFlags` | src/memory/paging/mod.rs:81-83 | the flag bits of an entry are exactly those put there |
| `ArmPaging.TableEntryOk` | src/memory/paging/arm_lpae.rs:55-57 | a table entry is recognised as one and holds its frame, and outside the address field bits 0 and 1 and no other |
| `ArmPaging.PageEntryOk` | src/memory/paging/arm_lpae.rs:63-150 | a page entry holds its frame, and outside the address field exactly bits 0, 1 and 10, bit 7 unless writable, bit 6 if user accessible and bit 54 if no-execute |
| `ArmPaging.EmptyRoot` | src/memory/paging/arm_lpae.rs:105-108 | a zeroed root is a tree of one table that translates nothing |
| `ArmPaging.ArmLpaePageTable.constructor` | src/memory/paging/arm_lpae.rs:105-108 | a new address space is valid and empty |
| `ArmPaging.ArmLpaePageTable.CreateNextLevelTable` | src/memory/paging/arm_lpae.rs:152-165 | afterwards the walk reaches the returned table, through an entry with bits 0 and 1 if it is new; no translation changes, on success or failure; a block entry is refused; no frame means the allocator is empty or spent a padding bit |
| `ArmPaging.ArmLpaePageTable.MapTo` | src/memory/paging/arm_lpae.rs:167-194 | refused as mapped exactly if the page translates; every failure changes no translation; success maps the page to frame + offset and changes no other page, and every bit of the entry is the one the flags call for; the tree stays unshared |
| `ArmPaging.ArmLpaePageTable.Unmap` | src/memory/paging/arm_lpae.rs:196-230 | refused exactly if the page does not translate; otherwise exactly that page stops translating, and its last-level entry is 0 and no other changed |
| `ArmPaging.ArmLpaePageTable.Translate` | src/memory/paging/arm_lpae.rs:232-258 | the partial map's answer for the address; a block entry at level 1 or 2 answers with its address plus the offset in the page |
| `ArmPaging.ArmLpaePageTable.Run` | src/memory/paging/arm_lpae.rs:152-258 | after any run of map and unmap calls the tables stand for exactly the pages the calls left mapped; an unmap is performed exactly if the page is mapped at that point, a map only if it is not; a map of an unmapped page that is not performed met no frame, at most 63 times while a frame is free |
| `X86Paging.WindowPath` | src/memory/paging/x86_64_paging.rs:29-115 | the four computed window addresses are the recursive index repeated and then the page's indices |
| `X86Paging.SelfLoops` | src/memory/paging/x86_64_paging.rs:29-115 | going through the recursive entry any number of times first changes no walk |
| `X86Paging.WindowReaches` | src/memory/paging/x86_64_paging.rs:29-115 | the hardware walk of each recursive address reaches exactly the table direct descent reaches |
| `X86Paging.X86TableOk` | src/memory/paging/x86_64_paging.rs:123 | a table entry is recognised as one and holds its frame, and outside the address field bits 0, 1 and 2 and no other |
| `X86Paging.X86PageOk` | src/memory/paging/x86_64_paging.rs:172 | a page entry holds its frame, and outside the address field exactly the flags given plus PRESENT |
| `X86Paging.BeforeZero` | src/memory/paging/x86_64_paging.rs:120-126 | once the entry is written the new table's own window already reaches it, so zeroing hits the right frame |
| `X86Paging.EmptyTop` | src/memory/paging/x86_64_paging.rs:11-13 | a top table with only its recursive entry translates nothing |
| `X86Paging.X86PageTable.constructor` | src/memory/paging/x86_64_paging.rs:11-13 | such a table is a valid, empty address space |
| `X86Paging.X86PageTable.Table` | src/memory/paging/x86_64_paging.rs:29-115 | p4, p3, p2 and p1 return the table of direct descent, or nothing where descent ends |
| `X86Paging.X86PageTable.AddTable` | src/memory/paging/x86_64_paging.rs:119-128 | a new table is linked, with bits 0 to 2, and zeroed through its window; no translation changes |
| `X86Paging.X86PageTable.CreateTableIfNeeded` | src/memory/paging/x86_64_paging.rs:117-159 | afterwards the walk goes on below the level unless a huge page is in the way; no translation changes; failure means no frame |
| `X86Paging.X86PageTable.MapTo` | src/memory/paging/x86_64_paging.rs:164-180 | the same partial-map contract as on Arm, for every page outside the recursive slot, with every bit of the entry as the flags say |
| `X86Paging.X86PageTable.Unmap` | src/memory/paging/x86_64_paging.rs:182-196 | refused exactly if the page does not translate; otherwise exactly that page stops translating, and its last-level entry is 0 and no other changed |
| `X86Paging.X86PageTable.Translate` | src/memory/paging/x86_64_paging.rs:198-209 | the partial map's answer for the address |
| `X86Paging.X86PageTable.Run` | src/memory/paging/x86_64_paging.rs:117-209 | the same outcomes on the recursive tables, from a table without huge pages |
| `SchedulerSpec.StepOk` | src/process/scheduler.rs:89-179 | every operation keeps the scheduler invariant |
| `SchedulerSpec.EveryReachableState` | src/process/scheduler.rs:33-179 | in every reachable state a ready thread other than the idle one is in exactly one queue, once, at its own priority; what is queued is ready; a running thread is the current one |
| `SchedulerSpec.RequeueOk` | src/process/scheduler.rs:120-128 | putting the preempted thread back leaves nobody running and everybody ready queued |
| `SchedulerSpec.PickOk` | src/process/scheduler.rs:130-139 | picking and dispatching restores the invariant, with or without an idle thread |
| `SchedulerSpec.SwitchPicksMaximal` | src/process/scheduler.rs:45-53 | after a switch no ready thread has a higher priority than the running one |
| `SchedulerSpec.StepBound` | src/process/scheduler.rs:106-179 | no operation sets a waiting thread back and every timer interrupt brings it closer |
| `SchedulerSpec.LeavesQueue` | src/process/scheduler.rs:45-72 | a thread leaves its queue only by running or exiting |
| `SchedulerSpec.DispatchedInTime` | src/arch/interrupts.rs:16-26 | a thread at place k of level p runs within (k + 1) slices of that level, counted in timer interrupts, while nothing above p is runnable |
| `SchedulerSpec.AccountsKept` | src/process/scheduler.rs:142-155 | every operation keeps ticks = time charged to threads + time of threads gone + ticks without a live current thread |
| `SchedulerSpec.TicksAccountedFor` | src/process/scheduler.rs:142-155 | so the account holds after every run |
| `Scheduling.Scheduler.Enqueue` | src/process/scheduler.rs:33-38 | to the back of the level's queue, unless already there |
| `Scheduling.Scheduler.PickNext` | src/process/scheduler.rs:45-53 | the front of the highest non-empty queue, else the idle thread |
| `Scheduling.Scheduler.Schedule` | src/process/scheduler.rs:106-140 | follows the state machine; returns nothing only if nothing can run |
| `Scheduling.Scheduler.Tick` | src/process/scheduler.rs:142-155 | follows the state machine |
| `Scheduling.Scheduler.TimerInterrupt` | src/arch/interrupts.rs:16-26 | a tick and then a scheduling decision |
| `Scheduling.Scheduler.YieldCurrent` | src/process/scheduler.rs:157-159 | ends the slice, changes nothing else and keeps the invariant |
| `Scheduling.Scheduler.BlockCurrent` | src/process/scheduler.rs:161-169 | the current thread becomes Blocked, nothing is current, no other thread and no queue changes |
| `Scheduling.Scheduler.UnblockThread` | src/process/scheduler.rs:171-179 | a blocked thread becomes Ready and stands last in the queue of its priority; all other threads and queues, and any other thread named, are left alone |
| `Scheduling.Scheduler.AddToTable` | src/process/thread.rs:105-111 | the table grows as far as needed and gains exactly one entry |
| `Scheduling.Scheduler.AddThread` | src/process/scheduler.rs:89-96 | queues a runnable thread of the table at its priority, nothing else |
| `Scheduling.Scheduler.SpawnThread` | src/process/thread.rs:140-157 | a fresh thread id, ready and queued |
| `Scheduling.Scheduler.Remove` | src/process/scheduler.rs:67-71 | removes the thread from every queue |
| `Scheduling.Scheduler.ExitThread` | src/syscall/mod.rs:933-936 | the thread is in no queue and not in the table |
| `Scheduling.Drive` | src/process/scheduler.rs:89-179 | any run of calls on a fresh scheduler object leads to the state machine's state |
| `SchedulerLaws.UnblockMakesReady` | src/process/scheduler.rs:171-179 | a blocked thread becomes ready and stands behind the old queue of its priority, all other threads and queues as before; any other thread is left alone |
| `SchedulerLaws.UnblockedRuns` | src/process/scheduler.rs:106-179 | once unblocked it runs within one slice for each thread queued before it and one more, with slices of 1, 5, 10, 20 and 50 ticks by level, while nothing above it is runnable |
| `SchedulerLaws.BlockBlocks` | src/process/scheduler.rs:161-169 | the current thread is blocked, nothing is current, and nothing else changes |
| `SchedulerLaws.KeepsRunning` | src/process/scheduler.rs:109-118 | while the slice lasts a scheduling decision changes nothing |
| `SchedulerLaws.SwitchesAway` | src/process/scheduler.rs:120-139 | at its end the thread goes behind its queue and the first of the highest queue, if that is not below it, is dispatched with a fresh slice |
| `SchedulerLaws.StaysAlone` | src/process/scheduler.rs:120-139 | with nobody queued at its level or above it gets another slice and nothing else changes |
| `SchedulerLaws.FillsIdle` | src/process/scheduler.rs:130-139 | with no live current thread: the first of the highest queue, else the idle thread, else no change |
| `SchedulerLaws.YieldSwitches` | src/process/scheduler.rs:157-159 | after a yield the next timer interrupt gives the CPU to the first of the highest queue unless that is below the thread that yielded |
| `SchedulerLaws.TimerTicks` | src/arch/interrupts.rs:16-26 | a timer interrupt is a tick and then a scheduling decision |
| `SchedulerLaws.TickCounts` | src/process/scheduler.rs:142-155 | one tick more, one less of the slice, one more on the current thread's account, nothing else |
| `SchedulerLaws.SpawnQueues` | src/process/thread.rs:140-157 | a new thread has the next number, no time used and a slice by its level, and stands last in its queue; nothing else changes |
| `SchedulerLaws.SpawnIdleKeepsQueues` | src/process/scheduler.rs:102-104 | the idle thread the same, in no queue |
| `SchedulerLaws.ExitRemoves` | src/process/scheduler.rs:67-71 | the thread is gone from table and queues; everyone else is where they were, in the same order |
| `RingBuffers.EnqueueRing` | src/cpu/scheduler_smp.rs:41-50 | the ring's three writes append to the queue |
| `RingBuffers.DequeueRing` | src/cpu/scheduler_smp.rs:52-62 | and its other three take the oldest task |
| `RingBuffers.HeldIs` | src/cpu/scheduler_smp.rs:30-66 | the count slots from head on, modulo the capacity, hold exactly the queue, for every ring that stands for one |
| `RingBuffers.PerCpuRunQueue.Enqueue` | src/cpu/scheduler_smp.rs:41-50 | appends; refused exactly at 64 tasks |
| `RingBuffers.PerCpuRunQueue.Dequeue` | src/cpu/scheduler_smp.rs:52-62 | returns and removes the oldest task, nothing if empty |
| `RingBuffers.PerCpuRunQueue.Peek` | src/cpu/scheduler_smp.rs:64-66 | the oldest task, nothing if empty |
| `RingBuffers.MultiCpuScheduler.LoadBalance` | src/cpu/scheduler_smp.rs:127-146 | steals the oldest task of the first non-empty queue of another CPU and changes no other queue; nothing exactly if all those are empty |
| `Smp.WorkOk` | src/cpu/scheduler_smp.rs:41-66 | each single write inside a critical section keeps the ring related to what it held when the lock was taken, and the last one is the queue operation |
| `Smp.StepOk` | src/lib_core/spinlock.rs:26-87 | every single step of every CPU, lock attempts included, keeps the invariant |
| `Smp.MutualExclusion` | src/lib_core/spinlock.rs:26-50 | in every interleaving at most one CPU is inside a queue's critical section |
| `Smp.FirstInFirstOut` | src/cpu/scheduler_smp.rs:41-62 | hand-outs of a queue are a prefix of what it accepted, and an unlocked ring holds exactly the rest in order |
| `Smp.QueueHolds` | src/cpu/scheduler_smp.rs:41-66 | for every step inside a critical section, the slots of the ring and the task in the owner's hand are what the queue holds at that moment |
| `Smp.EveryoneTold` | src/cpu/scheduler_smp.rs:85-146 | what the CPUs were told they queued and took are exactly the queue's accepted and handed-out tasks, but for the operations not yet reported |
| `Smp.Conservation` | src/cpu/scheduler_smp.rs:85-146 | in every state of every interleaving, stealing included, as multisets: the tasks CPUs queued, reported or about to be reported, are those in the slots of the rings, those in a CPU's hand and those CPUs took, reported or about to be |
| `Smp.QuietConservation` | src/cpu/scheduler_smp.rs:85-146 | whenever no CPU is inside a queue operation, the tasks CPUs queued are the tasks in the rings plus the tasks CPUs got: none lost, none twice |
| `Smp.HonestReports` | src/cpu/scheduler_smp.rs:85-110 | what a CPU is told is what happened: its task was queued last, or taken last, or the queue was full or empty |
| `Smp.ThievesSkipThemselves` | src/cpu/scheduler_smp.rs:131-134 | a stealing CPU never locks its own queue |
| `SmpLaws.HolderReleases` | src/lib_core/spinlock.rs:26-87 | whoever holds a lock gives it back after at most five steps of its own, whatever the other CPUs do in between |
| `SmpLaws.EnqueueAlone` | src/cpu/scheduler_smp.rs:41-50 | an enqueue on a free queue: the task is queued last and its CPU told so, or with 64 tasks queued nothing changes |
| `SmpLaws.DequeueAlone` | src/cpu/scheduler_smp.rs:52-62 | a dequeue: the oldest task goes to its CPU, or with none queued nothing changes |
| `SmpLaws.LookAlone` | src/cpu/scheduler_smp.rs:64-66 | a peek tells the oldest task and changes nothing |
| `SmpLaws.FindsLocked` | src/lib_core/spinlock.rs:26-50 | on a taken lock try_lock gives up and lock stays |
| `SmpLaws.StealsInOrder` | src/cpu/scheduler_smp.rs:127-146 | a thief tries the other queues from the lowest up until it gets a task |
| `ExitWaitSpec.StepOk` | src/syscall/mod.rs:489-949 | fork, clone, exit and wait keep the invariant of tables, waiters and zombies |
| `ExitWaitSpec.StepLosesNone` | src/syscall/mod.rs:489-949 | every forked process is in the table with its parent, or its end is on record |
| `ExitWaitSpec.ExactlyOnce` | src/syscall/mod.rs:872-949 | in every run each forked process is still in the table and unseen by wait, or is exactly one of unreaped zombie or reaped once |
| `ExitWaitSpec.ReapedByParent` | src/syscall/mod.rs:565-582 | only a thread of the process that forked it reaps a child, with the status of its last exiting thread |
| `ExitWaitSpec.OneEntryPerWaiter` | src/syscall/mod.rs:872-877 | waiter entries are exactly the blocked threads, one each, under their own process |
| `ExitWaitSpec.RecordExitOk` | src/syscall/mod.rs:897-931 | leaving a zombie and waking one waiter keeps the invariant |
| `ExitWaitSpec.RegisterOk` | src/syscall/mod.rs:872-877 | registering gives a thread its only entry |
| `WaitLiveness.DoomedForever` | src/syscall/mod.rs:565-582 | a waiter for a process that is not and will not be a living child of its own, or behind another waiter for the same child, stays blocked in every continuation |
| `WaitLiveness.HelpedWakes` | src/syscall/mod.rs:897-931 | every other waiter can be woken, if its process has a thread that runs and so do the threads of the child it waits for: the continuation is constructed |
| `WaitLiveness.ReadyWakes` | src/syscall/mod.rs:897-931 | so can a waiter that comes first for some child whose threads run |
| `WaitLiveness.WakesExactly` | src/syscall/mod.rs:872-931 | in both cases together: a blocked waiter can still be woken if and only if it is not doomed |
| `WaitLiveness.LostWakeUp` | src/syscall/mod.rs:914-928 | a run of seven calls in which a waiter for any child gets the wake-up and the thread waiting for that very child stays blocked for ever |
| `Processes.ProcessManager.Launch` | src/process/mod.rs:385-398 | a fresh process with one thread |
| `Processes.ProcessManager.SysFork` | src/syscall/mod.rs:489-528 | a fresh child linked to the caller's process, for both outcomes of both frame allocations |
| `Processes.ProcessManager.SysClone` | src/syscall/mod.rs:618-639 | a new thread in the caller's process |
| `Processes.ProcessManager.TakeZombie` | src/syscall/mod.rs:879-895 | removes and returns the first matching zombie |
| `Processes.ProcessManager.RegisterWaiter` | src/syscall/mod.rs:872-877 | drops the thread's old entry and appends the new one |
| `Processes.ProcessManager.SysWait` | src/syscall/mod.rs:565-582 | one iteration: a matching zombie of the own process, or registered and blocked because there is none |
| `Processes.ProcessManager.RecordChildExit` | src/syscall/mod.rs:897-931 | follows the state machine |
| `Processes.ProcessManager.SysExit` | src/syscall/mod.rs:933-949 | the thread is gone; the last one ends the process |
| `ExitWaitLaws.NobodyCalls` | src/syscall/mod.rs:489-949 | a call by a thread that is blocked or gone changes nothing |
| `ExitWaitLaws.WaitReaps` | src/syscall/mod.rs:879-895 | wait removes and returns the first zombie in line that is the caller's child and, if a process was asked for, that one |
| `ExitWaitLaws.WaitBlocks` | src/syscall/mod.rs:565-582 | without one the caller blocks and stands last among the waiters, for that process or for any |
| `ExitWaitLaws.LaunchAdds` | src/process/mod.rs:385-398 | the tables after a first process |
| `ExitWaitLaws.ForkLinks` | src/syscall/mod.rs:489-528 | the tables after a fork, for every outcome of the two frame allocations: child last among the caller's children, one thread or none |
| `ExitWaitLaws.CloneAdds` | src/syscall/mod.rs:618-639 | the tables after a clone |
| `ExitWaitLaws.ExitLeaves` | src/syscall/mod.rs:933-949 | an exit with other threads left only takes the thread out |
| `ExitWaitLaws.ExitOrphan` | src/syscall/mod.rs:933-949 | the last exit of a process without a parent removes the process |
| `ExitWaitLaws.ExitWakes` | src/syscall/mod.rs:897-931 | with a parent it leaves a zombie with its status, the parent forgets the child, and the first waiter of the parent for any child or this one leaves the line and can run |
| `ExitWaitLaws.ExitUnnoticed` | src/syscall/mod.rs:897-931 | if there is no such waiter only the zombie is left |
| `ElfStack.WriteU64` | src/process/elf_loader.rs:619-625 | writes eight little-endian bytes and nothing else; refused exactly if they do not fit |
| `ElfStack.LowByteFirst` | src/process/elf_loader.rs:619-625 | byte i of a word is its digit of weight 256^i |
| `ElfStack.PutStrings` | src/process/elf_loader.rs:661-694 | strings and pointers to them; gives up exactly if the strings do not fit |
| `ElfStack.PutAux` | src/process/elf_loader.rs:698-705 | two words an entry, nothing else touched |
| `ElfStack.BuildStack` | src/process/elf_loader.rs:613-713 | fails exactly when the image exceeds the stack; past that check no later overflow check fails and the image is complete |
| `ElfStack.DecodeImage` | src/process/elf_loader.rs:613-713 | decoding the image gives back exactly argc, argv, envp and the auxiliary vector, for all NUL-free strings |
| `ElfStack.NoOverlap` | src/process/elf_loader.rs:631-641 | strings overlap neither the header nor one another |
| `ElfStack.LayoutIs` | src/process/elf_loader.rs:631-641 | strings start at the first multiple of 16 behind 8 * (3 + argc + envc + 2 * auxc) bytes, and the image ends at the first multiple of 16 behind them |
| `ElfStack.StackPointerInside` | src/process/elf_loader.rs:650 | the stack pointer is 16-aligned, and inside the stack if either end is 16-aligned |
| `ElfStack.BuildAuxiliaryOk` | src/process/elf_loader.rs:595-611 | the kernel's auxiliary vector ends with its only null key, as the decoder needs |
| `ElfStack.AuxiliaryValues` | src/process/elf_loader.rs:595-611 | what the program reads under each key of its vector: program headers, page size 4096, entry point, the two counts, zeros, and under no other key anything |
| `VtParsing.AdvanceOk` | src/lib_core/vt/parser.rs:55-175 | nothing is pending outside a sequence, parameters stay in range, and every dispatch returns to an empty ground state |
| `VtParsing.Parser.Feed` | src/lib_core/vt/parser.rs:55-166 | the fields follow the transition function, with at most one action a byte |
| `VtParsing.Parser.Accumulate` | src/lib_core/vt/parser.rs:121-132 | saturating decimal accumulation |
| `VtParsing.AccumDec` | src/lib_core/vt/parser.rs:121-132 | feeding the decimal digits of n gives n, cut off at the 64-bit maximum |
| `VtParsing.CsiRoundTrip` | src/lib_core/vt/parser.rs:55-175 | a control sequence with any non-empty parameter list yields exactly one dispatch with those parameters and leads back to empty ground |
| `VtParsing.CsiFields` | src/lib_core/vt/parser.rs:93-140 | the same with parameters left out: each counts as 0, but a first one is not counted if it is alone or follows a private prefix |
| `VtParsing.CsiInter` | src/lib_core/vt/parser.rs:93-149 | a control sequence of intermediates and a final byte yields one dispatch with exactly those |
| `VtParsing.EscRoundTrip` | src/lib_core/vt/parser.rs:67-92 | so does an escape sequence |
| `VtParsing.EscDropped` | src/lib_core/vt/parser.rs:67-92 | any other byte at its end drops it |
| `VtParsing.Abandoned` | src/lib_core/vt/parser.rs:93-154 | a byte without a place in a control sequence drops everything up to its final byte |
| `VtParsing.ControlInside` | src/lib_core/vt/parser.rs:60-151 | a control byte inside a sequence acts at once and leaves the sequence alone |
| `VtParsing.Dropped` | src/lib_core/vt/parser.rs:60-66 | 0x18 and 0x1A between sequences do nothing |
| `VtParsing.Restarts` | src/lib_core/vt/parser.rs:67-96 | ESC after ESC or ESC [ starts over |
| `VtParsing.StringsSkipped` | src/lib_core/vt/parser.rs:78-165 | DCS, SOS, PM and APC each swallow one byte |
| `VtParsing.OscRoundTrip` | src/lib_core/vt/parser.rs:155-162 | the bytes of an operating system command up to BEL are handed over one by one, then its end; ESC gives it up |
| `VtScreens.ScreenBuffer.Write` | src/lib_core/vt/screen.rs:95-124 | writes one cell and advances, wrapping and scrolling first if a wrap is pending; a printable character is in the cell before the new cursor |
| `VtScreens.ScreenBuffer.MoveToNextLine` | src/lib_core/vt/screen.rs:126-133 | next row, or scroll |
| `VtScreens.ScreenBuffer.ScrollUp` | src/lib_core/vt/screen.rs:135-152 | the in-place copy moves every row up by one and blanks the last |
| `VtScreens.ScreenBuffer.Clear` | src/lib_core/vt/screen.rs:154-163 | blanks every cell and homes the cursor |
| `VtScreens.ScreenBuffer.EraseLine` | src/lib_core/vt/screen.rs:165-185 | blanks exactly the cells of the mode; indexes out of range exactly in mode 1 in the pending-wrap column of the last row |
| `VtScreens.ScreenBuffer.MoveTo` | src/lib_core/vt/screen.rs:187-190 | the position clamped to the screen |
| `VtScreens.WriteCharOk` | src/lib_core/vt/screen.rs:95-133 | the cursor stays in range |
| `VtTerminals.HandleOk` | src/lib_core/vt/mod.rs:81-248 | whatever the action, both screens keep cursor_y < height and cursor_x <= width |
| `VtScreens.LineClearFailsWhere` | src/lib_core/vt/screen.rs:173-177 | the last index EL writes in mode 1 is past the buffer if and only if the cursor is in the pending-wrap column of the last row |
| `VtTerminals.StreamStops` | src/lib_core/vt/mod.rs:54-219 | a byte stream stops the terminal if and only if one of its bytes completes an EL with mode 1 while the cursor is in the pending-wrap column of the last row |
| `VtTerminals.StopsAtK` | src/lib_core/vt/mod.rs:133-176 | the byte that stops it is the letter K |
| `VtTerminals.OneCellStops` | src/lib_core/vt/mod.rs:54-219 | one letter and ESC [ 1 K stop a new terminal with one cell |
| `VtTerminals.CursorsInRange` | src/lib_core/vt/mod.rs:54-248 | after any byte stream that does not stop, both cursors are on the screen or in the pending-wrap column and both buffers have their size |
| `VtTerminals.PrimaryCellsKept` | src/lib_core/vt/mod.rs:99-103 | while the alternate screen is active no primary cell changes |
| `VtTerminals.SessionRestores` | src/lib_core/vt/mod.rs:221-248 | ?1049h, any bytes that stay on the alternate screen, ?1049l: every primary cell, the cursor and the attributes are as on entry |
| `VtTerminals.CursorPositionWorks` | src/drivers/tty/ansi.rs:841-843 | the generated sequence drives the terminal to the position clamped to the screen and changes nothing else |
| `VtTerminals.Colors256Work` | src/drivers/tty/ansi.rs:981-988 | the 256-colour sequences set exactly the colour modulo 256 |
| `VtTerminals.TrueColorsWork` | src/drivers/tty/ansi.rs:991-998 | the true-colour sequences set exactly the colour |
| `VtTerminals.VtTerminal.SelectGraphics` | src/lib_core/vt/mod.rs:178-214 | the SGR loop computes the attribute fold |
| `VtTerminals.VtTerminal.HandleCsi` | src/lib_core/vt/mod.rs:133-219 | control sequences on the active screen follow the specification |
| `VtTerminals.VtTerminal.HandleMode` | src/lib_core/vt/mod.rs:221-248 | private modes follow the specification |
| `VtTerminals.VtTerminal.HandleAction` | src/lib_core/vt/mod.rs:81-131 | one action follows the specification, or stops exactly there |
| `VtTerminals.VtTerminal.ProcessByte` | src/lib_core/vt/mod.rs:54-61 | one byte follows parser and display |
| `VtTerminals.VtTerminal.Process` | src/lib_core/vt/mod.rs:54-61 | any stream of bytes follows parser and display; it stops if and only if the stream has a stopping byte |
| `VtLaws.Printed` | src/lib_core/vt/screen.rs:95-152 | a printable byte: the cell at the cursor, after a pending wrap, holds it with the attributes in use; every other cell is as before or, after a scroll, that of the row below; cursor, other screen and modes exactly |
| `VtLaws.TextOnScreen` | src/lib_core/vt/screen.rs:95-152 | a text of any length on a new terminal of any size: each cell shows the byte of its place, counted from the rows that scrolled away, or a blank; the cursor is behind the last byte |
| `VtLaws.LineOnScreen` | src/lib_core/vt/screen.rs:95-124 | up to width bytes are exactly row 0, with the cursor behind them |
| `VtLaws.Controlled` | src/lib_core/vt/mod.rs:107-116 | backspace, carriage return and the three line feeds, cell by cell; every other control byte shows nothing |
| `VtLaws.Escaped` | src/lib_core/vt/mod.rs:120-128 | ESC E and ESC M; every other escape sequence shows nothing |
| `VtLaws.Moves` | src/lib_core/vt/mod.rs:146-166 | CUU, CUD, CUF, CUB and CUP from bytes to cursor, with missing, zero and oversized parameters |
| `VtLaws.ErasesDisplay` | src/lib_core/vt/mod.rs:167-173 | ED 2 blanks every cell on the background in use and homes the cursor; no other ED does anything |
| `VtLaws.ErasesLine` | src/lib_core/vt/screen.rs:165-185 | EL: exactly which cells become blank, for every mode, the cell too far included |
| `VtLaws.SavesRestores` | src/lib_core/vt/screen.rs:192-202 | what SCP keeps and RCP takes back |
| `VtLaws.Unknown` | src/lib_core/vt/mod.rs:145-218 | a control sequence with any other final byte does nothing |
| `VtLaws.PrefixIgnored` | src/lib_core/vt/mod.rs:133-224 | a private prefix matters for h and l only, and there only ? has an effect |
| `VtLaws.SgrCodes` | src/lib_core/vt/mod.rs:178-214 | what each single SGR parameter does to the attributes; none at all does nothing |
| `VtLaws.SgrSplits` | src/lib_core/vt/mod.rs:178-214 | the parameters of one SGR act like as many SGRs one after the other |
| `VtLaws.ModeCodes` | src/lib_core/vt/mod.rs:221-248 | what each private mode does, set and reset |
| `VtLaws.ModesSplit` | src/lib_core/vt/mod.rs:221-248 | several modes in one sequence are set one after the other |
| `VtLaws.OscKept` | src/lib_core/vt/mod.rs:84-95 | the bytes of an operating system command are kept in order and show nothing |

## Left out

- Ext2Writing.WriteFile: requires file block numbers to fit 32 bits; past that the code's block number wraps to a low one.
- Ext2Files.ReadFile: the 64-bit sum of offset and size is taken not to wrap, as no buffer is that large.
- Ext2DirGrowth.AddDirEntry: requires every looked-at block number to be within the map and block sizes below 65536, since past them the code uses an unset block number and a record length cut to 16 bits; requires names shorter than 256 bytes whose record fits a block, which the code does not check: longer names are cut to a wrong length byte or written past the buffer.
- Ext2DirGrowth.FreshBlock: names as for Ext2DirGrowth.AddDirEntry.
- Ext2Names.AddEntry: requires the inode to be a sound directory whose table block lies outside its own map, and names as for Ext2DirGrowth.AddDirEntry.
- Ext2Core.Ext2Fs.Alloc: device errors are not modelled above the cache, because a well-formed volume keeps every block number in range and the cache then never fails.
- HeapSpec.AllocStepOk: requests have at least 16 bytes, since headers are stored in the blocks and sizes are not rounded up; alignment is rounding up to a multiple instead of masking with a power of two.
- X86Paging.WindowPath: or-ing shifted indices into a window base is written as addition, as the base has zeros there.
- X86Paging.X86PageTable.Table: the four accessors and their mutable twins are one method with the level as parameter.
- Scheduling.Scheduler.SpawnIdleThread: the idle thread is named once; naming a second one would leave the first ready and unqueued.
- Smp.StepOk: steps are sequentially consistent; memory orderings weaker than that are not modelled.
- WaitLiveness.WakesExactly: waiters that depend on threads which are themselves blocked are covered only in one direction, by DoomedForever.
- Processes.ProcessManager.SysWait: one iteration of the loop is one step, and the status is kept as a number, not cut to 32 bits.
- Processes.ProcessManager.SysFork: file descriptors, security contexts, images and address spaces are not part of the model.
- ElfStack.BuildStack: sizes are unbounded integers; overflow of the size computation itself is not modelled.
- VtTerminals.VtTerminal.HandleAction: the title bytes of an OSC string are collected but not interpreted; rendering and resizing are not modelled.
- Mounting, superblock and group-descriptor parsing, ext2_readdir, ext2_create, ext2_mkdir and ext2_unlink.
- Block size mismatches between cache and device, and access-time stamps of cache slots.
- malloc failure in the C code: allocation of buffers is taken to succeed.
- Translation lookaside buffers, context switching, interrupt masking and device drivers.
- ELF header, segment and relocation parsing.
- Message queues, the physical page free list of src/mm/mm.c, the system-call table and the shells.
