# Two file systems and a Huffman coder

This project models the parts of the repository that compute: the `ext4-fs` and `easy-fs` crates, and the Huffman
coder of the vendored busybox `gzip.c`. `dafny verify dfyconfig.toml` checks all of it.

**easy-fs** (files `Efs*.dfy`). An inode records its blocks in three levels: direct pointers, one indirect block, and
a block of indirect blocks. Four walks of the source (`total_blocks`, `increase_size`, `get_block_id`, `clear_size`)
must agree on which blocks exist and in which order. `EfsLayout` gives every block of a file a slot and every slot a
place in filling order; `EfsInode` proves each walk against that order, with index blocks as real bytes on the disk.
`EfsState` adds the data bitmap and the free blocks, `EfsFs` the operations of a volume, `EfsRuns` whole runs:
files are byte sequences, the bitmap holds exactly the blocks of the files, names are unique. `EfsBitmap` is the
first-fit allocator over 64-bit words, `EfsBlockCache` the cache of sixteen blocks.

**ext4-fs** (files `Ext4*.dfy`). A file is a sorted list of extents, edited in `Ext4Extents`, kept as a tree of node
blocks (`Ext4Layout`, `Ext4Tree`, `Ext4TreeLayout`, `Ext4Volume`) and cached in memory (`Ext4Files`). Reading and
writing refine byte sequences (`Ext4FileState`, `Ext4FileSteps`, `Ext4ReadWrite`), and whole runs keep blocks apart
and accounted for (`Ext4Runs`). Directories are chains of records in blocks (`Ext4DirBlock`, `Ext4Directory`), with a
cached index, link counts and names (`Ext4Names`, `Ext4Namespace`). `Ext4Calls` mixes calls of all kinds: names, bytes
and answers follow plain values (`Ext4Mixed`), calls fail only when they must, and the blocks and inode numbers in use
stay accounted for (`Ext4Kept`, `Ext4Leaks`). `Ext4Format` reads extent trees and directories from bytes by the
on-disk format alone, with none of the names above; `Ext4OnDisk` and `Ext4ContentOnDisk` prove that it finds in what
is written the lists, the file bytes and the names of the model. Below lie the bitmap allocators (`Ext4Bitmap`,
`Ext4Alloc`), the inode table (`Ext4InodeTable`) and the write-back block cache (`Ext4BlockCache`, `Ext4CacheRuns`).
`Ext4Witness` builds a concrete volume and calls on it what goes wrong.

**gzip** (files `Huffman*.dfy`, `Code*.dfy`, `Dynamic*.dfy`, `Rfc1951`, `BitOutput`, `Sums`). The Huffman tree is
built in arrays, its code lengths are limited and, exactly for trees within the limit, optimal; canonical codes are
assigned and the lengths are sent run-length coded behind a header. `Rfc1951` is a receiver written from sections
3.2.2 and 3.2.7 of RFC 1951 alone, with its own codes, order of the lengths and order of bits: `HuffmanStandard`
proves that the stored codes are those of the standard, `DynamicHeader` that the receiver reads both trees back.

Each operation that the source carries out in place is a method; its contract ties the new state to a function or a
relation of the old one, and lemmas prove what that relation means. Byte order, block sizes, word sizes and limits are
those of the source.

Where the code does less than one would expect, the project says exactly when it does what it should:

* `rename` to a name of more than 255 bytes is refused only when the entry is written. `Ext4Names.Rename` says for all
  volumes what that leaves: names are lost if and only if the first record with room, in search order, is live and the
  bytes behind its name do not read as the records that follow it (`Ext4LongNames.RefusedWhole`). So they are lost where
  those bytes were never used (`Ext4LongNames.FreshRoom`); where they are a chain themselves they survive exactly if
  none of its records is live (`Ext4LongNames.StaleRecords`). If that record is dead, or no block could hold such a
  name, nothing is written (`Ext4LongNames.RefusedUnwritten`); if no record has room, a block is mapped past the end,
  which the next entry then finds there. `Ext4Witness.RootLost` makes such a call and loses the root directory.
* A write or a growing directory that runs out of space leaves bits set: one for each block that it took before
  (`Ext4Leaks.LeakedCount`, with the last free block of a volume lost in `Ext4Leaks.LastBlockLost`). Over whole runs
  `Ext4Leaks.RunLost` counts them.
* `create_dir` takes an inode number before it takes a block. It leaves the number taken if and only if the name is
  accepted, a number is free and no block is (`Ext4Names.CreateDir`); `Ext4Witness.NumberLost` is such a call, and
  `Ext4Calls.RunNumbers` counts them over whole runs.
* The use queue of the ext4 cache is in the order of use since its last rebuild, and before that in the order of the
  block numbers; every call keeps that until the stamp wraps. The victim is a least recently used block if and only if
  no resident block has a smaller stamp than the least-numbered one of those not used since the rebuild
  (`Ext4BlockCache.VictimInOrder`). `Ext4CacheRuns.LastUsedGoes` is a run that evicts the block used last.
  `get_block_cache` panics exactly when the cache is full and no record is current and free; with no handles held that
  cannot be (`Ext4BlockCache.NoPanic`), but it can be beside a resident block that is free
  (`Ext4CacheRuns.PanicsBesideFreeBlock`).
* `gen_bitlen` promises optimal lengths. While frequencies fit 16 bits they are optimal among all prefix codes if and
  only if no node of the tree lies deeper than the maximum (`HuffmanBuild.BuildTree`), as with few symbols
  (`HuffmanOptimal.DepthNeeds`). When some node does, no code within the maximum is optimal
  (`HuffmanHeights.OptimalIsShallow`); lengths are cut and shifted, and stay complete and in order of frequency.
  `HuffmanWitness.Limited` is a call for which that happens.
* easy-fs does not compare an allocated block with the end of the data area. First fit stays inside exactly while the
  area is not full (`EfsBitmap.FirstFitStaysBelow`).
* Writing nothing to an easy-fs file at the end of its last full block looks up a block that does not exist
  (`EfsFs.AddressedMeansCovered`).
* A name of 28 bytes fits an easy-fs entry but has no end there (`EfsDirEntry.FullNameHasNoEnd`).

## Model

| member | source | states |
|---|---|---|
| EfsRuns.RunRefines | easy-fs/src/vfs.rs:79-189 | in every run of create, write, clear and read the bytes of all files are what the same operations give on plain byte sequences (zero-extend and overwrite, empty), the state stays sound, and the number of set bits of the data bitmap is the sum of `total_blocks(size)` over all inodes |
| EfsRuns.StepRefines | easy-fs/src/vfs.rs:96-189 | each single operation of a run is one step of the byte-sequence model and keeps the state sound |
| EfsRuns.RunNamed | easy-fs/src/vfs.rs:96-142 | in every run that writes to the root through `create` only, its names stay unique and name different live inodes |
| EfsRuns.ApplyNamed | easy-fs/src/vfs.rs:96-142 | `create` adds exactly one name, at the end of the listing, if and only if the name is new; other operations leave the listing alone |
| EfsRuns.FileCreatedRefines | easy-fs/src/vfs.rs:109-130 | creating a file appends one empty file and one encoded entry to the directory, and changes no other file |
| EfsState.Conserved | easy-fs/src/vfs.rs:79-94 | in a sound state the set bits are the disjoint union of the blocks of the inodes, so their number is the sum of `total_blocks` |
| EfsState.WriteRefines | easy-fs/src/vfs.rs:168-176 | a write, growing or not, turns the bytes of its file into the old bytes overwritten, with zeros in a gap, and leaves every other file as it was |
| EfsState.GrewSound | easy-fs/src/vfs.rs:79-94 | growth with fresh blocks adds zeros to one file only, because free blocks and the tails of last blocks are zero, and keeps all ownership facts |
| EfsState.WroteSound | easy-fs/src/layout.rs:353-389 | bytes written inside a file splice the buffer into it; index blocks, other files and free blocks are untouched |
| EfsState.ClearedSound | easy-fs/src/vfs.rs:178-189 | clearing empties one file, lowers the number of set bits by exactly `total_blocks` of its size, leaves its blocks zero and every other file alone |
| EfsState.AddedSound | easy-fs/src/vfs.rs:109-116 | a new inode is an empty file and changes nothing else |
| EfsFs.EasyFileSystem.WriteAt | easy-fs/src/vfs.rs:168-176 | growth to the end of the write and then the bytes, all of them; needs only room in the data area and a first byte in a block of the grown file |
| EfsFs.AddressedMeansCovered | easy-fs/src/layout.rs:353-389 | the loop of `write_at` looks up an existing block first if and only if the buffer is not empty, or the offset is inside a block or inside the file: writing nothing at the end of a last full block misses |
| EfsFs.EasyFileSystem.ReadAt | easy-fs/src/vfs.rs:161-164 | the number of bytes read and the bytes themselves are the requested slice of the file, cut at its size; the rest of the buffer is kept |
| EfsFs.EasyFileSystem.Clear | easy-fs/src/vfs.rs:178-189 | `clear_size` returns as many blocks as `total_blocks` says, every one of them has its bit set when it is given back, and afterwards file, bitmap and blocks are those of a cleared file |
| EfsFs.EasyFileSystem.IncreaseSize | easy-fs/src/vfs.rs:79-94 | either nothing happens, for a smaller size, or the inode grows by blocks that were free and distinct |
| EfsFs.EasyFileSystem.AllocBlocks | easy-fs/src/vfs.rs:88-92 | as many distinct blocks as asked for, all free before, all in use afterwards |
| EfsFs.EasyFileSystem.AllocData | easy-fs/src/efs.rs:140-142 | a block inside the data area whose bit was clear; only that bit changes |
| EfsFs.EasyFileSystem.DeallocData | easy-fs/src/efs.rs:146-158 | the block is zero and its bit, which must be set, is cleared |
| EfsFs.EasyFileSystem.Create | easy-fs/src/efs.rs:24-87 | a new volume is sound, has one inode, an empty directory, and no block in use |
| EfsFs.EasyFileSystem.FindInodeId | easy-fs/src/vfs.rs:47-62 | the number in the first entry of that name, or nothing if and only if no entry has it |
| EfsFs.EasyFileSystem.CreateFile | easy-fs/src/vfs.rs:96-142 | nothing changes if the name is there; otherwise the number of the new inode is returned and the file has been created |
| EfsFs.EasyFileSystem.Ls | easy-fs/src/vfs.rs:144-159 | the names of the directory in order |
| EfsFs.EasyFileSystem.AddInode | easy-fs/src/efs.rs:135-137 | first fit on the inode bitmap yields the number of inodes so far, and one empty file joins |
| EfsFs.AreasFit | easy-fs/src/efs.rs:29-53 | super block, inode bitmap, inodes, data bitmap and data follow each other and fill the volume; as many inode blocks as 128 bytes for each bit of the inode bitmap take, and not one more; each data block has a bit, and one bitmap block fewer would not do |
| EfsFs.InodesApart | easy-fs/src/efs.rs:119-127 | the record of inode i is the 128 bytes at 128 i of the inode area; records lie inside it and do not overlap |
| EfsDirEntry.EntryRoundTrip | easy-fs/src/layout.rs:409-433 | an entry made from a name of at most 27 bytes without a zero is read back as that name and number |
| EfsDirEntry.EntryBytes | easy-fs/src/layout.rs:409-433 | the 32 bytes of an entry: the name, zeros up to byte 28, the number with its low byte first |
| EfsDirEntry.EntryInBytes | easy-fs/src/layout.rs:409-433 | entry k of a directory has as name the bytes from 32 k up to the first zero, and as number bytes 28 to 31 |
| EfsDirEntry.FullNameHasNoEnd | easy-fs/src/layout.rs:409-430 | the end of a stored name is found if and only if the name has at most 27 bytes: with 28 the field holds no zero |
| EfsDirEntry.Appended | easy-fs/src/vfs.rs:117-130 | one entry written at the end of a directory adds exactly that name and number to its listing |
| EfsInode.DiskInode.IncreaseSize | easy-fs/src/layout.rs:165-236 | fed exactly `blocks_num_needed` blocks, growth uses each once: the owned list is the old one followed by the new ones, and only index blocks of this inode were written |
| EfsBytes.GrowthKeepsIds | easy-fs/src/layout.rs:140-236 | after growth across any of the level boundaries, `get_block_id` is as before on old indices and gives the new blocks in their order on new ones |
| EfsInode.DiskInode.ClearSize | easy-fs/src/layout.rs:240-310 | returns the list of owned blocks, each once and in the order in which growth filled them, and leaves size 0 |
| EfsInode.DiskInode.GetBlockId | easy-fs/src/layout.rs:140-163 | the block recorded for a data block |
| EfsInode.DiskInode.WriteAt | easy-fs/src/layout.rs:353-389 | each covered byte holds the byte of the buffer if it lies in the written range and is unchanged otherwise; ownership is unchanged, and only data blocks of the file were written |
| EfsInode.DiskInode.ReadAt | easy-fs/src/layout.rs:312-349 | the slice of the bytes of the file, cut at its size |
| EfsLayout.TotalCounts | easy-fs/src/layout.rs:118-133 | `total_blocks` counts exactly the data and index blocks that exist: a slot exists if and only if its place in filling order is below it |
| EfsLayout.EntryFilled | easy-fs/src/layout.rs:193-234 | writing the next block number into its index block fills exactly the next slot and disturbs none of those filled before, as long as no block is given twice |
| EfsLayout.EntryWritten | easy-fs/src/layout.rs:140-163 | one entry of an index block written as four little-endian bytes is read back, and the other entries are as before |
| EfsLayout.IdsInBytes | easy-fs/src/layout.rs:140-163 | where the number of data block k is, byte by byte: in the inode below 28, in block indirect1 below 156, else in the block whose number block indirect2 has |
| EfsBytes.FilledUntouched | easy-fs/src/layout.rs:140-163 | writes that spare the index blocks leave every block lookup as it was |
| EfsBitmap.Bitmap.Alloc | easy-fs/src/bitmap.rs:29-55 | returns the least clear bit and sets that bit only, or nothing if and only if all are set |
| EfsBitmap.Bitmap.Dealloc | easy-fs/src/bitmap.rs:57-65 | clears that bit only |
| EfsBitmap.FirstFitStaysBelow | easy-fs/src/bitmap.rs:29-55 | when only numbers below n are taken, first fit stays below n if and only if fewer than n are taken; with the data area full it leaves the area, which `alloc_data` does not check |
| EfsBitmap.AddedBit | easy-fs/src/bitmap.rs:44 | setting a clear bit changes that bit only |
| EfsBitmap.RemovedBit | easy-fs/src/bitmap.rs:63 | the subtraction that clears a set bit never underflows and changes that bit only |
| EfsBitmap.OnesInside | easy-fs/src/bitmap.rs:36-41 | `trailing_ones` finds a bit of the word if and only if the word is not all ones |
| EfsBitmap.PlaceOfBit | easy-fs/src/bitmap.rs:20-27 | number n stands for the binary digit n mod 64 of word n / 64 mod 64 of block n / 4096 |
| EfsBlockCache.GotSame | easy-fs/src/block_cache.rs:141-171 | a hit, a miss with room and a miss with an eviction show every reader the same bytes of every block, and keep at most sixteen entries with one for each block |
| EfsBlockCache.BlockCacheManager.GetBlockCache | easy-fs/src/block_cache.rs:141-171 | panics if and only if the block is not resident and all sixteen entries are held; otherwise the new queue is the old one with one more handle, or without the first unheld entry, if it was full, and with the block at the end |
| EfsBlockCache.HeldAll | easy-fs/src/block_cache.rs:151-163 | the panic is reached exactly when as many entries are held as there are |
| EfsBlockCache.DroppedSame | easy-fs/src/block_cache.rs:113-126 | dropping an entry, with its write-back, changes nothing that a reader sees |
| EfsBlockCache.BlockCacheManager.Modify | easy-fs/src/block_cache.rs:94-111 | a modified block shows the new bytes, no other block changes |
| EfsBlockCache.BlockCacheManager.SyncAll | easy-fs/src/block_cache.rs:189-194 | the device holds what every reader sees, and readers see no change |
| Ext4Runs.RunRefines | ext4-fs/src/vfs.rs:1501-1604 | in every run of creating, writing, clearing and reclaiming files, errors included, all files hold what the same operations give on byte sequences, and the state stays sound |
| Ext4Runs.RunAccounted | ext4-fs/src/vfs.rs:1410-1604 | in runs without errors the used blocks are exactly the fixed ones and those owned by files |
| Ext4Leaks.RunLost | ext4-fs/src/vfs.rs:1410-1604 | after any run, failures included, the used blocks are those of files, the fixed ones and those that failures left set, and no block is two of these; the failures have lost at most the blocks that their ranges lacked, and exactly these if the disk was never full |
| Ext4Leaks.LeakedCount | ext4-fs/src/vfs.rs:1410-1498 | a failed growth leaves set one new bit for each block that the range lacked, or fewer, and then the disk is full |
| Ext4Leaks.LastBlockLost | ext4-fs/src/vfs.rs:1410-1452 | on a volume with one free block an empty file that asks for two gets none, and the block is in use without an owner |
| Ext4Runs.RunApart | ext4-fs/src/vfs.rs:1410-1604 | no block is owned by two inodes at any point of any run |
| Ext4Runs.CreateInode | ext4-fs/src/vfs.rs:1746-1796 | the inode number was free and is the only one that becomes taken, the inode is an empty file with an empty leaf in the on-disk format, and no cached list of a former owner survives; nothing changes if and only if every number is taken |
| Ext4Runs.ReclaimInode | ext4-fs/src/vfs.rs:2146-2168 | exactly the blocks of that inode are free again, and the taken inode numbers are the old ones without its own |
| Ext4ReadWrite.WriteAt | ext4-fs/src/vfs.rs:1501-1559 | on success all bytes are written: the file's bytes become the old ones overwritten, with zeros in holes and gaps, no other file changes, and new blocks were free; on an error no file shows a different byte |
| Ext4ReadWrite.ReadAt | ext4-fs/src/vfs.rs:570-623 | the requested slice cut at the size of the file, holes as zeros |
| Ext4ReadWrite.ReadFromExtents | ext4-fs/src/vfs.rs:729-799 | the slice across extents, holes and block boundaries |
| Ext4ReadWrite.FreeAllBlocks | ext4-fs/src/vfs.rs:1586-1604 | exactly the data and tree blocks of the inode are freed |
| Ext4ReadWrite.Clear | ext4-fs/src/vfs.rs:1562-1584 | the file is empty, its root is an empty leaf in the on-disk format, exactly its blocks are free, no other file changes |
| Ext4Files.EnsureWriteBlocks | ext4-fs/src/vfs.rs:1410-1452 | every block of the range is mapped afterwards, to a zeroed block where it was not; no byte of any file changes; the cached list is the one on disk |
| Ext4Files.EnsureBlocks | ext4-fs/src/vfs.rs:1454-1498 | the file has the asked-for number of blocks, the new ones at the end, and shows the same bytes |
| Ext4Files.PersistExtents | ext4-fs/src/vfs.rs:1441-1451 | the grown list becomes the list on disk and in the cache, or nothing in use has changed |
| Ext4Files.ExtentsCachePut | ext4-fs/src/vfs.rs:72-85 | the cache holds the list for this inode, and all the others unless there were 256; it keeps agreeing with the disk |
| Ext4Files.CachedExtents | ext4-fs/src/vfs.rs:1411-1415 | the cached list or the parsed one: in either case the list on disk |
| Ext4FileSteps.RegrownSound | ext4-fs/src/vfs.rs:1410-1498 | rewriting the tree of a grown file keeps all ownership facts, changes no byte of any file, and moves exactly its own blocks in the bitmap |
| Ext4FileSteps.WroteSound | ext4-fs/src/vfs.rs:1520-1559 | bytes put into mapped blocks overwrite one file and no other |
| Ext4Extents.InsertBlockMapping | ext4-fs/src/vfs.rs:1337-1408 | a mapped block leaves the list unchanged; otherwise the mapping changes at exactly this block; order, disjointness, length bounds and maximal coalescing are kept |
| Ext4Extents.PushBlock | ext4-fs/src/vfs.rs:1315-1335 | the block behind all mapped ones is mapped, nothing else changes, the list stays well formed |
| Ext4Extents.FindPosition | ext4-fs/src/vfs.rs:1338-1349 | the place of a block in the sorted list, and whether it is mapped |
| Ext4Extents.MappedEnd | ext4-fs/src/vfs.rs:1460-1464 | one past the last mapped block |
| Ext4Volume.Volume.WriteExtentsToInode | ext4-fs/src/vfs.rs:1175-1276 | succeeds if and only if the list has at most 4·340·340 extents and the tree blocks fit; then the list parses back, whoever reads the bytes by the on-disk format gets it from a root over fresh blocks, found by block number and each met once, and the bitmap has changed by the old tree blocks and the new ones exactly; on failure bitmap, inodes and blocks in use are as before |
| Ext4OnDisk.StoredTwo | ext4-fs/src/vfs.rs:1175-1276 | read by the bytes of the on-disk format, magic number, counts, depths, entries, the two-level tree that is written gives the list, up to 4·340·340 extents, with every index entry under the first block below it |
| Ext4OnDisk.StoredOne | ext4-fs/src/vfs.rs:1175-1250 | the same for a root over leaves |
| Ext4OnDisk.FormatParsed | ext4-fs/src/vfs.rs:626-726 | any tree that the on-disk format describes, of at most five levels and with no node twice, parses to the same list, and the walk that frees it meets its nodes |
| Ext4OnDisk.HeaderByFormat | ext4-fs/src/layout.rs:359-374 | a node is valid if and only if its first bytes are 0x0A and 0xF3; entries, room and depth are in bytes 2, 4 and 6 |
| Ext4OnDisk.EntryByFormat | ext4-fs/src/layout.rs:376-414 | what an entry of a leaf or of an index node says, byte by byte |
| Ext4Volume.Volume.WriteExtentLeafBlock | ext4-fs/src/vfs.rs:1033-1056 | the block holds the encoded leaf node, no other block changes |
| Ext4Volume.Volume.WriteExtentIndexBlock | ext4-fs/src/vfs.rs:1058-1083 | the block holds the encoded index node, no other block changes |
| Ext4Volume.Volume.AllocExtentMetadataBlocks | ext4-fs/src/vfs.rs:1117-1127 | all the blocks asked for, distinct and free before, or none and the bitmap as before |
| Ext4Volume.Volume.DeallocExtentMetadataBlocks | ext4-fs/src/vfs.rs:1129-1133 | exactly these blocks are free |
| Ext4TreeLayout.DepthZero | ext4-fs/src/vfs.rs:626-662 | a list of up to four extents in the inode parses back, with no tree block |
| Ext4TreeLayout.DepthOne | ext4-fs/src/vfs.rs:626-726 | a root over leaf blocks parses back to the list, and the collected blocks are the leaves |
| Ext4TreeLayout.DepthTwo | ext4-fs/src/vfs.rs:626-726 | a root over index blocks over leaf blocks parses back to the list, for up to 4·340·340 extents, and the collected blocks are both levels |
| Ext4Tree.SameVisits | ext4-fs/src/vfs.rs:955-1031 | the walk that frees a tree visits exactly the blocks that the parser reads |
| Ext4Tree.TreeKept | ext4-fs/src/vfs.rs:664-726 | a tree whose own blocks keep their bytes keeps its extents and its blocks |
| Ext4Layout.LeafNodeRoundTrip | ext4-fs/src/layout.rs:359-414 | header and extents of a leaf node are read back from its bytes |
| Ext4Layout.IndexNodeRoundTrip | ext4-fs/src/layout.rs:359-391 | header and index entries are read back from their bytes |
| Ext4Alloc.Ext4FileSystem.AllocBlock | ext4-fs/src/ext4.rs:267-317 | the next fit from any cursor: a block of the disk whose bit was clear, all those that the search meets before it being used, with only its bit changed; or nothing if and only if every bit of every group is set |
| Ext4Alloc.CursorFirst | ext4-fs/src/ext4.rs:267-317 | if the number at the cursor is free, the next fit is that number |
| Ext4Alloc.Ext4FileSystem.DeallocBlock | ext4-fs/src/ext4.rs:320-341 | clears the bit of that block only; numbers outside the groups are ignored |
| Ext4Alloc.Ext4FileSystem.AllocInode | ext4-fs/src/ext4.rs:203-243 | the next fit: a free inode number, all those that the search meets before it being used, with only its bit changed; or nothing if and only if all are used |
| Ext4Alloc.Ext4FileSystem.DeallocInode | ext4-fs/src/ext4.rs:246-264 | clears the bit of that number only |
| Ext4Alloc.GivenBack | ext4-fs/src/ext4.rs:267-341 | allocating a number and giving it back restores every bit of every group |
| Ext4Alloc.UsedChanges | ext4-fs/src/ext4.rs:151-160 | setting or clearing one bit adds or removes one number |
| Ext4Bitmap.FindAndAllocBitFrom | ext4-fs/src/ext4.rs:174-200 | the first clear bit from the cursor on, around the end, is set; nothing if and only if all are set |
| Ext4Bitmap.SetBitmapBit | ext4-fs/src/ext4.rs:151-160 | one bit of the byte array changes |
| Ext4Bitmap.LowestFirst | ext4-fs/src/ext4.rs:151-160 | bit 8 i + k of a bitmap block is the bit of byte i with mask 2^k |
| Ext4InodeTable.InodesApart | ext4-fs/src/ext4.rs:112-144 | records of different inodes do not overlap, so that writing one leaves the others alone |
| Ext4InodeTable.InodeInside | ext4-fs/src/ext4.rs:112-126 | a record lies in one block of the table of its group |
| Ext4InodeTable.InodeAddress | ext4-fs/src/ext4.rs:112-126 | numbers start at 1: the table of group g holds the records of the next `s_inodes_per_group` numbers one after the other |
| Ext4BlockCache.BlockCacheManager.GetBlockCache | ext4-fs/src/block_cache.rs:292-306 | a handle to the block; no contents change, hit or miss, whatever is evicted; it fails if and only if the block is absent, the cache is full, and no queue record is that of an unheld block's last use; without handles it never fails, in any run, also after handles were held across earlier calls; the queue stays in the order of `VictimInOrder` |
| Ext4BlockCache.BlockCacheManager.GetBlockCacheZeroed | ext4-fs/src/block_cache.rs:309-333 | as before for a resident block; an absent one reads as zeros; no other block changes; fails exactly in the same case |
| Ext4BlockCache.BlockCacheManager.EvictOne | ext4-fs/src/block_cache.rs:223-239 | drops the first block in the queue that may go, and its bytes reach the device if modified; fails if and only if there is none |
| Ext4BlockCache.BlockCacheManager.EnsureCapacity | ext4-fs/src/block_cache.rs:241-245 | succeeds if and only if there is room or a victim; then there is room for one more block, and held blocks are never dropped |
| Ext4BlockCache.BlockCacheManager.MarkUsed | ext4-fs/src/block_cache.rs:214-221 | the newest record of the block is at the end of a queue of at most 8 times 512 records |
| Ext4BlockCache.BlockCacheManager.CompactQueue | ext4-fs/src/block_cache.rs:196-207 | one current record for each entry |
| Ext4BlockCache.BlockCacheManager.EditBlock | ext4-fs/src/block_cache.rs:111-125 | between edits the cache is a plain disk: the block changes as written, nothing else does, and the promises about queue and handles hold again |
| Ext4BlockCache.BlockCacheManager.SyncAll | ext4-fs/src/block_cache.rs:361-366 | the device holds what every reader sees, and contents are unchanged |
| Ext4BlockCache.VictimExists | ext4-fs/src/block_cache.rs:223-239 | with no handles held and a record of every entry, a resident block yields a victim |
| Ext4BlockCache.VictimInOrder | ext4-fs/src/block_cache.rs:196-245 | whatever was rebuilt and used before: the victim is the least-numbered block of those not used since the last rebuild, or a least recently used one if all were; so it is a least recently used one if and only if no resident block has a smaller stamp than the least-numbered unused one |
| Ext4BlockCache.RebuiltVictim | ext4-fs/src/block_cache.rs:196-239 | right after a rebuild the victim is the resident block of least number; it is a least recently used one if and only if no resident block has a smaller stamp |
| Ext4CacheRuns.LastUsedGoes | ext4-fs/src/block_cache.rs:196-245 | a real run, call by call: a full cache, block 1 used until the queue is rebuilt, and the next miss drops block 1, which was used last |
| Ext4BlockCache.NoPanic | ext4-fs/src/block_cache.rs:223-245 | the record of the last call is always current, so that with no handles held there is room or a victim |
| Ext4CacheRuns.PanicsBesideFreeBlock | ext4-fs/src/block_cache.rs:223-245 | a real panic, call by call: with a full cache all of whose other blocks are held, looking up a new block panics although a resident block is free, as its record was thrown away when a held one was passed over |
| Ext4BlockCache.StillRecorded | ext4-fs/src/block_cache.rs:223-239 | eviction keeps a current record for each block that stays |
| Ext4BlockCache.BufferFresh | ext4-fs/src/block_cache.rs:247-290 | with a read-ahead of one block, the bytes read before an eviction are still those of the block |
| Ext4Directory.DirAddNew | ext4-fs/src/vfs.rs:1646-1743 | the directory's entries gain exactly the new one, by reuse, by splitting or in a new block, and every block stays tiled; or nothing has changed, if the name has at most 255 bytes; a longer name always fails, and leaves behind what `LongFailed` says for the place that the search finds |
| Ext4Directory.ReuseRecord | ext4-fs/src/vfs.rs:1686-1696 | a dead record becomes the new entry and the other entries are as before; a name of more than 255 bytes is refused with nothing written |
| Ext4Directory.SplitRecord | ext4-fs/src/vfs.rs:1698-1719 | the room a record does not need becomes the new entry, and the other entries are as before; a name of more than 255 bytes is refused with the record cut short |
| Ext4Directory.AppendRecord | ext4-fs/src/vfs.rs:1728-1742 | a new block at the end holds the new entry alone, and the other bytes are as before; a failure for a short name leaves set at most the one block that the end lacked; a name of more than 255 bytes is refused, and then a block is mapped just past the end, or nothing has changed because one was there already or none was left |
| Ext4Directory.DirWriteEntryAt | ext4-fs/src/vfs.rs:1606-1644 | the record's bytes are header, name and zeros; refused for long names with nothing written |
| Ext4Directory.DirRemoveEntry | ext4-fs/src/vfs.rs:2033-2085 | exactly the entry of that name is gone and its inode number returned; NotFound if and only if there is none |
| Ext4Directory.FindRoom | ext4-fs/src/vfs.rs:1678-1725 | the first record with room, in the order of the chain: no record before it has any; none if and only if no record has room |
| Ext4Directory.FirstRoom | ext4-fs/src/vfs.rs:1671-1726 | over all blocks the search stops at a record with room such that no record of an earlier block, or before it in its own, has any; or no record has |
| Ext4DirBlock.Reused | ext4-fs/src/vfs.rs:1686-1696 | after reuse the block is still tiled, and its entries are the old ones with the new one inserted |
| Ext4DirBlock.SplitUp | ext4-fs/src/vfs.rs:1698-1719 | after a split the block is still tiled, and its entries are the old ones with the new one inserted |
| Ext4DirBlock.InodeCleared | ext4-fs/src/vfs.rs:2061-2074 | clearing the inode number takes exactly that entry away and keeps the tiling |
| Ext4DirBlock.EntryAdded | ext4-fs/src/vfs.rs:1646-1743 | as a map of names, exactly one entry is added |
| Ext4DirBlock.EntryRemoved | ext4-fs/src/vfs.rs:2033-2085 | as a map of names, exactly one entry is removed |
| Ext4DirBlock.EncodeTiled | ext4-fs/src/vfs.rs:492-505 | blocks that are covered by their records and lists of records are two views of the same bytes |
| Ext4ContentOnDisk.TiledByFormat | ext4-fs/src/layout.rs:416-442 | bytes are covered by records exactly if the on-disk format of directories makes sense of them |
| Ext4ContentOnDisk.DirByFormat | ext4-fs/src/vfs.rs:162-206 | a reader by that format finds in a directory exactly the names, numbers and types of its index |
| Ext4ContentOnDisk.ContentByFormat | ext4-fs/src/vfs.rs:729-799 | a reader by the format finds in a file exactly the bytes that the source reads |
| Ext4Names.BuildDirIndex | ext4-fs/src/vfs.rs:162-206 | the index is the map of names on disk |
| Ext4Names.DirIndex | ext4-fs/src/vfs.rs:208-222 | cached or built: the index on disk; the other cached indices are as before, or gone if there were 64 |
| Ext4Names.Find | ext4-fs/src/vfs.rs:377-400 | the inode number that the directory on disk gives the name |
| Ext4Names.DirAddEntry | ext4-fs/src/vfs.rs:1646-1743 | disk and cached index gain the same entry, and all files stay sound; names of at most 255 bytes change nothing on failure, longer ones always fail as in `DirAddNew` |
| Ext4Names.CreateFile | ext4-fs/src/vfs.rs:1746-1796 | a new empty file with one link under a name that was free, and one more inode number taken; or the tree of names and the taken numbers as they were; files, directories, indices and link counts stay right |
| Ext4Names.LinkInode | ext4-fs/src/vfs.rs:1919-1948 | one more name and one more link for a file, or no change; the invariants hold |
| Ext4Names.MakeDir | ext4-fs/src/vfs.rs:1971-2005 | by the on-disk format the new inode has one extent over its block, and the block two records: "." in 12 bytes and ".." in the rest, both directories |
| Ext4Names.CreateDir | ext4-fs/src/vfs.rs:1951-2031 | a directory of two names, one more link for its parent and one more inode number taken, or the tree as it was; then one number stays taken if the name was accepted, a number was free and no block was, and none otherwise; the invariants hold |
| Ext4Names.Unlink | ext4-fs/src/vfs.rs:2088-2176 | the name is gone; a file goes exactly with its last name and frees exactly its blocks and its number, a directory only when empty; the invariants hold |
| Ext4Names.Rename | ext4-fs/src/vfs.rs:2179-2215 | the entry moves to the other name and gets the type of its inode, 1 for a file and 2 for a directory; on failure names, bytes and invariants are as before, if the new name has at most 255 bytes; a longer one that nothing else speaks against always fails, and then they are as before if and only if the directory is spared or no block was left for the entry; no inode number is taken or freed |
| Ext4Witness.NumberLost | ext4-fs/src/vfs.rs:1967-1969 | a call of `create_dir` on a concrete volume without a free block: it fails and leaves one inode number taken that is no inode's |
| Ext4LongNames.RefusedUnwritten | ext4-fs/src/vfs.rs:1646-1743 | nothing was written if and only if no block could hold such a name, or the first record with room is dead, or no record has room and a block is mapped past the end already |
| Ext4LongNames.RefusedWhole | ext4-fs/src/vfs.rs:1646-1743 | after a refused name of more than 255 bytes the directory is one still, and has the same names, if and only if it is spared: unless the first record with room is live and the bytes behind its name do not read as the records that follow it |
| Ext4LongNames.CutShortTiled | ext4-fs/src/vfs.rs:1698-1719 | what the refused split leaves is tiled if and only if the bytes behind the name are, and which entries it then has |
| Ext4LongNames.MeetsAgain | ext4-fs/src/vfs.rs:1698-1719 | if the chain from the cut on meets the old one again, the cut is harmless if and only if it finds the same entries on the way |
| Ext4LongNames.StaleRecords | ext4-fs/src/vfs.rs:1698-1719 | if the bytes cut off are a chain of records themselves, the cut is harmless if and only if none of these is live |
| Ext4LongNames.FreshRoom | ext4-fs/src/vfs.rs:1698-1719 | room that was never used is zero, and there the chain breaks off |
| Ext4LongRename.LosesDirectory | ext4-fs/src/vfs.rs:2179-2215 | if the room found lies behind a live record and was never used, the call fails with NameTooLong and leaves a directory whose blocks are no chains of records |
| Ext4LongRename.OneFileVolumeOk | ext4-fs/src/vfs.rs:2179-2215 | a concrete volume in order, with one file in its root, on which that happens for every new name of 256 to 4000 bytes |
| Ext4Witness.RootLost | ext4-fs/src/vfs.rs:2179-2215 | a call of `rename` on that volume, built block by block: it answers NameTooLong, and the root is no directory any more |
| Ext4Namespace.RunSane | ext4-fs/src/vfs.rs:1746-2215 | in every run of create, link, mkdir, unlink, rmdir and rename a file's count is the number of entries naming it, a directory's is 2 plus its subdirectories, every live directory is reached from the root, and every entry has the type of what it names |
| Ext4Namespace.CreateKeeps | ext4-fs/src/vfs.rs:1746-1796 | `create_file` keeps kinds, counts and names right |
| Ext4Namespace.LinkKeeps | ext4-fs/src/vfs.rs:1919-1948 | `link_inode` keeps them right |
| Ext4Namespace.CreateDirKeeps | ext4-fs/src/vfs.rs:1951-2031 | `create_dir` keeps them right |
| Ext4Namespace.RenameKeeps | ext4-fs/src/vfs.rs:2179-2215 | `rename` keeps them right, for files and directories |
| Ext4Namespace.UnlinkFileKeeps | ext4-fs/src/vfs.rs:2138-2169 | `unlink` of a file keeps them right; the inode goes exactly when no entry names it |
| Ext4Namespace.UnlinkDirKeeps | ext4-fs/src/vfs.rs:2103-2137 | `unlink` of an empty directory keeps them right |
| Ext4Kept.RunBalanced | ext4-fs/src/vfs.rs:1501-2215 | however successful operations on names and on files follow each other, the blocks in use are those that inodes own and those in use without an owner at the start |
| Ext4Mixed.WriteKeepsNames | ext4-fs/src/vfs.rs:1501-1559 | a write keeps directories, cached indices and names, and changes the bytes of its file alone |
| Ext4Mixed.ClearKeepsNames | ext4-fs/src/vfs.rs:1562-1584 | emptying a file keeps directories, cached indices and names, and the bytes of all others |
| Ext4Calls.FollowsOk | ext4-fs/src/vfs.rs:1501-2215 | over every sequence of such changes, link counts stay those of the names, exactly the regular files have bytes, every directory stays reachable from the root, and entries keep the types of what they name |
| Ext4Calls.RunFollows | ext4-fs/src/vfs.rs:1501-2215 | what users see in a run, names, bytes and answers, follows call by call from the calls on plain values |
| Ext4Calls.PerformAll | ext4-fs/src/vfs.rs:1501-2215 | in any sequence of calls on names and on bytes everything is in order between two calls; each call changes names and bytes as the operation on plain values, or fails and changes neither, only if an error is due or disk or numbers are full; a read answers with the slice it was asked for |
| Ext4Calls.Perform | ext4-fs/src/vfs.rs:1501-2215 | any one of these calls keeps both caches, directories, files and link counts in order, and changes names and bytes as the operation on plain values; it fails with the error that is due and then changes nothing; if none is due it fails only for lack of blocks or numbers; a read returns the bytes of the file |
| Ext4Calls.RunBlocks | ext4-fs/src/vfs.rs:1410-2215 | the blocks in use without an owner are those at the start, and at most as many more as the failed calls lacked; exactly those at the start if none failed |
| Ext4Calls.RunNumbers | ext4-fs/src/vfs.rs:1746-2215 | the inode numbers taken without an inode are those at the start, and exactly one more for each call of `create_dir` that found a number and no block |
| HuffmanBuild.BuildTree | testsuits-for-oskernel/busybox/archival/gzip.c:1310-1392 | for any frequencies: at least two codes, no length above the maximum, the Kraft sum exactly 1; `opt_len` raised by length times frequency over all symbols and `extra_bits[x - extra_base]` for each occurrence of a symbol x from `extra_base` on, `static_len` by the static lengths of the symbols that really occur and the same extra bits; stored codes that are those of RFC 1951 for these lengths, digits reversed; while frequencies fit 16 bits, no symbol has a longer code than a rarer one, and the lengths are the best of all prefix codes if and only if no node of the tree lies deeper than the maximum, as with fewer than Fib(max_length + 3) occurrences |
| HuffmanBitLengths.Coder.GenBitlen | testsuits-for-oskernel/busybox/archival/gzip.c:1150-1242 | lengths of at most `max_length`, `bl_count` exactly their histogram, the Kraft sum exactly 1; `opt_len` raised by length times frequency and the extra bits of each occurrence, `static_len` by the static lengths and the same extra bits; for a tree of least frequent pairs, rarer symbols have codes that are no shorter, and the lengths are optimal if no node lies too deep |
| HuffmanBitLengths.Coder.ShortenOverflow | testsuits-for-oskernel/busybox/archival/gzip.c:1208-1220 | each round takes one unit off the Kraft excess, a length to grow is always found, and the loop ends with no excess |
| HuffmanBitLengths.GrowableLength | testsuits-for-oskernel/busybox/archival/gzip.c:1209-1212 | while there is an excess, some code shorter than the maximum exists |
| HuffmanBitLengths.Coder.Reassign | testsuits-for-oskernel/busybox/archival/gzip.c:1222-1240 | the leaves get lengths with exactly the counted histogram; if the list is in order of frequency, no symbol gets a longer code than a rarer one |
| HuffmanLengths.PassDone | testsuits-for-oskernel/busybox/archival/gzip.c:1170-1201 | after the first pass the Kraft excess is half the overflow |
| HuffmanLengths.FollowingIsRarerLonger | testsuits-for-oskernel/busybox/archival/gzip.c:1170-1201 | in a tree made by joining least frequent pairs, depths, cut at the maximum or not, never fall from a symbol to a rarer one |
| HuffmanOptimal.DepthsOptimal | testsuits-for-oskernel/busybox/archival/gzip.c:1150-1158 | depths in a tree made by joining least frequent pairs are optimal code lengths: no lengths that fit the Kraft inequality give a shorter message |
| HuffmanHeights.OptimalIsShallow | testsuits-for-oskernel/busybox/archival/gzip.c:1119-1123 | lengths within a limit are optimal only if no node of the tree lies deeper: ties broken by depth make the tree the least high of all optimal ones |
| HuffmanHeights.NoHigher | testsuits-for-oskernel/busybox/archival/gzip.c:1119-1123 | lengths that cost no more than the tree reach at least as deep as it is high |
| HuffmanHeights.NoWrap | testsuits-for-oskernel/busybox/archival/gzip.c:1366-1371 | while frequencies fit 16 bits a node of height h stands for at least Fib(h + 2) occurrences, so that heights fit their byte |
| HuffmanWitness.NotOptimal | testsuits-for-oskernel/busybox/archival/gzip.c:1208-1240 | for nineteen counts, Fibonacci numbers, no code of at most 7 bits is optimal |
| HuffmanWitness.Limited | testsuits-for-oskernel/busybox/archival/gzip.c:1310-1392 | a call of `build_tree` for the code-length tree on these counts: its lengths are complete and within 7 bits, and not optimal |
| HuffmanOptimal.AtLeast | testsuits-for-oskernel/busybox/archival/gzip.c:1150-1158 | whatever lengths fit the Kraft inequality cost at least the frequencies of all inner nodes |
| HuffmanOptimal.DepthNeeds | testsuits-for-oskernel/busybox/archival/gzip.c:1361-1381 | a node at depth d needs as many occurrences as the (d + 2)nd Fibonacci number |
| HuffmanTree.Merge | testsuits-for-oskernel/busybox/archival/gzip.c:1361-1381 | one round joins the two least frequent waiting nodes, the lower first among equals, and keeps the order of the merged list and the heights |
| HuffmanTree.PqRemove | testsuits-for-oskernel/busybox/archival/gzip.c:1303-1308 | the root leaves the heap, the rest is a heap of the same other nodes |
| HuffmanHeap.PqDownHeap | testsuits-for-oskernel/busybox/archival/gzip.c:1119-1147 | the heap property holds from the start slot on, and slots are permuted only from there |
| HuffmanHeap.SiftRestoresHeap | testsuits-for-oskernel/busybox/archival/gzip.c:1125-1147 | sifting restores the heap property when only the starting slot may break it |
| HuffmanHeap.SiftPermutes | testsuits-for-oskernel/busybox/archival/gzip.c:1125-1147 | sifting permutes the slots and touches no other |
| HuffmanHeap.RootIsSmallest | testsuits-for-oskernel/busybox/archival/gzip.c:1119-1147 | the root of a heap is the smallest of its nodes |
| HuffmanCodes.GenCodes | testsuits-for-oskernel/busybox/archival/gzip.c:1252-1286 | every coded symbol gets its canonical code, stored with its binary digits in reverse order |
| HuffmanStandard.CodeIs | testsuits-for-oskernel/busybox/archival/gzip.c:1252-1286 | the recurrence of `gen_codes` gives the codes of section 3.2.2 of RFC 1951: shorter ones first, then in the order of the symbols |
| HuffmanStandard.SymbolReceived | testsuits-for-oskernel/busybox/archival/gzip.c:1252-1286 | a receiver that reads codes from their high bit finds the symbol whose stored code was sent from its low bit, whatever follows |
| HuffmanCodes.PrefixFree | testsuits-for-oskernel/busybox/archival/gzip.c:1252-1286 | no canonical code is the beginning of another |
| HuffmanCodes.CodeFits | testsuits-for-oskernel/busybox/archival/gzip.c:1263-1279 | each canonical code fits its length |
| HuffmanCodes.BiReverse | testsuits-for-oskernel/busybox/archival/gzip.c:579-589 | digit k of the result is digit `len` - 1 - k of the code |
| Sums.KraftByCounts | testsuits-for-oskernel/busybox/archival/gzip.c:1263-1270 | summing by symbol or by length gives the same Kraft sum |
| CodeTransmission.ScanTree | testsuits-for-oskernel/busybox/archival/gzip.c:1400-1446 | each symbol's frequency grows by exactly how often `send_tree` will use it |
| CodeTransmission.SendTree | testsuits-for-oskernel/busybox/archival/gzip.c:1452-1503 | the bits sent are the coded tokens of the tree's lengths |
| CodeRuns.TreeTokensMeaning | testsuits-for-oskernel/busybox/archival/gzip.c:1452-1503 | the tokens are legal and expand, by section 3.2.7 of RFC 1951, to exactly the lengths of the tree |
| CodeRuns.RunsAreCoded | testsuits-for-oskernel/busybox/archival/gzip.c:1452-1503 | which tokens these are: for a run of zeros 138 at a time and the rest as one token; for a run of another length the length, copies six at a time, and the rest; shorter rests in full |
| CodeDecoding.TreeReceived | testsuits-for-oskernel/busybox/archival/gzip.c:1452-1503 | a receiver by RFC 1951 that knows the lengths of the code-length code reads the lengths back from the bits, whatever follows |
| DynamicTrees.TreesReceived | testsuits-for-oskernel/busybox/archival/gzip.c:1560-1564 | both trees are read back by RFC 1951 one after the other, stopping exactly at their end |
| DynamicTrees.BuildBlTree | testsuits-for-oskernel/busybox/archival/gzip.c:1509-1536 | the code-length tree has a code for every token of both trees, the one that RFC 1951 gives its lengths; the lengths behind `max_blindex` in `bl_order` are zero, that at it is not, and at least four are sent; `opt_len` grows by exactly the bits of header and trees |
| DynamicTrees.SendTrees | testsuits-for-oskernel/busybox/archival/gzip.c:1560-1564 | the bits of both trees follow each other |
| DynamicLength.CostExact | testsuits-for-oskernel/busybox/archival/gzip.c:1509-1532 | what `build_tree` adds to `opt_len` for the tallied tokens, forced symbols included, is what the tokens take on the wire |
| DynamicHeader.SendDynamicTrees | testsuits-for-oskernel/busybox/archival/gzip.c:1695-1748 | from the lengths of two trees to the bits of a block: `opt_len` grows by exactly the bits that are then sent, and a receiver that is written from RFC 1951 alone gets both trees back, whatever follows |
| DynamicHeader.SendAllTrees | testsuits-for-oskernel/busybox/archival/gzip.c:1543-1565 | the three counts, the lengths of the code-length code and both trees follow each other |
| DynamicHeader.FieldPlaces | testsuits-for-oskernel/busybox/archival/gzip.c:1554-1556 | behind fourteen bits of counts, three bits each: the lengths of 16, 17, 18, 0, 8, 7, 9, 6 and so on, outwards from the middle |
| DynamicHeader.HeaderReceived | testsuits-for-oskernel/busybox/archival/gzip.c:1543-1565 | a receiver written from RFC 1951 alone, with its own order of the lengths, codes, repetitions and order of bits, gets both trees back and stops exactly behind them |
| BitOutput.BitWriter.SendBits | testsuits-for-oskernel/busybox/archival/gzip.c:539-572 | the bits of the value, lowest first, follow those sent before |
| BitOutput.BitInByte | testsuits-for-oskernel/busybox/archival/gzip.c:539-572 | bit 8 i + k of the stream is binary digit k of byte i |

## Left out

For all parts:

- Device traits, host files, packers, Python tools, user runtime, kernel, and the rest of busybox: plumbing.
- Locks and threads: one thread and one device are assumed. Reference counts are modelled as counts of handles.
- Pointer casts and struct layouts: inodes are typed records in a map or a list, extent nodes, index blocks, directory
  blocks and directory entries are bytes.

easy-fs:

- EfsFs.EasyFileSystem.WriteAt: asks for room in the data area, sizes up to what the indirect2 level can record, and a first byte in a block of the file, because the source panics or reads past the device otherwise.
- EfsFs.EasyFileSystem.CreateFile: asks for a free inode number, room for the entry, and a name of at most 27 bytes without a zero, because the source panics otherwise, at once or when the name is read.
- EfsRuns.RunNamed: asks that the root is not written to as a file; the source lets any inode be written.
- Wrap-around of 32-bit sizes: sizes stay below the limit of the index, far below 2^32.
- The words of a bitmap are numbers: setting and clearing bits by `|` and `-` are sums and differences.
- `EasyFileSystem::open`, the bytes of the super block and `root_inode`: they copy fields.
- The inode records are objects of the model and not bytes of the inode area; `EfsFs.InodesApart` shows that their places do not overlap.
- The file system sees the disk as the block cache shows it; that the cache shows a plain disk is proved in `EfsBlockCache`.
- UTF-8: names are byte sequences.

ext4-fs:

- Ext4ReadWrite.WriteAt: asks that offset and length stay within 32-bit block numbers (`WriteFits`), because the casts of the source cut larger ones; on an error blocks taken half way stay marked as used without an owner, as in the source.
- Ext4Runs.RunAccounted: for runs without errors only, since an operation that runs out of space half way leaves bits set; `Ext4Leaks.RunLost` has all runs, with the number of blocks that failures lose.
- Ext4Calls.PerformAll: calls that the source leaves to the care of its callers are left out of a run: dead handles, sizes and link counts at the limit of their fields, and `rename` to a name of more than 255 bytes.
- Names that are not UTF-8, which `build_dir_index` skips: names are byte sequences, and all are indexed.
- Ext4Names.CreateFile: link counts below the 16-bit limit are assumed where a count is raised, here and in `LinkInode` and `CreateDir`.
- Ext4BlockCache.BlockCacheManager.GetBlockCache: for a read-ahead of one block, the value on every architecture but LoongArch; with two, a block read before an eviction may be stale.
- Ext4Names.Unlink: removes the inode with the last name; that open files defer this is a matter of the kernel.
- Symbolic links, devices, fifos, sockets, mode repair, permissions, owners and time stamps: special inodes keep other data in the root of the tree.
- Inodes without extents (`read_indirect`, `get_block_num`), and the read-only helper `bitmap.rs`.
- `try_open` and the reading of super block and group descriptors; `read_dir_entries`, `ls`, `find_path`, `read_all`: they only read.
- The number of 512-byte sectors in an inode (`i_blocks_lo`) is kept by the model and nothing is proved about it.
- Inode tables and bitmap blocks are held apart from data blocks: their blocks are among the fixed ones of `Ext4Runs.RunAccounted`.
- A file system edits blocks of a plain disk; that the cache is one between edits is `Ext4BlockCache.BlockCacheManager.EditBlock`.
- The order in which a rebuild of the use queue meets the entries of a map: taken as the order of keys.
- A block outside the device reads as zeros; at most 2^48 blocks; block 0 is never free.

gzip:

- File reading, the sliding-window matcher, `ct_tally`, `compress_block`, `flush_block`, options and the CRC.
- DynamicTrees.BuildBlTree: asks that the last literal code has a length, as it has after `build_tree`.
- How far lengths that had to be cut are from the best ones under the limit: the source's way to shorten them is a heuristic; the model proves that they are complete, in order of frequency, accounted for, and never optimal among all prefix codes.
- HuffmanBitLengths.Coder.GenBitlen: `opt_len` and `static_len` are unbounded numbers, without the wrap-around of 32 bits; frequencies are taken modulo 2^16 and depths modulo 2^8 as in the source.
- The output buffer and its flushing: bits sent are a sequence. The variants for small or unaligned machines are left out.
