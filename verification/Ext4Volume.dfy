/** The state behind the inodes of ext4-fs/src/vfs.rs, and the block-level steps of
    `write_extents_to_inode`: allocating, freeing and writing the node blocks of an extent tree. */
module Ext4Volume {
  import opened Common
  import opened Ext4Types
  import opened Ext4Extents
  import opened Ext4Layout
  import opened Ext4Tree
  import opened Ext4TreeLayout
  import Ext4Alloc
  import Ext4OnDisk

  datatype Kind = Regular | Directory

  /** The fields of `Ext4Inode` that the modelled operations use. */
  datatype Inode = Inode(kind: Kind, size: nat, links: nat, blocks: nat, iBlock: seq<byte>)

  /** A node of which the first n entries have been written. */
  function PartNode(max: nat, depth: nat, entries: seq<seq<byte>>, n: nat): (node: seq<byte>)
    requires n <= |entries| <= EXTENTS_PER_NODE
    requires forall i :: 0 <= i < |entries| ==> |entries[i]| == 12
    ensures |node| == BLOCK_SZ
  {
    EncodeHeader(Header(MAGIC, |entries|, max, depth, 0)) + Packed(entries[..n]) + Zeros(BLOCK_SZ - 12 - 12 * n)
  }

  lemma PartNodeStart(max: nat, depth: nat, entries: seq<seq<byte>>)
    requires |entries| <= EXTENTS_PER_NODE && forall i :: 0 <= i < |entries| ==> |entries[i]| == 12
    ensures Splice(Zeros(BLOCK_SZ), 0, EncodeHeader(Header(MAGIC, |entries|, max, depth, 0))) == PartNode(max, depth, entries, 0)
  {
    hide EncodeHeader;
  }

  lemma PartNodeNext(max: nat, depth: nat, entries: seq<seq<byte>>, n: nat)
    requires n < |entries| <= EXTENTS_PER_NODE && forall i :: 0 <= i < |entries| ==> |entries[i]| == 12
    ensures Splice(PartNode(max, depth, entries, n), 12 + 12 * n, entries[n]) == PartNode(max, depth, entries, n + 1)
  {
    hide EncodeHeader;
    assert entries[..n + 1][..n] == entries[..n];
  }

  lemma PartNodeDone(max: nat, depth: nat, entries: seq<seq<byte>>)
    requires |entries| <= EXTENTS_PER_NODE && forall i :: 0 <= i < |entries| ==> |entries[i]| == 12
    ensures PartNode(max, depth, entries, |entries|) == Node(BLOCK_SZ, max, depth, entries)
  {
    assert entries[..|entries|] == entries;
  }

  lemma SubsetSize<T>(a: set<T>, b: set<T>)
    requires a <= b
    ensures |a| <= |b|
  {
    assert b == a + (b - a);
  }

  /** Numbers of node blocks that a list of n extents takes. */
  function TreeNodes(n: nat): nat {
    if n <= EXTENTS_IN_INODE then 0
    else if NodesFor(n) <= EXTENTS_IN_INODE then NodesFor(n)
    else NodesFor(n) + NodesFor(NodesFor(n))
  }

  /** Lists that the tree has room for: up to 4 * 340 * 340 extents. */
  predicate Supported(n: nat): (fits: bool)
    ensures fits <==> n <= 462400
  {
    NodesFor(NodesFor(n)) <= EXTENTS_IN_INODE
  }

  class Volume {
    const fs: Ext4Alloc.Ext4FileSystem
    /** The numbers of the blocks whose bits are set. */
    ghost var used: set<nat>
    var disk: Disk
    var inodes: map<nat, Inode>
    var extentsCache: map<nat, seq<Extent>>

    /** A volume over opened bitmaps, with nothing cached. */
    constructor (fs: Ext4Alloc.Ext4FileSystem, disk: Disk, inodes: map<nat, Inode>)
      requires fs.Valid() && fs.totalBlocks <= U48
      requires Ext4Alloc.Fits(fs.Blocks(), Ext4Alloc.AllBits(fs.blockBitmaps))
      requires fs.firstDataBlock > 0 || 0 in Ext4Alloc.Used(fs.Blocks(), Ext4Alloc.AllBits(fs.blockBitmaps))
      ensures Valid() && this.fs == fs && this.disk == disk && this.inodes == inodes && extentsCache == map[]
    {
      this.fs := fs;
      this.used := Ext4Alloc.Used(fs.Blocks(), Ext4Alloc.AllBits(fs.blockBitmaps));
      this.disk := disk;
      this.inodes := inodes;
      this.extentsCache := map[];
    }

    /** All block numbers that the bitmaps can hand out. */
    ghost function AllBlocks(): set<nat> {
      AllNumbers(fs.Blocks())
    }

    ghost predicate Valid()
      reads this`used, fs.blockBitmaps
    {
      && fs.Valid() && fs.totalBlocks <= U48
      && Ext4Alloc.Fits(fs.Blocks(), Ext4Alloc.AllBits(fs.blockBitmaps))
      && used == Ext4Alloc.Used(fs.Blocks(), Ext4Alloc.AllBits(fs.blockBitmaps))
      && (fs.firstDataBlock > 0 || 0 in used)
    }

    lemma UsedInRange()
      requires Valid()
      ensures used <= AllBlocks() && |used| <= |AllBlocks()|
    {
      SubsetSize(used, AllBlocks());
    }

    /** A block that was free is used now; or there was none. */
    method AllocBlock() returns (block: Option<nat>)
      requires Valid()
      modifies fs, fs.blockBitmaps, this`used
      ensures Valid()
      ensures block.None? ==> used == old(used) && |used| == |AllBlocks()|
      ensures block.Some? ==> 0 < block.value < U48 && block.value !in old(used) && used == old(used) + {block.value}
      ensures block.Some? ==> |used| == |old(used)| + 1 <= |AllBlocks()|
    {
      hide *;
      ghost var before := Ext4Alloc.AllBits(fs.blockBitmaps);
      Opened();
      block := fs.AllocBlock();
      AllocatedInSets(fs.Blocks(), before, Ext4Alloc.AllBits(fs.blockBitmaps), block);
      used := Ext4Alloc.Used(fs.Blocks(), Ext4Alloc.AllBits(fs.blockBitmaps));
      Closed();
    }

    /** What `Valid` says, and back. */
    lemma Opened()
      requires Valid()
      ensures fs.Valid() && fs.Blocks().total <= U48 && (fs.Blocks().first > 0 || 0 in used)
      ensures Ext4Alloc.Fits(fs.Blocks(), Ext4Alloc.AllBits(fs.blockBitmaps))
      ensures used == Ext4Alloc.Used(fs.Blocks(), Ext4Alloc.AllBits(fs.blockBitmaps))
      ensures AllBlocks() == AllNumbers(fs.Blocks())
    {
    }

    lemma Closed()
      requires fs.Valid() && fs.Blocks().total <= U48 && (fs.Blocks().first > 0 || 0 in used)
      requires Ext4Alloc.Fits(fs.Blocks(), Ext4Alloc.AllBits(fs.blockBitmaps))
      requires used == Ext4Alloc.Used(fs.Blocks(), Ext4Alloc.AllBits(fs.blockBitmaps))
      ensures Valid()
    {
    }

    /** The block is free afterwards, if it was not. */
    method FreeBlock(block: nat)
      requires Valid() && block != 0
      modifies fs.blockBitmaps, this`used
      ensures Valid() && used == old(used) - {block}
    {
      hide *;
      ghost var before := Ext4Alloc.AllBits(fs.blockBitmaps);
      Opened();
      fs.DeallocBlock(block);
      DeallocatedInSets(fs.Blocks(), before, Ext4Alloc.AllBits(fs.blockBitmaps), block);
      used := used - {block};
      Closed();
    }

    /** `alloc_extent_metadata_blocks`: all of them, or none. */
    method AllocExtentMetadataBlocks(count: nat) returns (r: Result<seq<nat>>)
      requires Valid()
      modifies fs, fs.blockBitmaps, this`used
      ensures Valid()
      ensures r.Ok? <==> |old(used)| + count <= |AllBlocks()|
      ensures r.Ok? ==> |r.value| == count && Fetched(old(used), used, r.value)
      ensures r.Err? ==> used == old(used) && r.error == NoSpace
    {
      hide *;
      var blocks: seq<nat> := [];
      FetchedNone(used);
      UsedInRangeNow();
      for i := 0 to count
        invariant Valid() && |blocks| == i && Fetched(old(used), used, blocks) && |used| <= |AllBlocks()|
      {
        FetchedSets(old(used), used, blocks);
        var block := AllocBlock();
        if block.None? {
          DeallocExtentMetadataBlocks(blocks);
          return Err(NoSpace);
        }
        FetchedNext(old(used), blocks, block.value);
        blocks := blocks + [block.value];
      }
      FetchedSets(old(used), used, blocks);
      return Ok(blocks);
    }

    lemma UsedInRangeNow()
      requires Valid()
      ensures |used| <= |AllBlocks()|
    {
      UsedInRange();
    }

    /** `dealloc_extent_metadata_blocks`. */
    method DeallocExtentMetadataBlocks(blocks: seq<nat>)
      requires Valid() && 0 !in blocks
      modifies fs.blockBitmaps, this`used
      ensures Valid() && used == old(used) - BlockSet(blocks)
    {
      hide Volume.Valid;
      for i := 0 to |blocks|
        invariant Valid() && used == old(used) - BlockSet(blocks[..i])
      {
        assert blocks[..i + 1] == blocks[..i] + [blocks[i]];
        FreeBlock(blocks[i]);
      }
      assert blocks[..|blocks|] == blocks;
    }

    /** The bytes of a block, or some of them, are overwritten. */
    method WriteBytes(pblock: nat, off: nat, bytes: seq<byte>)
      requires off + |bytes| <= BLOCK_SZ
      modifies this`disk
      ensures disk == old(disk)[pblock := Splice(Block(old(disk), pblock), off, bytes)]
    {
      disk := disk[pblock := Splice(Block(disk, pblock), off, bytes)];
    }

    /** Header and entries over a block of zeros: the common part of `write_extent_leaf_block` and
        `write_extent_index_block`. */
    method WriteNode(pblock: nat, depth: nat, entries: seq<seq<byte>>)
      requires |entries| <= EXTENTS_PER_NODE && forall i :: 0 <= i < |entries| ==> |entries[i]| == 12
      modifies this`disk
      ensures disk == old(disk)[pblock := Node(BLOCK_SZ, EXTENTS_PER_NODE, depth, entries)]
    {
      hide Node, PartNode, Splice, EncodeHeader, Packed, Zeros;
      disk := disk[pblock := Zeros(BLOCK_SZ)];
      WriteBytes(pblock, 0, EncodeHeader(Header(MAGIC, |entries|, EXTENTS_PER_NODE, depth, 0)));
      PartNodeStart(EXTENTS_PER_NODE, depth, entries);
      for i := 0 to |entries|
        invariant disk == old(disk)[pblock := PartNode(EXTENTS_PER_NODE, depth, entries, i)]
      {
        PartNodeNext(EXTENTS_PER_NODE, depth, entries, i);
        WriteBytes(pblock, 12 + 12 * i, entries[i]);
      }
      PartNodeDone(EXTENTS_PER_NODE, depth, entries);
    }

    /** `write_extent_leaf_block`. */
    method WriteExtentLeafBlock(pblock: nat, extents: seq<Extent>)
      requires |extents| <= EXTENTS_PER_NODE
      modifies this`disk
      ensures disk == old(disk)[pblock := LeafNode(BLOCK_SZ, EXTENTS_PER_NODE, extents)]
    {
      WriteNode(pblock, 0, ExtentEntries(extents));
    }

    /** `write_extent_index_block`. */
    method WriteExtentIndexBlock(pblock: nat, idxs: seq<Idx>, depth: nat)
      requires |idxs| <= EXTENTS_PER_NODE
      modifies this`disk
      ensures disk == old(disk)[pblock := IndexNode(BLOCK_SZ, EXTENTS_PER_NODE, depth, idxs)]
    {
      WriteNode(pblock, depth, IdxEntries(idxs));
    }

    /** The leaf blocks are filled with the list. */
    method WriteLeaves(leafBlocks: seq<nat>, extents: seq<Extent>)
      requires NodeBlocks(leafBlocks) && |leafBlocks| == NodesFor(|extents|) && AllStorable(extents)
      modifies this`disk
      ensures LeavesHold(disk, leafBlocks, extents)
      ensures SameOutside(old(disk), disk, BlockSet(leafBlocks))
    {
      hide *;
      NoLeavesHeld(disk, leafBlocks, extents);
      for i := 0 to |leafBlocks|
        invariant LeavesHeld(disk, leafBlocks, extents, i)
        invariant SameOutside(old(disk), disk, BlockSet(leafBlocks))
      {
        ghost var before := disk;
        LeafPlace(|extents|, |leafBlocks|, i);
        Sizes();
        var start := i * EXTENTS_PER_NODE;
        var end := if |extents| < start + EXTENTS_PER_NODE then |extents| else start + EXTENTS_PER_NODE;
        WriteExtentLeafBlock(leafBlocks[i], extents[start..end]);
        LeavesHeldNext(old(disk), before, leafBlocks, extents, i);
      }
      AllLeavesHeld(disk, leafBlocks, extents);
    }

    /** The index blocks are filled with entries for the leaf blocks. */
    method WriteIndexes(indexBlocks: seq<nat>, leafBlocks: seq<nat>, extents: seq<Extent>)
      requires LeavesHold(disk, leafBlocks, extents)
      requires NodeBlocks(indexBlocks) && |indexBlocks| == NodesFor(|leafBlocks|)
      requires BlockSet(indexBlocks) !! BlockSet(leafBlocks)
      modifies this`disk
      ensures LeavesHold(disk, leafBlocks, extents) && IndexesHold(disk, indexBlocks, leafBlocks, extents)
      ensures SameOutside(old(disk), disk, BlockSet(indexBlocks))
    {
      hide *;
      NoIndexesHeld(disk, indexBlocks, leafBlocks, extents);
      for i := 0 to |indexBlocks|
        invariant IndexesHeld(disk, indexBlocks, leafBlocks, extents, i)
        invariant SameOutside(old(disk), disk, BlockSet(indexBlocks))
      {
        ghost var before := disk;
        LeafPlace(|leafBlocks|, |indexBlocks|, i);
        Sizes();
        var leafStart := i * EXTENTS_PER_NODE;
        var leafEnd := if |leafBlocks| < leafStart + EXTENTS_PER_NODE then |leafBlocks| else leafStart + EXTENTS_PER_NODE;
        var entries := IndexEntries(leafBlocks, extents, leafStart, leafEnd);
        WriteExtentIndexBlock(indexBlocks[i], entries, 1);
        IndexesHeldNext(old(disk), before, indexBlocks, leafBlocks, extents, i);
      }
      AllIndexesHeld(old(disk), disk, indexBlocks, leafBlocks, extents);
    }

    /** The entries of one index block. */
    method IndexEntries(leafBlocks: seq<nat>, extents: seq<Extent>, leafStart: nat, leafEnd: nat) returns (entries: seq<Idx>)
      requires leafStart <= leafEnd <= |leafBlocks|
      ensures entries == IdxsTo(leafBlocks[leafStart..leafEnd], extents, EXTENTS_PER_NODE, 340 * leafStart)
    {
      entries := [];
      for leafIdx := leafStart to leafEnd
        invariant |entries| == leafIdx - leafStart
        invariant forall i :: 0 <= i < |entries| ==>
                    entries[i] == IdxTo(FirstBlock(extents, 340 * leafStart + i * EXTENTS_PER_NODE), leafBlocks[leafStart + i])
      {
        var extentIdx := leafIdx * EXTENTS_PER_NODE;
        var eiBlock := FirstBlock(extents, extentIdx);
        var leaf := leafBlocks[leafIdx];
        entries := entries + [Idx(eiBlock, leaf % U32, leaf / U32 % U16, 0)];
      }
    }

    /** The old tree's node blocks are given back. */
    method FreeOldTree(ghost before: Disk, ghost iBlock: seq<byte>, oldLeaves: seq<nat>, oldIndexes: seq<nat>)
      requires Valid() && |iBlock| == I_BLOCK_SZ
      requires oldLeaves == Collect(before, iBlock).leaves && oldIndexes == Collect(before, iBlock).indexes
      modifies fs.blockBitmaps, this`used
      ensures Valid() && used == old(used) - TreeBlocks(before, iBlock)
    {
      hide *;
      CollectedNotNull(before, iBlock);
      DeallocExtentMetadataBlocks(oldLeaves);
      DeallocExtentMetadataBlocks(oldIndexes);
      TreeIsBoth(before, iBlock);
    }

    /** The end of `write_extents_to_inode` for trees of depth 2, when the leaf blocks are written. */
    method AddIndexLevel(inodeNum: nat, iBlock: seq<byte>, extents: seq<Extent>, leafBlocks: seq<nat>, oldTree: Walk,
                         ghost diskBefore: Disk, ghost usedBefore: set<nat>) returns (r: Result<seq<byte>>)
      requires Valid() && |iBlock| == I_BLOCK_SZ && EXTENTS_IN_INODE < |extents| && EXTENTS_IN_INODE < NodesFor(|extents|)
      requires Supported(|extents|) && TreeBlocks(diskBefore, iBlock) <= usedBefore && oldTree == Collect(diskBefore, iBlock)
      requires Fetched(usedBefore, used, leafBlocks) && LeavesHold(disk, leafBlocks, extents)
      requires SameOutside(diskBefore, disk, BlockSet(leafBlocks))
      modifies fs, fs.blockBitmaps, this`used, this`disk, this`extentsCache
      ensures Valid()
      ensures r.Ok? <==> |usedBefore| + TreeNodes(|extents|) <= |AllBlocks()|
      ensures r.Ok? ==> Rewritten(diskBefore, disk, usedBefore, used, iBlock, r.value, extents) && Ext4OnDisk.Stored(disk, r.value, extents)
      ensures r.Ok? ==> extentsCache == old(extentsCache) - {inodeNum}
      ensures r.Err? ==> used == usedBefore && (forall b :: b in used ==> Block(disk, b) == Block(diskBefore, b))
      ensures r.Err? ==> extentsCache == old(extentsCache) && r.error == NoSpace
    {
      hide *;
      Sizes();
      NodeCounts(|extents|);
      FetchedSets(usedBefore, used, leafBlocks);
      LeafCount(disk, leafBlocks, extents);
      var needIndex := NodesFor(|leafBlocks|);
      var indexes := AllocExtentMetadataBlocks(needIndex);
      if indexes.Err? {
        DeallocExtentMetadataBlocks(leafBlocks);
        NothingUsedChanged(diskBefore, disk, usedBefore, leafBlocks);
        return Err(indexes.error);
      }
      var indexBlocks := indexes.value;
      FetchedApart(usedBefore, used, leafBlocks, indexBlocks);
      ghost var middle := disk;
      WriteIndexes(indexBlocks, leafBlocks, extents);
      FreeOldTree(diskBefore, iBlock, oldTree.leaves, oldTree.indexes);
      RewrittenTwo(diskBefore, middle, disk, usedBefore, iBlock, leafBlocks, indexBlocks, extents);
      extentsCache := extentsCache - {inodeNum};
      return Ok(Root(indexBlocks, extents, 2, EXTENTS_PER_NODE * EXTENTS_PER_NODE));
    }

    /** `write_extents_to_inode`: the list is stored below a new root, in the inode or in fresh node blocks,
        and the old node blocks are freed; or nothing that is in use has changed. The result is the new
        `i_block`. */
    method WriteExtentsToInode(inodeNum: nat, iBlock: seq<byte>, extents: seq<Extent>) returns (r: Result<seq<byte>>)
      requires Valid() && |iBlock| == I_BLOCK_SZ && AllStorable(extents)
      requires TreeBlocks(disk, iBlock) <= used
      modifies fs, fs.blockBitmaps, this`used, this`disk, this`extentsCache
      ensures Valid()
      ensures r.Ok? <==> Supported(|extents|) && |old(used)| + TreeNodes(|extents|) <= |AllBlocks()|
      ensures r.Ok? ==> Rewritten(old(disk), disk, old(used), used, iBlock, r.value, extents) && Ext4OnDisk.Stored(disk, r.value, extents)
      ensures r.Ok? ==> extentsCache == old(extentsCache) - {inodeNum}
      ensures r.Err? ==> used == old(used) && (forall b :: b in used ==> Block(disk, b) == Block(old(disk), b))
      ensures r.Err? ==> extentsCache == old(extentsCache)
      ensures r.Err? ==> r.error == if Supported(|extents|) then NoSpace else Unsupported
    {
      hide *;
      Sizes();
      UsedInRangeNow();
      NodeCounts(|extents|);
      var oldTree := Collect(disk, iBlock);
      if |extents| <= EXTENTS_IN_INODE {
        RootFits(|extents|);
        FreeOldTree(disk, iBlock, oldTree.leaves, oldTree.indexes);
        RewrittenZero(disk, old(used), iBlock, extents);
        extentsCache := extentsCache - {inodeNum};
        return Ok(LeafNode(I_BLOCK_SZ, EXTENTS_IN_INODE, extents));
      }
      var needLeaf := NodesFor(|extents|);
      if needLeaf > EXTENTS_IN_INODE {
        var needIndex := NodesFor(needLeaf);
        if needIndex > EXTENTS_IN_INODE {
          return Err(Unsupported);
        }
      }
      var leaves := AllocExtentMetadataBlocks(needLeaf);
      if leaves.Err? {
        return Err(leaves.error);
      }
      var leafBlocks := leaves.value;
      FetchedSets(old(used), used, leafBlocks);
      WriteLeaves(leafBlocks, extents);
      if needLeaf <= EXTENTS_IN_INODE {
        FreeOldTree(old(disk), iBlock, oldTree.leaves, oldTree.indexes);
        RewrittenOne(old(disk), disk, old(used), iBlock, leafBlocks, extents);
        extentsCache := extentsCache - {inodeNum};
        return Ok(Root(leafBlocks, extents, 1, EXTENTS_PER_NODE));
      }
      r := AddIndexLevel(inodeNum, iBlock, extents, leafBlocks, oldTree, old(disk), old(used));
    }
  }

  ghost function BlockSet(blocks: seq<nat>): set<nat> {
    set b | b in blocks
  }

  /** `blocks` have been taken from the free ones, each once. */
  ghost predicate Fetched(before: set<nat>, after: set<nat>, blocks: seq<nat>) {
    && NodeBlocks(blocks) && BlockSet(blocks) !! before && after == before + BlockSet(blocks)
    && |BlockSet(blocks)| == |blocks|
  }

  lemma FetchedNone(used: set<nat>)
    ensures Fetched(used, used, [])
  {
  }

  lemma FetchedNext(before: set<nat>, blocks: seq<nat>, block: nat)
    requires Fetched(before, before + BlockSet(blocks), blocks) && block !in before + BlockSet(blocks) && 0 < block < U48
    ensures Fetched(before, before + BlockSet(blocks) + {block}, blocks + [block])
  {
    AddedBlock(blocks, block);
    hide BlockSet;
    assert before + BlockSet(blocks) + {block} == before + (BlockSet(blocks) + {block});
  }

  lemma AddedBlock(blocks: seq<nat>, block: nat)
    ensures BlockSet(blocks + [block]) == BlockSet(blocks) + {block}
    ensures block !in BlockSet(blocks) && NodeBlocks(blocks) && 0 < block < U48 ==> NodeBlocks(blocks + [block])
    ensures block !in BlockSet(blocks) ==> |BlockSet(blocks + [block])| == |BlockSet(blocks)| + 1
  {
    assert BlockSet(blocks + [block]) == BlockSet(blocks) + {block};
  }

  lemma FetchedSets(before: set<nat>, after: set<nat>, blocks: seq<nat>)
    requires Fetched(before, after, blocks)
    ensures after == before + BlockSet(blocks) && after - BlockSet(blocks) == before && 0 !in blocks
    ensures |after| == |before| + |blocks| && BlockSet(blocks) !! before && NodeBlocks(blocks)
    ensures |BlockSet(blocks)| == |blocks|
  {
  }

  lemma AllocatedInSets(geo: Ext4Alloc.Geometry, before: seq<seq<bool>>, after: seq<seq<bool>>, block: Option<nat>)
    requires Ext4Alloc.Allocated(geo, before, after, block)
    ensures Ext4Alloc.Fits(geo, before) && Ext4Alloc.Fits(geo, after)
    ensures block.None? ==> Ext4Alloc.Used(geo, after) == Ext4Alloc.Used(geo, before) == AllNumbers(geo)
    ensures block.Some? ==>
              && geo.first <= block.value < geo.total && block.value !in Ext4Alloc.Used(geo, before)
              && Ext4Alloc.Used(geo, after) == Ext4Alloc.Used(geo, before) + {block.value}
              && |Ext4Alloc.Used(geo, after)| == |Ext4Alloc.Used(geo, before)| + 1 <= |AllNumbers(geo)|
  {
    hide Ext4Alloc.IsUsed, Ext4Alloc.WithNumber;
    if block.Some? {
      Ext4Alloc.UsedChanges(geo, before, block.value);
      SubsetSize(Ext4Alloc.Used(geo, after), AllNumbers(geo));
    }
  }

  /** All numbers of the groups. */
  ghost function AllNumbers(geo: Ext4Alloc.Geometry): set<nat> {
    set n: nat | geo.first <= n < geo.total && geo.InRange(n)
  }

  lemma DeallocatedInSets(geo: Ext4Alloc.Geometry, before: seq<seq<bool>>, after: seq<seq<bool>>, block: nat)
    requires Ext4Alloc.Deallocated(geo, before, after, block)
    ensures Ext4Alloc.Fits(geo, before) && Ext4Alloc.Fits(geo, after)
    ensures Ext4Alloc.Used(geo, after) == Ext4Alloc.Used(geo, before) - {block}
  {
    if block >= geo.first && geo.GroupOf(block) < geo.groups {
      Ext4Alloc.UsedChanges(geo, before, block);
    }
  }

  // Lemmas about the steps

  lemma NodeCounts(n: nat)
    ensures Supported(n) <==> NodesFor(NodesFor(n)) <= EXTENTS_IN_INODE
    ensures NodesFor(n) <= EXTENTS_IN_INODE ==> Supported(n)
    ensures TreeNodes(n) == if n <= EXTENTS_IN_INODE then 0
                            else if NodesFor(n) <= EXTENTS_IN_INODE then NodesFor(n) else NodesFor(n) + NodesFor(NodesFor(n))
    ensures n <= EXTENTS_IN_INODE ==> NodesFor(n) <= EXTENTS_IN_INODE
  {
  }

  lemma RootFits(n: nat)
    requires n <= EXTENTS_IN_INODE
    ensures 12 + 12 * n <= I_BLOCK_SZ
  {
  }

  lemma LeafPlace(n: nat, count: nat, i: nat)
    requires count == NodesFor(n) && i < count
    ensures 340 * i < n
  {
  }

  lemma FetchedApart(before: set<nat>, after: set<nat>, leaves: seq<nat>, indexes: seq<nat>)
    requires Fetched(before, before + BlockSet(leaves), leaves) && Fetched(before + BlockSet(leaves), after, indexes)
    ensures after == before + BlockSet(leaves) + BlockSet(indexes)
    ensures NodeBlocks(indexes) && BlockSet(indexes) !! BlockSet(leaves) && BlockSet(indexes) !! before
    ensures |BlockSet(indexes)| == |indexes| && |BlockSet(leaves)| == |leaves| && BlockSet(leaves) !! before
  {
  }

  /** The two contents differ at most in these blocks. */
  ghost predicate SameOutside(before: Disk, after: Disk, blocks: set<nat>) {
    forall b :: b !in blocks ==> Block(after, b) == Block(before, b)
  }

  lemma SameOutsideStep(first: Disk, before: Disk, blocks: set<nat>, b: nat, bytes: seq<byte>)
    requires SameOutside(first, before, blocks) && b in blocks
    ensures SameOutside(first, before[b := bytes], blocks)
  {
  }

  /** The first n leaf blocks hold their parts of the list. */
  ghost predicate LeavesHeld(disk: Disk, leaves: seq<nat>, extents: seq<Extent>, n: nat) {
    && AllStorable(extents) && NodeBlocks(leaves) && |leaves| == NodesFor(|extents|) && n <= |leaves|
    && forall i :: 0 <= i < n ==> Block(disk, leaves[i]) == LeafNode(BLOCK_SZ, EXTENTS_PER_NODE, Chunk(extents, i))
  }

  lemma NoLeavesHeld(disk: Disk, leaves: seq<nat>, extents: seq<Extent>)
    requires AllStorable(extents) && NodeBlocks(leaves) && |leaves| == NodesFor(|extents|)
    ensures LeavesHeld(disk, leaves, extents, 0) && SameOutside(disk, disk, BlockSet(leaves))
  {
  }

  lemma LeavesHeldNext(first: Disk, before: Disk, leaves: seq<nat>, extents: seq<Extent>, i: nat)
    requires LeavesHeld(before, leaves, extents, i) && i < |leaves| && 340 * i < |extents|
    requires SameOutside(first, before, BlockSet(leaves))
    ensures var end := if |extents| < i * EXTENTS_PER_NODE + EXTENTS_PER_NODE then |extents| else i * EXTENTS_PER_NODE + EXTENTS_PER_NODE;
            var after := before[leaves[i] := LeafNode(BLOCK_SZ, EXTENTS_PER_NODE, extents[i * EXTENTS_PER_NODE..end])];
            LeavesHeld(after, leaves, extents, i + 1) && SameOutside(first, after, BlockSet(leaves))
  {
    hide LeafNode, AllStorable;
    var bytes := LeafNode(BLOCK_SZ, EXTENTS_PER_NODE, Chunk(extents, i));
    SameOutsideStep(first, before, BlockSet(leaves), leaves[i], bytes);
  }

  lemma AllLeavesHeld(disk: Disk, leaves: seq<nat>, extents: seq<Extent>)
    requires LeavesHeld(disk, leaves, extents, |leaves|)
    ensures LeavesHold(disk, leaves, extents)
  {
    hide LeafNode, AllStorable, NodeBlocks, Block;
  }

  /** The first n index blocks hold their entries. */
  ghost predicate IndexesHeld(disk: Disk, indexes: seq<nat>, leaves: seq<nat>, extents: seq<Extent>, n: nat) {
    && NodeBlocks(indexes) && |indexes| == NodesFor(|leaves|) && n <= |indexes|
    && LeavesHold(disk, leaves, extents) && BlockSet(indexes) !! BlockSet(leaves)
    && forall j :: 0 <= j < n ==>
         Block(disk, indexes[j])
         == IndexNode(BLOCK_SZ, EXTENTS_PER_NODE, 1, IdxsTo(Chunk(leaves, j), extents, EXTENTS_PER_NODE, 340 * 340 * j))
  }

  lemma NoIndexesHeld(disk: Disk, indexes: seq<nat>, leaves: seq<nat>, extents: seq<Extent>)
    requires LeavesHold(disk, leaves, extents)
    requires NodeBlocks(indexes) && |indexes| == NodesFor(|leaves|) && BlockSet(indexes) !! BlockSet(leaves)
    ensures IndexesHeld(disk, indexes, leaves, extents, 0) && SameOutside(disk, disk, BlockSet(indexes))
  {
    hide LeavesHold, NodeBlocks;
  }

  lemma LeavesStillHold(before: Disk, after: Disk, leaves: seq<nat>, extents: seq<Extent>, others: set<nat>)
    requires LeavesHold(before, leaves, extents) && SameOutside(before, after, others) && others !! BlockSet(leaves)
    ensures LeavesHold(after, leaves, extents)
  {
    hide LeafNode, AllStorable, Block, Chunk;
    forall i | 0 <= i < |leaves| ensures Block(after, leaves[i]) == Block(before, leaves[i]) {
      assert leaves[i] in BlockSet(leaves);
    }
  }

  lemma IndexesHeldNext(first: Disk, before: Disk, indexes: seq<nat>, leaves: seq<nat>, extents: seq<Extent>, i: nat)
    requires IndexesHeld(before, indexes, leaves, extents, i) && i < |indexes| && 340 * i < |leaves|
    requires SameOutside(first, before, BlockSet(indexes))
    ensures var end := if |leaves| < i * EXTENTS_PER_NODE + EXTENTS_PER_NODE then |leaves| else i * EXTENTS_PER_NODE + EXTENTS_PER_NODE;
            var idxs := IdxsTo(leaves[i * EXTENTS_PER_NODE..end], extents, EXTENTS_PER_NODE, 340 * (i * EXTENTS_PER_NODE));
            var after := before[indexes[i] := IndexNode(BLOCK_SZ, EXTENTS_PER_NODE, 1, idxs)];
            IndexesHeld(after, indexes, leaves, extents, i + 1) && SameOutside(first, after, BlockSet(indexes))
  {
    hide LeavesHold, IndexNode, IdxsTo;
    var idxs := IdxsTo(Chunk(leaves, i), extents, EXTENTS_PER_NODE, 340 * 340 * i);
    var bytes := IndexNode(BLOCK_SZ, EXTENTS_PER_NODE, 1, idxs);
    SameOutsideStep(first, before, BlockSet(indexes), indexes[i], bytes);
    assert SameOutside(before, before[indexes[i] := bytes], {indexes[i]});
    LeavesStillHold(before, before[indexes[i] := bytes], leaves, extents, {indexes[i]});
  }

  lemma AllIndexesHeld(before: Disk, disk: Disk, indexes: seq<nat>, leaves: seq<nat>, extents: seq<Extent>)
    requires IndexesHeld(disk, indexes, leaves, extents, |indexes|)
    ensures LeavesHold(disk, leaves, extents) && IndexesHold(disk, indexes, leaves, extents)
  {
    hide LeavesHold, IndexNode, IdxsTo, NodeBlocks, Block;
    forall b | b in indexes ensures b !in leaves {
      assert b in BlockSet(indexes);
    }
  }

  /** No node block is block 0. */
  lemma CollectedNotNull(disk: Disk, iBlock: seq<byte>)
    requires |iBlock| == I_BLOCK_SZ
    ensures 0 !in Collect(disk, iBlock).leaves && 0 !in Collect(disk, iBlock).indexes
  {
    var header := HeaderOf(iBlock);
    if header.IsValid() && 0 < header.ehDepth <= EXTENT_TREE_MAX_DEPTH {
      ChildrenNotNull(disk, iBlock, EntryCount(iBlock, EXTENTS_IN_INODE), header.ehDepth, Walk([], [], []));
    }
  }

  lemma {:induction false} ChildrenNotNull(disk: Disk, node: seq<byte>, n: nat, depth: nat, w: Walk)
    requires 12 + 12 * n <= |node| && depth > 0 && 0 !in w.leaves && 0 !in w.indexes
    ensures var r := CollectChildren(disk, node, n, depth, w); 0 !in r.leaves && 0 !in r.indexes
    decreases depth, 0, n
  {
    hide ChildAt, CollectBlock;
    if n > 0 {
      ChildrenNotNull(disk, node, n - 1, depth, w);
      BlockNotNull(disk, ChildAt(node, n - 1), depth - 1, CollectChildren(disk, node, n - 1, depth, w));
    }
  }

  lemma {:induction false} BlockNotNull(disk: Disk, pblock: nat, depth: nat, w: Walk)
    requires 0 !in w.leaves && 0 !in w.indexes
    ensures var r := CollectBlock(disk, pblock, depth, w); 0 !in r.leaves && 0 !in r.indexes
    decreases depth, 1, 0
  {
    hide HeaderOf, EntryCount, Block, CollectChildren;
    if pblock != 0 && depth > 0 && pblock !in w.visited {
      var data := Block(disk, pblock);
      ChildrenNotNull(disk, data, EntryCount(data, EXTENTS_PER_NODE), depth,
                      Walk(w.leaves, w.indexes + [pblock], w.visited + [pblock]));
    }
  }

  lemma TreeIsBoth(disk: Disk, iBlock: seq<byte>)
    requires |iBlock| == I_BLOCK_SZ
    ensures TreeBlocks(disk, iBlock) == BlockSet(Collect(disk, iBlock).leaves) + BlockSet(Collect(disk, iBlock).indexes)
    ensures forall used: set<nat> :: used - BlockSet(Collect(disk, iBlock).leaves) - BlockSet(Collect(disk, iBlock).indexes)
                                     == used - TreeBlocks(disk, iBlock)
  {
    hide Collect;
  }

  // Outcomes

  /** The new root stands for the list; its node blocks were free, hold the only bytes that changed, and have
      taken the place of the old node blocks in the bitmap. */
  ghost predicate Rewritten(before: Disk, after: Disk, usedBefore: set<nat>, usedAfter: set<nat>,
                            oldRoot: seq<byte>, newRoot: seq<byte>, extents: seq<Extent>) {
    && |oldRoot| == I_BLOCK_SZ && |newRoot| == I_BLOCK_SZ
    && Parse(after, newRoot) == extents
    && TreeBlocks(after, newRoot) !! usedBefore && |TreeBlocks(after, newRoot)| == TreeNodes(|extents|)
    && usedAfter == usedBefore - TreeBlocks(before, oldRoot) + TreeBlocks(after, newRoot)
    && SameOutside(before, after, TreeBlocks(after, newRoot))
  }

  lemma RewrittenZero(disk: Disk, used: set<nat>, oldRoot: seq<byte>, extents: seq<Extent>)
    requires |oldRoot| == I_BLOCK_SZ && |extents| <= EXTENTS_IN_INODE && AllStorable(extents)
    ensures 12 + 12 * |extents| <= I_BLOCK_SZ
    ensures Rewritten(disk, disk, used, used - TreeBlocks(disk, oldRoot), oldRoot, LeafNode(I_BLOCK_SZ, EXTENTS_IN_INODE, extents), extents)
    ensures Ext4OnDisk.Stored(disk, LeafNode(I_BLOCK_SZ, EXTENTS_IN_INODE, extents), extents)
  {
    hide Parse, Collect, LeafNode, Block;
    DepthZero(disk, extents);
    Ext4OnDisk.StoredZero(disk, extents);
  }

  lemma NoBlocks()
    ensures BlockSet([]) == {} && forall s: set<nat> :: s + {} == s
  {
  }

  lemma LeafCount(disk: Disk, leaves: seq<nat>, extents: seq<Extent>)
    requires LeavesHold(disk, leaves, extents)
    ensures |leaves| == NodesFor(|extents|)
  {
  }

  lemma IndexCount(disk: Disk, indexes: seq<nat>, leaves: seq<nat>, extents: seq<Extent>)
    requires IndexesHold(disk, indexes, leaves, extents)
    ensures |indexes| == NodesFor(|leaves|)
  {
  }

  lemma SameOutsideBoth(before: Disk, middle: Disk, after: Disk, a: set<nat>, b: set<nat>)
    requires SameOutside(before, middle, a) && SameOutside(middle, after, b)
    ensures SameOutside(before, after, a + b)
  {
  }

  lemma DisjointSizes(a: set<nat>, b: set<nat>)
    requires a !! b
    ensures |a + b| == |a| + |b|
  {
  }

  lemma RewrittenBy(before: Disk, after: Disk, used: set<nat>, oldRoot: seq<byte>, newRoot: seq<byte>,
                    extents: seq<Extent>, blocks: set<nat>)
    requires |oldRoot| == I_BLOCK_SZ && |newRoot| == I_BLOCK_SZ && TreeBlocks(before, oldRoot) <= used
    requires Parse(after, newRoot) == extents && TreeBlocks(after, newRoot) == blocks
    requires blocks !! used && |blocks| == TreeNodes(|extents|) && SameOutside(before, after, blocks)
    ensures Rewritten(before, after, used, used + blocks - TreeBlocks(before, oldRoot), oldRoot, newRoot, extents)
  {
    hide Parse, TreeBlocks, SameOutside, TreeNodes;
  }

  lemma RewrittenOne(before: Disk, after: Disk, used: set<nat>, oldRoot: seq<byte>, leaves: seq<nat>, extents: seq<Extent>)
    requires |oldRoot| == I_BLOCK_SZ && EXTENTS_IN_INODE < |extents| && |leaves| <= EXTENTS_IN_INODE
    requires TreeBlocks(before, oldRoot) <= used
    requires LeavesHold(after, leaves, extents) && SameOutside(before, after, BlockSet(leaves))
    requires BlockSet(leaves) !! used && |BlockSet(leaves)| == |leaves|
    ensures Rewritten(before, after, used, used + BlockSet(leaves) - TreeBlocks(before, oldRoot), oldRoot,
                      Root(leaves, extents, 1, EXTENTS_PER_NODE), extents)
    ensures Ext4OnDisk.Stored(after, Root(leaves, extents, 1, EXTENTS_PER_NODE), extents)
  {
    hide *;
    Sizes();
    NodeCounts(|extents|);
    var root := Root(leaves, extents, 1, EXTENTS_PER_NODE);
    LeafCount(after, leaves, extents);
    DepthOne(after, leaves, extents);
    Ext4OnDisk.StoredOne(after, leaves, extents);
    TreeIsBoth(after, root);
    NoBlocks();
    RewrittenBy(before, after, used, oldRoot, root, extents, BlockSet(leaves));
  }

  lemma RewrittenTwo(before: Disk, middle: Disk, after: Disk, used: set<nat>, oldRoot: seq<byte>,
                     leaves: seq<nat>, indexes: seq<nat>, extents: seq<Extent>)
    requires |oldRoot| == I_BLOCK_SZ && EXTENTS_IN_INODE < |extents| && |indexes| <= EXTENTS_IN_INODE < |leaves|
    requires TreeBlocks(before, oldRoot) <= used
    requires LeavesHold(after, leaves, extents) && IndexesHold(after, indexes, leaves, extents)
    requires SameOutside(before, middle, BlockSet(leaves)) && SameOutside(middle, after, BlockSet(indexes))
    requires BlockSet(leaves) !! used && |BlockSet(leaves)| == |leaves| && BlockSet(indexes) !! used
    requires |BlockSet(indexes)| == |indexes| && BlockSet(indexes) !! BlockSet(leaves)
    ensures Rewritten(before, after, used, used + BlockSet(leaves) + BlockSet(indexes) - TreeBlocks(before, oldRoot), oldRoot,
                      Root(indexes, extents, 2, EXTENTS_PER_NODE * EXTENTS_PER_NODE), extents)
    ensures Ext4OnDisk.Stored(after, Root(indexes, extents, 2, EXTENTS_PER_NODE * EXTENTS_PER_NODE), extents)
  {
    hide *;
    Sizes();
    NodeCounts(|extents|);
    var root := Root(indexes, extents, 2, EXTENTS_PER_NODE * EXTENTS_PER_NODE);
    LeafCount(after, leaves, extents);
    IndexCount(after, indexes, leaves, extents);
    DepthTwo(after, indexes, leaves, extents);
    Ext4OnDisk.StoredTwo(after, indexes, leaves, extents);
    TreeIsBoth(after, root);
    SameOutsideBoth(before, middle, after, BlockSet(leaves), BlockSet(indexes));
    DisjointSizes(BlockSet(leaves), BlockSet(indexes));
    assert used + BlockSet(leaves) + BlockSet(indexes) == used + (BlockSet(leaves) + BlockSet(indexes));
    RewrittenBy(before, after, used, oldRoot, root, extents, BlockSet(leaves) + BlockSet(indexes));
  }

  lemma NothingUsedChanged(before: Disk, after: Disk, used: set<nat>, leaves: seq<nat>)
    requires SameOutside(before, after, BlockSet(leaves)) && BlockSet(leaves) !! used
    ensures forall b :: b in used ==> Block(after, b) == Block(before, b)
  {
    hide Block;
  }
}
