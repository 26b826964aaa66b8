/** Regular files of ext4-fs/src/vfs.rs: `read_at`, `write_at`, `clear` and the block allocation below them,
    as operations on byte sequences. */
module Ext4Files {
  import opened Common
  import opened Ext4Types
  import opened Ext4Extents
  import opened Ext4Layout
  import opened Ext4Tree
  import opened Ext4TreeLayout
  import opened Ext4Volume
  import opened Ext4FileState
  import opened Ext4FileSteps

  const EXTENTS_CACHE_MAX: nat := 256
  const SECTORS_PER_BLOCK: nat := 8

  ghost function St(v: Volume): State
    reads v
  {
    State(v.disk, v.inodes, v.used, v.extentsCache)
  }

  /** The most node blocks that a tree takes, and the most extents that it holds. */
  const TREE_MAX: nat := 1364
  const EXTENTS_MAX: nat := 462400

  /** The errors for which the disk is to blame: hardly a block is free, or so many are used that the extents of
      one file may outgrow a tree. */
  ghost predicate Excused(used: set<nat>, all: set<nat>, e: Ext4Error) {
    || (e == NoSpace && |used| + TREE_MAX > |all|)
    || (e == Unsupported && |used| > EXTENTS_MAX)
  }

  lemma ExcusedFull(used: set<nat>, all: set<nat>)
    requires |used| == |all|
    ensures Excused(used, all, NoSpace)
  {
  }

  lemma TreeNodesBound(n: nat)
    requires Supported(n)
    ensures TreeNodes(n) <= TREE_MAX
  {
  }

  lemma UnsupportedMany(n: nat)
    requires !Supported(n)
    ensures n > EXTENTS_MAX
  {
  }

  /** Every extent has a block of its own. */
  lemma {:induction false} ExtentsCounted(extents: seq<Extent>, k: nat) returns (first: set<nat>)
    requires WellFormed(extents) && Injective(extents) && k <= |extents|
    ensures |first| == k && first <= Mapped(extents)
    ensures forall b :: b in first ==> exists j: nat :: FirstOf(extents, j, b) && j < k
  {
    hide Injective, MapLogicalBlock, Mapped;
    if k == 0 {
      first := {};
    } else {
      var some := ExtentsCounted(extents, k - 1);
      var b := FirstBlock(extents, k - 1);
      if b in some {
        var j: nat :| FirstOf(extents, j, b) && j < k - 1;
        FirstsDiffer(extents, j, k - 1, b);
      }
      first := some + {b};
      forall c | c in first ensures exists j: nat :: FirstOf(extents, j, c) && j < k {
        if c == b {
          assert FirstOf(extents, k - 1, c) && k - 1 < k;
        } else {
          var j: nat :| FirstOf(extents, j, c) && j < k - 1;
          assert FirstOf(extents, j, c) && j < k;
        }
      }
    }
  }

  ghost predicate FirstOf(extents: seq<Extent>, j: nat, b: nat) {
    j < |extents| && MapLogicalBlock(extents, extents[j].eeBlock) == Some(b)
  }

  lemma FirstBlock(extents: seq<Extent>, j: nat) returns (b: nat)
    requires WellFormed(extents) && j < |extents|
    ensures FirstOf(extents, j, b) && b in Mapped(extents)
  {
    hide Coalesced;
    assert extents[j].Valid();
    MapAt(extents, j, extents[j].eeBlock);
    MapBound(extents, extents[j].eeBlock);
    b := MapLogicalBlock(extents, extents[j].eeBlock).value;
  }

  lemma FirstsDiffer(extents: seq<Extent>, j: nat, k: nat, b: nat)
    requires WellFormed(extents) && Injective(extents) && j < k && FirstOf(extents, j, b)
    ensures !FirstOf(extents, k, b)
  {
    hide MapLogicalBlock, Coalesced;
    if k < |extents| {
      assert extents[j].Valid() && extents[j].eeBlock < extents[k].eeBlock;
    }
  }

  lemma ManyUsed(used: set<nat>, extents: seq<Extent>)
    requires WellFormed(extents) && Injective(extents) && Mapped(extents) <= used
    ensures |used| >= |extents|
  {
    hide WellFormed, Injective, Mapped, FirstOf;
    var first := ExtentsCounted(extents, |extents|);
    SubsetSize(first, used);
  }

  /** A list that was refused: its tree needs more blocks than are free, or it is too long for any tree. */
  lemma ExcusedTree(used: set<nat>, all: set<nat>, extents: seq<Extent>, e: Ext4Error)
    requires WellFormed(extents) && Injective(extents) && Mapped(extents) <= used
    requires !(Supported(|extents|) && |used| + TreeNodes(|extents|) <= |all|)
    requires e == if Supported(|extents|) then NoSpace else Unsupported
    ensures Excused(used, all, e)
  {
    hide WellFormed, Injective, Mapped, Supported, TreeNodes;
    ManyUsed(used, extents);
    if Supported(|extents|) {
      TreeNodesBound(|extents|);
    } else {
      UnsupportedMany(|extents|);
    }
  }

  /** Nothing that a file shows has changed, no inode is different, and no file lost a block. */
  ghost predicate Untouched(st: State, st': State) {
    && Sound(st') && st'.inodes == st.inodes && st.used <= st'.used
    && forall i :: i in st.inodes ==>
         && Content(st'.disk, st.inodes[i]) == Content(st.disk, st.inodes[i])
         && Ext(st'.disk, st.inodes[i]) == Ext(st.disk, st.inodes[i])
         && Owned(st'.disk, st.inodes[i]) == Owned(st.disk, st.inodes[i])
  }

  /** Inode i has its blocks in `extents` now; no file shows a different byte, and the bitmap has changed by
      exactly the blocks that the inode gave up and took. */
  ghost predicate Grew(st: State, st': State, i: nat, extents: seq<Extent>) {
    && Sound(st') && SameFiles(st, st') && OthersSame(st, st', i) && i in st.inodes && i in st'.inodes
    && Ext(st'.disk, st'.inodes[i]) == extents
    && Exchanged(st.used, st'.used, Owned(st.disk, st.inodes[i]), Owned(st'.disk, st'.inodes[i]))
  }

  /** The cache has no new key but i. */
  ghost predicate CacheKeys(before: map<nat, seq<Extent>>, after: map<nat, seq<Extent>>, i: nat) {
    forall k :: k in after ==> k == i || k in before
  }

  lemma CacheKeysFacts(a: map<nat, seq<Extent>>, b: map<nat, seq<Extent>>, c: map<nat, seq<Extent>>, i: nat, extents: seq<Extent>)
    ensures CacheKeys(a, a, i) && CacheKeys(a, a - {i}, i)
    ensures CacheFrom(a, b, i, extents) ==> CacheKeys(a, b, i)
    ensures CacheKeys(a, b, i) && CacheKeys(b, c, i) ==> CacheKeys(a, c, i)
  {
  }

  /** Every logical block of the range is mapped. */
  ghost predicate Covered(extents: seq<Extent>, from: nat, to: nat) {
    forall l :: from <= l < to ==> MapLogicalBlock(extents, l).Some?
  }

  lemma CoveredNext(extents: seq<Extent>, from: nat, l: nat)
    requires Covered(extents, from, l) && MapLogicalBlock(extents, l).Some?
    ensures Covered(extents, from, l + 1)
  {
    hide MapLogicalBlock;
  }

  lemma CoveredInserted(extents: seq<Extent>, after: seq<Extent>, from: nat, l: nat, p: nat)
    requires Covered(extents, from, l) && Inserted(extents, after, l, p)
    ensures Covered(after, from, l + 1)
  {
    hide MapLogicalBlock, WellFormed, Coalesced;
  }

  lemma CoveredNothing(extents: seq<Extent>, from: nat, to: nat)
    requires to <= from
    ensures Covered(extents, from, to)
  {
  }

  // The cache of extents

  /** `extents_cache_put`: a cache of 256 lists is emptied first. */
  method ExtentsCachePut(v: Volume, inodeNum: nat, extents: seq<Extent>)
    modifies v`extentsCache
    ensures inodeNum in v.extentsCache && CacheFrom(old(v.extentsCache), v.extentsCache, inodeNum, extents)
    ensures v.extentsCache == (if |old(v.extentsCache)| < 256 then old(v.extentsCache) else map[])[inodeNum := extents]
  {
    if |v.extentsCache| >= EXTENTS_CACHE_MAX {
      v.extentsCache := map[];
    }
    v.extentsCache := v.extentsCache[inodeNum := extents];
  }

  /** The cached list, or `read_extents_any`: both are the list on disk. */
  method CachedExtents(v: Volume, inodeNum: nat) returns (extents: seq<Extent>)
    requires Sound(St(v)) && inodeNum in v.inodes
    ensures extents == Ext(v.disk, v.inodes[inodeNum])
  {
    hide FileOk, FilesOk, AllApart, Ext;
    if inodeNum in v.extentsCache {
      extents := v.extentsCache[inodeNum];
    } else {
      extents := Ext(v.disk, v.inodes[inodeNum]);
    }
  }

  lemma PutSound(st: State, st': State, i: nat, extents: seq<Extent>)
    requires Sound(st) && i in st.inodes && extents == Ext(st.disk, st.inodes[i])
    requires CacheFrom(st.cache, st'.cache, i, extents) && st'.disk == st.disk && st'.inodes == st.inodes && st'.used == st.used
    ensures Untouched(st, st') && SameFiles(st, st')
  {
    hide Sound, SameFiles, Content, Ext, Owned, CacheFrom;
    CachePutFrom(st, st'.cache, i, extents);
    KeepsAll(st.disk, st.used);
    SoundKept(st, st');
  }

  lemma CachePutFrom(st: State, cache: map<nat, seq<Extent>>, i: nat, extents: seq<Extent>)
    requires Sound(st) && i in st.inodes && extents == Ext(st.disk, st.inodes[i]) && CacheFrom(st.cache, cache, i, extents)
    ensures forall k :: k in cache ==> k in st.inodes && cache[k] == Ext(st.disk, st.inodes[k])
  {
    hide FilesOk, AllApart, Ext;
  }

  // Allocation

  /** A free block is taken and filled with zeros: `alloc_block` and `get_block_cache_zeroed`. */
  method AllocZeroed(v: Volume) returns (pblock: Option<nat>)
    requires v.Valid()
    modifies v.fs, v.fs.blockBitmaps, v`used, v`disk
    ensures v.Valid()
    ensures pblock.None? ==> v.used == old(v.used) && v.disk == old(v.disk) && |v.used| == |v.AllBlocks()|
    ensures pblock.Some? ==>
              && 0 < pblock.value < U48 && pblock.value !in old(v.used) && v.used == old(v.used) + {pblock.value}
              && v.disk == old(v.disk)[pblock.value := Zeros(BLOCK_SZ)]
  {
    hide *;
    pblock := v.AllocBlock();
    if pblock.Some? {
      v.disk := v.disk[pblock.value := Zeros(BLOCK_SZ)];
      v.Opened();
      v.Closed();
    }
  }

  /** The volume is as it was when inode i began to grow, but for new blocks that only `extents` maps. */
  ghost predicate Midway(st: State, i: nat, v: Volume, extents: seq<Extent>, from: nat, to: nat)
    reads v
  {
    && Sound(st) && i in st.inodes && v.inodes == st.inodes && v.extentsCache == st.cache
    && Growing(st.disk, st.used, Ext(st.disk, st.inodes[i]), v.disk, v.used, extents, from, to)
  }

  /** Inode i has its old list still, but the bits are set of one new block for each block up to `upTo` that it
      lacks. */
  ghost predicate LeftSet(st: State, i: nat, used: set<nat>, extents: seq<Extent>, from: nat, upTo: nat) {
    && i in st.inodes && from <= upTo && WellFormed(extents) && Injective(extents)
    && Extends(Ext(st.disk, st.inodes[i]), extents) && Covered(extents, from, upTo)
    && TakenOnly(st.used, Ext(st.disk, st.inodes[i]), extents, from, upTo)
    && used == st.used + Mapped(extents)
  }

  /** The blocks of the range that the old list does not map are mapped to blocks that were free. */
  ghost predicate TakenOnly(usedBefore: set<nat>, old_: seq<Extent>, extents: seq<Extent>, from: nat, upTo: nat) {
    forall l: nat :: MapLogicalBlock(old_, l).None? && MapLogicalBlock(extents, l).Some? ==>
      from <= l < upTo && MapLogicalBlock(extents, l).value !in usedBefore
  }

  /** Which bits an operation that grows a file leaves set when it fails: those of the blocks it took for the
      range, all of it unless the disk is full now. */
  ghost predicate Leaked(st: State, i: nat, used: set<nat>, all: set<nat>, from: nat, to: nat) {
    exists extents: seq<Extent>, upTo: nat :: LeftSet(st, i, used, extents, from, upTo) && upTo <= to && (upTo == to || |used| == |all|)
  }

  lemma LeakedJoin(st: State, i: nat, used: set<nat>, all: set<nat>, from: nat, to: nat, extents: seq<Extent>, upTo: nat)
    requires LeftSet(st, i, used, extents, from, upTo) && upTo <= to && (upTo == to || |used| == |all|)
    ensures Leaked(st, i, used, all, from, to)
  {
    hide LeftSet;
  }

  lemma MidwayLeft(st: State, i: nat, v: Volume, extents: seq<Extent>, from: nat, to: nat)
    requires Midway(st, i, v, extents, from, to) && Covered(extents, from, to) && from <= to
    ensures LeftSet(st, i, v.used, extents, from, to)
  {
    hide *;
    MidwayParts(st, i, v, extents, from, to);
    GrowingParts(st.disk, st.used, Ext(st.disk, st.inodes[i]), v.disk, v.used, extents, from, to);
    NewAreTaken(st.used, Ext(st.disk, st.inodes[i]), v.disk, extents, from, to);
    LeftSetJoin(st, i, v.used, extents, from, to);
  }

  lemma NewAreTaken(usedBefore: set<nat>, old_: seq<Extent>, disk: Disk, extents: seq<Extent>, from: nat, to: nat)
    requires NewBlocks(usedBefore, old_, disk, extents, from, to)
    ensures TakenOnly(usedBefore, old_, extents, from, to)
  {
    hide MapLogicalBlock, Block, Zeros;
  }

  lemma LeftSetJoin(st: State, i: nat, used: set<nat>, extents: seq<Extent>, from: nat, upTo: nat)
    requires i in st.inodes && from <= upTo && WellFormed(extents) && Injective(extents)
    requires Extends(Ext(st.disk, st.inodes[i]), extents) && Covered(extents, from, upTo)
    requires TakenOnly(st.used, Ext(st.disk, st.inodes[i]), extents, from, upTo)
    requires used == st.used + Mapped(extents)
    ensures LeftSet(st, i, used, extents, from, upTo)
  {
    hide WellFormed, Injective, Extends, Covered, TakenOnly, Mapped, Ext;
  }

  lemma MidwayStart(v: Volume, i: nat, extents: seq<Extent>, from: nat)
    requires Sound(St(v)) && i in v.inodes && extents == Ext(v.disk, v.inodes[i])
    ensures Midway(St(v), i, v, extents, from, from)
  {
    hide Sound, FileOk, Ext, Growing, Owned;
    SoundFile(St(v), i);
    FileParts(v.disk, v.used, v.inodes[i]);
    GrowingStart(v.disk, v.used, extents, from);
  }

  lemma MidwayParts(st: State, i: nat, v: Volume, extents: seq<Extent>, from: nat, to: nat)
    requires Midway(st, i, v, extents, from, to)
    ensures Sound(st) && i in st.inodes && v.inodes == st.inodes && v.extentsCache == st.cache && WellFormed(extents)
    ensures Growing(st.disk, st.used, Ext(st.disk, st.inodes[i]), v.disk, v.used, extents, from, to)
    ensures st.used <= v.used && KeepsBlocks(st.disk, v.disk, st.used)
  {
    hide Sound, Ext, WellFormed, Injective, Extends, NewBlocks, KeepsBlocks, SameOutside;
  }

  lemma MidwayJoin(st: State, i: nat, v: Volume, extents: seq<Extent>, from: nat, to: nat)
    requires Sound(st) && i in st.inodes && v.inodes == st.inodes && v.extentsCache == st.cache
    requires Growing(st.disk, st.used, Ext(st.disk, st.inodes[i]), v.disk, v.used, extents, from, to)
    ensures Midway(st, i, v, extents, from, to)
  {
    hide Sound, Ext, Growing;
  }

  /** The inode's tree can be rewritten: its old blocks are still in use. */
  lemma MidwayTree(st: State, i: nat, v: Volume, extents: seq<Extent>, from: nat, to: nat)
    requires Midway(st, i, v, extents, from, to)
    ensures i in v.inodes && |v.inodes[i].iBlock| == I_BLOCK_SZ && TreeBlocks(v.disk, v.inodes[i].iBlock) <= v.used
    ensures AllStorable(extents)
  {
    hide *;
    MidwayParts(st, i, v, extents, from, to);
    SoundFile(st, i);
    FileParts(st.disk, st.used, st.inodes[i]);
    KeepsFewer(st.disk, v.disk, st.used, Tree(st.disk, st.inodes[i]));
    RootKept(st.disk, v.disk, st.inodes[i]);
    TreeIs(v.disk, v.inodes[i]);
    StorableAll(extents);
  }

  lemma TreeIs(disk: Disk, inode: Inode)
    requires |inode.iBlock| == I_BLOCK_SZ
    ensures Tree(disk, inode) == TreeBlocks(disk, inode.iBlock)
  {
  }

  lemma StorableAll(extents: seq<Extent>)
    requires WellFormed(extents)
    ensures AllStorable(extents)
  {
    forall i | 0 <= i < |extents| ensures Storable(extents[i]) {
      assert extents[i].Valid();
    }
  }

  lemma FailedHere(st: State, v: Volume)
    requires Sound(st) && v.inodes == st.inodes && v.extentsCache == st.cache
    requires st.used <= v.used && KeepsBlocks(st.disk, v.disk, st.used)
    ensures Untouched(st, St(v)) && SameFiles(st, St(v))
  {
    hide FilesOk, AllApart, Ext, Content, Owned, SameFiles, KeepsBlocks;
    SoundKept(st, St(v));
  }

  /** `extents_blocks_count`. */
  function ExtentsBlocksCount(extents: seq<Extent>): nat {
    if extents == [] then 0 else extents[0].Len() + ExtentsBlocksCount(extents[1..])
  }

  /** The end of `ensure_write_blocks` and `ensure_blocks`: the grown list goes into a new tree, and the inode
      to disk. */
  method PersistExtents(v: Volume, i: nat, extents: seq<Extent>, ghost st: State, ghost from: nat, ghost to: nat)
    returns (r: Result<bool>)
    requires v.Valid() && Midway(st, i, v, extents, from, to)
    modifies v, v.fs, v.fs.blockBitmaps
    ensures v.Valid()
    ensures r.Ok? ==> Grew(st, St(v), i, extents)
    ensures r.Err? ==> Untouched(st, St(v)) && SameFiles(st, St(v)) && v.extentsCache == st.cache
    ensures r.Err? ==> Excused(v.used, v.AllBlocks(), r.error) && v.used == old(v.used)
    ensures CacheKeys(st.cache, v.extentsCache, i)
  {
    hide *;
    CacheKeysFacts(st.cache, st.cache, st.cache, i, []);
    MidwayParts(st, i, v, extents, from, to);
    MidwayTree(st, i, v, extents, from, to);
    var blocks := ExtentsBlocksCount(extents);
    var inode := v.inodes[i].(blocks := Saturating32(blocks * SECTORS_PER_BLOCK));
    ghost var disk1, used1 := v.disk, v.used;
    var root := v.WriteExtentsToInode(i, inode.iBlock, extents);
    if root.Err? {
      GrowingParts(st.disk, st.used, Ext(st.disk, st.inodes[i]), disk1, used1, extents, from, to);
      ExcusedTree(v.used, v.AllBlocks(), extents, root.error);
      KeptOnError(st, disk1, used1, v);
      FailedHere(st, v);
      return Err(root.error);
    }
    inode := inode.(iBlock := root.value);
    v.inodes := v.inodes[i := inode];
    v.Opened();
    v.Closed();
    StParts(v);
    OnlyOne(st, St(v), i, inode);
    Persisted(st, i, disk1, used1, extents, from, to, St(v));
    return Ok(true);
  }

  lemma KeptOnError(st: State, disk1: Disk, used1: set<nat>, v: Volume)
    requires KeepsBlocks(st.disk, disk1, st.used) && st.used <= used1 == v.used
    requires forall b :: b in v.used ==> Block(v.disk, b) == Block(disk1, b)
    ensures KeepsBlocks(st.disk, v.disk, st.used) && st.used <= v.used
  {
    hide Block;
  }

  lemma OnlyOne(st: State, st': State, i: nat, inode: Inode)
    requires i in st.inodes && st'.inodes == st.inodes[i := inode]
    ensures OnlyInode(st, st', i)
  {
  }

  lemma Persisted(st: State, i: nat, disk1: Disk, used1: set<nat>, extents: seq<Extent>, from: nat, to: nat, st': State)
    requires Sound(st) && i in st.inodes && i in st'.inodes && OnlyInode(st, st', i)
    requires st'.inodes[i].kind == st.inodes[i].kind && st'.inodes[i].size == st.inodes[i].size
    requires st'.inodes[i].links == st.inodes[i].links
    requires Growing(st.disk, st.used, Ext(st.disk, st.inodes[i]), disk1, used1, extents, from, to)
    requires Rewritten(disk1, st'.disk, used1, st'.used, st.inodes[i].iBlock, st'.inodes[i].iBlock, extents)
    requires st'.cache == st.cache - {i}
    ensures Grew(st, st', i, extents)
  {
    hide Sound, Growing, Rewritten, Ext, Owned, SameFiles, OthersSame, OnlyInode, Exchanged;
    assert CacheFrom(st.cache, st'.cache, i, extents);
    assert Regrown(st, i, disk1, used1, extents, from, to, st');
    RegrownSound(st, i, disk1, used1, extents, from, to, st');
  }

  lemma GrewAlsoCached(st: State, st': State, st'': State, i: nat, extents: seq<Extent>)
    requires Grew(st, st', i, extents)
    requires Untouched(st', st'') && SameFiles(st', st'') && st''.disk == st'.disk && st''.used == st'.used
    ensures Grew(st, st'', i, extents)
  {
    hide Sound, Ext, Owned, Content, SameBytes;
    assert st''.inodes == st'.inodes;
  }

  lemma NoGrowth(st: State, st': State, i: nat, extents: seq<Extent>)
    requires Sound(st) && i in st.inodes && extents == Ext(st.disk, st.inodes[i])
    requires Untouched(st, st') && SameFiles(st, st') && st'.disk == st.disk && st'.used == st.used
    ensures Grew(st, st', i, extents)
  {
    hide Ext, Owned, Content, SameBytes, SameFiles, WellFormed, Injective, ZeroTail, Tree, Mapped, AllApart, CacheOk;
    assert FileOk(st.disk, st.used, st.inodes[i]);
  }

  /** `ensure_write_blocks`: every block of the range is mapped, by zeroed blocks where it was not; no file shows
      a different byte. On an error no inode has changed. */
  method EnsureWriteBlocks(v: Volume, i: nat, startLblock: nat, endLblock: nat) returns (r: Result<seq<Extent>>)
    requires v.Valid() && Sound(St(v)) && i in v.inodes && endLblock < U32
    modifies v, v.fs, v.fs.blockBitmaps
    ensures v.Valid()
    ensures r.Ok? ==> Grew(old(St(v)), St(v), i, r.value) && Covered(r.value, startLblock, endLblock)
    ensures r.Err? ==> Untouched(old(St(v)), St(v)) && SameFiles(old(St(v)), St(v))
    ensures r.Err? ==> Excused(v.used, v.AllBlocks(), r.error)
    ensures r.Err? ==> Leaked(old(St(v)), i, v.used, v.AllBlocks(), startLblock, endLblock)
  {
    hide *;
    U32Value();
    ghost var st := St(v);
    StParts(v);
    var extents := CachedExtents(v, i);
    if startLblock >= endLblock {
      CoveredNothing(extents, startLblock, endLblock);
      PutOnly(v, i, extents);
      return Ok(extents);
    }
    var changed := false;
    MidwayStart(v, i, extents, startLblock);
    CoveredNothing(extents, startLblock, startLblock);
    for lblock := startLblock to endLblock
      invariant v.Valid() && Midway(st, i, v, extents, startLblock, lblock) && Covered(extents, startLblock, lblock)
      invariant !changed ==> St(v) == st && i in st.inodes && extents == Ext(st.disk, st.inodes[i])
    {
      if MapLogicalBlock(extents, lblock).Some? {
        CoveredNext(extents, startLblock, lblock);
        MidwayLater(st, i, v, extents, startLblock, lblock, lblock + 1);
        continue;
      }
      MidwayLeft(st, i, v, extents, startLblock, lblock);
      var result := MapOneMore(v, i, extents, lblock, st, startLblock);
      if result.Err? {
        LeakedJoin(st, i, v.used, v.AllBlocks(), startLblock, endLblock, extents, lblock);
        return Err(result.error);
      }
      extents := result.value;
      changed := true;
    }
    if changed {
      MidwayLeft(st, i, v, extents, startLblock, endLblock);
      var persisted := PersistExtents(v, i, extents, st, startLblock, endLblock);
      if persisted.Err? {
        LeakedJoin(st, i, v.used, v.AllBlocks(), startLblock, endLblock, extents, endLblock);
        return Err(persisted.error);
      }
    } else {
      StParts(v);
      NoGrowthYet(v, i, extents);
    }
    PutAfter(v, i, extents, st);
    return Ok(extents);
  }

  lemma U32Value()
    ensures U32 == 0x1_0000_0000 && BLOCK_SZ == 4096 && SECTORS_PER_BLOCK == 8
  {
  }

  lemma MidwayLater(st: State, i: nat, v: Volume, extents: seq<Extent>, from: nat, to: nat, later: nat)
    requires Midway(st, i, v, extents, from, to) && to <= later
    ensures Midway(st, i, v, extents, from, later)
  {
    hide Sound, Ext, Growing;
    GrowingLater(st.disk, st.used, Ext(st.disk, st.inodes[i]), v.disk, v.used, extents, from, to, later);
  }

  lemma NoGrowthYet(v: Volume, i: nat, extents: seq<Extent>)
    requires Sound(St(v)) && i in v.inodes && extents == Ext(v.disk, v.inodes[i])
    ensures Grew(St(v), St(v), i, extents)
  {
    hide *;
    StParts(v);
    CacheKept(St(v), i, extents);
    PutSound(St(v), St(v), i, extents);
    NoGrowth(St(v), St(v), i, extents);
  }

  lemma StParts(v: Volume)
    ensures St(v).disk == v.disk && St(v).inodes == v.inodes && St(v).used == v.used && St(v).cache == v.extentsCache
  {
  }

  /** Only the cache is filled. */
  method PutOnly(v: Volume, i: nat, extents: seq<Extent>)
    requires v.Valid() && Sound(St(v)) && i in v.inodes && extents == Ext(v.disk, v.inodes[i])
    modifies v`extentsCache
    ensures v.Valid() && Grew(old(St(v)), St(v), i, extents) && CacheKeys(old(v.extentsCache), v.extentsCache, i)
    ensures v.used == old(v.used) && v.inodes == old(v.inodes) && v.disk == old(v.disk)
  {
    hide *;
    ghost var st := St(v);
    StParts(v);
    ExtentsCachePut(v, i, extents);
    CacheKeysFacts(st.cache, v.extentsCache, v.extentsCache, i, extents);
    StParts(v);
    PutSound(st, St(v), i, extents);
    NoGrowth(st, St(v), i, extents);
  }

  method PutAfter(v: Volume, i: nat, extents: seq<Extent>, ghost st: State)
    requires v.Valid() && Grew(st, St(v), i, extents)
    modifies v`extentsCache
    ensures v.Valid() && Grew(st, St(v), i, extents)
    ensures CacheKeys(st.cache, old(v.extentsCache), i) ==> CacheKeys(st.cache, v.extentsCache, i)
  {
    hide *;
    ghost var st' := St(v);
    GrewParts(st, st', i, extents);
    StParts(v);
    ExtentsCachePut(v, i, extents);
    CacheKeysFacts(old(v.extentsCache), v.extentsCache, v.extentsCache, i, extents);
    CacheKeysFacts(st.cache, old(v.extentsCache), v.extentsCache, i, extents);
    StParts(v);
    PutSound(st', St(v), i, extents);
    GrewAlsoCached(st, st', St(v), i, extents);
  }

  lemma GrewParts(st: State, st': State, i: nat, extents: seq<Extent>)
    requires Grew(st, st', i, extents)
    ensures Sound(st') && SameFiles(st, st') && OthersSame(st, st', i) && i in st.inodes && i in st'.inodes
    ensures Ext(st'.disk, st'.inodes[i]) == extents
    ensures Exchanged(st.used, st'.used, Owned(st.disk, st.inodes[i]), Owned(st'.disk, st'.inodes[i]))
  {
  }

  /** The loop body of `ensure_write_blocks`: one unmapped block is given a zeroed physical one. */
  method MapOneMore(v: Volume, i: nat, extents: seq<Extent>, lblock: nat, ghost st: State, ghost from: nat)
    returns (r: Result<seq<Extent>>)
    requires v.Valid() && Midway(st, i, v, extents, from, lblock) && Covered(extents, from, lblock) && from <= lblock
    requires MapLogicalBlock(extents, lblock) == None && lblock + 1 < U32
    modifies v.fs, v.fs.blockBitmaps, v`used, v`disk
    ensures v.Valid()
    ensures r.Ok? ==> Midway(st, i, v, r.value, from, lblock + 1) && Covered(r.value, from, lblock + 1)
    ensures r.Err? ==> Untouched(st, St(v)) && SameFiles(st, St(v)) && v.extentsCache == st.cache
    ensures r.Err? ==> Excused(v.used, v.AllBlocks(), r.error) && v.used == old(v.used) && |v.used| == |v.AllBlocks()|
  {
    hide *;
    U32Value();
    MidwayParts(st, i, v, extents, from, lblock);
    ghost var disk, used := v.disk, v.used;
    var pblock := AllocZeroed(v);
    if pblock.None? {
      FailedHere(st, v);
      ExcusedFull(v.used, v.AllBlocks());
      return Err(NoSpace);
    }
    var after := InsertBlockMapping(extents, lblock, pblock.value);
    GrowingNext(st.disk, st.used, Ext(st.disk, st.inodes[i]), disk, used, extents, from, lblock, pblock.value, after);
    CoveredInserted(extents, after, from, lblock, pblock.value);
    MidwayJoin(st, i, v, after, from, lblock + 1);
    return Ok(after);
  }

  /** `ensure_blocks`: blocks are added at the end of the file until `totalBlocks` are there. */
  method EnsureBlocks(v: Volume, i: nat, totalBlocks: nat) returns (r: Result<seq<Extent>>)
    requires v.Valid() && Sound(St(v)) && i in v.inodes && totalBlocks < U32
    modifies v, v.fs, v.fs.blockBitmaps
    ensures v.Valid()
    ensures r.Ok? ==> Grew(old(St(v)), St(v), i, r.value)
    ensures r.Ok? ==> Covered(r.value, MappedEnd(Ext(old(v.disk), old(v.inodes[i]))), totalBlocks)
    ensures r.Ok? ==> Extends(Ext(old(v.disk), old(v.inodes[i])), r.value)
    ensures r.Ok? && totalBlocks > MappedEnd(Ext(old(v.disk), old(v.inodes[i]))) ==> EndBy(r.value, totalBlocks)
    ensures totalBlocks <= MappedEnd(Ext(old(v.disk), old(v.inodes[i]))) ==>
              r.Ok? && r.value == Ext(old(v.disk), old(v.inodes[i])) && v.used == old(v.used) && v.inodes == old(v.inodes) && v.disk == old(v.disk)
    ensures r.Err? ==> Untouched(old(St(v)), St(v)) && SameFiles(old(St(v)), St(v))
    ensures r.Err? ==> Excused(v.used, v.AllBlocks(), r.error)
    ensures r.Err? ==> Leaked(old(St(v)), i, v.used, v.AllBlocks(), MappedEnd(Ext(old(v.disk), old(v.inodes[i]))), totalBlocks)
    ensures CacheKeys(old(v.extentsCache), v.extentsCache, i)
  {
    hide *;
    U32Value();
    ghost var st := St(v);
    StParts(v);
    CacheKeysFacts(st.cache, st.cache, st.cache, i, []);
    var extents := CachedExtents(v, i);
    var curBlocks := MappedEnd(extents);
    if totalBlocks <= curBlocks {
      ExtendsItself(extents);
      CoveredNothing(extents, curBlocks, totalBlocks);
      PutOnly(v, i, extents);
      return Ok(extents);
    }
    MidwayStart(v, i, extents, curBlocks);
    CoveredNothing(extents, curBlocks, curBlocks);
    EndsBefore(st, i, extents, curBlocks);
    for lblock := curBlocks to totalBlocks
      invariant v.Valid() && Midway(st, i, v, extents, curBlocks, lblock) && Covered(extents, curBlocks, lblock)
      invariant EndBy(extents, lblock)
    {
      MidwayLeft(st, i, v, extents, curBlocks, lblock);
      var result := PushOneMore(v, i, extents, lblock, st, curBlocks);
      if result.Err? {
        LeakedJoin(st, i, v.used, v.AllBlocks(), curBlocks, totalBlocks, extents, lblock);
        return Err(result.error);
      }
      extents := result.value;
    }
    MidwayExtends(st, i, v, extents, curBlocks, totalBlocks);
    MidwayLeft(st, i, v, extents, curBlocks, totalBlocks);
    var persisted := PersistExtents(v, i, extents, st, curBlocks, totalBlocks);
    if persisted.Err? {
      LeakedJoin(st, i, v.used, v.AllBlocks(), curBlocks, totalBlocks, extents, totalBlocks);
      return Err(persisted.error);
    }
    PutAfter(v, i, extents, st);
    return Ok(extents);
  }

  lemma ExtendsItself(extents: seq<Extent>)
    ensures Extends(extents, extents)
  {
    hide MapLogicalBlock;
  }

  lemma MidwayExtends(st: State, i: nat, v: Volume, extents: seq<Extent>, from: nat, to: nat)
    requires Midway(st, i, v, extents, from, to)
    ensures i in st.inodes && Extends(Ext(st.disk, st.inodes[i]), extents)
  {
    hide *;
    MidwayParts(st, i, v, extents, from, to);
    GrowingParts(st.disk, st.used, Ext(st.disk, st.inodes[i]), v.disk, v.used, extents, from, to);
  }

  /** No extent reaches block `end`. */
  ghost predicate EndBy(extents: seq<Extent>, end: nat) {
    forall j :: 0 <= j < |extents| ==> extents[j].eeBlock + extents[j].Len() <= end
  }

  lemma EndsBefore(st: State, i: nat, extents: seq<Extent>, end: nat)
    requires Sound(st) && i in st.inodes && extents == Ext(st.disk, st.inodes[i]) && end == MappedEnd(extents)
    ensures EndBy(extents, end)
  {
    hide *;
    SoundFile(st, i);
    FileParts(st.disk, st.used, st.inodes[i]);
    WellFormedEnds(extents);
  }

  lemma WellFormedEnds(extents: seq<Extent>)
    requires WellFormed(extents)
    ensures EndBy(extents, MappedEnd(extents))
  {
    AllValid(extents);
  }

  lemma NotMappedYet(extents: seq<Extent>, l: nat)
    requires WellFormed(extents) && EndBy(extents, l)
    ensures MapLogicalBlock(extents, l) == None
  {
    forall j | 0 <= j < |extents| ensures extents[j].Valid() && !extents[j].Covers(l) {
    }
    MapNone(extents, l);
  }

  lemma EndByNext(extents: seq<Extent>, after: seq<Extent>, l: nat, p: nat)
    requires WellFormed(extents) && EndBy(extents, l) && Inserted(extents, after, l, p)
    ensures EndBy(after, l + 1)
  {
    hide MapLogicalBlock, Coalesced;
    forall j | 0 <= j < |after| ensures after[j].eeBlock + after[j].Len() <= l + 1 {
      if after[j].eeBlock + after[j].Len() > l + 1 {
        var m := after[j].eeBlock + after[j].Len() - 1;
        assert after[j].Valid();
        MapAt(after, j, m);
        NotMappedLater(extents, l, m);
      }
    }
  }

  lemma NotMappedLater(extents: seq<Extent>, l: nat, m: nat)
    requires WellFormed(extents) && EndBy(extents, l) && l <= m
    ensures MapLogicalBlock(extents, m) == None
  {
    NotMappedYet(extents, m);
  }

  /** The loop body of `ensure_blocks`. */
  method PushOneMore(v: Volume, i: nat, extents: seq<Extent>, lblock: nat, ghost st: State, ghost from: nat)
    returns (r: Result<seq<Extent>>)
    requires v.Valid() && Midway(st, i, v, extents, from, lblock) && Covered(extents, from, lblock) && from <= lblock
    requires EndBy(extents, lblock) && lblock + 1 < U32
    modifies v.fs, v.fs.blockBitmaps, v`used, v`disk
    ensures v.Valid()
    ensures r.Ok? ==> Midway(st, i, v, r.value, from, lblock + 1) && Covered(r.value, from, lblock + 1) && EndBy(r.value, lblock + 1)
    ensures r.Err? ==> Untouched(st, St(v)) && SameFiles(st, St(v)) && v.extentsCache == st.cache
    ensures r.Err? ==> Excused(v.used, v.AllBlocks(), r.error) && v.used == old(v.used) && |v.used| == |v.AllBlocks()|
  {
    hide *;
    U32Value();
    MidwayParts(st, i, v, extents, from, lblock);
    ghost var disk, used := v.disk, v.used;
    var pblock := AllocZeroed(v);
    if pblock.None? {
      FailedHere(st, v);
      ExcusedFull(v.used, v.AllBlocks());
      return Err(NoSpace);
    }
    NotMappedYet(extents, lblock);
    Ends(extents, lblock);
    var after := PushBlock(extents, lblock, pblock.value);
    GrowingNext(st.disk, st.used, Ext(st.disk, st.inodes[i]), disk, used, extents, from, lblock, pblock.value, after);
    CoveredInserted(extents, after, from, lblock, pblock.value);
    EndByNext(extents, after, lblock, pblock.value);
    MidwayJoin(st, i, v, after, from, lblock + 1);
    return Ok(after);
  }

  lemma Ends(extents: seq<Extent>, l: nat)
    requires EndBy(extents, l)
    ensures forall j :: 0 <= j < |extents| ==> extents[j].eeBlock + extents[j].Len() <= l
  {
  }
}
