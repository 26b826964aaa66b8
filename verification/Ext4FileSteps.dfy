/** What an operation on one inode must respect so that all files stay sound (see `Ext4FileState.Sound`),
    and the three ways in which the operations of ext4-fs/src/vfs.rs change an inode: new blocks and a new
    tree, bytes written to its blocks, everything freed. */
module Ext4FileSteps {
  import opened Common
  import opened Ext4Types
  import opened Ext4Extents
  import opened Ext4Layout
  import opened Ext4Tree
  import opened Ext4Volume
  import opened Ext4FileState

  /** The other files keep the bytes of their blocks, and the blocks. */
  ghost predicate Undisturbed(st: State, i: nat, disk: Disk, used: set<nat>) {
    forall j :: j in st.inodes && j != i ==>
      KeepsBlocks(st.disk, disk, Owned(st.disk, st.inodes[j])) && Owned(st.disk, st.inodes[j]) <= used
  }

  /** No other file owns any of these blocks. */
  ghost predicate NotOthers(st: State, i: nat, blocks: set<nat>) {
    forall j :: j in st.inodes && j != i ==> Owned(st.disk, st.inodes[j]) !! blocks
  }

  /** Cached lists are as before, but for the list of i. */
  ghost predicate CacheFrom(before: map<nat, seq<Extent>>, after: map<nat, seq<Extent>>, i: nat, extents: seq<Extent>) {
    forall k :: k in after ==> if k == i then after[k] == extents else k in before && after[k] == before[k]
  }

  /** No other inode is changed, added or dropped. */
  ghost predicate OnlyInode(st: State, st': State, i: nat) {
    && i in st.inodes && st'.inodes.Keys == st.inodes.Keys && i in st'.inodes
    && forall j :: j in st.inodes && j != i ==> st'.inodes[j] == st.inodes[j]
  }

  /** One inode has changed, in a way that leaves the others alone. */
  ghost predicate OneChanged(st: State, st': State, i: nat) {
    && OnlyInode(st, st', i)
    && FileOk(st'.disk, st'.used, st'.inodes[i])
    && Undisturbed(st, i, st'.disk, st'.used) && NotOthers(st, i, Owned(st'.disk, st'.inodes[i]))
    && CacheFrom(st.cache, st'.cache, i, Ext(st'.disk, st'.inodes[i]))
  }

  lemma OtherFileOk(st: State, i: nat, j: nat, disk: Disk, used: set<nat>)
    requires Sound(st) && Undisturbed(st, i, disk, used) && j in st.inodes && j != i
    ensures var f := st.inodes[j];
            && FileOk(disk, used, f) && Ext(disk, f) == Ext(st.disk, f) && Owned(disk, f) == Owned(st.disk, f)
            && Content(disk, f) == Content(st.disk, f) && SameBytes(st.disk, f, disk, f)
  {
    hide KeepsBlocks, WellFormed, Injective, Owned, Tree, Mapped, Ext, ZeroTail, AllApart, CacheOk, Content;
    var f := st.inodes[j];
    assert FileOk(st.disk, st.used, f);
    FileKept(st.disk, disk, f);
  }

  /** What must be kept is kept, and no other file has changed. */
  lemma SoundAfter(st: State, st': State, i: nat)
    requires Sound(st) && OneChanged(st, st', i)
    ensures Sound(st') && OthersSame(st, st', i)
  {
    hide *;
    OneFilesOk(st, st', i);
    OneApart(st, st', i);
    OneCacheOk(st, st', i);
    OneOthersSame(st, st', i);
    SoundJoin(st');
  }

  lemma SoundJoin(st: State)
    requires FilesOk(st) && AllApart(st) && CacheOk(st)
    ensures Sound(st)
  {
  }

  lemma OneFilesOk(st: State, st': State, i: nat)
    requires Sound(st) && OneChanged(st, st', i)
    ensures FilesOk(st')
  {
    hide FileOk, Undisturbed, NotOthers, CacheFrom, Sound;
    forall j | j in st'.inodes ensures FileOk(st'.disk, st'.used, st'.inodes[j]) {
      if j != i {
        OtherFileOk(st, i, j, st'.disk, st'.used);
      }
    }
  }

  lemma OneApart(st: State, st': State, i: nat)
    requires Sound(st) && OneChanged(st, st', i)
    ensures AllApart(st')
  {
    hide FileOk, Undisturbed, CacheFrom, FilesOk, CacheOk, Owned;
    forall a, b | a in st'.inodes && b in st'.inodes && a != b ensures Apart(st'.disk, st'.inodes[a], st'.inodes[b]) {
      if a != i {
        OtherFileOk(st, i, a, st'.disk, st'.used);
      }
      if b != i {
        OtherFileOk(st, i, b, st'.disk, st'.used);
      }
      assert a != i && b != i ==> Apart(st.disk, st.inodes[a], st.inodes[b]);
    }
  }

  lemma OneCacheOk(st: State, st': State, i: nat)
    requires Sound(st) && OneChanged(st, st', i)
    ensures CacheOk(st')
  {
    hide FileOk, Undisturbed, NotOthers, FilesOk, AllApart, Ext;
    forall k | k in st'.cache ensures k in st'.inodes && st'.cache[k] == Ext(st'.disk, st'.inodes[k]) {
      if k != i {
        OtherFileOk(st, i, k, st'.disk, st'.used);
      }
    }
  }

  lemma OneOthersSame(st: State, st': State, i: nat)
    requires Sound(st) && OneChanged(st, st', i)
    ensures OthersSame(st, st', i)
  {
    hide FileOk, Undisturbed, NotOthers, CacheFrom, Sound, Content, Owned, Ext;
    forall j | j in st.inodes && j != i
      ensures st'.inodes[j] == st.inodes[j] && Content(st'.disk, st'.inodes[j]) == Content(st.disk, st.inodes[j])
      ensures Owned(st'.disk, st'.inodes[j]) == Owned(st.disk, st.inodes[j]) && Ext(st'.disk, st'.inodes[j]) == Ext(st.disk, st.inodes[j])
    {
      OtherFileOk(st, i, j, st'.disk, st'.used);
    }
  }

  // A file that has grown

  /** The state in which a grown list of extents has been written to the inode. */
  ghost predicate Regrown(st: State, i: nat, disk1: Disk, used1: set<nat>, extents: seq<Extent>, from: nat, to: nat, st': State) {
    && Sound(st) && OnlyInode(st, st', i)
    && st'.inodes[i].kind == st.inodes[i].kind && st'.inodes[i].size == st.inodes[i].size && st'.inodes[i].links == st.inodes[i].links
    && Growing(st.disk, st.used, Ext(st.disk, st.inodes[i]), disk1, used1, extents, from, to)
    && Rewritten(disk1, st'.disk, used1, st'.used, st.inodes[i].iBlock, st'.inodes[i].iBlock, extents)
    && CacheFrom(st.cache, st'.cache, i, extents)
  }

  /** What is known about a sound file. */
  lemma SoundFile(st: State, i: nat)
    requires Sound(st) && i in st.inodes
    ensures FileOk(st.disk, st.used, st.inodes[i])
  {
    hide FileOk;
  }

  lemma SoundApart(st: State, i: nat)
    requires Sound(st) && i in st.inodes
    ensures NotOthers(st, i, Owned(st.disk, st.inodes[i]))
    ensures forall j :: j in st.inodes ==> Owned(st.disk, st.inodes[j]) <= st.used
  {
    hide WellFormed, Injective, ZeroTail, Owned, Tree, Ext, Mapped, CacheOk;
    forall j | j in st.inodes ensures Owned(st.disk, st.inodes[j]) <= st.used {
      assert FileOk(st.disk, st.used, st.inodes[j]);
    }
    forall j | j in st.inodes && j != i ensures Owned(st.disk, st.inodes[j]) !! Owned(st.disk, st.inodes[i]) {
      assert Apart(st.disk, st.inodes[j], st.inodes[i]);
    }
  }

  lemma FileParts(disk: Disk, used: set<nat>, inode: Inode)
    requires FileOk(disk, used, inode)
    ensures |inode.iBlock| == I_BLOCK_SZ && WellFormed(Ext(disk, inode)) && Injective(Ext(disk, inode))
    ensures Tree(disk, inode) !! Mapped(Ext(disk, inode)) && 0 !in Owned(disk, inode) && ZeroTail(disk, inode)
    ensures Owned(disk, inode) == Tree(disk, inode) + Mapped(Ext(disk, inode))
    ensures Owned(disk, inode) <= used && Tree(disk, inode) <= used && Mapped(Ext(disk, inode)) <= used
  {
  }

  lemma FileJoin(disk: Disk, used: set<nat>, inode: Inode)
    requires |inode.iBlock| == I_BLOCK_SZ && WellFormed(Ext(disk, inode)) && Injective(Ext(disk, inode))
    requires Tree(disk, inode) !! Mapped(Ext(disk, inode)) && ZeroTail(disk, inode)
    requires 0 !in Tree(disk, inode) && 0 !in Mapped(Ext(disk, inode))
    requires Tree(disk, inode) <= used && Mapped(Ext(disk, inode)) <= used
    ensures FileOk(disk, used, inode)
  {
  }

  /** The parts of `Rewritten`, with the tree blocks by name. */
  lemma RewrittenParts(before: Disk, after: Disk, usedBefore: set<nat>, usedAfter: set<nat>, inode: Inode, inode': Inode, extents: seq<Extent>)
    requires Rewritten(before, after, usedBefore, usedAfter, inode.iBlock, inode'.iBlock, extents)
    ensures |inode'.iBlock| == I_BLOCK_SZ && Ext(after, inode') == extents
    ensures Tree(after, inode') !! usedBefore && usedAfter == usedBefore - Tree(before, inode) + Tree(after, inode')
    ensures SameOutside(before, after, Tree(after, inode')) && 0 !in Tree(after, inode')
    ensures KeepsBlocks(before, after, usedBefore)
  {
    hide Parse, TreeBlocks, Block;
    assert 0 !in TreeBlocks(after, inode'.iBlock) by {
      CollectedNotNull(after, inode'.iBlock);
      TreeIsBoth(after, inode'.iBlock);
    }
  }

  lemma KeepsBoth(a: Disk, b: Disk, c: Disk, blocks: set<nat>, more: set<nat>)
    requires KeepsBlocks(a, b, blocks) && KeepsBlocks(b, c, more) && blocks <= more
    ensures KeepsBlocks(a, c, blocks)
  {
    hide Block;
  }

  /** The new blocks of a grown list were free. */
  lemma NewAreFree(usedBefore: set<nat>, old_: seq<Extent>, disk: Disk, extents: seq<Extent>, from: nat, to: nat)
    requires NewBlocks(usedBefore, old_, disk, extents, from, to) && Extends(old_, extents)
    ensures forall p :: p in Mapped(extents) ==> p in Mapped(old_) || (p !in usedBefore && p != 0)
    ensures Mapped(old_) <= Mapped(extents)
  {
    hide MapLogicalBlock, Block;
    forall p | p in Mapped(extents) ensures p in Mapped(old_) || (p !in usedBefore && p != 0) {
      var m: nat :| m < U32 && MapLogicalBlock(extents, m) == Some(p);
      assert MapLogicalBlock(old_, m).Some? ==> MapLogicalBlock(extents, m) == MapLogicalBlock(old_, m);
    }
    forall p | p in Mapped(old_) ensures p in Mapped(extents) {
      var m: nat :| m < U32 && MapLogicalBlock(old_, m) == Some(p);
      assert MapLogicalBlock(extents, m) == Some(p);
    }
  }

  /** The sets of blocks around a regrown file; all of it is set algebra. */
  lemma RegrownSets(used: set<nat>, oldTree: set<nat>, oldData: set<nat>, data: set<nat>, tree: set<nat>, used1: set<nat>, used2: set<nat>)
    requires oldTree + oldData <= used && oldTree !! oldData && oldData <= data && used1 == used + data
    requires forall p :: p in data ==> p in oldData || (p !in used && p != 0)
    requires tree !! used1 && used2 == used1 - oldTree + tree && 0 !in oldData
    ensures data <= used2 && tree <= used2 && tree !! data && 0 !in data
    ensures used2 == used - (oldTree + oldData) + (tree + data)
  {
  }

  lemma RegrownFile(st: State, i: nat, disk1: Disk, used1: set<nat>, extents: seq<Extent>, from: nat, to: nat, st': State)
    requires Regrown(st, i, disk1, used1, extents, from, to, st')
    ensures FileOk(st'.disk, st'.used, st'.inodes[i]) && Ext(st'.disk, st'.inodes[i]) == extents
    ensures SameBytes(st.disk, st.inodes[i], st'.disk, st'.inodes[i])
    ensures st'.used == st.used - Owned(st.disk, st.inodes[i]) + Owned(st'.disk, st'.inodes[i])
    ensures KeepsBlocks(st.disk, st'.disk, st.used)
    ensures forall b :: b in Owned(st'.disk, st'.inodes[i]) ==> b in Owned(st.disk, st.inodes[i]) || b !in st.used
  {
    hide *;
    RegrownParts(st, i, disk1, used1, extents, from, to, st');
    var f, f' := st.inodes[i], st'.inodes[i];
    SoundFile(st, i);
    FileParts(st.disk, st.used, f);
    GrowingParts(st.disk, st.used, Ext(st.disk, f), disk1, used1, extents, from, to);
    RewrittenParts(disk1, st'.disk, used1, st'.used, f, f', extents);
    KeepsFewer(st.disk, disk1, st.used, Tree(st.disk, f));
    RootKept(st.disk, disk1, f);
    KeepsBoth(st.disk, disk1, st'.disk, st.used, used1);
    NewAreFree(st.used, Ext(st.disk, f), disk1, extents, from, to);
    ZeroIn(st.disk, f);
    RegrownSets(st.used, Tree(st.disk, f), Mapped(Ext(st.disk, f)), Mapped(extents), Tree(st'.disk, f'), used1, st'.used);
    RegrownBytes(st, i, disk1, used1, extents, from, to, st');
    SameBytesContent(st.disk, f, st'.disk, f');
    FileJoin(st'.disk, st'.used, f');
    OwnedParts(st'.disk, f');
  }

  lemma ZeroIn(disk: Disk, inode: Inode)
    requires 0 !in Owned(disk, inode)
    ensures 0 !in Mapped(Ext(disk, inode)) && 0 !in Tree(disk, inode)
  {
  }

  lemma RegrownParts(st: State, i: nat, disk1: Disk, used1: set<nat>, extents: seq<Extent>, from: nat, to: nat, st': State)
    requires Regrown(st, i, disk1, used1, extents, from, to, st')
    ensures Sound(st) && i in st.inodes && i in st'.inodes && OnlyInode(st, st', i)
    ensures CacheFrom(st.cache, st'.cache, i, extents)
    ensures st'.inodes[i].size == st.inodes[i].size && st'.inodes[i].kind == st.inodes[i].kind
    ensures st'.inodes[i].links == st.inodes[i].links
    ensures Growing(st.disk, st.used, Ext(st.disk, st.inodes[i]), disk1, used1, extents, from, to)
    ensures Rewritten(disk1, st'.disk, used1, st'.used, st.inodes[i].iBlock, st'.inodes[i].iBlock, extents)
  {
    hide Sound, Growing, Rewritten, CacheFrom;
    assert i in st'.inodes.Keys;
  }

  lemma RegrownBytes(st: State, i: nat, disk1: Disk, used1: set<nat>, extents: seq<Extent>, from: nat, to: nat, st': State)
    requires Regrown(st, i, disk1, used1, extents, from, to, st')
    ensures i in st.inodes && i in st'.inodes && SameBytes(st.disk, st.inodes[i], st'.disk, st'.inodes[i])
  {
    hide *;
    RegrownParts(st, i, disk1, used1, extents, from, to, st');
    var f, f' := st.inodes[i], st'.inodes[i];
    SoundFile(st, i);
    FileParts(st.disk, st.used, f);
    GrowingParts(st.disk, st.used, Ext(st.disk, f), disk1, used1, extents, from, to);
    RewrittenParts(disk1, st'.disk, used1, st'.used, f, f', extents);
    GrownBytes(st.disk, st.used, Ext(st.disk, f), disk1, used1, extents, from, to);
    KeepsFewer(disk1, st'.disk, used1, Mapped(extents));
    BytesKept(disk1, st'.disk, extents);
    BytesEqualBoth(st.disk, Ext(st.disk, f), disk1, extents, st'.disk, extents);
    BytesSame(st.disk, f, st'.disk, f');
  }

  lemma BytesEqualBoth(d0: Disk, e0: seq<Extent>, d1: Disk, e1: seq<Extent>, d2: Disk, e2: seq<Extent>)
    requires BytesEqual(d0, e0, d1, e1) && BytesEqual(d1, e1, d2, e2)
    ensures BytesEqual(d0, e0, d2, e2)
  {
    hide ByteAt;
  }

  /** Growing a file keeps everything sound, changes no byte of any file, and moves exactly the file's own
      blocks in the bitmap. */
  lemma RegrownSound(st: State, i: nat, disk1: Disk, used1: set<nat>, extents: seq<Extent>, from: nat, to: nat, st': State)
    requires Regrown(st, i, disk1, used1, extents, from, to, st')
    ensures Sound(st') && SameFiles(st, st') && OthersSame(st, st', i) && i in st.inodes && i in st'.inodes
    ensures Ext(st'.disk, st'.inodes[i]) == extents
    ensures Exchanged(st.used, st'.used, Owned(st.disk, st.inodes[i]), Owned(st'.disk, st'.inodes[i]))
  {
    hide *;
    RegrownParts(st, i, disk1, used1, extents, from, to, st');
    ExchangedJoin(st, i, disk1, used1, extents, from, to, st');
    RegrownFile(st, i, disk1, used1, extents, from, to, st');
    RegrownOne(st, i, disk1, used1, extents, from, to, st');
    SoundAfter(st, st', i);
    RegrownSame(st, i, disk1, used1, extents, from, to, st');
  }

  lemma ExchangedJoin(st: State, i: nat, disk1: Disk, used1: set<nat>, extents: seq<Extent>, from: nat, to: nat, st': State)
    requires Regrown(st, i, disk1, used1, extents, from, to, st') && i in st.inodes && i in st'.inodes
    ensures Exchanged(st.used, st'.used, Owned(st.disk, st.inodes[i]), Owned(st'.disk, st'.inodes[i]))
  {
    hide Regrown, Owned, FileOk, Ext, SameBytes, KeepsBlocks;
    RegrownFile(st, i, disk1, used1, extents, from, to, st');
  }

  lemma RegrownOne(st: State, i: nat, disk1: Disk, used1: set<nat>, extents: seq<Extent>, from: nat, to: nat, st': State)
    requires Regrown(st, i, disk1, used1, extents, from, to, st')
    ensures OneChanged(st, st', i)
  {
    hide *;
    RegrownParts(st, i, disk1, used1, extents, from, to, st');
    RegrownFile(st, i, disk1, used1, extents, from, to, st');
    SoundFile(st, i);
    FileParts(st.disk, st.used, st.inodes[i]);
    LeavesOthers(st, i, st'.disk, st'.used, Owned(st'.disk, st'.inodes[i]));
    OneJoin(st, st', i);
  }

  lemma OneJoin(st: State, st': State, i: nat)
    requires OnlyInode(st, st', i) && i in st'.inodes
    requires FileOk(st'.disk, st'.used, st'.inodes[i])
    requires Undisturbed(st, i, st'.disk, st'.used) && NotOthers(st, i, Owned(st'.disk, st'.inodes[i]))
    requires CacheFrom(st.cache, st'.cache, i, Ext(st'.disk, st'.inodes[i]))
    ensures OneChanged(st, st', i)
  {
    hide FileOk, Undisturbed, NotOthers, CacheFrom;
  }

  /** Blocks in use keep their contents, and a file only takes what was free or its own. */
  lemma LeavesOthers(st: State, i: nat, disk: Disk, used: set<nat>, owned: set<nat>)
    requires Sound(st) && i in st.inodes && KeepsBlocks(st.disk, disk, st.used)
    requires used == st.used - Owned(st.disk, st.inodes[i]) + owned
    requires forall b :: b in owned ==> b in Owned(st.disk, st.inodes[i]) || b !in st.used
    ensures Undisturbed(st, i, disk, used) && NotOthers(st, i, owned)
  {
    hide Sound, KeepsBlocks, Owned;
    SoundApart(st, i);
    forall j | j in st.inodes && j != i
      ensures KeepsBlocks(st.disk, disk, Owned(st.disk, st.inodes[j])) && Owned(st.disk, st.inodes[j]) <= used
      ensures Owned(st.disk, st.inodes[j]) !! owned
    {
      KeepsFewer(st.disk, disk, st.used, Owned(st.disk, st.inodes[j]));
    }
  }

  lemma RegrownSame(st: State, i: nat, disk1: Disk, used1: set<nat>, extents: seq<Extent>, from: nat, to: nat, st': State)
    requires Regrown(st, i, disk1, used1, extents, from, to, st')
    ensures SameFiles(st, st')
  {
    hide *;
    RegrownParts(st, i, disk1, used1, extents, from, to, st');
    RegrownBytes(st, i, disk1, used1, extents, from, to, st');
    RegrownOne(st, i, disk1, used1, extents, from, to, st');
    OneUndisturbed(st, st', i);
    SameFilesJoin(st, st', i);
  }

  lemma SameFilesJoin(st: State, st': State, i: nat)
    requires Sound(st) && OnlyInode(st, st', i) && i in st.inodes && i in st'.inodes && Undisturbed(st, i, st'.disk, st'.used)
    requires st'.inodes[i].size == st.inodes[i].size && st'.inodes[i].kind == st.inodes[i].kind
    requires st'.inodes[i].links == st.inodes[i].links && SameBytes(st.disk, st.inodes[i], st'.disk, st'.inodes[i])
    ensures SameFiles(st, st')
  {
    hide Sound, Undisturbed, SameBytes;
    forall j | j in st.inodes && j != i ensures SameBytes(st.disk, st.inodes[j], st'.disk, st'.inodes[j]) {
      OtherFileOk(st, i, j, st'.disk, st'.used);
    }
  }

  lemma OneUndisturbed(st: State, st': State, i: nat)
    requires OneChanged(st, st', i)
    ensures Undisturbed(st, i, st'.disk, st'.used)
  {
    hide FileOk, Undisturbed, NotOthers, CacheFrom;
  }

  // Nothing in use has changed: an operation that failed, or only filled the cache

  lemma SoundKept(st: State, st': State)
    requires Sound(st) && st'.inodes == st.inodes && KeepsBlocks(st.disk, st'.disk, st.used) && st.used <= st'.used
    requires forall k :: k in st'.cache ==> k in st.inodes && st'.cache[k] == Ext(st.disk, st.inodes[k])
    ensures Sound(st') && SameFiles(st, st')
    ensures forall i :: i in st.inodes ==>
              && Content(st'.disk, st.inodes[i]) == Content(st.disk, st.inodes[i])
              && Ext(st'.disk, st.inodes[i]) == Ext(st.disk, st.inodes[i])
              && Owned(st'.disk, st.inodes[i]) == Owned(st.disk, st.inodes[i])
  {
    hide *;
    forall i | i in st.inodes
      ensures FileOk(st'.disk, st'.used, st'.inodes[i]) && Ext(st'.disk, st.inodes[i]) == Ext(st.disk, st.inodes[i])
      ensures Content(st'.disk, st.inodes[i]) == Content(st.disk, st.inodes[i])
      ensures Owned(st'.disk, st.inodes[i]) == Owned(st.disk, st.inodes[i])
      ensures SameBytes(st.disk, st.inodes[i], st'.disk, st'.inodes[i])
    {
      FileStays(st, st', i);
    }
    KeptJoin(st, st');
  }

  lemma FileStays(st: State, st': State, i: nat)
    requires Sound(st) && st'.inodes == st.inodes && KeepsBlocks(st.disk, st'.disk, st.used) && st.used <= st'.used
    requires i in st.inodes
    ensures var f := st.inodes[i];
            && FileOk(st'.disk, st'.used, f) && Ext(st'.disk, f) == Ext(st.disk, f) && Owned(st'.disk, f) == Owned(st.disk, f)
            && Content(st'.disk, f) == Content(st.disk, f) && SameBytes(st.disk, f, st'.disk, f)
  {
    hide KeepsBlocks, WellFormed, Injective, Owned, Tree, Mapped, Ext, ZeroTail, Content, Sound;
    var f := st.inodes[i];
    SoundFile(st, i);
    KeepsFewer(st.disk, st'.disk, st.used, Owned(st.disk, f));
    FileKept(st.disk, st'.disk, f);
  }

  lemma KeptJoin(st: State, st': State)
    requires Sound(st) && st'.inodes == st.inodes
    requires forall i :: i in st.inodes ==>
               && FileOk(st'.disk, st'.used, st'.inodes[i]) && Ext(st'.disk, st.inodes[i]) == Ext(st.disk, st.inodes[i])
               && Owned(st'.disk, st.inodes[i]) == Owned(st.disk, st.inodes[i])
               && SameBytes(st.disk, st.inodes[i], st'.disk, st'.inodes[i])
    requires forall k :: k in st'.cache ==> k in st.inodes && st'.cache[k] == Ext(st.disk, st.inodes[k])
    ensures Sound(st') && SameFiles(st, st')
  {
    hide FileOk, Ext, Owned, SameBytes;
    forall i, j | i in st.inodes && j in st.inodes && i != j ensures Apart(st'.disk, st'.inodes[i], st'.inodes[j]) {
      assert Apart(st.disk, st.inodes[i], st.inodes[j]);
    }
  }

  // Bytes written to the mapped blocks of a file

  /** The bytes `buf[..n]` are at `off` and on; every other byte, and every block of other files, is as before. */
  ghost predicate Written(before: Disk, extents: seq<Extent>, disk: Disk, off: nat, buf: seq<byte>, n: nat) {
    && n <= |buf|
    && (forall k: nat :: ByteAt(disk, extents, k) == if off <= k < off + n then buf[k - off] else ByteAt(before, extents, k))
    && SameOutside(before, disk, Mapped(extents))
  }

  lemma WrittenNothing(disk: Disk, extents: seq<Extent>, off: nat, buf: seq<byte>)
    ensures Written(disk, extents, disk, off, buf, 0)
  {
    hide ByteAt;
  }

  /** One block's piece of the buffer. */
  lemma WrittenNext(before: Disk, extents: seq<Extent>, disk: Disk, off: nat, buf: seq<byte>, n: nat, p: nat, o: nat, len: nat)
    requires Written(before, extents, disk, off, buf, n) && WellFormed(extents) && Injective(extents)
    requires MapLogicalBlock(extents, (off + n) / BLOCK_SZ) == Some(p) && o == (off + n) % BLOCK_SZ
    requires n + len <= |buf| && o + len <= BLOCK_SZ
    ensures Written(before, extents, disk[p := Splice(Block(disk, p), o, buf[n..n + len])], off, buf, n + len)
  {
    hide *;
    Sizes();
    var after := disk[p := Splice(Block(disk, p), o, buf[n..n + len])];
    WrittenParts(before, extents, disk, off, buf, n);
    forall k: nat ensures ByteAt(after, extents, k) == if off <= k < off + n + len then buf[k - off] else ByteAt(before, extents, k) {
      SplicedByte(disk, extents, (off + n) / BLOCK_SZ, p, o, buf[n..n + len], k);
    }
    SplicedOutside(before, disk, extents, (off + n) / BLOCK_SZ, p, Splice(Block(disk, p), o, buf[n..n + len]));
    WrittenJoin(before, extents, after, off, buf, n + len);
  }

  lemma Sizes()
    ensures BLOCK_SZ == 4096
  {
  }

  lemma WrittenParts(before: Disk, extents: seq<Extent>, disk: Disk, off: nat, buf: seq<byte>, n: nat)
    requires Written(before, extents, disk, off, buf, n)
    ensures n <= |buf| && SameOutside(before, disk, Mapped(extents))
    ensures forall k: nat :: ByteAt(disk, extents, k) == if off <= k < off + n then buf[k - off] else ByteAt(before, extents, k)
  {
    hide ByteAt;
  }

  lemma WrittenJoin(before: Disk, extents: seq<Extent>, disk: Disk, off: nat, buf: seq<byte>, n: nat)
    requires n <= |buf| && SameOutside(before, disk, Mapped(extents))
    requires forall k: nat :: ByteAt(disk, extents, k) == if off <= k < off + n then buf[k - off] else ByteAt(before, extents, k)
    ensures Written(before, extents, disk, off, buf, n)
  {
    hide ByteAt;
  }

  lemma SplicedByte(disk: Disk, extents: seq<Extent>, l: nat, p: nat, o: nat, bytes: seq<byte>, k: nat)
    requires Injective(extents) && MapLogicalBlock(extents, l) == Some(p) && o + |bytes| <= BLOCK_SZ
    ensures ByteAt(disk[p := Splice(Block(disk, p), o, bytes)], extents, k)
            == if l * 4096 + o <= k < l * 4096 + o + |bytes| then bytes[k - (l * 4096 + o)] else ByteAt(disk, extents, k)
  {
    hide MapLogicalBlock, Zeros;
    var m := k / BLOCK_SZ;
    assert k == m * 4096 + k % BLOCK_SZ;
    if m != l {
      assert MapLogicalBlock(extents, m).Some? ==> MapLogicalBlock(extents, m) != Some(p);
    }
  }

  lemma SplicedOutside(before: Disk, disk: Disk, extents: seq<Extent>, l: nat, p: nat, bytes: seq<byte>)
    requires WellFormed(extents) && SameOutside(before, disk, Mapped(extents)) && MapLogicalBlock(extents, l) == Some(p)
    ensures SameOutside(before, disk[p := bytes], Mapped(extents))
  {
    hide MapLogicalBlock, WellFormed, Mapped;
    MapBound(extents, l);
    SameOutsideStep(before, disk, Mapped(extents), p, bytes);
  }

  /** The inode after its bytes have been written and its size set. */
  ghost predicate WroteTo(st: State, i: nat, off: nat, buf: seq<byte>, st': State) {
    && Sound(st) && OnlyInode(st, st', i) && st'.used == st.used && st'.cache == st.cache
    && st'.inodes[i] == st.inodes[i].(size := Max(st.inodes[i].size, off + |buf|))
    && Written(st.disk, Ext(st.disk, st.inodes[i]), st'.disk, off, buf, |buf|)
  }

  lemma WroteParts(st: State, i: nat, off: nat, buf: seq<byte>, st': State)
    requires WroteTo(st, i, off, buf, st')
    ensures Sound(st) && OnlyInode(st, st', i) && i in st.inodes && i in st'.inodes && st'.used == st.used && st'.cache == st.cache
    ensures st'.inodes[i] == st.inodes[i].(size := Max(st.inodes[i].size, off + |buf|))
    ensures Written(st.disk, Ext(st.disk, st.inodes[i]), st'.disk, off, buf, |buf|)
  {
    hide Sound, Written;
  }

  /** The tree stands apart from the bytes, so the list of extents is the same. */
  lemma WroteTree(st: State, i: nat, off: nat, buf: seq<byte>, st': State)
    requires WroteTo(st, i, off, buf, st')
    ensures i in st.inodes && i in st'.inodes
    ensures Ext(st'.disk, st'.inodes[i]) == Ext(st.disk, st.inodes[i]) && Tree(st'.disk, st'.inodes[i]) == Tree(st.disk, st.inodes[i])
  {
    hide *;
    WroteParts(st, i, off, buf, st');
    var f := st.inodes[i];
    SoundFile(st, i);
    FileParts(st.disk, st.used, f);
    WrittenParts(st.disk, Ext(st.disk, f), st'.disk, off, buf, |buf|);
    OutsideKeeps(st.disk, st'.disk, Mapped(Ext(st.disk, f)), Tree(st.disk, f));
    RootKept(st.disk, st'.disk, f);
    SizeIsNoTree(st'.disk, f, st'.inodes[i].size);
  }

  lemma OutsideKeeps(before: Disk, after: Disk, changed: set<nat>, blocks: set<nat>)
    requires SameOutside(before, after, changed) && changed !! blocks
    ensures KeepsBlocks(before, after, blocks)
  {
    hide Block;
  }

  lemma SizeIsNoTree(disk: Disk, inode: Inode, size: nat)
    ensures Ext(disk, inode.(size := size)) == Ext(disk, inode) && Tree(disk, inode.(size := size)) == Tree(disk, inode)
  {
    hide Parse, TreeBlocks;
  }

  lemma WroteZeroTail(st: State, i: nat, off: nat, buf: seq<byte>, st': State)
    requires WroteTo(st, i, off, buf, st') && ZeroTail(st.disk, st.inodes[i])
    requires Ext(st'.disk, st'.inodes[i]) == Ext(st.disk, st.inodes[i])
    ensures ZeroTail(st'.disk, st'.inodes[i])
    ensures Content(st'.disk, st'.inodes[i]) == Overwritten(Content(st.disk, st.inodes[i]), off, buf)
  {
    hide ByteAt, Ext, Sound, Mapped, SameOutside;
  }

  lemma WroteFile(st: State, i: nat, off: nat, buf: seq<byte>, st': State)
    requires WroteTo(st, i, off, buf, st')
    ensures i in st.inodes && i in st'.inodes && FileOk(st'.disk, st'.used, st'.inodes[i])
    ensures Content(st'.disk, st'.inodes[i]) == Overwritten(Content(st.disk, st.inodes[i]), off, buf)
    ensures Owned(st'.disk, st'.inodes[i]) == Owned(st.disk, st.inodes[i])
  {
    hide *;
    WroteParts(st, i, off, buf, st');
    SoundFile(st, i);
    FileParts(st.disk, st.used, st.inodes[i]);
    WroteTree(st, i, off, buf, st');
    WroteZeroTail(st, i, off, buf, st');
    ZeroIn(st.disk, st.inodes[i]);
    OwnedParts(st'.disk, st'.inodes[i]);
    FileJoin(st'.disk, st'.used, st'.inodes[i]);
  }

  /** Writing to a file overwrites its bytes and leaves every other file alone. */
  lemma WroteSound(st: State, i: nat, off: nat, buf: seq<byte>, st': State)
    requires WroteTo(st, i, off, buf, st')
    ensures Sound(st') && OthersSame(st, st', i) && i in st.inodes && i in st'.inodes
    ensures Content(st'.disk, st'.inodes[i]) == Overwritten(Content(st.disk, st.inodes[i]), off, buf)
    ensures Owned(st'.disk, st'.inodes[i]) == Owned(st.disk, st.inodes[i])
  {
    hide *;
    WroteParts(st, i, off, buf, st');
    WroteFile(st, i, off, buf, st');
    WroteTree(st, i, off, buf, st');
    WroteOthers(st, i, off, buf, st');
    CacheKept(st, i, Ext(st'.disk, st'.inodes[i]));
    OneJoin(st, st', i);
    SoundAfter(st, st', i);
  }

  lemma CacheKept(st: State, i: nat, extents: seq<Extent>)
    requires Sound(st) && i in st.inodes && extents == Ext(st.disk, st.inodes[i])
    ensures CacheFrom(st.cache, st.cache, i, extents)
  {
    hide FileOk, Ext;
  }

  lemma WroteOthers(st: State, i: nat, off: nat, buf: seq<byte>, st': State)
    requires WroteTo(st, i, off, buf, st') && i in st.inodes && i in st'.inodes
    requires Owned(st'.disk, st'.inodes[i]) == Owned(st.disk, st.inodes[i])
    ensures Undisturbed(st, i, st'.disk, st'.used) && NotOthers(st, i, Owned(st'.disk, st'.inodes[i]))
  {
    hide *;
    WroteParts(st, i, off, buf, st');
    var f := st.inodes[i];
    SoundApart(st, i);
    OwnedParts(st.disk, f);
    WrittenParts(st.disk, Ext(st.disk, f), st'.disk, off, buf, |buf|);
    UndisturbedJoin(st, i, st'.disk, Mapped(Ext(st.disk, f)));
  }

  lemma UndisturbedJoin(st: State, i: nat, disk: Disk, changed: set<nat>)
    requires i in st.inodes && NotOthers(st, i, Owned(st.disk, st.inodes[i])) && changed <= Owned(st.disk, st.inodes[i])
    requires forall j :: j in st.inodes ==> Owned(st.disk, st.inodes[j]) <= st.used
    requires SameOutside(st.disk, disk, changed)
    ensures Undisturbed(st, i, disk, st.used)
  {
    hide Owned, SameOutside, KeepsBlocks;
    forall j | j in st.inodes && j != i ensures KeepsBlocks(st.disk, disk, Owned(st.disk, st.inodes[j])) {
      OutsideKeeps(st.disk, disk, changed, Owned(st.disk, st.inodes[j]));
    }
  }

  // A file that is emptied

  /** The inode with an empty leaf as its root, and without the blocks it owned. */
  ghost predicate Emptied(st: State, i: nat, st': State) {
    && Sound(st) && OnlyInode(st, st', i) && st'.disk == st.disk && st'.used == st.used - Owned(st.disk, st.inodes[i])
    && |st'.inodes[i].iBlock| == I_BLOCK_SZ && st'.inodes[i].size == 0
    && Ext(st.disk, st'.inodes[i]) == [] && Tree(st.disk, st'.inodes[i]) == {}
    && st'.cache == st.cache - {i}
  }

  lemma EmptiedSound(st: State, i: nat, st': State)
    requires Emptied(st, i, st')
    ensures Sound(st') && OthersSame(st, st', i) && i in st.inodes && i in st'.inodes
    ensures Content(st'.disk, st'.inodes[i]) == [] && Owned(st'.disk, st'.inodes[i]) == {}
  {
    hide Sound, Owned, Ext, Tree, Content;
    assert i in st.inodes && i in st'.inodes;
    hide *;
    EmptiedFile(st, i, st');
    SoundAfter(st, st', i);
  }

  lemma NoExtents(disk: Disk)
    ensures WellFormed([]) && Injective([]) && Mapped([]) == {} && forall k: nat :: ByteAt(disk, [], k) == 0
  {
  }

  lemma EmptiedFile(st: State, i: nat, st': State)
    requires Emptied(st, i, st')
    ensures i in st.inodes && i in st'.inodes && OneChanged(st, st', i)
    ensures Content(st'.disk, st'.inodes[i]) == [] && Owned(st'.disk, st'.inodes[i]) == {}
  {
    hide Sound, Owned, Ext, Tree, FileOk, OneChanged, WellFormed, Injective, Mapped, ByteAt, KeepsBlocks, Undisturbed, NotOthers;
    assert i in st.inodes && i in st'.inodes;
    NoExtents(st.disk);
    OwnedParts(st'.disk, st'.inodes[i]);
    FileJoin(st'.disk, st'.used, st'.inodes[i]);
    KeepsAll(st.disk, st.used);
    assert Owned(st'.disk, st'.inodes[i]) == {};
    LeavesOthers(st, i, st'.disk, st'.used, {});
    CacheDropped(st, i);
    OneJoin(st, st', i);
  }

  lemma KeepsAll(disk: Disk, blocks: set<nat>)
    ensures KeepsBlocks(disk, disk, blocks)
  {
  }

  lemma CacheDropped(st: State, i: nat)
    ensures CacheFrom(st.cache, st.cache - {i}, i, [])
  {
  }
}
