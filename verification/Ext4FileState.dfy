/** What the inodes of a volume hold: the bytes of each file, the blocks each file owns, and what the
    operations of ext4-fs/src/vfs.rs must keep true of them. */
module Ext4FileState {
  import opened Common
  import opened Ext4Types
  import opened Ext4Extents
  import opened Ext4Layout
  import opened Ext4Tree
  import opened Ext4Volume

  // One file

  /** The extents of an inode, as parsed from the disk. */
  function Ext(disk: Disk, inode: Inode): seq<Extent> {
    if |inode.iBlock| == I_BLOCK_SZ then Parse(disk, inode.iBlock) else []
  }

  /** The node blocks of its extent tree. */
  function Tree(disk: Disk, inode: Inode): set<nat> {
    if |inode.iBlock| == I_BLOCK_SZ then TreeBlocks(disk, inode.iBlock) else {}
  }

  /** The physical blocks that a list of extents maps to. */
  ghost function Mapped(extents: seq<Extent>): set<nat> {
    set l: nat | 0 <= l < U32 && MapLogicalBlock(extents, l).Some? :: MapLogicalBlock(extents, l).value
  }

  ghost function Owned(disk: Disk, inode: Inode): set<nat> {
    Tree(disk, inode) + Mapped(Ext(disk, inode))
  }

  /** No physical block stands for two logical ones. */
  ghost predicate Injective(extents: seq<Extent>) {
    forall l: nat, m: nat :: l != m && MapLogicalBlock(extents, l).Some? && MapLogicalBlock(extents, m).Some? ==>
      MapLogicalBlock(extents, l) != MapLogicalBlock(extents, m)
  }

  /** Byte k of a file whose size does not matter: holes are zeros. */
  function ByteAt(disk: Disk, extents: seq<Extent>, k: nat): byte {
    var at := MapLogicalBlock(extents, k / BLOCK_SZ);
    if at.None? then 0 else Block(disk, at.value)[k % BLOCK_SZ]
  }

  /** The bytes of a file. */
  function Content(disk: Disk, inode: Inode): (bytes: seq<byte>)
    ensures |bytes| == inode.size
  {
    seq(inode.size, k requires 0 <= k < inode.size => ByteAt(disk, Ext(disk, inode), k))
  }

  /** Bytes past the end, where blocks are mapped, are zero. */
  ghost predicate ZeroTail(disk: Disk, inode: Inode) {
    forall k: nat :: inode.size <= k ==> ByteAt(disk, Ext(disk, inode), k) == 0
  }

  ghost predicate FileOk(disk: Disk, used: set<nat>, inode: Inode) {
    && |inode.iBlock| == I_BLOCK_SZ
    && WellFormed(Ext(disk, inode)) && Injective(Ext(disk, inode))
    && Tree(disk, inode) !! Mapped(Ext(disk, inode))
    && Owned(disk, inode) <= used && 0 !in Owned(disk, inode)
    && ZeroTail(disk, inode)
  }

  // All files

  datatype State = State(disk: Disk, inodes: map<nat, Inode>, used: set<nat>, cache: map<nat, seq<Extent>>)

  ghost predicate Apart(disk: Disk, a: Inode, b: Inode) {
    Owned(disk, a) !! Owned(disk, b)
  }

  ghost predicate FilesOk(st: State) {
    forall i :: i in st.inodes ==> FileOk(st.disk, st.used, st.inodes[i])
  }

  ghost predicate AllApart(st: State) {
    forall i, j :: i in st.inodes && j in st.inodes && i != j ==> Apart(st.disk, st.inodes[i], st.inodes[j])
  }

  /** A cached list of extents is what parsing the inode's tree would give. */
  ghost predicate CacheOk(st: State) {
    forall i :: i in st.cache ==> i in st.inodes && st.cache[i] == Ext(st.disk, st.inodes[i])
  }

  /** What every operation keeps: files are well formed, own their blocks alone, and the extents cache agrees
      with the disk. */
  ghost predicate Sound(st: State) {
    FilesOk(st) && AllApart(st) && CacheOk(st)
  }

  /** The same bytes everywhere, in and past the end. */
  ghost predicate SameBytes(disk: Disk, inode: Inode, disk': Disk, inode': Inode) {
    forall k: nat :: ByteAt(disk', Ext(disk', inode'), k) == ByteAt(disk, Ext(disk, inode), k)
  }

  /** No file that one could read has changed. */
  ghost predicate SameFiles(before: State, after: State) {
    && after.inodes.Keys == before.inodes.Keys
    && forall i :: i in before.inodes ==>
         && after.inodes[i].kind == before.inodes[i].kind && after.inodes[i].size == before.inodes[i].size
         && after.inodes[i].links == before.inodes[i].links
         && SameBytes(before.disk, before.inodes[i], after.disk, after.inodes[i])
  }

  /** All inodes but i are the same, byte for byte and block for block. */
  ghost predicate OthersSame(before: State, after: State, i: nat) {
    && after.inodes.Keys == before.inodes.Keys
    && forall j :: j in before.inodes && j != i ==>
         && after.inodes[j] == before.inodes[j] && Content(after.disk, after.inodes[j]) == Content(before.disk, before.inodes[j])
         && Owned(after.disk, after.inodes[j]) == Owned(before.disk, before.inodes[j])
         && Ext(after.disk, after.inodes[j]) == Ext(before.disk, before.inodes[j])
  }

  /** The bitmap has changed by exactly the blocks that one file gave up and took, and those it took were free. */
  ghost predicate Exchanged(usedBefore: set<nat>, usedAfter: set<nat>, ownedBefore: set<nat>, ownedAfter: set<nat>) {
    && usedAfter == usedBefore - ownedBefore + ownedAfter
    && forall b :: b in ownedAfter ==> b in ownedBefore || b !in usedBefore
  }

  // Frames

  ghost predicate KeepsBlocks(disk: Disk, other: Disk, blocks: set<nat>) {
    forall b :: b in blocks ==> Block(other, b) == Block(disk, b)
  }

  lemma KeepsFewer(disk: Disk, other: Disk, blocks: set<nat>, fewer: set<nat>)
    requires KeepsBlocks(disk, other, blocks) && fewer <= blocks
    ensures KeepsBlocks(disk, other, fewer)
  {
    hide Block;
  }

  /** A file all of whose blocks keep their contents is as it was. */
  lemma FileKept(disk: Disk, other: Disk, inode: Inode)
    requires WellFormed(Ext(disk, inode)) && KeepsBlocks(disk, other, Owned(disk, inode))
    ensures Ext(other, inode) == Ext(disk, inode) && Tree(other, inode) == Tree(disk, inode)
    ensures Owned(other, inode) == Owned(disk, inode)
    ensures SameBytes(disk, inode, other, inode) && Content(other, inode) == Content(disk, inode)
    ensures ZeroTail(disk, inode) ==> ZeroTail(other, inode)
  {
    hide *;
    OwnedParts(disk, inode);
    OwnedParts(other, inode);
    KeepsFewer(disk, other, Owned(disk, inode), Tree(disk, inode));
    KeepsFewer(disk, other, Owned(disk, inode), Mapped(Ext(disk, inode)));
    RootKept(disk, other, inode);
    BytesKept(disk, other, Ext(disk, inode));
    BytesSame(disk, inode, other, inode);
    SameBytesContent(disk, inode, other, inode);
  }

  lemma OwnedParts(disk: Disk, inode: Inode)
    ensures Owned(disk, inode) == Tree(disk, inode) + Mapped(Ext(disk, inode))
  {
  }

  lemma RootKept(disk: Disk, other: Disk, inode: Inode)
    requires KeepsBlocks(disk, other, Tree(disk, inode))
    ensures Ext(other, inode) == Ext(disk, inode) && Tree(other, inode) == Tree(disk, inode)
  {
    if |inode.iBlock| == I_BLOCK_SZ {
      hide Parse, Collect, Block;
      TreeKept(disk, other, inode.iBlock);
    }
  }

  /** No block past the 32-bit numbers is mapped. */
  lemma MapBound(extents: seq<Extent>, l: nat)
    requires WellFormed(extents) && MapLogicalBlock(extents, l).Some?
    ensures l + 1 < U32 && MapLogicalBlock(extents, l).value in Mapped(extents)
  {
    var i := MapIndex(extents, l);
    assert extents[i].Valid();
  }

  /** Equal bytes, as a predicate of the two lists. */
  ghost predicate BytesEqual(disk: Disk, extents: seq<Extent>, disk': Disk, extents': seq<Extent>) {
    forall k: nat :: ByteAt(disk', extents', k) == ByteAt(disk, extents, k)
  }

  lemma BytesKept(disk: Disk, other: Disk, extents: seq<Extent>)
    requires WellFormed(extents) && KeepsBlocks(disk, other, Mapped(extents))
    ensures BytesEqual(disk, extents, other, extents)
  {
    hide Block, WellFormed, MapLogicalBlock, Mapped;
    forall k: nat ensures ByteAt(other, extents, k) == ByteAt(disk, extents, k) {
      if MapLogicalBlock(extents, k / BLOCK_SZ).Some? {
        MapBound(extents, k / BLOCK_SZ);
      }
    }
  }

  lemma BytesSame(disk: Disk, inode: Inode, disk': Disk, inode': Inode)
    requires BytesEqual(disk, Ext(disk, inode), disk', Ext(disk', inode'))
    ensures SameBytes(disk, inode, disk', inode')
  {
    hide ByteAt, Ext;
  }

  lemma SameBytesContent(disk: Disk, inode: Inode, disk': Disk, inode': Inode)
    requires SameBytes(disk, inode, disk', inode') && inode'.size == inode.size
    ensures Content(disk', inode') == Content(disk, inode)
    ensures ZeroTail(disk, inode) ==> ZeroTail(disk', inode')
  {
    hide ByteAt, Ext;
  }

  // Growing a file

  /** The blocks from `from` up to `to` that the file lacked have been given to it: `extents` maps what `old`
      maps and new, zeroed blocks of the range; nothing in use before has changed. */
  ghost predicate Growing(diskBefore: Disk, usedBefore: set<nat>, old_: seq<Extent>,
                          disk: Disk, used: set<nat>, extents: seq<Extent>, from: nat, to: nat) {
    && WellFormed(extents) && Injective(extents)
    && Extends(old_, extents)
    && NewBlocks(usedBefore, old_, disk, extents, from, to)
    && used == usedBefore + Mapped(extents)
    && KeepsBlocks(diskBefore, disk, usedBefore) && SameOutside(diskBefore, disk, used)
  }

  ghost predicate Extends(old_: seq<Extent>, extents: seq<Extent>) {
    forall l: nat :: MapLogicalBlock(old_, l).Some? ==> MapLogicalBlock(extents, l) == MapLogicalBlock(old_, l)
  }

  ghost predicate NewBlocks(usedBefore: set<nat>, old_: seq<Extent>, disk: Disk, extents: seq<Extent>, from: nat, to: nat) {
    forall l: nat :: MapLogicalBlock(old_, l).None? && MapLogicalBlock(extents, l).Some? ==>
      && from <= l < to
      && MapLogicalBlock(extents, l).value !in usedBefore && MapLogicalBlock(extents, l).value != 0
      && Block(disk, MapLogicalBlock(extents, l).value) == Zeros(BLOCK_SZ)
  }

  lemma GrowingStart(disk: Disk, used: set<nat>, extents: seq<Extent>, from: nat)
    requires WellFormed(extents) && Injective(extents) && Mapped(extents) <= used
    ensures Growing(disk, used, extents, disk, used, extents, from, from)
  {
    hide Block, MapLogicalBlock, WellFormed, Injective, Mapped;
  }

  lemma GrowingLater(diskBefore: Disk, usedBefore: set<nat>, old_: seq<Extent>,
                     disk: Disk, used: set<nat>, extents: seq<Extent>, from: nat, to: nat, later: nat)
    requires Growing(diskBefore, usedBefore, old_, disk, used, extents, from, to) && to <= later
    ensures Growing(diskBefore, usedBefore, old_, disk, used, extents, from, later)
  {
    hide Block, MapLogicalBlock, WellFormed, Injective, Mapped, SameOutside, KeepsBlocks;
  }

  /** One more block: a free one is zeroed and mapped. */
  lemma GrowingNext(diskBefore: Disk, usedBefore: set<nat>, old_: seq<Extent>, disk: Disk, used: set<nat>,
                    extents: seq<Extent>, from: nat, l: nat, p: nat, after: seq<Extent>)
    requires Growing(diskBefore, usedBefore, old_, disk, used, extents, from, l) && from <= l && l + 1 < U32
    requires MapLogicalBlock(extents, l) == None && Inserted(extents, after, l, p) && p !in used && p != 0
    ensures Growing(diskBefore, usedBefore, old_, disk[p := Zeros(BLOCK_SZ)], used + {p}, after, from, l + 1)
  {
    hide *;
    GrowingParts(diskBefore, usedBefore, old_, disk, used, extents, from, l);
    InsertedParts(extents, after, l, p);
    MappedNext(extents, after, l, p);
    InjectiveNext(extents, after, l, p);
    ExtendsNext(old_, extents, after, l, p);
    NewBlocksNext(usedBefore, used, old_, disk, extents, from, l, p, after);
    DiskNext(diskBefore, usedBefore, disk, used, p);
    GrowingJoin(diskBefore, usedBefore, old_, disk[p := Zeros(BLOCK_SZ)], used + {p}, after, from, l + 1);
  }

  lemma GrowingParts(diskBefore: Disk, usedBefore: set<nat>, old_: seq<Extent>,
                     disk: Disk, used: set<nat>, extents: seq<Extent>, from: nat, to: nat)
    requires Growing(diskBefore, usedBefore, old_, disk, used, extents, from, to)
    ensures WellFormed(extents) && Injective(extents) && Extends(old_, extents)
    ensures NewBlocks(usedBefore, old_, disk, extents, from, to)
    ensures used == usedBefore + Mapped(extents) && usedBefore <= used && Mapped(extents) <= used
    ensures KeepsBlocks(diskBefore, disk, usedBefore) && SameOutside(diskBefore, disk, used)
  {
  }

  lemma GrowingJoin(diskBefore: Disk, usedBefore: set<nat>, old_: seq<Extent>,
                    disk: Disk, used: set<nat>, extents: seq<Extent>, from: nat, to: nat)
    requires WellFormed(extents) && Injective(extents) && Extends(old_, extents)
    requires NewBlocks(usedBefore, old_, disk, extents, from, to)
    requires used == usedBefore + Mapped(extents)
    requires KeepsBlocks(diskBefore, disk, usedBefore) && SameOutside(diskBefore, disk, used)
    ensures Growing(diskBefore, usedBefore, old_, disk, used, extents, from, to)
  {
  }

  lemma InsertedParts(extents: seq<Extent>, after: seq<Extent>, l: nat, p: nat)
    requires Inserted(extents, after, l, p)
    ensures WellFormed(after) && PointUpdate(extents, after, l, p)
  {
  }

  lemma MappedNext(extents: seq<Extent>, after: seq<Extent>, l: nat, p: nat)
    requires PointUpdate(extents, after, l, p) && MapLogicalBlock(extents, l) == None && l < U32
    ensures forall used: set<nat> :: used + Mapped(after) == used + Mapped(extents) + {p}
    ensures Mapped(after) == Mapped(extents) + {p}
  {
    hide MapLogicalBlock;
    forall q | q in Mapped(after) ensures q in Mapped(extents) + {p} {
      var m: nat :| m < U32 && MapLogicalBlock(after, m) == Some(q);
      if m != l {
        assert MapLogicalBlock(extents, m) == Some(q);
      }
    }
    forall q | q in Mapped(extents) + {p} ensures q in Mapped(after) {
      if q == p {
        assert MapLogicalBlock(after, l) == Some(p);
      } else {
        var m: nat :| m < U32 && MapLogicalBlock(extents, m) == Some(q);
        assert MapLogicalBlock(after, m) == Some(q);
      }
    }
  }

  lemma InjectiveNext(extents: seq<Extent>, after: seq<Extent>, l: nat, p: nat)
    requires PointUpdate(extents, after, l, p) && Injective(extents) && WellFormed(extents) && p !in Mapped(extents)
    ensures Injective(after)
  {
    hide MapLogicalBlock, WellFormed, Mapped;
    forall a: nat, b: nat | a != b && MapLogicalBlock(after, a).Some? && MapLogicalBlock(after, b).Some?
      ensures MapLogicalBlock(after, a) != MapLogicalBlock(after, b)
    {
      if a == l {
        MapBound(extents, b);
      } else if b == l {
        MapBound(extents, a);
      }
    }
  }

  lemma ExtendsNext(old_: seq<Extent>, extents: seq<Extent>, after: seq<Extent>, l: nat, p: nat)
    requires Extends(old_, extents) && PointUpdate(extents, after, l, p) && MapLogicalBlock(extents, l) == None
    ensures Extends(old_, after)
  {
    hide MapLogicalBlock;
  }

  lemma NewBlocksNext(usedBefore: set<nat>, used: set<nat>, old_: seq<Extent>, disk: Disk, extents: seq<Extent>,
                      from: nat, l: nat, p: nat, after: seq<Extent>)
    requires NewBlocks(usedBefore, old_, disk, extents, from, l) && PointUpdate(extents, after, l, p) && from <= l
    requires WellFormed(extents) && Mapped(extents) <= used && usedBefore <= used && p !in used && p != 0
    ensures NewBlocks(usedBefore, old_, disk[p := Zeros(BLOCK_SZ)], after, from, l + 1)
  {
    hide MapLogicalBlock, WellFormed, Mapped, Zeros;
    forall m: nat | MapLogicalBlock(old_, m).None? && MapLogicalBlock(after, m).Some?
      ensures from <= m < l + 1
      ensures var q := MapLogicalBlock(after, m).value;
              q !in usedBefore && q != 0 && Block(disk[p := Zeros(BLOCK_SZ)], q) == Zeros(BLOCK_SZ)
    {
      if m != l {
        MapBound(extents, m);
      }
    }
  }

  lemma DiskNext(diskBefore: Disk, usedBefore: set<nat>, disk: Disk, used: set<nat>, p: nat)
    requires KeepsBlocks(diskBefore, disk, usedBefore) && SameOutside(diskBefore, disk, used)
    requires usedBefore <= used && p !in used
    ensures KeepsBlocks(diskBefore, disk[p := Zeros(BLOCK_SZ)], usedBefore)
    ensures SameOutside(diskBefore, disk[p := Zeros(BLOCK_SZ)], used + {p})
  {
    hide Zeros;
  }

  /** The bytes of the file are the same before and after. */
  lemma GrownBytes(diskBefore: Disk, usedBefore: set<nat>, old_: seq<Extent>,
                   disk: Disk, used: set<nat>, extents: seq<Extent>, from: nat, to: nat)
    requires Growing(diskBefore, usedBefore, old_, disk, used, extents, from, to)
    requires WellFormed(old_) && Mapped(old_) <= usedBefore
    ensures BytesEqual(diskBefore, old_, disk, extents)
  {
    hide MapLogicalBlock, WellFormed, Mapped, Block, Injective, SameOutside;
    forall k: nat ensures ByteAt(disk, extents, k) == ByteAt(diskBefore, old_, k) {
      if MapLogicalBlock(old_, k / BLOCK_SZ).Some? {
        MapBound(old_, k / BLOCK_SZ);
      }
    }
  }
}
