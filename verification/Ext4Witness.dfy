/** A volume of one block and sixteen inode numbers, with a root directory and an empty file "a", on which two calls of
    ext4-fs/src/vfs.rs do harm: `rename` to a long name, and `create_dir`. */
module Ext4Witness {
  import opened Common
  import opened Ext4Types
  import opened Ext4Bitmap
  import opened Ext4Layout
  import opened Ext4Volume
  import opened Ext4FileState
  import opened Ext4Files
  import opened Ext4Runs
  import opened Ext4DirBlock
  import opened Ext4Directory
  import opened Ext4Names
  import opened Ext4LongRename
  import Ns = Ext4Namespace
  import Ext4Alloc

  /** A bitmap block of one group, all of its bits clear. */
  method ClearBitmap() returns (m: array<bv8>)
    ensures fresh(m) && m.Length == 4096
    ensures |Bits(m[..])| == 32768 && forall k :: 0 <= k < 32768 ==> !Bits(m[..])[k]
  {
    m := new bv8[4096](_ => 0);
    forall k | 0 <= k < 32768 ensures !Bits(m[..])[k] {
      assert m[..][k / 8] == 0;
      ShiftIsMask(k % 8);
    }
  }

  /** No bit set, no number used. */
  lemma NoneUsed(geo: Ext4Alloc.Geometry, bits: seq<seq<bool>>)
    requires Ext4Alloc.Fits(geo, bits) && geo.groups == 1 && forall k :: 0 <= k < 32768 ==> !bits[0][k]
    ensures Ext4Alloc.Used(geo, bits) == {}
  {
    forall n: nat | geo.InRange(n) ensures !Ext4Alloc.IsUsed(geo, bits, n) {
      assert geo.GroupOf(n) == 0;
    }
  }

  /** One bit set, one number used. */
  lemma OneUsed(geo: Ext4Alloc.Geometry, bits: seq<bool>, n: nat)
    requires geo.groups == 1 && geo.first <= n < geo.total && n - geo.first < geo.perGroup
    requires Ext4Alloc.Fits(geo, [bits]) && |bits| == 32768
    ensures Ext4Alloc.Fits(geo, [bits[n - geo.first := true]])
    ensures Ext4Alloc.Used(geo, [bits[n - geo.first := true]]) == Ext4Alloc.Used(geo, [bits]) + {n}
  {
    hide Ext4Alloc.IsUsed;
    assert geo.perGroup <= 32768;
    Ext4Alloc.DivisionUnique(n - geo.first, geo.perGroup, 0, n - geo.first);
    assert Ext4Alloc.WithNumber(geo, [bits], n, true) == [bits[n - geo.first := true]];
    Ext4Alloc.UsedChanges(geo, [bits], n);
  }

  function BlocksOf(): Ext4Alloc.Geometry {
    Ext4Alloc.Geometry(1, 1, 2, 1)
  }

  function InodesOf(): Ext4Alloc.Geometry {
    Ext4Alloc.Geometry(1, 16, 17, 1)
  }

  /** The bitmap of the only block, in use. */
  method BlockMap() returns (m: array<bv8>)
    ensures fresh(m) && m.Length == 4096
    ensures Ext4Alloc.Fits(BlocksOf(), [Bits(m[..])]) && Ext4Alloc.Used(BlocksOf(), [Bits(m[..])]) == {1}
  {
    m := ClearBitmap();
    ghost var bits := Bits(m[..]);
    NoneUsed(BlocksOf(), [bits]);
    OneUsed(BlocksOf(), bits, 1);
    SetBitmapBit(m, 0, true);
  }

  /** The bitmap of the inode numbers: 2 and 12 are in use. */
  method InodeMap() returns (m: array<bv8>)
    ensures fresh(m) && m.Length == 4096
    ensures Ext4Alloc.Fits(InodesOf(), [Bits(m[..])]) && Ext4Alloc.Used(InodesOf(), [Bits(m[..])]) == {2, 12}
  {
    m := ClearBitmap();
    ghost var bits := Bits(m[..]);
    NoneUsed(InodesOf(), [bits]);
    OneUsed(InodesOf(), bits, 2);
    SetBitmapBit(m, 1, true);
    OneUsed(InodesOf(), bits[1 := true], 12);
    SetBitmapBit(m, 11, true);
  }

  /** The volume, opened, with nothing cached. */
  method OneFile() returns (v: Volume, c: DirIndexCache)
    ensures fresh(v) && fresh(v.fs) && fresh(v.fs.blockBitmaps) && fresh(v.fs.inodeBitmaps) && fresh(c)
    ensures v.Valid() && Numbered(v) && RecordsFit() && St(v) == OneFileVolume(1) && c.index == map[]
    ensures Numbers(v) == {2, 12} && Numbers(v) != AllInodes(v) && |v.used| == |v.AllBlocks()|
  {
    hide *;
    var blocks := BlockMap();
    var inodes := InodeMap();
    v := OpenVolume(blocks, inodes);
    c := new DirIndexCache();
  }

  method OpenVolume(blocks: array<bv8>, inodes: array<bv8>) returns (v: Volume)
    requires blocks.Length == inodes.Length == 4096 && blocks != inodes
    requires Ext4Alloc.Fits(BlocksOf(), [Bits(blocks[..])]) && Ext4Alloc.Used(BlocksOf(), [Bits(blocks[..])]) == {1}
    requires Ext4Alloc.Fits(InodesOf(), [Bits(inodes[..])]) && Ext4Alloc.Used(InodesOf(), [Bits(inodes[..])]) == {2, 12}
    ensures fresh(v) && fresh(v.fs) && v.fs.blockBitmaps == [blocks] && v.fs.inodeBitmaps == [inodes]
    ensures v.Valid() && Numbered(v) && RecordsFit() && St(v) == OneFileVolume(1)
    ensures Numbers(v) == {2, 12} && Numbers(v) != AllInodes(v) && |v.used| == |v.AllBlocks()|
  {
    hide *;
    RecordsAre();
    U32Value();
    Ext4DirBlock.Sizes();
    TwoMaps(blocks, inodes);
    var fs := new Ext4Alloc.Ext4FileSystem(1, 1, 2, 16, 11, [blocks], [inodes]);
    GeometryIs(fs);
    OneGroup([blocks], [inodes]);
    v := new Volume(fs, map[1 := OneFileBlock()], map[Ns.ROOT := DirInode(1), 12 := NewInode(Regular, 1)]);
    v.Opened();
    StParts(v);
    StateIs(St(v));
    NumbersAre(v);
    NumbersThere();
    OneBlock();
    NumberedJoin(v);
  }

  lemma TwoMaps(blocks: array<bv8>, inodes: array<bv8>)
    requires blocks.Length == inodes.Length == 4096 && blocks != inodes
    ensures Ext4Alloc.BLOCK_SZ == 4096 && Ext4Alloc.Separate([blocks] + [inodes]) && U64 > 2 && U32 > 16 && U48 > 2
  {
  }

  lemma GeometryIs(fs: Ext4Alloc.Ext4FileSystem)
    requires fs.firstDataBlock == 1 && fs.blocksPerGroup == 1 && fs.totalBlocks == 2 && fs.inodesPerGroup == 16
    requires |fs.blockBitmaps| == |fs.inodeBitmaps| == 1
    ensures fs.Blocks() == BlocksOf() && fs.Inodes() == InodesOf()
  {
  }

  lemma OneGroup(blocks: seq<array<bv8>>, inodes: seq<array<bv8>>)
    requires |blocks| == |inodes| == 1
    ensures Ext4Alloc.AllBits(blocks) == [Bits(blocks[0][..])] && Ext4Alloc.AllBits(inodes) == [Bits(inodes[0][..])]
  {
    hide Bits;
  }

  lemma StateIs(st: State)
    requires RecordsFit()
    requires st.disk == map[1 := OneFileBlock()] && st.inodes == map[Ns.ROOT := DirInode(1), 12 := NewInode(Regular, 1)]
    requires st.used == {1} && st.cache == map[]
    ensures st == OneFileVolume(1) && st.inodes.Keys == {2, 12}
  {
    hide OneFileBlock, DirInode, NewInode;
  }

  lemma NumbersThere()
    ensures {2, 12} != AllNumbers(InodesOf())
  {
    assert InodesOf().InRange(1) && 1 in AllNumbers(InodesOf());
  }

  lemma OneBlock()
    ensures AllNumbers(BlocksOf()) == {1}
  {
    forall n: nat ensures n in AllNumbers(BlocksOf()) <==> n == 1 {
    }
  }

  /** A call of `rename` that is due to succeed but for the length of the name, and a root directory that is none. */
  method RootLost(to: Name) returns (v: Volume, r: Result<bool>)
    requires EXT4_NAME_LEN < |to| <= 4000
    ensures r == Err(NameTooLong) && Ns.ROOT in v.inodes && !DirOk(v.disk, v.inodes[Ns.ROOT])
  {
    hide *;
    var c;
    v, c := OneFile();
    OneBlockLong();
    OneFileVolumeOk(1, to);
    VolumeParts(1);
    StParts(v);
    NotLong(to);
    r := LosesDirectory(v, c, Ns.ROOT, [97], to);
  }

  lemma OneBlockLong()
    ensures DirBlocks(DirInode(1)) == 1 && 2 < U32 && 1 < U48
  {
  }

  lemma NotLong(to: Name)
    requires |to| > EXT4_NAME_LEN
    ensures to != [97]
  {
  }

  /** A call of `create_dir` on the volume without a free block: it fails, the tree is as it was, and one inode number
      more is taken that is no inode's. */
  method NumberLost(name: Name) returns (v: Volume, r: Result<nat>)
    requires name != [] && |name| <= EXT4_NAME_LEN && name != Ns.DOT && name != Ns.DOTDOT && name != [97]
    ensures r == Err(NoSpace) && v.inodes.Keys == {2, 12} && RecordsFit() && LeftAlone(OneFileVolume(1), St(v))
    ensures exists i :: OneTaken({2, 12}, Numbers(v), i)
  {
    hide *;
    var c;
    v, c := OneFile();
    OneBlockLong();
    OneFileInOrder(1);
    VolumeParts(1);
    StParts(v);
    ghost var st := St(v);
    DirInodeIs(1);
    RootFree(1, name);
    NumberDueIs(st, Ns.ROOT, name, Numbers(v), AllInodes(v), v.AllBlocks());
    r := CreateDir(v, c, Ns.ROOT, name);
    SameInodes(st, St(v));
    StParts(v);
    TwoInodes();
  }

  lemma RootFree(b: nat, name: Name)
    requires RecordsFit() && name != [] && |name| <= EXT4_NAME_LEN && name != Ns.DOT && name != Ns.DOTDOT && name != [97]
    requires TreeOf(OneFileVolume(b)).names == map[2 := Ns.DotNames(2, 2)[[97] := (12, 1)]]
    ensures NameError(OneFileVolume(b), Ns.ROOT, name).None?
  {
    hide *;
    VolumeParts(b);
    NameLimit(name);
    TreeAt(OneFileVolume(b), Ns.ROOT);
    NameErrorIs(OneFileVolume(b), Ns.ROOT, name);
    NoOther(name);
    DirInodeIs(b);
  }

  lemma DirInodeIs(b: nat)
    ensures DirInode(b).kind == Directory && DirInode(b).links == 2 && 3 < U16
  {
    hide LeafNode;
  }

  lemma NoOther(name: Name)
    requires name != Ns.DOT && name != Ns.DOTDOT && name != [97]
    ensures name !in Ns.DotNames(2, 2)[[97] := (12, 1)]
  {
  }

  lemma TwoInodes()
    requires RecordsFit()
    ensures OneFileVolume(1).inodes.Keys == {2, 12}
  {
    hide OneFileBlock, DirInode, NewInode;
  }
}
