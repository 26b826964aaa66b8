/** `rename` of ext4-fs/src/vfs.rs to a name of more than 255 bytes where the first record with room has room that
    was never used: a directory that is whole before the call and none after it. */
module Ext4LongRename {
  import opened Common
  import opened Ext4Types
  import opened Ext4Extents
  import opened Ext4Layout
  import opened Ext4Tree
  import opened Ext4Volume
  import opened Ext4FileState
  import opened Ext4FileSteps
  import opened Ext4Files
  import opened Ext4ReadWrite
  import opened Ext4Runs
  import opened Ext4DirBlock
  import opened Ext4Directory
  import opened Ext4LongNames
  import opened Ext4Names
  import Ns = Ext4Namespace

  /** The entry is to go behind a live record, where the bytes are still zero. */
  ghost predicate FreshSplit(st: State, d: nat, name: Name) {
    && d in st.inodes && Align4(FIXED_SIZE + |name|) <= BLOCK_SZ && PlaceOf(st, d, name).Split?
    && var place := PlaceOf(st, d, name);
       4096 * place.l + 4096 <= st.inodes[d].size && FreshBehind(Blk(Content(st.disk, st.inodes[d]), place.l), place.off)
  }

  /** The two bytes that would be the length of a record behind the name are zero. */
  ghost predicate FreshBehind(block: seq<byte>, off: nat) {
    && At(block, off) && off < |block|
    && var r := RecHere(block, off);
       && Used(r) + FIXED_SIZE <= r.RecLen() && off + r.RecLen() <= |block|
       && block[off + Used(r) + 4] == 0 && block[off + Used(r) + 5] == 0
  }

  /** Such a directory is lost: its block is no chain of records any more. */
  lemma FreshSplitLost(st: State, st': State, d: nat, name: Name)
    requires FreshSplit(st, d, name) && LongRefused(st, st', d, name)
    ensures d in st'.inodes && !DirShape(Content(st'.disk, st'.inodes[d])) && !DirOk(st'.disk, st'.inodes[d])
  {
    hide *;
    LongRefusedParts(st, st', d, name);
    FreshParts(st, d, name);
    var place := PlaceOf(st, d, name);
    var block := Blk(Content(st.disk, st.inodes[d]), place.l);
    CutShortParts(st, st', d, place.l, place.off);
    FreshBehindParts(block, place.off);
    FreshRoom(block, place.off);
    EditedFacts(st, st', d, place.l, RecLenSet(block, place.off, Used(RecHere(block, place.off))));
    NoShape(st'.disk, st'.inodes[d], place.l);
  }

  lemma FreshParts(st: State, d: nat, name: Name)
    requires FreshSplit(st, d, name)
    ensures d in st.inodes && Align4(FIXED_SIZE + |name|) <= BLOCK_SZ && PlaceOf(st, d, name).Split?
    ensures var place := PlaceOf(st, d, name);
            4096 * place.l + 4096 <= st.inodes[d].size && FreshBehind(Blk(Content(st.disk, st.inodes[d]), place.l), place.off)
  {
    hide PlaceOf, FreshBehind, Align4, Content, Blk;
  }

  lemma FreshBehindParts(block: seq<byte>, off: nat)
    requires FreshBehind(block, off)
    ensures At(block, off) && off < |block|
    ensures var r := RecHere(block, off);
            && Used(r) + FIXED_SIZE <= r.RecLen() && off + r.RecLen() <= |block|
            && block[off + Used(r) + 4] == 0 && block[off + Used(r) + 5] == 0
  {
    hide At, RecHere, Used;
  }

  lemma NoShape(disk: Disk, f: Inode, l: nat)
    requires 4096 * l + 4096 <= f.size && !Tiled(Blk(Content(disk, f), l))
    ensures !DirShape(Content(disk, f)) && !DirOk(disk, f)
  {
    hide Tiled, Blk, Content, Distinct, DirEntries, Gapless;
  }

  /** A call that is due to succeed but for the length of the new name. */
  method LosesDirectory(v: Volume, c: DirIndexCache, d: nat, from: Name, to: Name) returns (r: Result<bool>)
    requires v.Valid() && Numbered(v) && FsOk(St(v), c.index) && d in v.inodes && DirBlocks(v.inodes[d]) + 1 < U32
    requires RenameError(St(v), d, from, to).None? && from != to && |to| > EXT4_NAME_LEN && FreshSplit(St(v), d, to)
    modifies v, v.fs, v.fs.blockBitmaps, c
    ensures r == Err(NameTooLong) && d in v.inodes && !DirOk(v.disk, v.inodes[d])
  {
    hide *;
    ghost var st := St(v);
    FreshParts(st, d, to);
    r := Rename(v, c, d, from, to);
    LongRenameParts(st, St(v), c.index, d, to, r.error, v.used, v.AllBlocks());
    LongFailedParts(st, St(v), d, to, r.error, v.used, v.AllBlocks());
    FreshSplitLost(st, St(v), d, to);
    StParts(v);
  }

  // A volume on which such a call can be made

  /** The block of a root directory with one file, "a": its record has what ".." does not need. */
  function OneFileBlock(): (block: seq<byte>)
    requires RecordsFit()
    ensures |block| == 4096
  {
    EncodeRec(Dot()) + EncodeRec(DotDot()) + EncodeRec(FileA())
  }

  function Dot(): Rec {
    NewRec(12, Ns.ROOT, Ns.FT_DIR, Ns.DOT)
  }

  function DotDot(): Rec {
    NewRec(12, Ns.ROOT, Ns.FT_DIR, Ns.DOTDOT)
  }

  function FileA(): Rec {
    NewRec(4072, 12, Ns.FT_REG_FILE, [97])
  }

  predicate RecordsFit() {
    Dot().Fits() && DotDot().Fits() && FileA().Fits()
  }

  /** That directory is inode 2, "a" is inode 12 and empty. */
  function OneFileVolume(b: nat): State
    requires RecordsFit()
  {
    State(map[b := OneFileBlock()], map[Ns.ROOT := DirInode(b), 12 := NewInode(Regular, 1)], {b}, map[])
  }

  lemma RecordsAre()
    ensures RecordsFit() && Dot().RecLen() == 12 && DotDot().RecLen() == 12 && FileA().RecLen() == 4072
    ensures Used(Dot()) == 12 && Used(DotDot()) == 12 && Used(FileA()) == 12
    ensures Dot().inode == 2 && DotDot().inode == 2 && FileA().inode == 12
    ensures EntryOf(Dot()) == [DirEntry(Ns.DOT, 2, 2)] && EntryOf(DotDot()) == [DirEntry(Ns.DOTDOT, 2, 2)]
    ensures EntryOf(FileA()) == [DirEntry([97], 12, 1)]
  {
    NewRecEntry(12, Ns.ROOT, Ns.FT_DIR, Ns.DOT);
    NewRecEntry(12, Ns.ROOT, Ns.FT_DIR, Ns.DOTDOT);
    NewRecEntry(4072, 12, Ns.FT_REG_FILE, [97]);
  }

  lemma BlockParts()
    requires RecordsFit()
    ensures OneFileBlock() == EncodeRec(Dot()) + EncodeRec(DotDot()) + EncodeRec(FileA())
  {
    hide EncodeRec, Dot, DotDot, FileA;
  }

  function Listed(): seq<DirEntry> {
    [DirEntry(Ns.DOT, 2, 2)] + [DirEntry(Ns.DOTDOT, 2, 2)] + [DirEntry([97], 12, 1)]
  }

  /** The block is a chain of these three records. */
  lemma BlockChain()
    ensures RecordsFit() && Tiled(OneFileBlock()) && EntriesIn(OneFileBlock()) == Listed()
    ensures Cut(OneFileBlock(), 0, Dot(), [], EncodeRec(DotDot()) + EncodeRec(FileA()))
    ensures Cut(OneFileBlock(), 12, DotDot(), EncodeRec(Dot()), EncodeRec(FileA()))
    ensures Cut(OneFileBlock(), 24, FileA(), EncodeRec(Dot()) + EncodeRec(DotDot()), [])
  {
    hide *;
    RecordsAre();
    RecordsParts();
    BlockParts();
    var a, b, c := EncodeRec(Dot()), EncodeRec(DotDot()), EncodeRec(FileA());
    EntriesOfRec(Dot());
    EntriesOfRec(DotDot());
    EntriesOfRec(FileA());
    Joined(a, b);
    Joined(b, c);
    Joined(a + b, c);
    NoBytesEntries();
    ListedIs();
    assert a + b + c == [] + a + (b + c) && a + b + c == a + b + c + [];
    CutJoin([], Dot(), b + c);
    CutJoin(a, DotDot(), c);
    CutJoin(a + b, FileA(), []);
  }

  lemma RecordsParts()
    requires RecordsFit()
    ensures Dot().Fits() && DotDot().Fits() && FileA().Fits()
  {
    hide Dot, DotDot, FileA;
  }

  lemma ListedIs()
    ensures Listed() == [DirEntry(Ns.DOT, 2, 2)] + [DirEntry(Ns.DOTDOT, 2, 2)] + [DirEntry([97], 12, 1)]
  {
  }

  lemma ListedNames()
    ensures Distinct(Listed()) && MapOf(Listed()) == Ns.DotNames(2, 2)[[97] := (12, 1)]
  {
    DotNamesAre(2, 2);
    var two := [DirEntry(Ns.DOT, 2, 2)] + [DirEntry(Ns.DOTDOT, 2, 2)];
    var three := Listed();
    assert three[..2] == two && three[2] == DirEntry([97], 12, 1);
    assert three[0].name == [46] && three[1].name == [46, 46] && three[2].name == [97];
    assert [46][0] != [97][0] && |[46, 46]| == 2;
  }

  /** The record at a cut. */
  lemma HereIs(block: seq<byte>, off: nat, r: Rec, a: seq<byte>, c: seq<byte>)
    requires Cut(block, off, r, a, c)
    ensures At(block, off) && off + FIXED_SIZE <= |block| && RecHere(block, off) == r
  {
    hide *;
    Ext4DirBlock.Sizes();
    CutSizes(block, off, r, a, c);
    CutTiled(block, off, r, a, c);
    CutFits(block, off, r, a, c);
    TiledOne(r);
    TiledConcat(EncodeRec(r), c);
    RestIs(block, off, a, EncodeRec(r), c);
    AtJoin(block, off);
    RecRoundTrip(r, c);
    RecHereIs(block, off);
  }

  lemma RestIs(block: seq<byte>, off: nat, a: seq<byte>, b: seq<byte>, c: seq<byte>)
    requires off + |b| <= |block| && block[off..off + |b|] == b && block[off + |b|..] == c
    ensures block[off..] == b + c
  {
  }

  lemma AtJoin(block: seq<byte>, off: nat)
    requires off <= |block| && Tiled(block[..off]) && Tiled(block[off..])
    ensures At(block, off)
  {
    hide Tiled;
  }

  /** The search for the room that a long name needs passes over "." and ".." and stops at "a". */
  lemma SearchStops(need: nat)
    requires 12 < need <= 4060
    ensures RecordsFit() && PlaceFrom(OneFileBlock(), 0, need) == Split(0, 24)
  {
    hide *;
    Ext4DirBlock.Sizes();
    BlockChain();
    RecordsAre();
    var block := OneFileBlock();
    HereIs(block, 0, Dot(), [], EncodeRec(DotDot()) + EncodeRec(FileA()));
    HereIs(block, 12, DotDot(), EncodeRec(Dot()), EncodeRec(FileA()));
    HereIs(block, 24, FileA(), EncodeRec(Dot()) + EncodeRec(DotDot()), []);
    PlaceHere(block, 0, 0, need);
    PlaceHere(block, 0, 12, need);
    PlaceHere(block, 0, 24, need);
    PlaceInBlock(block, 0, need);
    WholeBlock(block);
  }

  lemma WholeBlock(block: seq<byte>)
    requires |block| == 4096
    ensures Blk(block, 0) == block
  {
  }

  lemma RoomIsFresh()
    ensures RecordsFit() && FreshBehind(OneFileBlock(), 24)
  {
    hide *;
    Ext4DirBlock.Sizes();
    BlockChain();
    RecordsAre();
    var a := EncodeRec(Dot()) + EncodeRec(DotDot());
    HereIs(OneFileBlock(), 24, FileA(), a, []);
    CutSizes(OneFileBlock(), 24, FileA(), a, []);
    ZerosInside();
    FromSlice(OneFileBlock(), 24, EncodeRec(FileA()));
    FreshBehindJoin(OneFileBlock(), 24);
  }

  lemma ZerosInside()
    requires RecordsFit()
    ensures |EncodeRec(FileA())| == 4072 && EncodeRec(FileA())[16] == 0 && EncodeRec(FileA())[17] == 0
  {
    hide Le32, Le16;
  }

  lemma FromSlice(block: seq<byte>, off: nat, rec: seq<byte>)
    requires off + |rec| <= |block| && block[off..off + |rec|] == rec
    ensures forall k :: 0 <= k < |rec| ==> block[off + k] == rec[k]
  {
    forall k | 0 <= k < |rec| ensures block[off + k] == rec[k] {
      assert block[off..off + |rec|][k] == block[off + k];
    }
  }

  lemma FreshBehindJoin(block: seq<byte>, off: nat)
    requires At(block, off) && off < |block|
    requires var r := RecHere(block, off);
             && Used(r) == 12 && 20 <= r.RecLen() && off + r.RecLen() <= |block| && block[off + 16] == 0 && block[off + 17] == 0
    ensures FreshBehind(block, off)
  {
    hide At, RecHere, Used;
  }

  /** On this volume everything is in order. */
  lemma OneFileInOrder(b: nat)
    requires 0 < b < U48
    ensures RecordsFit() && FsOk(OneFileVolume(b), map[])
    ensures TreeOf(OneFileVolume(b)).names == map[2 := Ns.DotNames(2, 2)[[97] := (12, 1)]]
  {
    hide *;
    RecordsAre();
    RootOnly(b);
    NewFileJoins(b);
  }

  /** "a" may be renamed there, and the entry of the new name is to go into room that was never used. */
  lemma OneFileVolumeOk(b: nat, to: Name)
    requires 0 < b < U48 && EXT4_NAME_LEN < |to| <= 4000
    ensures RecordsFit()
    ensures FsOk(OneFileVolume(b), map[]) && RenameError(OneFileVolume(b), Ns.ROOT, [97], to).None?
    ensures FreshSplit(OneFileVolume(b), Ns.ROOT, to)
  {
    hide *;
    RecordsAre();
    BlockChain();
    OneFileInOrder(b);
    var st := OneFileVolume(b);
    VolumeParts(b);
    OneBlockFile(st.disk, b);
    NeedFits(to);
    SearchStops(Align4(FIXED_SIZE + |to|));
    RoomIsFresh();
    FreshJoin(st, Ns.ROOT, to, OneFileBlock(), 24);
    NoRenameError(b, to);
  }

  lemma NeedFits(to: Name)
    requires EXT4_NAME_LEN < |to| <= 4000
    ensures 12 < Align4(FIXED_SIZE + |to|) <= 4060 && 4060 <= BLOCK_SZ
  {
  }

  lemma FreshJoin(st: State, d: nat, name: Name, block: seq<byte>, off: nat)
    requires d in st.inodes && Align4(FIXED_SIZE + |name|) <= BLOCK_SZ && st.inodes[d].size == 4096
    requires |block| == 4096 && Content(st.disk, st.inodes[d]) == block
    requires PlaceFrom(block, 0, Align4(FIXED_SIZE + |name|)) == Split(0, off) && FreshBehind(block, off)
    ensures FreshSplit(st, d, name)
  {
    hide PlaceFrom, FreshBehind, Align4, Content;
    WholeBlock(block);
  }

  /** The volume with its root directory alone: sound, though "a" names nothing yet. */
  function RootVolume(b: nat): State
    requires RecordsFit()
  {
    State(map[b := OneFileBlock()], map[Ns.ROOT := DirInode(b)], {b}, map[])
  }

  lemma VolumeParts(b: nat)
    requires RecordsFit()
    ensures var st := OneFileVolume(b);
            && st.disk == map[b := OneFileBlock()] && st.inodes == map[Ns.ROOT := DirInode(b), 12 := NewInode(Regular, 1)]
            && st.used == {b} && st.cache == map[] && Block(st.disk, b) == OneFileBlock()
            && Ns.ROOT in st.inodes && st.inodes[Ns.ROOT] == DirInode(b)
    ensures var st := RootVolume(b);
            && st.disk == map[b := OneFileBlock()] && st.inodes == map[Ns.ROOT := DirInode(b)]
            && st.used == {b} && st.cache == map[] && Ns.ROOT in st.inodes
    ensures Ns.ROOT == 2
  {
    hide OneFileBlock, DirInode, NewInode;
  }

  /** The root directory by itself. */
  lemma RootOnly(b: nat)
    requires 0 < b < U48
    ensures RecordsFit() && Sound(RootVolume(b)) && AllDirsOk(RootVolume(b)) && Agrees(map[], RootVolume(b))
    ensures TreeOf(RootVolume(b)) == Ns.Tree(map[2 := Directory], map[2 := 2], map[2 := Ns.DotNames(2, 2)[[97] := (12, 1)]])
  {
    hide *;
    U32Value();
    RecordsAre();
    BlockChain();
    VolumeParts(b);
    var st, f := RootVolume(b), DirInode(b);
    OneBlockFile(st.disk, b);
    ListedNames();
    OneBlockDir(OneFileBlock());
    FileJoin(st.disk, st.used, f);
    DirJoin(st.disk, f, 1);
    IndexIsMap(st.disk, f);
    OneInode(st, 2, f);
    OneInodeTree(st, 2, f);
  }

  lemma OneInode(st: State, i: nat, f: Inode)
    requires st.inodes == map[i := f] && st.cache == map[] && FileOk(st.disk, st.used, f) && DirOk(st.disk, f)
    ensures Sound(st) && AllDirsOk(st) && Agrees(map[], st)
  {
    hide FileOk, DirOk, IndexOf;
  }

  lemma OneInodeTree(st: State, i: nat, f: Inode)
    requires st.inodes == map[i := f] && f.kind == Directory
    ensures TreeOf(st) == Ns.Tree(map[i := Directory], map[i := f.links], map[i := IndexOf(st.disk, f)])
  {
    hide IndexOf;
  }

  /** A root directory without files is in order, and stays so when one is made. */
  lemma BareRoot()
    ensures Ns.Sane(Ns.Tree(map[2 := Directory], map[2 := 2], map[2 := Ns.DotNames(2, 2)]))
  {
    var t := Ns.Tree(map[2 := Directory], map[2 := 2], map[2 := Ns.DotNames(2, 2)]);
    assert Ns.Subdirs(t, 2) == {};
    assert Ns.Refs(t, 2) == {};
    assert Ns.DOT != Ns.DOTDOT;
    assert Ns.NamedDir(t, 2) && Ns.Placed(t, 2) && Ns.Counted(t, 2);
  }

  lemma NewFileJoins(b: nat)
    requires 0 < b < U48 && RecordsFit()
    requires Sound(RootVolume(b)) && AllDirsOk(RootVolume(b)) && Agrees(map[], RootVolume(b))
    requires TreeOf(RootVolume(b)) == Ns.Tree(map[2 := Directory], map[2 := 2], map[2 := Ns.DotNames(2, 2)[[97] := (12, 1)]])
    ensures FsOk(OneFileVolume(b), map[])
    ensures TreeOf(OneFileVolume(b)).names == map[2 := Ns.DotNames(2, 2)[[97] := (12, 1)]]
  {
    hide *;
    VolumeParts(b);
    CreatedHere(b);
    CreatedTree(RootVolume(b), 12, 1, OneFileVolume(b), map[]);
    BareRoot();
    var t := Ns.Tree(map[2 := Directory], map[2 := 2], map[2 := Ns.DotNames(2, 2)]);
    AFree(t);
    Ns.CreateKeeps(t, 2, [97], 12);
    SameTrees(t);
    NothingLess(map[]);
    FsJoin(OneFileVolume(b), map[]);
  }

  lemma NothingLess(index: map<nat, Ns.Index>)
    requires index == map[]
    ensures index - {12} == map[]
  {
  }

  lemma CreatedHere(b: nat)
    requires RecordsFit() && Sound(RootVolume(b))
    ensures Created(RootVolume(b), 12, Regular, 1, OneFileVolume(b))
  {
    hide Sound, OneFileBlock, DirInode, NewInode;
    var none: map<nat, seq<Extent>> := map[];
    assert none - {12} == none;
  }

  lemma AFree(t: Ns.Tree)
    requires t == Ns.Tree(map[2 := Directory], map[2 := 2], map[2 := Ns.DotNames(2, 2)])
    ensures 2 in t.names && Ns.Free(t, 2, [97]) && 12 !in t.kinds
  {
    assert [97][0] != Ns.DOT[0] && |Ns.DOTDOT| == 2;
  }

  lemma SameTrees(t: Ns.Tree)
    requires t == Ns.Tree(map[2 := Directory], map[2 := 2], map[2 := Ns.DotNames(2, 2)])
    ensures Ns.Create(t, 2, [97], 12) ==
            Ns.Tree(map[2 := Directory][12 := Regular], map[2 := 2][12 := 1], map[2 := Ns.DotNames(2, 2)[[97] := (12, 1)]])
  {
  }

  lemma NoRenameError(b: nat, to: Name)
    requires RecordsFit() && |to| > EXT4_NAME_LEN
    requires TreeOf(OneFileVolume(b)).names == map[2 := Ns.DotNames(2, 2)[[97] := (12, 1)]]
    ensures RenameError(OneFileVolume(b), Ns.ROOT, [97], to).None?
  {
    hide *;
    VolumeParts(b);
    TreeAt(OneFileVolume(b), Ns.ROOT);
    RenameErrorIs(OneFileVolume(b), Ns.ROOT, [97], to);
    NoneOfThese(to);
  }

  lemma NoneOfThese(to: Name)
    requires |to| > EXT4_NAME_LEN
    ensures to != [] && to != Ns.DOT && to != Ns.DOTDOT && [97] != Ns.DOT && [97] != Ns.DOTDOT && to != [97]
    ensures var index := Ns.DotNames(2, 2)[[97] := (12, 1)]; to !in index && [97] in index
  {
    assert [97][0] != Ns.DOT[0];
  }
}
