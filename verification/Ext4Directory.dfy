/** Directories of ext4-fs/src/vfs.rs: files of 4096-byte blocks of records, edited by `dir_add_entry` and
    `dir_remove_entry`, and the cached index of their names. */
module Ext4Directory {
  import opened Common
  import opened Ext4Types
  import opened Ext4Extents
  import opened Ext4Layout
  import opened Ext4Tree
  import opened Ext4Volume
  import opened Ext4FileState
  import opened Ext4FileSteps
  import opened Ext4Files
  import opened Ext4ReadWrite
  import opened Ext4DirBlock

  // A directory's bytes

  /** Block l of a directory's bytes. */
  function Blk(bytes: seq<byte>, l: nat): (b: seq<byte>)
    requires 4096 * l + 4096 <= |bytes|
    ensures |b| == 4096
  {
    bytes[4096 * l..4096 * l + 4096]
  }

  /** Whole blocks, each a chain of records to its very end. */
  ghost predicate DirShape(bytes: seq<byte>) {
    && |bytes| % 4096 == 0
    && forall l :: 0 <= l && 4096 * l + 4096 <= |bytes| ==> Tiled(Blk(bytes, l))
  }

  /** The entries of the first n blocks. */
  ghost function EntriesUpTo(bytes: seq<byte>, n: nat): seq<DirEntry>
    requires 4096 * n <= |bytes|
  {
    if n == 0 then [] else EntriesUpTo(bytes, n - 1) + EntriesIn(Blk(bytes, n - 1))
  }

  /** The entries after the first n blocks. */
  ghost function EntriesFrom(bytes: seq<byte>, n: nat): seq<DirEntry>
    requires 4096 * n <= |bytes|
    decreases |bytes| - 4096 * n
  {
    if 4096 * n + 4096 > |bytes| then [] else EntriesIn(Blk(bytes, n)) + EntriesFrom(bytes, n + 1)
  }

  ghost function DirEntries(bytes: seq<byte>): seq<DirEntry> {
    EntriesFrom(bytes, 0)
  }

  lemma {:induction false} UpToAndFrom(bytes: seq<byte>, n: nat)
    requires 4096 * n <= |bytes|
    ensures DirEntries(bytes) == EntriesUpTo(bytes, n) + EntriesFrom(bytes, n)
    decreases n
  {
    hide EntriesIn, Blk;
    if n > 0 {
      UpToAndFrom(bytes, n - 1);
      assert EntriesUpTo(bytes, n - 1) + (EntriesIn(Blk(bytes, n - 1)) + EntriesFrom(bytes, n))
          == EntriesUpTo(bytes, n - 1) + EntriesIn(Blk(bytes, n - 1)) + EntriesFrom(bytes, n);
    }
  }

  /** Bytes that agree up to block n, or from it, have the same entries there. */
  lemma {:induction false} UpToSame(bytes: seq<byte>, other: seq<byte>, n: nat)
    requires 4096 * n <= |bytes| && 4096 * n <= |other|
    requires forall l :: 0 <= l < n ==> Blk(bytes, l) == Blk(other, l)
    ensures EntriesUpTo(bytes, n) == EntriesUpTo(other, n)
    decreases n
  {
    hide EntriesIn, Blk;
    if n > 0 {
      UpToSame(bytes, other, n - 1);
    }
  }

  lemma {:induction false} FromSame(bytes: seq<byte>, other: seq<byte>, n: nat)
    requires 4096 * n <= |bytes| && |bytes| == |other|
    requires forall l :: n <= l && 4096 * l + 4096 <= |bytes| ==> Blk(bytes, l) == Blk(other, l)
    ensures EntriesFrom(bytes, n) == EntriesFrom(other, n)
    decreases |bytes| - 4096 * n
  {
    hide EntriesIn, Blk;
    if 4096 * n + 4096 <= |bytes| {
      FromSame(bytes, other, n + 1);
    }
  }

  /** Overwriting bytes inside block l. */
  lemma OverwrittenBlocks(bytes: seq<byte>, l: nat, off: nat, buf: seq<byte>)
    requires 4096 * l + 4096 <= |bytes| && off + |buf| <= 4096
    ensures var after := Overwritten(bytes, 4096 * l + off, buf);
            && |after| == |bytes| && Blk(after, l) == Splice(Blk(bytes, l), off, buf)
            && forall k :: 0 <= k != l && 4096 * k + 4096 <= |bytes| ==> Blk(after, k) == Blk(bytes, k)
  {
  }

  /** Overwriting at the end adds a block. */
  lemma AppendedBlock(bytes: seq<byte>, n: nat, buf: seq<byte>)
    requires |bytes| == 4096 * n && |buf| == 4096
    ensures var after := Overwritten(bytes, 4096 * n, buf);
            && |after| == |bytes| + 4096 && Blk(after, n) == buf
            && forall k :: 0 <= k < n ==> Blk(after, k) == Blk(bytes, k)
  {
  }

  /** The entries of a directory of which block l has been edited. */
  lemma EditedEntries(bytes: seq<byte>, after: seq<byte>, l: nat)
    requires 4096 * l + 4096 <= |bytes| == |after|
    requires forall k :: 0 <= k != l && 4096 * k + 4096 <= |bytes| ==> Blk(after, k) == Blk(bytes, k)
    ensures DirEntries(bytes) == EntriesUpTo(bytes, l) + EntriesIn(Blk(bytes, l)) + EntriesFrom(bytes, l + 1)
    ensures DirEntries(after) == EntriesUpTo(bytes, l) + EntriesIn(Blk(after, l)) + EntriesFrom(bytes, l + 1)
    ensures DirShape(bytes) && Tiled(Blk(after, l)) ==> DirShape(after)
  {
    hide EntriesIn, Blk, Tiled;
    UpToAndFrom(bytes, l + 1);
    UpToAndFrom(after, l + 1);
    UpToSame(after, bytes, l);
    FromSame(after, bytes, l + 1);
  }

  /** A new block of one entry at the end. */
  lemma AppendedEntries(bytes: seq<byte>, after: seq<byte>, n: nat)
    requires |bytes| == 4096 * n && |after| == 4096 * n + 4096
    requires forall k :: 0 <= k < n ==> Blk(after, k) == Blk(bytes, k)
    ensures DirEntries(after) == DirEntries(bytes) + EntriesIn(Blk(after, n))
    ensures DirShape(bytes) && Tiled(Blk(after, n)) ==> DirShape(after)
  {
    hide EntriesIn, Blk, Tiled;
    UpToAndFrom(bytes, n);
    UpToAndFrom(after, n + 1);
    UpToSame(after, bytes, n);
  }

  // A directory on the volume

  function DirBlocks(inode: Inode): nat {
    inode.size / 4096
  }

  /** The index of a directory, as `build_dir_index` makes it from the bytes. */
  ghost function IndexOf(disk: Disk, inode: Inode): map<Name, (nat, nat)> {
    MapOf(DirEntries(Content(disk, inode)))
  }

  /** Blocks are mapped one after the other, at least the first n. */
  ghost predicate Gapless(extents: seq<Extent>, n: nat) {
    n <= MappedEnd(extents) && Covered(extents, 0, MappedEnd(extents))
  }

  /** A directory: whole tiled blocks, all of them mapped, and no name twice. Blocks may be mapped past its end. */
  ghost predicate DirOk(disk: Disk, inode: Inode) {
    && inode.kind == Directory
    && DirShape(Content(disk, inode)) && Distinct(DirEntries(Content(disk, inode)))
    && Gapless(Ext(disk, inode), DirBlocks(inode))
  }

  /** What a mapped block of a file holds is that part of its bytes. */
  lemma BlockIsContent(disk: Disk, inode: Inode, l: nat)
    requires 4096 * l + 4096 <= inode.size && MapLogicalBlock(Ext(disk, inode), l).Some?
    ensures Block(disk, MapLogicalBlock(Ext(disk, inode), l).value) == Blk(Content(disk, inode), l)
  {
    hide MapLogicalBlock, Block, Ext;
    var b := Block(disk, MapLogicalBlock(Ext(disk, inode), l).value);
    forall k | 0 <= k < 4096 ensures b[k] == Blk(Content(disk, inode), l)[k] {
      assert (4096 * l + k) / BLOCK_SZ == l && (4096 * l + k) % BLOCK_SZ == k;
    }
  }

  // Scanning one block

  /** No record of the chain has room for `need` bytes, dead or alive. */
  ghost predicate NoRoom(recs: seq<Rec>, need: nat) {
    forall i :: 0 <= i < |recs| ==>
      !(recs[i].inode == 0 && recs[i].RecLen() >= need) && !(recs[i].RecLen() >= Used(recs[i]) + need)
  }

  /** A dead record that is long enough. */
  ghost predicate DeadRoom(block: seq<byte>, off: nat, need: nat) {
    At(block, off) && off < |block| && RecHere(block, off).inode == 0 && RecHere(block, off).RecLen() >= need
  }

  /** A record with enough room behind its name. */
  ghost predicate SplitRoom(block: seq<byte>, off: nat, need: nat) {
    At(block, off) && off < |block| && RecHere(block, off).RecLen() >= Used(RecHere(block, off)) + need
  }

  lemma RoomJoin(block: seq<byte>, off: nat, need: nat)
    requires At(block, off) && off < |block|
    ensures RecHere(block, off).inode == 0 && RecHere(block, off).RecLen() >= need <==> DeadRoom(block, off, need)
    ensures RecHere(block, off).RecLen() >= Used(RecHere(block, off)) + need ==> SplitRoom(block, off, need)
  {
    hide At, RecHere, Used;
  }

  /** Where `dir_add_entry` puts an entry: over a dead record, behind a record that it splits, or in a new block. */
  datatype Place = Reuse(l: nat, off: nat) | Split(l: nat, off: nat) | Append

  /** The first record of block l with room for `need` bytes, from `off` on. */
  ghost function PlaceIn(block: seq<byte>, l: nat, off: nat, need: nat): Place
    decreases |block| - off
  {
    if !At(block, off) || off + FIXED_SIZE > |block| then Append
    else
      HereFacts(block, off);
      var r := RecHere(block, off);
      if r.inode == 0 && r.RecLen() >= need then Reuse(l, off)
      else if r.RecLen() >= Used(r) + need then Split(l, off)
      else PlaceIn(block, l, off + r.RecLen(), need)
  }

  /** The first record with room from block l on. */
  ghost function PlaceFrom(bytes: seq<byte>, l: nat, need: nat): Place
    decreases |bytes| - 4096 * l
  {
    if 4096 * l + 4096 > |bytes| then Append
    else
      var place := PlaceIn(Blk(bytes, l), l, 0, need);
      if place.Append? then PlaceFrom(bytes, l + 1, need) else place
  }

  lemma PlaceHere(block: seq<byte>, l: nat, off: nat, need: nat)
    requires At(block, off) && off + FIXED_SIZE <= |block|
    ensures off < |block|
    ensures var r := RecHere(block, off);
            && (r.inode == 0 && r.RecLen() >= need ==> PlaceIn(block, l, off, need) == Reuse(l, off))
            && (!(r.inode == 0 && r.RecLen() >= need) && r.RecLen() >= Used(r) + need ==> PlaceIn(block, l, off, need) == Split(l, off))
            && (!(r.inode == 0 && r.RecLen() >= need) && !(r.RecLen() >= Used(r) + need) ==>
                 PlaceIn(block, l, off, need) == PlaceIn(block, l, off + r.RecLen(), need))
  {
    hide At, RecHere, Used;
  }

  lemma PlaceNowhere(block: seq<byte>, l: nat, off: nat, need: nat)
    requires off + FIXED_SIZE > |block|
    ensures PlaceIn(block, l, off, need) == Append
  {
  }

  lemma PlaceInBlock(bytes: seq<byte>, l: nat, need: nat)
    ensures 4096 * l + 4096 > |bytes| ==> PlaceFrom(bytes, l, need) == Append
    ensures 4096 * l + 4096 <= |bytes| ==>
              var place := PlaceIn(Blk(bytes, l), l, 0, need);
              PlaceFrom(bytes, l, need) == if place.Append? then PlaceFrom(bytes, l + 1, need) else place
  {
    hide PlaceIn, Blk;
  }

  /** The inner loop of `dir_add_entry`: the first record with room, dead (`reuse`) or to be split; no record
      before it has any. */
  method FindRoom(block: seq<byte>, need: nat, ghost l: nat) returns (found: Option<nat>, reuse: bool)
    requires |block| == 4096 && Tiled(block)
    ensures found.Some? ==> RoomFreeUpTo(block, found.value, need)
    ensures found.Some? ==> if reuse then DeadRoom(block, found.value, need) else SplitRoom(block, found.value, need)
    ensures found.Some? && !reuse ==> !DeadRoom(block, found.value, need)
    ensures found.None? ==> NoRoom(Recs(block), need)
    ensures PlaceIn(block, l, 0, need) == if found.None? then Append else if reuse then Reuse(l, found.value) else Split(l, found.value)
  {
    hide *;
    U32Value();
    Ext4DirBlock.Sizes();
    var off := 0;
    AtStart(block);
    NoRoomYet(block, need);
    while off + FIXED_SIZE <= 4096
      invariant At(block, off) && RoomFreeUpTo(block, off, need) && PlaceIn(block, l, off, need) == PlaceIn(block, l, 0, need)
      decreases 4096 - off
    {
      HereFacts(block, off);
      PlaceHere(block, l, off, need);
      RoomJoin(block, off, need);
      var r := RecHere(block, off);
      if r.inode == 0 && r.RecLen() >= need {
        return Some(off), true;
      }
      var used := Used(r);
      if r.RecLen() >= used + need {
        return Some(off), false;
      }
      NoRoomNext(block, off, need);
      off := off + r.RecLen();
    }
    PlaceNowhere(block, l, off, need);
    NoRoomAtAll(block, off, need);
    return None, false;
  }

  /** What the search finds: the record has room, and no record before it in search order has any. */
  lemma {:induction false} FirstRoom(bytes: seq<byte>, l: nat, need: nat)
    requires DirShape(bytes) && 4096 * l <= |bytes|
    ensures match PlaceFrom(bytes, l, need)
            case Reuse(k, off) => FirstAt(bytes, l, k, off, need) && DeadRoom(Blk(bytes, k), off, need)
            case Split(k, off) => FirstAt(bytes, l, k, off, need) && SplitRoom(Blk(bytes, k), off, need) && !DeadRoom(Blk(bytes, k), off, need)
            case Append => NoneBetween(bytes, l, |bytes| / 4096, need)
    decreases |bytes| - 4096 * l
  {
    hide *;
    PlaceInBlock(bytes, l, need);
    if 4096 * l + 4096 <= |bytes| {
      ShapeAt(bytes, l);
      AtStart(Blk(bytes, l));
      NoRoomYet(Blk(bytes, l), need);
      FirstRoomIn(Blk(bytes, l), l, 0, need);
      NoneYet(bytes, l, need);
      if PlaceIn(Blk(bytes, l), l, 0, need).Append? {
        FirstRoom(bytes, l + 1, need);
        NoneBefore(bytes, l, need);
      } else {
        FirstHere(bytes, l, PlaceIn(Blk(bytes, l), l, 0, need).off, need);
      }
    } else {
      NoneYet(bytes, l, need);
    }
  }

  /** No record of the blocks from l up to k has room. */
  ghost predicate NoneBetween(bytes: seq<byte>, l: nat, k: nat, need: nat) {
    forall j :: l <= j < k && 4096 * j + 4096 <= |bytes| ==> Tiled(Blk(bytes, j)) && NoRoom(Recs(Blk(bytes, j)), need)
  }

  /** No record from block l on has room before the one at `off` of block k. */
  ghost predicate FirstAt(bytes: seq<byte>, l: nat, k: nat, off: nat, need: nat) {
    l <= k && 4096 * k + 4096 <= |bytes| && NoneBetween(bytes, l, k, need) && RoomFreeUpTo(Blk(bytes, k), off, need)
  }

  lemma NoneYet(bytes: seq<byte>, l: nat, need: nat)
    ensures NoneBetween(bytes, l, l, need)
    ensures 4096 * l + 4096 > |bytes| ==> NoneBetween(bytes, l, |bytes| / 4096, need)
  {
    hide Blk, Tiled, Recs, NoRoom;
  }

  lemma NoneBefore(bytes: seq<byte>, l: nat, need: nat)
    requires 4096 * l + 4096 <= |bytes| && Tiled(Blk(bytes, l)) && NoRoom(Recs(Blk(bytes, l)), need)
    ensures forall k :: NoneBetween(bytes, l + 1, k, need) ==> NoneBetween(bytes, l, k, need)
    ensures forall k, off :: FirstAt(bytes, l + 1, k, off, need) ==> FirstAt(bytes, l, k, off, need)
  {
    hide Blk, Tiled, Recs, NoRoom, RoomFreeUpTo;
  }

  lemma FirstHere(bytes: seq<byte>, l: nat, off: nat, need: nat)
    requires 4096 * l + 4096 <= |bytes| && RoomFreeUpTo(Blk(bytes, l), off, need) && NoneBetween(bytes, l, l, need)
    ensures FirstAt(bytes, l, l, off, need)
  {
    hide Blk, NoneBetween, RoomFreeUpTo;
  }

  lemma {:induction false} FirstRoomIn(block: seq<byte>, l: nat, off: nat, need: nat)
    requires At(block, off) && RoomFreeUpTo(block, off, need)
    ensures match PlaceIn(block, l, off, need)
            case Reuse(k, o) => k == l && RoomFreeUpTo(block, o, need) && DeadRoom(block, o, need)
            case Split(k, o) => k == l && RoomFreeUpTo(block, o, need) && SplitRoom(block, o, need) && !DeadRoom(block, o, need)
            case Append => Tiled(block) && NoRoom(Recs(block), need)
    decreases |block| - off
  {
    hide *;
    Ext4DirBlock.Sizes();
    if off + FIXED_SIZE <= |block| {
      HereFacts(block, off);
      PlaceHere(block, l, off, need);
      RoomJoin(block, off, need);
      var r := RecHere(block, off);
      if !(r.inode == 0 && r.RecLen() >= need) && !(r.RecLen() >= Used(r) + need) {
        NoRoomNext(block, off, need);
        FirstRoomIn(block, l, off + r.RecLen(), need);
      }
    } else {
      PlaceNowhere(block, l, off, need);
      NoRoomAtAll(block, off, need);
    }
  }

  /** The record at a place in the chain. */
  function RecHere(block: seq<byte>, off: nat): Rec
    requires At(block, off) && off < |block|
  {
    CutAt(block, off);
    FirstRec(block[off..])
  }

  lemma HereFacts(block: seq<byte>, off: nat)
    requires At(block, off) && off + FIXED_SIZE <= |block|
    ensures off < |block|
    ensures var r := RecHere(block, off); FIXED_SIZE <= r.RecLen() && off + r.RecLen() <= |block| && r.Fits() && At(block, off + r.RecLen())
  {
    hide *;
    Ext4DirBlock.Sizes();
    HereCut(block, off);
    var r := RecHere(block, off);
    CutSizes(block, off, r, block[..off], block[off + r.RecLen()..]);
    CutFits(block, off, r, block[..off], block[off + r.RecLen()..]);
    AtNext(block, off, r, block[..off], block[off + r.RecLen()..]);
  }

  lemma HereCut(block: seq<byte>, off: nat)
    requires At(block, off) && off < |block|
    ensures var r := RecHere(block, off); off + r.RecLen() <= |block| && Cut(block, off, r, block[..off], block[off + r.RecLen()..])
  {
    hide Cut, At, Tiled;
    CutAt(block, off);
  }

  ghost predicate RoomFreeUpTo(block: seq<byte>, off: nat, need: nat) {
    off <= |block| && Tiled(block[..off]) && NoRoom(Recs(block[..off]), need)
  }

  lemma NoRoomYet(block: seq<byte>, need: nat)
    ensures RoomFreeUpTo(block, 0, need)
  {
  }

  lemma NoRoomNext(block: seq<byte>, off: nat, need: nat)
    requires At(block, off) && off < |block| && RoomFreeUpTo(block, off, need)
    requires var r := RecHere(block, off); !(r.inode == 0 && r.RecLen() >= need) && !(r.RecLen() >= Used(r) + need)
    ensures RoomFreeUpTo(block, off + RecHere(block, off).RecLen(), need)
  {
    NextRecs(block, off);
    hide Tiled, Recs, Used, RecHere, At;
  }

  lemma NextRecs(block: seq<byte>, off: nat)
    requires At(block, off) && off < |block| && Tiled(block[..off])
    ensures var n := off + RecHere(block, off).RecLen();
            n <= |block| && Tiled(block[..n]) && Recs(block[..n]) == Recs(block[..off]) + [RecHere(block, off)]
  {
    hide *;
    HereCut(block, off);
    var r := RecHere(block, off);
    CutSizes(block, off, r, block[..off], block[off + r.RecLen()..]);
    TiledOne(r);
    TiledConcat(block[..off], EncodeRec(r));
    assert block[..off + r.RecLen()] == block[..off] + block[off..off + r.RecLen()];
  }

  lemma NoRoomAtAll(block: seq<byte>, off: nat, need: nat)
    requires RoomFreeUpTo(block, off, need) && At(block, off) && off + FIXED_SIZE > |block|
    ensures Tiled(block) && NoRoom(Recs(block), need)
  {
    AllTiled(block, off);
    assert block[..off] == block;
  }

  /** Fewer bytes than a record has are none. */
  lemma AllTiled(block: seq<byte>, off: nat)
    requires At(block, off) && off + FIXED_SIZE > |block|
    ensures off == |block|
  {
  }

  /** The inner loop of `dir_remove_entry`: the first live record of that name. */
  method FindNamed(block: seq<byte>, name: Name) returns (found: Option<nat>)
    requires |block| == 4096 && Tiled(block)
    ensures found.Some? ==> At(block, found.value) && found.value < 4096
    ensures found.Some? ==> var r := RecHere(block, found.value); r.Fits() && r.Live() && r.Name() == name
    ensures found.None? ==> forall e :: e in EntriesIn(block) ==> e.name != name
  {
    hide *;
    U32Value();
    Ext4DirBlock.Sizes();
    var off := 0;
    AtStart(block);
    NoNameYet(block, name);
    while off + FIXED_SIZE <= 4096
      invariant At(block, off) && NameFreeUpTo(block, off, name)
      decreases 4096 - off
    {
      HereFacts(block, off);
      var r := RecHere(block, off);
      var matches := Matches(r, name);
      if matches {
        MatchFacts(r, name);
        return Some(off);
      }
      NoNameNext(block, off, name);
      off := off + r.RecLen();
    }
    NoNameAtAll(block, off, name);
    return None;
  }

  predicate Matches(r: Rec, name: Name)
    requires r.Fits()
  {
    r.inode != 0 && r.nameLen > 0 && r.body[..r.nameLen] == name
  }

  lemma MatchFacts(r: Rec, name: Name)
    requires r.Fits() && Matches(r, name)
    ensures r.Live() && r.Name() == name
  {
  }

  ghost predicate NameFreeUpTo(block: seq<byte>, off: nat, name: Name) {
    off <= |block| && forall e :: e in EntriesIn(block[..off]) ==> e.name != name
  }

  lemma NoNameYet(block: seq<byte>, name: Name)
    ensures NameFreeUpTo(block, 0, name)
  {
    NoBytesEntries();
    assert block[..0] == [];
  }

  lemma NoBytesEntries()
    ensures Tiled([]) && EntriesIn([]) == []
  {
  }

  lemma NoNameNext(block: seq<byte>, off: nat, name: Name)
    requires At(block, off) && off < |block| && NameFreeUpTo(block, off, name)
    requires var r := RecHere(block, off); r.Fits() && !Matches(r, name)
    ensures NameFreeUpTo(block, off + RecHere(block, off).RecLen(), name)
  {
    HereCut(block, off);
    var r := RecHere(block, off);
    AtNext(block, off, r, block[..off], block[off + r.RecLen()..]);
    hide Tiled, EntriesIn, EncodeRec, At, Cut, RecHere;
  }

  lemma NoNameAtAll(block: seq<byte>, off: nat, name: Name)
    requires NameFreeUpTo(block, off, name) && At(block, off) && off + FIXED_SIZE > |block|
    ensures forall e :: e in EntriesIn(block) ==> e.name != name
  {
    AllTiled(block, off);
    assert block[..off] == block;
  }

  // Writing records to the volume

  /** The three pieces in which `dir_write_entry_at` writes a record. */
  lemma NewRecPieces(recLen: nat, inode: nat, fileType: nat, name: Name)
    requires FIXED_SIZE + |name| <= recLen && NewRec(recLen, inode, fileType, name).Fits()
    ensures var buf := EncodeRec(NewRec(recLen, inode, fileType, name));
            && |buf| == recLen && |name| < 256 && fileType < 256
            && buf[0..0 + FIXED_SIZE] == Le32(inode) + Le16(recLen) + [|name|, fileType]
            && buf[FIXED_SIZE..FIXED_SIZE + |name|] == name
            && buf[FIXED_SIZE + |name|..FIXED_SIZE + |name| + (recLen - FIXED_SIZE - |name|)] == Zeros(recLen - FIXED_SIZE - |name|)
  {
    hide Le16, Le32;
  }

  /** `dir_write_entry_at`. */
  method DirWriteEntryAt(v: Volume, extents: seq<Extent>, l: nat, entryOff: nat, recLen: nat, inodeNum: nat, fileType: nat, name: Name)
    returns (r: Result<bool>)
    requires WellFormed(extents) && Injective(extents) && MapLogicalBlock(extents, l).Some?
    requires entryOff + recLen <= BLOCK_SZ && recLen % 4 == 0 && 0 < inodeNum < U32 && fileType < 256 && name != []
    modifies v`disk
    ensures r.Ok? <==> |name| <= EXT4_NAME_LEN && Align4(FIXED_SIZE + |name|) <= recLen
    ensures r.Ok? ==> FIXED_SIZE + |name| <= recLen && NewRec(recLen, inodeNum, fileType, name).Fits()
    ensures r.Ok? ==> Written(old(v.disk), extents, v.disk, 4096 * l + entryOff, EncodeRec(NewRec(recLen, inodeNum, fileType, name)), recLen)
    ensures r.Err? ==> v.disk == old(v.disk) && r.error == if |name| > EXT4_NAME_LEN then NameTooLong else NoSpace
  {
    hide *;
    U32Value();
    Ext4DirBlock.Sizes();
    NameLimit(name);
    if |name| > EXT4_NAME_LEN {
      return Err(NameTooLong);
    }
    var need := Align4(FIXED_SIZE + |name|);
    if need > recLen {
      return Err(NoSpace);
    }
    Placed(inodeNum, fileType, name);
    NewRecEntry(recLen, inodeNum, fileType, name);
    NewRecPieces(recLen, inodeNum, fileType, name);
    ghost var buf := EncodeRec(NewRec(recLen, inodeNum, fileType, name));
    ghost var base := 4096 * l + entryOff;
    var pblock := MapLogicalBlock(extents, l).value;
    var header := Le32(inodeNum) + Le16(recLen) + [|name|, fileType];
    WrittenNothing(v.disk, extents, base, buf);
    WithinBlock(l, entryOff, 0);
    WrittenNext(old(v.disk), extents, v.disk, base, buf, 0, pblock, entryOff, FIXED_SIZE);
    v.WriteBytes(pblock, entryOff, header);
    var nameOff := entryOff + FIXED_SIZE;
    WithinBlock(l, entryOff, FIXED_SIZE);
    WrittenNext(old(v.disk), extents, v.disk, base, buf, FIXED_SIZE, pblock, nameOff, |name|);
    v.WriteBytes(pblock, nameOff, name);
    var rest := recLen - FIXED_SIZE - |name|;
    if rest > 0 {
      WithinBlock(l, entryOff, FIXED_SIZE + |name|);
      WrittenNext(old(v.disk), extents, v.disk, base, buf, FIXED_SIZE + |name|, pblock, nameOff + |name|, rest);
      v.WriteBytes(pblock, nameOff + |name|, Zeros(rest));
    }
    return Ok(true);
  }

  lemma NameLimit(name: Name)
    ensures EXT4_NAME_LEN == 255 && Align4(FIXED_SIZE + |name|) >= FIXED_SIZE + |name|
  {
  }

  lemma Placed(inode: nat, fileType: nat, name: Name)
    requires 0 < inode < U32 && fileType < 256 && name != [] && |name| <= EXT4_NAME_LEN
    ensures Entryable(inode, fileType, name)
  {
  }

  lemma WithinBlock(l: nat, off: nat, n: nat)
    requires off + n < 4096
    ensures (4096 * l + off + n) / BLOCK_SZ == l && (4096 * l + off + n) % BLOCK_SZ == off + n
  {
  }

  /** One block of one directory has new bytes; nothing else has changed. */
  ghost predicate BlockEdited(st: State, st': State, i: nat, l: nat, b: seq<byte>) {
    && Sound(st') && OthersSame(st, st', i) && i in st.inodes && i in st'.inodes
    && st'.used == st.used && st'.inodes[i] == st.inodes[i]
    && Ext(st'.disk, st.inodes[i]) == Ext(st.disk, st.inodes[i]) && Owned(st'.disk, st.inodes[i]) == Owned(st.disk, st.inodes[i])
    && 4096 * l + 4096 <= st.inodes[i].size
    && Blk(Content(st'.disk, st.inodes[i]), l) == b
    && forall k :: 0 <= k != l && 4096 * k + 4096 <= st.inodes[i].size ==>
         Blk(Content(st'.disk, st.inodes[i]), k) == Blk(Content(st.disk, st.inodes[i]), k)
  }

  lemma EditBlock(st: State, st': State, i: nat, l: nat, off: nat, buf: seq<byte>)
    requires Sound(st) && i in st.inodes && st' == st.(disk := st'.disk)
    requires Written(st.disk, Ext(st.disk, st.inodes[i]), st'.disk, 4096 * l + off, buf, |buf|)
    requires off + |buf| <= 4096 && 4096 * l + 4096 <= st.inodes[i].size
    ensures BlockEdited(st, st', i, l, Splice(Blk(Content(st.disk, st.inodes[i]), l), off, buf))
  {
    hide *;
    WroteInside(st, st', i, 4096 * l + off, buf);
    WroteSound(st, i, 4096 * l + off, buf, st');
    WroteTree(st, i, 4096 * l + off, buf, st');
    OverwrittenBlocks(Content(st.disk, st.inodes[i]), l, off, buf);
    EditedJoin(st, st', i, l, Splice(Blk(Content(st.disk, st.inodes[i]), l), off, buf));
  }

  lemma WroteInside(st: State, st': State, i: nat, off: nat, buf: seq<byte>)
    requires Sound(st) && i in st.inodes && st' == st.(disk := st'.disk) && off + |buf| <= st.inodes[i].size
    requires Written(st.disk, Ext(st.disk, st.inodes[i]), st'.disk, off, buf, |buf|)
    ensures WroteTo(st, i, off, buf, st') && st'.inodes == st.inodes && st'.used == st.used
  {
    hide Sound, Ext, Written;
    var f := st.inodes[i];
    assert f.(size := Max(f.size, off + |buf|)) == f;
  }

  lemma EditedJoin(st: State, st': State, i: nat, l: nat, b: seq<byte>)
    requires Sound(st') && OthersSame(st, st', i) && i in st.inodes && st'.inodes == st.inodes && st'.used == st.used
    requires Ext(st'.disk, st.inodes[i]) == Ext(st.disk, st.inodes[i]) && Owned(st'.disk, st.inodes[i]) == Owned(st.disk, st.inodes[i])
    requires 4096 * l + 4096 <= st.inodes[i].size
    requires Blk(Content(st'.disk, st.inodes[i]), l) == b
    requires forall k :: 0 <= k != l && 4096 * k + 4096 <= st.inodes[i].size ==>
               Blk(Content(st'.disk, st.inodes[i]), k) == Blk(Content(st.disk, st.inodes[i]), k)
    ensures BlockEdited(st, st', i, l, b)
  {
    hide Sound, OthersSame, Ext, Owned, Content, Blk;
  }

  lemma EditedTwice(st: State, st1: State, st2: State, i: nat, l: nat, b1: seq<byte>, b2: seq<byte>)
    requires BlockEdited(st, st1, i, l, b1) && BlockEdited(st1, st2, i, l, b2)
    ensures BlockEdited(st, st2, i, l, b2)
  {
    hide Sound, OthersSame, Ext, Owned, Content, Blk;
    OthersSameBoth(st, st1, st2, i);
  }

  // What happens to the names

  /** The directory's index is `index` now; other inodes are as before, and the bitmap has changed by exactly
      this directory's blocks. */
  ghost predicate DirChanged(st: State, st': State, i: nat, index: map<Name, (nat, nat)>) {
    && Sound(st') && OthersSame(st, st', i) && i in st.inodes && i in st'.inodes
    && DirOk(st'.disk, st'.inodes[i]) && IndexOf(st'.disk, st'.inodes[i]) == index
    && st'.inodes[i].kind == st.inodes[i].kind && st'.inodes[i].links == st.inodes[i].links
    && Exchanged(st.used, st'.used, Owned(st.disk, st.inodes[i]), Owned(st'.disk, st'.inodes[i]))
  }

  /** An edited block whose entries fit between the others' makes a changed directory. */
  lemma EditedDir(st: State, st': State, i: nat, l: nat, b: seq<byte>, index: map<Name, (nat, nat)>)
    requires BlockEdited(st, st', i, l, b) && DirOk(st.disk, st.inodes[i]) && Tiled(b)
    requires var bytes := Content(st.disk, st.inodes[i]);
             var after := EntriesUpTo(bytes, l) + EntriesIn(b) + EntriesFrom(bytes, l + 1);
             Distinct(after) && MapOf(after) == index
    ensures DirChanged(st, st', i, index)
  {
    hide Sound, OthersSame, Ext, Owned, Content, Blk, Tiled, EntriesIn, EntriesUpTo, EntriesFrom, MapOf, Distinct, Gapless, DirShape, DirEntries;
    EditedEntries(Content(st.disk, st.inodes[i]), Content(st'.disk, st.inodes[i]), l);
    OwnedIsUsed(st', i);
  }

  lemma OwnedIsUsed(st: State, i: nat)
    requires Sound(st) && i in st.inodes
    ensures Owned(st.disk, st.inodes[i]) <= st.used
    ensures Exchanged(st.used, st.used, Owned(st.disk, st.inodes[i]), Owned(st.disk, st.inodes[i]))
  {
    hide WellFormed, Injective, ZeroTail, Owned, Tree, Ext, Mapped, AllApart, CacheOk;
    assert FileOk(st.disk, st.used, st.inodes[i]);
  }

  /** The entries of a directory around block l. */
  lemma AroundBlock(bytes: seq<byte>, l: nat)
    requires 4096 * l + 4096 <= |bytes|
    ensures DirEntries(bytes) == EntriesUpTo(bytes, l) + EntriesIn(Blk(bytes, l)) + EntriesFrom(bytes, l + 1)
  {
    hide *;
    EditedEntries(bytes, bytes, l);
  }

  /** A new entry inside one block. */
  lemma AddedInBlock(bytes: seq<byte>, l: nat, b: seq<byte>, x: seq<DirEntry>, e: DirEntry, y: seq<DirEntry>)
    requires 4096 * l + 4096 <= |bytes| && Distinct(DirEntries(bytes)) && e.name !in MapOf(DirEntries(bytes))
    requires EntriesIn(Blk(bytes, l)) == x + y && EntriesIn(b) == x + [e] + y
    ensures var after := EntriesUpTo(bytes, l) + EntriesIn(b) + EntriesFrom(bytes, l + 1);
            Distinct(after) && MapOf(after) == MapOf(DirEntries(bytes))[e.name := (e.inode, e.fileType)]
  {
    hide *;
    AroundBlock(bytes, l);
    var p, q := EntriesUpTo(bytes, l), EntriesFrom(bytes, l + 1);
    assert p + (x + y) + q == (p + x) + (y + q);
    assert p + (x + [e] + y) + q == (p + x) + [e] + (y + q);
    EntryAdded(p + x, e, y + q);
  }

  /** An entry gone from one block. */
  lemma RemovedInBlock(bytes: seq<byte>, l: nat, b: seq<byte>, x: seq<DirEntry>, e: DirEntry, y: seq<DirEntry>)
    requires 4096 * l + 4096 <= |bytes| && Distinct(DirEntries(bytes))
    requires EntriesIn(Blk(bytes, l)) == x + [e] + y && EntriesIn(b) == x + y
    ensures var after := EntriesUpTo(bytes, l) + EntriesIn(b) + EntriesFrom(bytes, l + 1);
            Distinct(after) && MapOf(after) == MapOf(DirEntries(bytes)) - {e.name}
    ensures e.name in MapOf(DirEntries(bytes)) && MapOf(DirEntries(bytes))[e.name] == (e.inode, e.fileType)
  {
    hide *;
    AroundBlock(bytes, l);
    var p, q := EntriesUpTo(bytes, l), EntriesFrom(bytes, l + 1);
    assert p + (x + y) + q == (p + x) + (y + q);
    assert p + (x + [e] + y) + q == (p + x) + [e] + (y + q);
    EntryRemoved(p + x, e, y + q);
  }

  // dir_add_entry

  /** What is known about a directory of a sound state. */
  lemma DirParts(st: State, i: nat)
    requires Sound(st) && i in st.inodes && DirOk(st.disk, st.inodes[i])
    ensures var f := st.inodes[i];
            && f.kind == Directory && f.size % 4096 == 0 && f.size == 4096 * DirBlocks(f)
            && DirShape(Content(st.disk, f)) && Distinct(DirEntries(Content(st.disk, f)))
            && Gapless(Ext(st.disk, f), DirBlocks(f)) && Covered(Ext(st.disk, f), 0, DirBlocks(f))
            && WellFormed(Ext(st.disk, f)) && Injective(Ext(st.disk, f))
            && DirBlocks(f) <= MappedEnd(Ext(st.disk, f))
            && IndexOf(st.disk, f) == MapOf(DirEntries(Content(st.disk, f)))
  {
    hide Sound, Ext, Tiled, Content, Gapless, Distinct, DirEntries;
    SoundWellFormed(st, i);
    GaplessParts(Ext(st.disk, st.inodes[i]), DirBlocks(st.inodes[i]));
  }

  lemma GaplessParts(extents: seq<Extent>, n: nat)
    requires Gapless(extents, n)
    ensures n <= MappedEnd(extents) && Covered(extents, 0, MappedEnd(extents)) && Covered(extents, 0, n)
  {
    hide MapLogicalBlock;
  }

  /** `ensure_blocks` for one block more than the directory has leaves no gap. */
  lemma GaplessNext(before: seq<Extent>, extents: seq<Extent>, n: nat)
    requires WellFormed(extents) && Gapless(before, n) && Extends(before, extents) && Covered(extents, MappedEnd(before), n + 1)
    requires n + 1 > MappedEnd(before) ==> EndBy(extents, n + 1)
    requires n + 1 <= MappedEnd(before) ==> extents == before
    ensures Gapless(extents, n + 1) && MapLogicalBlock(extents, n).Some?
    ensures MappedEnd(extents) == if n < MappedEnd(before) then MappedEnd(before) else n + 1
  {
    hide *;
    GaplessParts(before, n);
    if n + 1 > MappedEnd(before) {
      CoveredExtends(before, extents, n);
      MappedEndIs(extents, n + 1);
      CoveredAt(extents, 0, n + 1, n);
    } else {
      CoveredAt(extents, 0, MappedEnd(before), n);
    }
    GaplessJoin(extents, n + 1);
  }

  lemma GaplessJoin(extents: seq<Extent>, n: nat)
    requires n <= MappedEnd(extents) && Covered(extents, 0, MappedEnd(extents))
    ensures Gapless(extents, n)
  {
    hide Covered;
  }

  lemma MappedEndIs(extents: seq<Extent>, n: nat)
    requires WellFormed(extents) && Covered(extents, 0, n) && EndBy(extents, n)
    ensures MappedEnd(extents) == n
  {
    MappedEndMost(extents, n);
    WellFormedEnds(extents);
    if n > 0 {
      assert MapLogicalBlock(extents, n - 1).Some?;
      AllValid(extents);
      var j := MapIndex(extents, n - 1);
    }
  }

  lemma {:induction false} MappedEndMost(extents: seq<Extent>, n: nat)
    requires EndBy(extents, n)
    ensures MappedEnd(extents) <= n
    decreases |extents|
  {
    if extents != [] {
      MappedEndMost(extents[..|extents| - 1], n);
      assert extents[|extents| - 1].eeBlock + extents[|extents| - 1].Len() <= n;
    }
  }

  lemma ShapeAt(bytes: seq<byte>, l: nat)
    requires DirShape(bytes) && 4096 * l + 4096 <= |bytes|
    ensures Tiled(Blk(bytes, l))
  {
    hide Tiled;
  }

  /** The directory has one more name. */
  ghost predicate NameAdded(st: State, st': State, i: nat, name: Name, inodeNum: nat, fileType: nat) {
    i in st.inodes && DirChanged(st, st', i, IndexOf(st.disk, st.inodes[i])[name := (inodeNum, fileType)])
  }

  /** Whatever fails, the files stay sound; with a name that a record can hold nothing has changed. */
  ghost predicate AddFailed(st: State, st': State, name: Name) {
    && Sound(st') && st'.inodes.Keys == st.inodes.Keys
    && (|name| <= EXT4_NAME_LEN ==> Untouched(st, st') && SameFiles(st, st'))
  }

  /** Nothing has been written; only cached lists of extents may differ. */
  ghost predicate Unwritten(st: State, st': State) {
    Sound(st') && st'.disk == st.disk && st'.inodes == st.inodes && st'.used == st.used
  }

  /** A split that stopped half way: the record at `off` ends behind its name now, and the bytes that it covered
      besides, whatever they are, have to pass for the records that follow. */
  ghost predicate CutShort(st: State, st': State, i: nat, l: nat, off: nat) {
    i in st.inodes && 4096 * l + 4096 <= st.inodes[i].size && (
      var block := Blk(Content(st.disk, st.inodes[i]), l);
      && At(block, off) && off + FIXED_SIZE <= |block|
      && BlockEdited(st, st', i, l, RecLenSet(block, off, Used(RecHere(block, off)))))
  }

  /** The bytes of the directory are as before, and a block is mapped just past its end, if there was none. */
  ghost predicate MappedPast(st: State, st': State, i: nat) {
    && Sound(st') && OthersSame(st, st', i) && i in st.inodes && i in st'.inodes
    && st'.inodes[i].kind == st.inodes[i].kind && st'.inodes[i].links == st.inodes[i].links
    && st'.inodes[i].size == st.inodes[i].size && Content(st'.disk, st'.inodes[i]) == Content(st.disk, st.inodes[i])
    && Gapless(Ext(st'.disk, st'.inodes[i]), DirBlocks(st.inodes[i]) + 1)
    && (DirBlocks(st.inodes[i]) < MappedEnd(Ext(st.disk, st.inodes[i])) ==> Unwritten(st, st'))
    && Exchanged(st.used, st'.used, Owned(st.disk, st.inodes[i]), Owned(st'.disk, st'.inodes[i]))
  }

  /** Where the entry of a name is to go. */
  ghost function PlaceOf(st: State, i: nat, name: Name): Place
    requires i in st.inodes
  {
    PlaceFrom(Content(st.disk, st.inodes[i]), 0, Align4(FIXED_SIZE + |name|))
  }

  /** What refusing a name of more than 255 bytes leaves behind depends on where its entry was to go. */
  ghost predicate LongRefused(st: State, st': State, i: nat, name: Name) {
    i in st.inodes &&
    if Align4(FIXED_SIZE + |name|) > BLOCK_SZ then Unwritten(st, st')
    else
      match PlaceOf(st, i, name)
      case Reuse(l, off) => Unwritten(st, st')
      case Split(l, off) => CutShort(st, st', i, l, off)
      case Append => MappedPast(st, st', i)
  }

  /** A name of more than 255 bytes is refused for its length, unless its entry is to go to a new block and there
      is none. */
  ghost predicate LongFailed(st: State, st': State, i: nat, name: Name, e: Ext4Error, used: set<nat>, all: set<nat>) {
    if e == NameTooLong then LongRefused(st, st', i, name)
    else
      && i in st.inodes && Align4(FIXED_SIZE + |name|) <= BLOCK_SZ && PlaceOf(st, i, name) == Append
      && Excused(used, all, e) && Untouched(st, st') && SameFiles(st, st')
  }

  lemma LongTooBig(st: State, st': State, i: nat, name: Name)
    requires i in st.inodes && Align4(FIXED_SIZE + |name|) > BLOCK_SZ && Unwritten(st, st')
    ensures LongRefused(st, st', i, name)
  {
    hide Unwritten, Align4, PlaceOf;
  }

  lemma LongInPlace(st: State, st': State, i: nat, name: Name, place: Place)
    requires i in st.inodes && Align4(FIXED_SIZE + |name|) <= BLOCK_SZ
    requires PlaceFrom(Content(st.disk, st.inodes[i]), 0, Align4(FIXED_SIZE + |name|)) == place
    requires match place
             case Reuse(l, off) => Unwritten(st, st')
             case Split(l, off) => CutShort(st, st', i, l, off)
             case Append => MappedPast(st, st', i)
    ensures LongRefused(st, st', i, name)
  {
    hide Unwritten, CutShort, MappedPast, Align4, PlaceFrom, Content;
  }

  lemma LongFailedJoin(st: State, st': State, i: nat, name: Name, e: Ext4Error, used: set<nat>, all: set<nat>)
    requires e == NameTooLong ==> LongRefused(st, st', i, name)
    requires e != NameTooLong ==>
               && i in st.inodes && Align4(FIXED_SIZE + |name|) <= BLOCK_SZ
               && PlaceFrom(Content(st.disk, st.inodes[i]), 0, Align4(FIXED_SIZE + |name|)) == Append
               && Excused(used, all, e) && Untouched(st, st') && SameFiles(st, st')
    ensures LongFailed(st, st', i, name, e, used, all)
  {
    hide LongRefused, Excused, Untouched, SameFiles, PlaceFrom, Content, Align4;
  }

  lemma LongFailedParts(st: State, st': State, i: nat, name: Name, e: Ext4Error, used: set<nat>, all: set<nat>)
    requires LongFailed(st, st', i, name, e, used, all)
    ensures e == NameTooLong ==> LongRefused(st, st', i, name)
    ensures e != NameTooLong ==>
              && i in st.inodes && Align4(FIXED_SIZE + |name|) <= BLOCK_SZ && PlaceOf(st, i, name) == Append
              && Excused(used, all, e) && Untouched(st, st') && SameFiles(st, st')
  {
    hide LongRefused, Excused, Untouched, SameFiles, PlaceFrom, Content, Align4;
  }

  lemma PastUnwritten(st: State, st': State)
    requires Sound(st')
    ensures st'.disk == st.disk && st'.inodes == st.inodes && st'.used == st.used ==> Unwritten(st, st')
  {
    hide Sound;
  }

  lemma UnwrittenJoin(st: State, st': State)
    requires Sound(st') && st'.disk == st.disk && st'.inodes == st.inodes && st'.used == st.used
    ensures Unwritten(st, st')
  {
    hide Sound;
  }

  /** A dead record gets the new entry. */
  method ReuseRecord(v: Volume, i: nat, l: nat, off: nat, inodeNum: nat, fileType: nat, name: Name) returns (r: Result<bool>)
    requires v.Valid() && Sound(St(v)) && i in v.inodes && DirOk(v.disk, v.inodes[i]) && 4096 * l + 4096 <= v.inodes[i].size
    requires 0 < inodeNum < U32 && fileType < 256 && name != [] && name !in IndexOf(v.disk, v.inodes[i])
    requires DeadRoom(Blk(Content(v.disk, v.inodes[i]), l), off, Align4(FIXED_SIZE + |name|))
    modifies v`disk
    ensures v.Valid() && (r.Ok? <==> |name| <= EXT4_NAME_LEN)
    ensures r.Ok? ==> NameAdded(old(St(v)), St(v), i, name, inodeNum, fileType)
    ensures r.Err? ==> r.error == NameTooLong && AddFailed(old(St(v)), St(v), name) && Unwritten(old(St(v)), St(v))
  {
    hide *;
    U32Value();
    Ext4DirBlock.Sizes();
    NameLimit(name);
    ghost var st := St(v);
    StParts(v);
    DirParts(st, i);
    var f := v.inodes[i];
    var extents := Ext(v.disk, f);
    CoveredAt(extents, 0, DirBlocks(f), l);
    ghost var block := Blk(Content(v.disk, f), l);
    RoomFacts(block, off, Align4(FIXED_SIZE + |name|));
    HereCut(block, off);
    ghost var here := RecHere(block, off);
    BlockIsContent(v.disk, f, l);
    var recLen := RecLenAt(Block(v.disk, MapLogicalBlock(extents, l).value)[off..]);
    HereLen(block, off);
    CutFits(block, off, here, block[..off], block[off + recLen..]);
    r := DirWriteEntryAt(v, extents, l, off, recLen, inodeNum, fileType, name);
    v.Opened();
    v.Closed();
    if r.Err? {
      StParts(v);
      FailedAdd(st, v, name);
      UnwrittenJoin(st, St(v));
      return;
    }
    StParts(v);
    StateWithDisk(st, St(v));
    Placed(inodeNum, fileType, name);
    ghost var buf := EncodeRec(NewRec(recLen, inodeNum, fileType, name));
    EditBlock(st, St(v), i, l, off, buf);
    ReusedBytes(block, off, here, block[..off], block[off + recLen..], inodeNum, fileType, name);
    ghost var b := Splice(block, off, buf);
    AddedInBlock(Content(st.disk, f), l, b, EntriesIn(block[..off]), DirEntry(name, inodeNum, fileType), EntriesIn(block[off + recLen..]));
    EditedDir(st, St(v), i, l, b, IndexOf(st.disk, f)[name := (inodeNum, fileType)]);
    NameAddedJoin(st, St(v), i, name, inodeNum, fileType);
  }

  lemma RoomFacts(block: seq<byte>, off: nat, need: nat)
    requires DeadRoom(block, off, need) || SplitRoom(block, off, need)
    ensures At(block, off) && off < |block|
    ensures DeadRoom(block, off, need) ==> RecHere(block, off).inode == 0 && RecHere(block, off).RecLen() >= need
    ensures SplitRoom(block, off, need) ==> RecHere(block, off).RecLen() >= Used(RecHere(block, off)) + need
  {
    hide At, RecHere, Used;
  }

  lemma NameAddedJoin(st: State, st': State, i: nat, name: Name, inodeNum: nat, fileType: nat)
    requires i in st.inodes && DirChanged(st, st', i, IndexOf(st.disk, st.inodes[i])[name := (inodeNum, fileType)])
    ensures NameAdded(st, st', i, name, inodeNum, fileType)
  {
    hide DirChanged, IndexOf;
  }

  lemma HereLen(block: seq<byte>, off: nat)
    requires At(block, off) && off < |block|
    ensures |block[off..]| >= FIXED_SIZE && RecLenAt(block[off..]) == RecHere(block, off).RecLen()
  {
    hide At, Tiled, Cut;
    CutAt(block, off);
  }

  lemma StateWithDisk(st: State, st': State)
    requires st'.inodes == st.inodes && st'.used == st.used && st'.cache == st.cache
    ensures st' == st.(disk := st'.disk)
  {
  }

  lemma FailedAdd(st: State, v: Volume, name: Name)
    requires Sound(st) && St(v) == st
    ensures AddFailed(st, St(v), name)
  {
    hide Sound, Untouched, SameFiles;
    StaysPut(v);
  }

  /** The reused record's block, as bytes and as entries. */
  lemma ReusedBytes(block: seq<byte>, off: nat, r: Rec, a: seq<byte>, c: seq<byte>, inode: nat, fileType: nat, name: Name)
    requires Cut(block, off, r, a, c) && Entryable(inode, fileType, name) && Align4(FIXED_SIZE + |name|) <= r.RecLen() && r.inode == 0
    ensures FIXED_SIZE + |name| <= r.RecLen() && NewRec(r.RecLen(), inode, fileType, name).Fits()
    ensures off + r.RecLen() <= |block|
    ensures var b := Splice(block, off, EncodeRec(NewRec(r.RecLen(), inode, fileType, name)));
            && Tiled(b) && EntriesIn(b) == EntriesIn(a) + [DirEntry(name, inode, fileType)] + EntriesIn(c)
    ensures EntriesIn(block) == EntriesIn(a) + EntriesIn(c)
  {
    hide *;
    CutFits(block, off, r, a, c);
    CutSizes(block, off, r, a, c);
    CutEntries(block, off, r, a, c);
    NewRecEntry(r.RecLen(), inode, fileType, name);
    NameLimit(name);
    EntryableParts(inode, fileType, name);
    Reused(block, off, r, a, c, inode, fileType, name);
    var new_ := NewRec(r.RecLen(), inode, fileType, name);
    EntryWrittenIs(block, off, r.RecLen(), inode, fileType, name);
    CutEntries(EntryWritten(block, off, r.RecLen(), inode, fileType, name), off, new_, a, c);
    SpliceIs(block, off, EncodeRec(new_));
    DeadEntry(r);
  }

  lemma DeadEntry(r: Rec)
    requires r.Fits() && r.inode == 0
    ensures EntryOf(r) == [] && forall x: seq<DirEntry> :: x + [] == x
  {
  }

  /** The split record's block, as bytes and as entries. */
  lemma SplitEntries(block: seq<byte>, off: nat, r: Rec, a: seq<byte>, c: seq<byte>, inode: nat, fileType: nat, name: Name)
    requires Cut(block, off, r, a, c) && Entryable(inode, fileType, name) && Used(r) + Align4(FIXED_SIZE + |name|) <= r.RecLen()
    ensures off + r.RecLen() <= |block| && FIXED_SIZE + |name| <= r.RecLen() - Used(r)
    ensures NewRec(r.RecLen() - Used(r), inode, fileType, name).Fits()
    ensures var b := Splice(RecLenSet(block, off, Used(r)), off + Used(r), EncodeRec(NewRec(r.RecLen() - Used(r), inode, fileType, name)));
            && Tiled(b) && EntriesIn(b) == EntriesIn(a) + EntryOf(r) + [DirEntry(name, inode, fileType)] + EntriesIn(c)
    ensures EntriesIn(block) == EntriesIn(a) + EntryOf(r) + EntriesIn(c)
  {
    hide *;
    Ext4DirBlock.Sizes();
    var used := Used(r);
    CutFits(block, off, r, a, c);
    CutSizes(block, off, r, a, c);
    CutEntries(block, off, r, a, c);
    RoomLeft(r, name);
    ShrunkSame(r);
    SplitBytes(block, off, r, a, c);
    SplitUp(block, off, r, a, c, inode, fileType, name);
    NewRecEntry(r.RecLen() - used, inode, fileType, name);
    EntryableParts(inode, fileType, name);
    var new_ := NewRec(r.RecLen() - used, inode, fileType, name);
    var set_ := RecLenSet(block, off, used);
    var first := a + EncodeRec(Shrunk(r, used));
    EntryWrittenIs(set_, off + used, r.RecLen() - used, inode, fileType, name);
    CutEntries(EntryWritten(set_, off + used, r.RecLen() - used, inode, fileType, name), off + used, new_, first, c);
    SpliceIs(set_, off + used, EncodeRec(new_));
  }

  lemma EntryableParts(inode: nat, fileType: nat, name: Name)
    requires Entryable(inode, fileType, name)
    ensures fileType < 256 && |name| <= EXT4_NAME_LEN
  {
  }

  lemma SpliceIs(block: seq<byte>, off: nat, bytes: seq<byte>)
    requires off + |bytes| <= |block|
    ensures Splice(block, off, bytes) == block[..off] + bytes + block[off + |bytes|..]
  {
  }

  lemma CutShortJoin(st: State, st': State, i: nat, l: nat, off: nat, block: seq<byte>, r: Rec)
    requires i in st.inodes && 4096 * l + 4096 <= st.inodes[i].size && block == Blk(Content(st.disk, st.inodes[i]), l)
    requires At(block, off) && off + FIXED_SIZE <= |block| && r == RecHere(block, off)
    requires BlockEdited(st, st', i, l, RecLenSet(block, off, Used(r)))
    ensures CutShort(st, st', i, l, off)
  {
    hide Content, Blk, At, BlockEdited, RecLenSet, Used, RecHere;
  }

  /** A record is split: first its `rec_len` is cut down to what its name needs, then the new entry is written
      behind it. */
  method SplitRecord(v: Volume, i: nat, l: nat, off: nat, inodeNum: nat, fileType: nat, name: Name) returns (r: Result<bool>)
    requires v.Valid() && Sound(St(v)) && i in v.inodes && DirOk(v.disk, v.inodes[i]) && 4096 * l + 4096 <= v.inodes[i].size
    requires 0 < inodeNum < U32 && fileType < 256 && name != [] && name !in IndexOf(v.disk, v.inodes[i])
    requires SplitRoom(Blk(Content(v.disk, v.inodes[i]), l), off, Align4(FIXED_SIZE + |name|))
    modifies v`disk
    ensures v.Valid() && (r.Ok? <==> |name| <= EXT4_NAME_LEN)
    ensures r.Ok? ==> NameAdded(old(St(v)), St(v), i, name, inodeNum, fileType)
    ensures r.Err? ==> r.error == NameTooLong && AddFailed(old(St(v)), St(v), name)
    ensures r.Err? ==> CutShort(old(St(v)), St(v), i, l, off)
  {
    hide *;
    U32Value();
    Ext4DirBlock.Sizes();
    NameLimit(name);
    ghost var st := St(v);
    StParts(v);
    DirParts(st, i);
    var f := v.inodes[i];
    var extents := Ext(v.disk, f);
    CoveredAt(extents, 0, DirBlocks(f), l);
    ghost var block := Blk(Content(v.disk, f), l);
    RoomFacts(block, off, Align4(FIXED_SIZE + |name|));
    HereCut(block, off);
    HereFits(block, off);
    ghost var here := RecHere(block, off);
    BlockIsContent(v.disk, f, l);
    HereLen(block, off);
    var pblock := MapLogicalBlock(extents, l).value;
    var rest := Block(v.disk, pblock)[off..];
    RecHereIs(block, off);
    var used := Used(FirstRec(rest));
    var oldRec := RecLenAt(rest);
    SplitSizes(here, name);
    WrittenNothing(v.disk, extents, 4096 * l + (off + 4), Le16(used));
    WithinBlock(l, off, 4);
    WrittenNext(v.disk, extents, v.disk, 4096 * l + (off + 4), Le16(used), 0, pblock, off + 4, 2);
    WholeSlice(Le16(used));
    v.WriteBytes(pblock, off + 4, Le16(used));
    v.Opened();
    v.Closed();
    StParts(v);
    ghost var st1 := St(v);
    StateWithDisk(st, st1);
    EditBlock(st, st1, i, l, off + 4, Le16(used));
    RecLenSetDef(block, off, used);
    EditedFacts(st, st1, i, l, RecLenSet(block, off, used));
    var newOff := off + used;
    r := DirWriteEntryAt(v, extents, l, newOff, oldRec - used, inodeNum, fileType, name);
    v.Opened();
    v.Closed();
    StParts(v);
    if r.Err? {
      LongFails(st, st1, name);
      CutShortJoin(st, st1, i, l, off, block, here);
      return;
    }
    StateWithDisk(st1, St(v));
    Placed(inodeNum, fileType, name);
    ghost var buf := EncodeRec(NewRec(oldRec - used, inodeNum, fileType, name));
    EditBlock(st1, St(v), i, l, newOff, buf);
    SplitEntries(block, off, here, block[..off], block[off + here.RecLen()..], inodeNum, fileType, name);
    TwoEditsAdd(st, st1, St(v), i, l, RecLenSet(block, off, used), Splice(RecLenSet(block, off, used), newOff, buf),
                EntriesIn(block[..off]) + EntryOf(here), DirEntry(name, inodeNum, fileType), EntriesIn(block[off + here.RecLen()..]));
  }

  lemma RecHereIs(block: seq<byte>, off: nat)
    requires At(block, off) && off < |block| && |block[off..]| >= FIXED_SIZE && FIXED_SIZE <= RecLenAt(block[off..]) <= |block[off..]|
    ensures RecHere(block, off) == FirstRec(block[off..])
  {
    hide At, Tiled, FirstRec;
  }

  lemma HereFits(block: seq<byte>, off: nat)
    requires At(block, off) && off < |block|
    ensures var r := RecHere(block, off); r.Fits() && r.RecLen() % 4 == 0 && off + r.RecLen() <= |block| && FIXED_SIZE <= r.RecLen()
  {
    hide *;
    Ext4DirBlock.Sizes();
    HereCut(block, off);
    CutFits(block, off, RecHere(block, off), block[..off], block[off + RecHere(block, off).RecLen()..]);
  }

  lemma SplitSizes(r: Rec, name: Name)
    requires r.Fits() && r.RecLen() % 4 == 0 && r.RecLen() >= Used(r) + Align4(FIXED_SIZE + |name|)
    ensures 8 <= Used(r) < r.RecLen() && (r.RecLen() - Used(r)) % 4 == 0 && Align4(FIXED_SIZE + |name|) <= r.RecLen() - Used(r)
  {
  }

  lemma WholeSlice(b: seq<byte>)
    ensures b[0..0 + |b|] == b
  {
  }

  lemma EditedFacts(st: State, st': State, i: nat, l: nat, b: seq<byte>)
    requires BlockEdited(st, st', i, l, b)
    ensures Sound(st') && i in st.inodes && i in st'.inodes && st'.inodes[i] == st.inodes[i]
    ensures Ext(st'.disk, st.inodes[i]) == Ext(st.disk, st.inodes[i]) && 4096 * l + 4096 <= st.inodes[i].size
    ensures Blk(Content(st'.disk, st.inodes[i]), l) == b
  {
    hide Sound, Ext, Content, Blk, OthersSame, Owned;
  }

  lemma LongFails(st: State, st': State, name: Name)
    requires Sound(st') && st'.inodes.Keys == st.inodes.Keys && |name| > EXT4_NAME_LEN
    ensures AddFailed(st, st', name)
  {
    hide Sound;
  }

  lemma TwoEditsAdd(st: State, st1: State, st2: State, i: nat, l: nat, b1: seq<byte>, b2: seq<byte>,
                    x: seq<DirEntry>, e: DirEntry, y: seq<DirEntry>)
    requires Sound(st) && i in st.inodes && DirOk(st.disk, st.inodes[i]) && 4096 * l + 4096 <= st.inodes[i].size
    requires BlockEdited(st, st1, i, l, b1) && BlockEdited(st1, st2, i, l, b2) && Tiled(b2)
    requires e.name !in IndexOf(st.disk, st.inodes[i])
    requires EntriesIn(Blk(Content(st.disk, st.inodes[i]), l)) == x + y && EntriesIn(b2) == x + [e] + y
    ensures NameAdded(st, st2, i, e.name, e.inode, e.fileType)
  {
    hide *;
    DirParts(st, i);
    EditedTwice(st, st1, st2, i, l, b1, b2);
    AddedInBlock(Content(st.disk, st.inodes[i]), l, b2, x, e, y);
    EditedDir(st, st2, i, l, b2, IndexOf(st.disk, st.inodes[i])[e.name := (e.inode, e.fileType)]);
    NameAddedJoin(st, st2, i, e.name, e.inode, e.fileType);
  }

  // A new block

  lemma CoveredExtends(extents: seq<Extent>, after: seq<Extent>, n: nat)
    requires Covered(extents, 0, n) && Extends(extents, after) && Covered(after, n, n + 1)
    ensures Covered(after, 0, n + 1)
  {
    hide MapLogicalBlock;
  }

  /** The block and the one entry in it, as entries of the directory. */
  lemma AppendedDir(bytes: seq<byte>, n: nat, inode: nat, fileType: nat, name: Name)
    requires |bytes| == 4096 * n && DirShape(bytes) && Distinct(DirEntries(bytes)) && name !in MapOf(DirEntries(bytes))
    requires Entryable(inode, fileType, name) && FIXED_SIZE + |name| <= 4096 && NewRec(4096, inode, fileType, name).Fits()
    ensures var after := Overwritten(bytes, 4096 * n, EncodeRec(NewRec(4096, inode, fileType, name)));
            && |after| == 4096 * n + 4096 && DirShape(after) && Distinct(DirEntries(after))
            && MapOf(DirEntries(after)) == MapOf(DirEntries(bytes))[name := (inode, fileType)]
  {
    hide *;
    Ext4DirBlock.Sizes();
    EntryableParts(inode, fileType, name);
    NameRoom(name);
    NewRecEntry(4096, inode, fileType, name);
    var r := NewRec(4096, inode, fileType, name);
    var after := Overwritten(bytes, 4096 * n, EncodeRec(r));
    EntriesOfRec(r);
    AppendedBlock(bytes, n, EncodeRec(r));
    AppendedEntries(bytes, after, n);
    var e := DirEntry(name, inode, fileType);
    assert DirEntries(bytes) + [] == DirEntries(bytes);
    assert DirEntries(bytes) + [e] + [] == DirEntries(bytes) + [e];
    EntryAdded(DirEntries(bytes), e, []);
  }

  lemma NameRoom(name: Name)
    requires |name| <= EXT4_NAME_LEN
    ensures Align4(FIXED_SIZE + |name|) <= 4096
  {
  }

  /** The directory has one block more, at its end, and that holds the new record alone; its other bytes are as
      before. */
  ghost predicate InNewBlock(st: State, st': State, i: nat, inodeNum: nat, fileType: nat, name: Name) {
    && i in st.inodes && FIXED_SIZE + |name| <= BLOCK_SZ && NewRec(BLOCK_SZ, inodeNum, fileType, name).Fits()
    && WriteDone(st, st', i, st.inodes[i].size, EncodeRec(NewRec(BLOCK_SZ, inodeNum, fileType, name)))
  }

  lemma InNewBlockJoin(st: State, st': State, i: nat, inodeNum: nat, fileType: nat, name: Name)
    requires i in st.inodes && FIXED_SIZE + |name| <= BLOCK_SZ && NewRec(BLOCK_SZ, inodeNum, fileType, name).Fits()
    requires WriteDone(st, st', i, st.inodes[i].size, EncodeRec(NewRec(BLOCK_SZ, inodeNum, fileType, name)))
    ensures InNewBlock(st, st', i, inodeNum, fileType, name)
  {
    hide WriteDone, EncodeRec, NewRec, Rec.Fits;
  }

  /** The directory grows by a block that holds the new entry alone. */
  method AppendRecord(v: Volume, i: nat, inodeNum: nat, fileType: nat, name: Name) returns (r: Result<bool>)
    requires v.Valid() && Sound(St(v)) && i in v.inodes && DirOk(v.disk, v.inodes[i]) && DirBlocks(v.inodes[i]) + 1 < U32
    requires 0 < inodeNum < U32 && fileType < 256 && name != [] && name !in IndexOf(v.disk, v.inodes[i])
    requires Align4(FIXED_SIZE + |name|) <= BLOCK_SZ
    modifies v, v.fs, v.fs.blockBitmaps
    ensures v.Valid()
    ensures r.Ok? ==> |name| <= EXT4_NAME_LEN && NameAdded(old(St(v)), St(v), i, name, inodeNum, fileType)
    ensures r.Ok? ==> InNewBlock(old(St(v)), St(v), i, inodeNum, fileType, name)
    ensures r.Err? ==> AddFailed(old(St(v)), St(v), name)
    ensures r.Err? && |name| <= EXT4_NAME_LEN ==> Excused(v.used, v.AllBlocks(), r.error)
    ensures r.Err? && |name| <= EXT4_NAME_LEN ==> BlockLeaked(old(St(v)), i, v.used, v.AllBlocks())
    ensures |name| > EXT4_NAME_LEN ==> r.Err? && AppendFailed(old(St(v)), St(v), i, r.error, v.used, v.AllBlocks())
    ensures CacheKeys(old(v.extentsCache), v.extentsCache, i)
  {
    hide *;
    U32Value();
    NameLimit(name);
    ghost var st := St(v);
    StParts(v);
    DirParts(st, i);
    ghost var bytes := Content(v.disk, v.inodes[i]);
    ghost var before := Ext(v.disk, v.inodes[i]);
    var newBlockIndex := DirBlocks(v.inodes[i]);
    var ensured := EnsureBlocks(v, i, newBlockIndex + 1);
    if ensured.Err? {
      BlockLeakedJoin(st, i, v.used, v.AllBlocks());
      FailedUntouched(st, St(v), name);
      AppendFailedJoin(st, St(v), i, ensured.error, v.used, v.AllBlocks());
      return Err(ensured.error);
    }
    var extents := ensured.value;
    ghost var st1 := St(v);
    StParts(v);
    GrewParts(st, st1, i, extents);
    SameContent(st, st1, i);
    SoundWellFormed(st1, i);
    GaplessNext(before, extents, newBlockIndex);
    r := DirWriteEntryAt(v, extents, newBlockIndex, 0, BLOCK_SZ, inodeNum, fileType, name);
    if r.Err? {
      v.Opened();
      v.Closed();
      StParts(v);
      StateWithDisk(st1, St(v));
      GrewKeys(st, st1, i, extents);
      LongFails(st, st1, name);
      PastUnwritten(st, st1);
      MappedPastJoin(st, st1, i);
      AppendRefused(st, st1, i, v.used, v.AllBlocks());
      return;
    }
    ghost var buf := EncodeRec(NewRec(BLOCK_SZ, inodeNum, fileType, name));
    var newSize := (newBlockIndex + 1) * BLOCK_SZ;
    var inode := v.inodes[i].(size := newSize);
    v.inodes := v.inodes[i := inode];
    v.Opened();
    v.Closed();
    StParts(v);
    Placed(inodeNum, fileType, name);
    WroteToJoin(st1, i, 4096 * newBlockIndex, buf, St(v), inode);
    AppendDone(st, st1, St(v), i, extents, inodeNum, fileType, name);
    return Ok(true);
  }

  /** Which bits a directory that could not grow by a block leaves set: that of the block, unless there was none. */
  ghost predicate BlockLeaked(st: State, i: nat, used: set<nat>, all: set<nat>) {
    i in st.inodes && Leaked(st, i, used, all, DirBlocks(st.inodes[i]), DirBlocks(st.inodes[i]) + 1)
  }

  lemma BlockLeakedJoin(st: State, i: nat, used: set<nat>, all: set<nat>)
    requires i in st.inodes && MappedEnd(Ext(st.disk, st.inodes[i])) >= DirBlocks(st.inodes[i])
    requires MappedEnd(Ext(st.disk, st.inodes[i])) < DirBlocks(st.inodes[i]) + 1
    requires Leaked(st, i, used, all, MappedEnd(Ext(st.disk, st.inodes[i])), DirBlocks(st.inodes[i]) + 1)
    ensures BlockLeaked(st, i, used, all)
  {
    hide Leaked, Ext, DirBlocks;
  }

  lemma BlockLeakedFrom(st: State, st1: State, i: nat, used: set<nat>, all: set<nat>)
    requires st1 == st.(cache := st1.cache)
    ensures BlockLeaked(st1, i, used, all) ==> BlockLeaked(st, i, used, all)
  {
    hide *;
    if BlockLeaked(st1, i, used, all) {
      var extents, upTo := BlockLeakedParts(st1, i, used, all);
      LeftSetFrom(st, st1, i, used, extents, DirBlocks(st1.inodes[i]), upTo);
      LeakedJoin(st, i, used, all, DirBlocks(st.inodes[i]), DirBlocks(st.inodes[i]) + 1, extents, upTo);
      BlockLeakedIs(st, i, used, all);
    }
  }

  lemma BlockLeakedIs(st: State, i: nat, used: set<nat>, all: set<nat>)
    ensures BlockLeaked(st, i, used, all) <==>
              i in st.inodes && Leaked(st, i, used, all, DirBlocks(st.inodes[i]), DirBlocks(st.inodes[i]) + 1)
  {
    hide Leaked, DirBlocks;
  }

  lemma BlockLeakedParts(st: State, i: nat, used: set<nat>, all: set<nat>) returns (extents: seq<Extent>, upTo: nat)
    requires BlockLeaked(st, i, used, all)
    ensures i in st.inodes && LeftSet(st, i, used, extents, DirBlocks(st.inodes[i]), upTo)
    ensures upTo <= DirBlocks(st.inodes[i]) + 1 && (upTo == DirBlocks(st.inodes[i]) + 1 || |used| == |all|)
  {
    hide LeftSet, DirBlocks;
    extents, upTo :| LeftSet(st, i, used, extents, DirBlocks(st.inodes[i]), upTo) && upTo <= DirBlocks(st.inodes[i]) + 1
                     && (upTo == DirBlocks(st.inodes[i]) + 1 || |used| == |all|);
  }

  lemma LeftSetFrom(st: State, st1: State, i: nat, used: set<nat>, extents: seq<Extent>, from: nat, upTo: nat)
    requires st1 == st.(cache := st1.cache) && LeftSet(st1, i, used, extents, from, upTo)
    ensures LeftSet(st, i, used, extents, from, upTo)
  {
    hide WellFormed, Injective, Extends, Covered, TakenOnly, Mapped, Ext;
  }

  /** For a name of more than 255 bytes: a block is mapped for the entry before its length is looked at. */
  ghost predicate AppendFailed(st: State, st': State, i: nat, e: Ext4Error, used: set<nat>, all: set<nat>) {
    if e == NameTooLong then MappedPast(st, st', i)
    else Excused(used, all, e) && Untouched(st, st') && SameFiles(st, st')
  }

  lemma AppendFailedJoin(st: State, st': State, i: nat, e: Ext4Error, used: set<nat>, all: set<nat>)
    requires Excused(used, all, e) && Untouched(st, st') && SameFiles(st, st')
    ensures AppendFailed(st, st', i, e, used, all)
  {
    hide MappedPast, Untouched, SameFiles;
  }

  lemma AppendRefused(st: State, st': State, i: nat, used: set<nat>, all: set<nat>)
    requires MappedPast(st, st', i)
    ensures AppendFailed(st, st', i, NameTooLong, used, all)
  {
    hide MappedPast, Untouched, SameFiles, Excused;
  }

  lemma AppendFailedParts(st: State, st': State, i: nat, e: Ext4Error, used: set<nat>, all: set<nat>)
    requires AppendFailed(st, st', i, e, used, all)
    ensures e == NameTooLong ==> MappedPast(st, st', i)
    ensures e != NameTooLong ==> Excused(used, all, e) && Untouched(st, st') && SameFiles(st, st')
  {
    hide MappedPast, Untouched, SameFiles, Excused;
  }

  lemma MappedPastJoin(st: State, st': State, i: nat)
    requires Sound(st') && OthersSame(st, st', i) && i in st.inodes && i in st'.inodes
    requires st'.inodes[i].kind == st.inodes[i].kind && st'.inodes[i].links == st.inodes[i].links
    requires st'.inodes[i].size == st.inodes[i].size && Content(st'.disk, st'.inodes[i]) == Content(st.disk, st.inodes[i])
    requires Gapless(Ext(st'.disk, st'.inodes[i]), DirBlocks(st.inodes[i]) + 1)
    requires DirBlocks(st.inodes[i]) < MappedEnd(Ext(st.disk, st.inodes[i])) ==> Unwritten(st, st')
    requires Exchanged(st.used, st'.used, Owned(st.disk, st.inodes[i]), Owned(st'.disk, st'.inodes[i]))
    ensures MappedPast(st, st', i)
  {
    hide Sound, OthersSame, Content, Ext, Owned, Gapless, Unwritten, Exchanged, DirBlocks;
  }

  lemma GrewKeys(st: State, st': State, i: nat, extents: seq<Extent>)
    requires Grew(st, st', i, extents)
    ensures st'.inodes.Keys == st.inodes.Keys
  {
    hide Sound, OthersSame, Ext, Owned, Exchanged, SameBytes;
  }

  lemma FailedUntouched(st: State, st': State, name: Name)
    requires Untouched(st, st') && SameFiles(st, st')
    ensures AddFailed(st, st', name)
  {
    hide SameFiles, Content, Ext, Owned, FilesOk, AllApart, CacheOk;
  }

  lemma AppendDone(st: State, st1: State, st2: State, i: nat, extents: seq<Extent>, inodeNum: nat, fileType: nat, name: Name)
    requires Sound(st) && Grew(st, st1, i, extents) && i in st.inodes && DirOk(st.disk, st.inodes[i])
    requires Entryable(inodeNum, fileType, name) && FIXED_SIZE + |name| <= BLOCK_SZ && NewRec(BLOCK_SZ, inodeNum, fileType, name).Fits()
    requires name !in IndexOf(st.disk, st.inodes[i])
    requires var n := DirBlocks(st.inodes[i]);
             && Gapless(extents, n + 1)
             && WroteTo(st1, i, 4096 * n, EncodeRec(NewRec(BLOCK_SZ, inodeNum, fileType, name)), st2)
    ensures NameAdded(st, st2, i, name, inodeNum, fileType) && InNewBlock(st, st2, i, inodeNum, fileType, name)
  {
    hide *;
    U32Value();
    DirParts(st, i);
    var n := DirBlocks(st.inodes[i]);
    var buf := EncodeRec(NewRec(BLOCK_SZ, inodeNum, fileType, name));
    WriteDoneBoth(st, st1, st2, i, extents, 4096 * n, buf);
    WroteTree(st1, i, 4096 * n, buf, st2);
    GrewParts(st, st1, i, extents);
    WriteDoneParts(st, st2, i, 4096 * n, buf);
    AppendedDir(Content(st.disk, st.inodes[i]), n, inodeNum, fileType, name);
    DirJoin(st2.disk, st2.inodes[i], n + 1);
    AddedJoin(st, st2, i, name, inodeNum, fileType);
    InNewBlockJoin(st, st2, i, inodeNum, fileType, name);
  }

  lemma WriteDoneParts(st: State, st': State, i: nat, offset: nat, buf: seq<byte>)
    requires WriteDone(st, st', i, offset, buf)
    ensures Sound(st') && OthersSame(st, st', i) && i in st.inodes && i in st'.inodes
    ensures Content(st'.disk, st'.inodes[i]) == Overwritten(Content(st.disk, st.inodes[i]), offset, buf)
    ensures Exchanged(st.used, st'.used, Owned(st.disk, st.inodes[i]), Owned(st'.disk, st'.inodes[i]))
    ensures st'.inodes[i].kind == st.inodes[i].kind && st'.inodes[i].links == st.inodes[i].links
  {
    hide Sound, OthersSame, Content, Owned, Overwritten;
  }

  lemma DirJoin(disk: Disk, inode: Inode, n: nat)
    requires inode.kind == Directory && |Content(disk, inode)| == 4096 * n
    requires DirShape(Content(disk, inode)) && Distinct(DirEntries(Content(disk, inode)))
    requires Gapless(Ext(disk, inode), n)
    ensures DirOk(disk, inode)
  {
    hide DirShape, Distinct, DirEntries, Gapless, Ext;
  }

  lemma AddedJoin(st: State, st': State, i: nat, name: Name, inodeNum: nat, fileType: nat)
    requires Sound(st') && OthersSame(st, st', i) && i in st.inodes && i in st'.inodes
    requires DirOk(st'.disk, st'.inodes[i])
    requires MapOf(DirEntries(Content(st'.disk, st'.inodes[i]))) == MapOf(DirEntries(Content(st.disk, st.inodes[i])))[name := (inodeNum, fileType)]
    requires st'.inodes[i].kind == st.inodes[i].kind && st'.inodes[i].links == st.inodes[i].links
    requires Exchanged(st.used, st'.used, Owned(st.disk, st.inodes[i]), Owned(st'.disk, st'.inodes[i]))
    ensures NameAdded(st, st', i, name, inodeNum, fileType)
  {
    hide Sound, OthersSame, DirOk, MapOf, DirEntries, Content, Owned, Exchanged;
  }

  // dir_add_entry

  /** The search and the edit of `dir_add_entry`, for a name that the directory lacks. */
  method DirAddNew(v: Volume, i: nat, inodeNum: nat, fileType: nat, name: Name) returns (r: Result<bool>)
    requires v.Valid() && Sound(St(v)) && i in v.inodes && DirOk(v.disk, v.inodes[i]) && DirBlocks(v.inodes[i]) + 1 < U32
    requires 0 < inodeNum < U32 && fileType < 256 && name != [] && name !in IndexOf(v.disk, v.inodes[i])
    modifies v, v.fs, v.fs.blockBitmaps
    ensures v.Valid()
    ensures r.Ok? ==> |name| <= EXT4_NAME_LEN && NameAdded(old(St(v)), St(v), i, name, inodeNum, fileType)
    ensures r.Err? ==> AddFailed(old(St(v)), St(v), name)
    ensures r.Err? && |name| <= EXT4_NAME_LEN ==> Excused(v.used, v.AllBlocks(), r.error)
    ensures r.Err? && |name| <= EXT4_NAME_LEN ==> BlockLeaked(old(St(v)), i, v.used, v.AllBlocks())
    ensures |name| > EXT4_NAME_LEN ==> r.Err? && LongFailed(old(St(v)), St(v), i, name, r.error, v.used, v.AllBlocks())
    ensures CacheKeys(old(v.extentsCache), v.extentsCache, i)
  {
    hide *;
    U32Value();
    NameLimit(name);
    ghost var st := St(v);
    StParts(v);
    CacheKeysFacts(st.cache, st.cache, st.cache, i, []);
    DirParts(st, i);
    var need := Align4(FIXED_SIZE + |name|);
    if need > BLOCK_SZ {
      TooLongForAll(name);
      FailedAdd(st, v, name);
      UnwrittenJoin(st, St(v));
      LongTooBig(st, St(v), i, name);
      LongFailedJoin(st, St(v), i, name, NameTooLong, v.used, v.AllBlocks());
      return Err(NameTooLong);
    }
    var blocks := DirBlocks(v.inodes[i]);
    var ensured := EnsureBlocks(v, i, blocks);
    ghost var st1 := St(v);
    StParts(v);
    var extents := ensured.value;
    GrewParts(st, st1, i, extents);
    ghost var bytes := Content(v.disk, v.inodes[i]);
    for l := 0 to blocks
      invariant v.Valid() && St(v) == st1 && PlaceFrom(bytes, l, need) == PlaceFrom(bytes, 0, need)
    {
      StParts(v);
      CoveredAt(extents, 0, blocks, l);
      BlockIsContent(v.disk, v.inodes[i], l);
      ShapeAt(bytes, l);
      PlaceInBlock(bytes, l, need);
      var found, reuse := FindRoom(Block(v.disk, MapLogicalBlock(extents, l).value), need, l);
      if found.Some? {
        r := AddInBlock(v, i, l, found.value, reuse, inodeNum, fileType, name);
        AddedFrom(st, st1, St(v), i, name, inodeNum, fileType);
        if r.Err? {
          LongInPlace(st1, St(v), i, name, if reuse then Reuse(l, found.value) else Split(l, found.value));
          RefusedFrom(st, st1, St(v), i, name);
          LongFailedJoin(st, St(v), i, name, NameTooLong, v.used, v.AllBlocks());
        }
        return;
      }
    }
    StParts(v);
    PlaceInBlock(bytes, blocks, need);
    r := AppendRecord(v, i, inodeNum, fileType, name);
    CacheKeysFacts(st.cache, st1.cache, v.extentsCache, i, []);
    AddedFrom(st, st1, St(v), i, name, inodeNum, fileType);
    BlockLeakedFrom(st, st1, i, v.used, v.AllBlocks());
    if |name| > EXT4_NAME_LEN {
      AppendFailedParts(st1, St(v), i, r.error, v.used, v.AllBlocks());
      if r.error == NameTooLong {
        LongInPlace(st1, St(v), i, name, Append);
        RefusedFrom(st, st1, St(v), i, name);
      } else {
        UntouchedFrom(st, st1, St(v));
      }
      LongFailedJoin(st, St(v), i, name, r.error, v.used, v.AllBlocks());
    }
  }

  /** The edit at the place that the search has found in a block. */
  method AddInBlock(v: Volume, i: nat, l: nat, off: nat, reuse: bool, inodeNum: nat, fileType: nat, name: Name) returns (r: Result<bool>)
    requires v.Valid() && Sound(St(v)) && i in v.inodes && DirOk(v.disk, v.inodes[i]) && 4096 * l + 4096 <= v.inodes[i].size
    requires 0 < inodeNum < U32 && fileType < 256 && name != [] && name !in IndexOf(v.disk, v.inodes[i])
    requires reuse ==> DeadRoom(Blk(Content(v.disk, v.inodes[i]), l), off, Align4(FIXED_SIZE + |name|))
    requires !reuse ==> SplitRoom(Blk(Content(v.disk, v.inodes[i]), l), off, Align4(FIXED_SIZE + |name|))
    modifies v`disk
    ensures v.Valid() && (r.Ok? <==> |name| <= EXT4_NAME_LEN)
    ensures r.Ok? ==> NameAdded(old(St(v)), St(v), i, name, inodeNum, fileType)
    ensures r.Err? ==> r.error == NameTooLong && AddFailed(old(St(v)), St(v), name)
    ensures r.Err? ==> if reuse then Unwritten(old(St(v)), St(v)) else CutShort(old(St(v)), St(v), i, l, off)
  {
    hide *;
    if reuse {
      r := ReuseRecord(v, i, l, off, inodeNum, fileType, name);
    } else {
      r := SplitRecord(v, i, l, off, inodeNum, fileType, name);
    }
  }

  lemma RefusedFrom(st: State, st1: State, st2: State, i: nat, name: Name)
    requires st1 == st.(cache := st1.cache) && LongRefused(st1, st2, i, name)
    ensures LongRefused(st, st2, i, name)
  {
    hide Sound, Content, Ext, Owned, DirOk, SameBytes, Exchanged, PlaceFrom, Gapless, OthersSame;
    OthersFrom(st, st1, st2, i);
  }

  lemma OthersFrom(st: State, st1: State, st2: State, i: nat)
    requires st1 == st.(cache := st1.cache)
    ensures OthersSame(st1, st2, i) <==> OthersSame(st, st2, i)
  {
    hide Content, Ext, Owned;
  }

  lemma UntouchedFrom(st: State, st1: State, st2: State)
    requires st1 == st.(cache := st1.cache) && Untouched(st1, st2) && SameFiles(st1, st2)
    ensures Untouched(st, st2) && SameFiles(st, st2)
  {
    hide Sound, Content, Ext, Owned, SameBytes;
  }

  lemma TooLongForAll(name: Name)
    requires Align4(FIXED_SIZE + |name|) > BLOCK_SZ
    ensures |name| > EXT4_NAME_LEN
  {
  }

  /** Nothing but the cache of extents lay between the two starting points. */
  lemma AddedFrom(st: State, st1: State, st2: State, i: nat, name: Name, inodeNum: nat, fileType: nat)
    requires st1 == st.(cache := st1.cache)
    ensures NameAdded(st1, st2, i, name, inodeNum, fileType) ==> NameAdded(st, st2, i, name, inodeNum, fileType)
    ensures AddFailed(st1, st2, name) ==> AddFailed(st, st2, name)
  {
    hide Sound, Content, Ext, Owned, DirOk, IndexOf, SameBytes, Exchanged;
  }

  // dir_remove_entry

  /** The directory has one name less, and that named this inode. */
  ghost predicate NameRemoved(st: State, st': State, i: nat, name: Name, inodeNum: nat) {
    && i in st.inodes && DirChanged(st, st', i, IndexOf(st.disk, st.inodes[i]) - {name})
    && name in IndexOf(st.disk, st.inodes[i]) && IndexOf(st.disk, st.inodes[i])[name].0 == inodeNum
  }

  ghost predicate NotNamedUpTo(bytes: seq<byte>, n: nat, name: Name) {
    4096 * n <= |bytes| && forall e :: e in EntriesUpTo(bytes, n) ==> e.name != name
  }

  lemma NotNamedNext(bytes: seq<byte>, n: nat, name: Name)
    requires NotNamedUpTo(bytes, n, name) && 4096 * n + 4096 <= |bytes|
    requires forall e :: e in EntriesIn(Blk(bytes, n)) ==> e.name != name
    ensures NotNamedUpTo(bytes, n + 1, name)
  {
    hide EntriesIn, Blk;
  }

  lemma NotNamedYet(bytes: seq<byte>, name: Name)
    ensures NotNamedUpTo(bytes, 0, name)
  {
  }

  lemma NotNamed(bytes: seq<byte>, n: nat, name: Name)
    requires NotNamedUpTo(bytes, n, name) && |bytes| == 4096 * n
    ensures name !in MapOf(DirEntries(bytes))
  {
    hide EntriesIn, Blk, MapOf, DirEntries;
    UpToAndFrom(bytes, n);
    InMapOf(DirEntries(bytes), name);
    forall k | 0 <= k < |DirEntries(bytes)| ensures DirEntries(bytes)[k].name != name {
      assert DirEntries(bytes)[k] in DirEntries(bytes);
    }
  }

  /** The record's inode number is cleared. */
  method ClearRecord(v: Volume, i: nat, l: nat, off: nat, name: Name) returns (inodeNum: nat)
    requires v.Valid() && Sound(St(v)) && i in v.inodes && DirOk(v.disk, v.inodes[i]) && 4096 * l + 4096 <= v.inodes[i].size
    requires NamedHere(Blk(Content(v.disk, v.inodes[i]), l), off, name)
    modifies v`disk
    ensures v.Valid() && NameRemoved(old(St(v)), St(v), i, name, inodeNum)
  {
    hide *;
    U32Value();
    Ext4DirBlock.Sizes();
    ghost var st := St(v);
    StParts(v);
    DirParts(st, i);
    var f := v.inodes[i];
    var extents := Ext(v.disk, f);
    CoveredAt(extents, 0, DirBlocks(f), l);
    ghost var block := Blk(Content(v.disk, f), l);
    NamedFacts(block, off, name);
    HereCut(block, off);
    HereFits(block, off);
    BlockIsContent(v.disk, f, l);
    HereLen(block, off);
    RecHereIs(block, off);
    var pblock := MapLogicalBlock(extents, l).value;
    inodeNum := FirstRec(Block(v.disk, pblock)[off..]).inode;
    WrittenNothing(v.disk, extents, 4096 * l + off, Le32(0));
    WithinBlock(l, off, 0);
    WrittenNext(v.disk, extents, v.disk, 4096 * l + off, Le32(0), 0, pblock, off, 4);
    WholeSlice(Le32(0));
    v.WriteBytes(pblock, off, Le32(0));
    v.Opened();
    v.Closed();
    StParts(v);
    StateWithDisk(st, St(v));
    EditBlock(st, St(v), i, l, off, Le32(0));
    ghost var here := RecHere(block, off);
    ghost var a, c := block[..off], block[off + here.RecLen()..];
    ClearedEntries(block, off, here, a, c, name);
    ghost var e := DirEntry(name, here.inode, here.fileType);
    RemovedInBlock(Content(st.disk, f), l, Splice(block, off, Le32(0)), EntriesIn(a), e, EntriesIn(c));
    EditedDir(st, St(v), i, l, Splice(block, off, Le32(0)), IndexOf(st.disk, f) - {name});
    NameRemovedJoin(st, St(v), i, name, inodeNum);
  }

  lemma NameRemovedJoin(st: State, st': State, i: nat, name: Name, inodeNum: nat)
    requires i in st.inodes && DirChanged(st, st', i, IndexOf(st.disk, st.inodes[i]) - {name})
    requires name in IndexOf(st.disk, st.inodes[i]) && IndexOf(st.disk, st.inodes[i])[name].0 == inodeNum
    ensures NameRemoved(st, st', i, name, inodeNum)
  {
    hide DirChanged, IndexOf;
  }

  /** A live record of that name. */
  ghost predicate NamedHere(block: seq<byte>, off: nat, name: Name) {
    At(block, off) && off < |block| && RecHere(block, off).Fits() && RecHere(block, off).Live() && RecHere(block, off).Name() == name
  }

  lemma NamedFacts(block: seq<byte>, off: nat, name: Name)
    requires NamedHere(block, off, name)
    ensures At(block, off) && off < |block|
    ensures var r := RecHere(block, off); r.Fits() && EntryOf(r) == [DirEntry(name, r.inode, r.fileType)]
  {
    hide At, RecHere;
  }

  lemma ClearedEntries(block: seq<byte>, off: nat, r: Rec, a: seq<byte>, c: seq<byte>, name: Name)
    requires Cut(block, off, r, a, c) && r.Fits() && EntryOf(r) == [DirEntry(name, r.inode, r.fileType)]
    ensures off + 4 <= |block|
    ensures var b := Splice(block, off, Le32(0)); Tiled(b) && EntriesIn(b) == EntriesIn(a) + EntriesIn(c)
    ensures EntriesIn(block) == EntriesIn(a) + [DirEntry(name, r.inode, r.fileType)] + EntriesIn(c)
  {
    hide *;
    CutEntries(block, off, r, a, c);
    InodeCleared(block, off, r, a, c);
    CutEntries(Splice(block, off, Le32(0)), off, r.(inode := 0), a, c);
    assert EntriesIn(a) + [] == EntriesIn(a);
  }

  /** `dir_remove_entry`: the entry is gone, and its inode number is returned. */
  method DirRemoveEntry(v: Volume, i: nat, name: Name) returns (r: Result<nat>)
    requires v.Valid() && Sound(St(v)) && i in v.inodes && (v.inodes[i].kind == Directory ==> DirOk(v.disk, v.inodes[i]))
    modifies v`disk
    ensures v.Valid()
    ensures r.Ok? ==> NameRemoved(old(St(v)), St(v), i, name, r.value)
    ensures r.Err? ==> St(v) == old(St(v))
    ensures r.Err? ==> r.error == if v.inodes[i].kind == Directory then NotFound else NotADirectory
    ensures v.inodes[i].kind == Directory ==> (r.Err? <==> name !in IndexOf(old(v.disk), v.inodes[i]))
  {
    hide *;
    U32Value();
    ghost var st := St(v);
    StParts(v);
    if v.inodes[i].kind != Directory {
      return Err(NotADirectory);
    }
    DirParts(st, i);
    var blocks := DirBlocks(v.inodes[i]);
    var extents := Ext(v.disk, v.inodes[i]);
    NotNamedYet(Content(v.disk, v.inodes[i]), name);
    for l := 0 to blocks
      invariant v.Valid() && St(v) == st && v.disk == old(v.disk) && NotNamedUpTo(Content(v.disk, v.inodes[i]), l, name)
    {
      CoveredAt(extents, 0, blocks, l);
      BlockIsContent(v.disk, v.inodes[i], l);
      ShapeAt(Content(v.disk, v.inodes[i]), l);
      var found := FindNamed(Block(v.disk, MapLogicalBlock(extents, l).value), name);
      if found.Some? {
        NamedHereJoin(Block(v.disk, MapLogicalBlock(extents, l).value), found.value, name);
        var inodeNum := ClearRecord(v, i, l, found.value, name);
        NameRemovedParts(st, St(v), i, name, inodeNum);
        return Ok(inodeNum);
      }
      NotNamedNext(Content(v.disk, v.inodes[i]), l, name);
    }
    NotNamed(Content(v.disk, v.inodes[i]), blocks, name);
    return Err(NotFound);
  }

  lemma NamedHereJoin(block: seq<byte>, off: nat, name: Name)
    requires At(block, off) && off < |block|
    requires RecHere(block, off).Fits() && RecHere(block, off).Live() && RecHere(block, off).Name() == name
    ensures NamedHere(block, off, name)
  {
    hide At, RecHere;
  }

  lemma NameRemovedParts(st: State, st': State, i: nat, name: Name, inodeNum: nat)
    requires NameRemoved(st, st', i, name, inodeNum)
    ensures i in st.inodes && name in IndexOf(st.disk, st.inodes[i])
    ensures DirChanged(st, st', i, IndexOf(st.disk, st.inodes[i]) - {name})
  {
    hide DirChanged, IndexOf;
  }
}
