/** The bytes and the directories of ext4-fs/src/vfs.rs and the on-disk format: they are read alike. */
module Ext4ContentOnDisk {
  import opened Common
  import opened Ext4Types
  import opened Ext4Extents
  import opened Ext4Tree
  import opened Ext4Volume
  import opened Ext4FileState
  import opened Ext4DirBlock
  import opened Ext4Directory
  import Ext4OnDisk
  import F = Ext4Format

  // Files

  lemma {:induction false} PlaceByFormat(extents: seq<Extent>, l: nat)
    requires forall i :: 0 <= i < |extents| ==> extents[i].Valid()
    ensures var at := MapLogicalBlock(extents, l);
            F.Place(Ext4OnDisk.AllPlain(extents), l) == if at.Some? then at.value else -1
    decreases |extents|
  {
    if extents != [] {
      var e := extents[0];
      assert e.Valid();
      PlainFacts(e);
      PlaceByFormat(extents[1..], l);
      assert Ext4OnDisk.AllPlain(extents)[1..] == Ext4OnDisk.AllPlain(extents[1..]);
    }
  }

  lemma PlainFacts(e: Extent)
    requires e.Valid()
    ensures Ext4OnDisk.Plain(e) == F.Stretch(e.eeBlock, e.Len(), e.StartBlock())
    ensures Saturating32(e.eeBlock + e.Len()) == e.eeBlock + e.Len() && e.StartBlock() + e.Len() < U64
  {
  }

  /** Whoever reads a file by the format, its extents being valid, reads the bytes that the source reads. */
  lemma ContentByFormat(disk: Disk, inode: Inode, k: nat)
    requires k < inode.size && forall i :: 0 <= i < |Ext(disk, inode)| ==> Ext(disk, inode)[i].Valid()
    ensures Content(disk, inode)[k] == F.FileByte(disk, Ext4OnDisk.AllPlain(Ext(disk, inode)), k)
  {
    hide Ext, Ext4OnDisk.AllPlain, MapLogicalBlock, F.Place;
    PlaceByFormat(Ext(disk, inode), k / 4096);
  }

  // Directories

  function AsRecords(entries: seq<DirEntry>): (r: seq<F.Record>)
    ensures |r| == |entries| && forall i :: 0 <= i < |r| ==> r[i] == F.Record(entries[i].name, entries[i].inode, entries[i].fileType)
  {
    seq(|entries|, i requires 0 <= i < |entries| => F.Record(entries[i].name, entries[i].inode, entries[i].fileType))
  }

  lemma BothAsRecords(a: seq<DirEntry>, b: seq<DirEntry>)
    ensures AsRecords(a + b) == AsRecords(a) + AsRecords(b)
  {
  }

  /** The record at the head of the bytes. */
  lemma FirstByFormat(b: seq<byte>)
    requires |b| >= 8
    ensures RecLenAt(b) == F.Two(b, 4)
    ensures 8 <= F.Two(b, 4) <= |b| ==> FirstRec(b) == Rec(F.Four(b, 0), b[6], b[7], b[8..F.Two(b, 4)])
  {
    hide From16, From32;
    Ext4OnDisk.Numbers(b, 4);
    Ext4OnDisk.Numbers(b, 0);
    assert b[0..0 + 4] == b[..4];
  }

  /** Bytes are covered by records exactly if the format makes sense of them. */
  lemma {:induction false} TiledByFormat(b: seq<byte>)
    ensures Tiled(b) <==> F.ReadDir(b).Listing?
    decreases |b|
  {
    hide RecLenAt, FirstRec, F.Two, F.Four;
    if |b| >= 8 {
      FirstByFormat(b);
      FourFits(b);
      if 8 <= F.Two(b, 4) <= |b| {
        TiledByFormat(b[F.Two(b, 4)..]);
      }
    }
  }

  /** Then both see the same entries. */
  lemma {:induction false} EntriesByFormat(b: seq<byte>)
    requires Tiled(b)
    ensures F.ReadDir(b) == F.Listing(AsRecords(EntriesIn(b)))
    decreases |b|
  {
    hide RecLenAt, FirstRec, F.Two, F.Four, AsRecords, EntriesIn, EntryOf;
    TiledByFormat(b);
    if b == [] {
      NoRecords();
    } else {
      FirstByFormat(b);
      var n := F.Two(b, 4);
      EntriesByFormat(b[n..]);
      EntriesNext(b);
      BothAsRecords(EntryOf(FirstRec(b)), EntriesIn(b[n..]));
      OneAsRecord(FirstRec(b));
      assert b[8..n][..b[6]] == b[8..8 + b[6] as nat];
    }
  }

  lemma FourFits(b: seq<byte>)
    requires |b| >= 8
    ensures F.Four(b, 0) < U32 && F.Two(b, 4) < U16
  {
  }

  lemma NoRecords()
    ensures AsRecords([]) == [] && EntriesIn([]) == []
  {
  }

  lemma EntriesNext(b: seq<byte>)
    requires b != [] && Tiled(b)
    ensures EntriesIn(b) == EntryOf(FirstRec(b)) + EntriesIn(b[RecLenAt(b)..])
  {
    RecsFit(b);
    hide FirstRec, RecLenAt, EntryOf;
    assert Recs(b)[0] == FirstRec(b) && Recs(b)[1..] == Recs(b[RecLenAt(b)..]);
  }

  lemma OneAsRecord(r: Rec)
    requires r.Fits()
    ensures AsRecords(EntryOf(r)) == if r.inode != 0 && r.nameLen != 0 then [F.Record(r.body[..r.nameLen], r.inode, r.fileType)] else []
  {
  }

  lemma {:induction false} BlocksJoined(bytes: seq<byte>, l: nat)
    requires DirShape(bytes) && 4096 * l <= |bytes|
    ensures Tiled(bytes[4096 * l..]) && EntriesIn(bytes[4096 * l..]) == EntriesFrom(bytes, l)
    decreases |bytes| - 4096 * l
  {
    hide Tiled, EntriesIn;
    if 4096 * l + 4096 <= |bytes| {
      BlocksJoined(bytes, l + 1);
      Joined(Blk(bytes, l), bytes[4096 * (l + 1)..]);
      assert Blk(bytes, l) + bytes[4096 * (l + 1)..] == bytes[4096 * l..];
    } else {
      assert bytes[4096 * l..] == [];
      NothingTiled();
    }
  }

  lemma NothingTiled()
    ensures Tiled([]) && EntriesIn([]) == []
  {
  }

  /** Whoever reads a directory by the format finds the names, inode numbers and types that the source finds. */
  lemma DirByFormat(disk: Disk, inode: Inode)
    requires DirOk(disk, inode)
    ensures F.ReadDir(Content(disk, inode)).Listing?
    ensures forall name: Name, i: nat, t: nat ::
              F.Record(name, i, t) in F.ReadDir(Content(disk, inode)).records
              <==> name in IndexOf(disk, inode) && IndexOf(disk, inode)[name] == (i, t)
  {
    hide Content, MapOf, Distinct, EntriesFrom, F.ReadDir, AsRecords;
    var bytes := Content(disk, inode);
    BlocksJoined(bytes, 0);
    assert bytes[4096 * 0..] == bytes;
    EntriesByFormat(bytes);
    var entries := DirEntries(bytes);
    forall name: Name, i: nat, t: nat
      ensures F.Record(name, i, t) in F.ReadDir(bytes).records <==> name in MapOf(entries) && MapOf(entries)[name] == (i, t)
    {
      MapOfIs(entries, name, (i, t));
      InAsRecords(entries, name, i, t);
    }
  }

  lemma InAsRecords(entries: seq<DirEntry>, name: Name, i: nat, t: nat)
    ensures F.Record(name, i, t) in AsRecords(entries) <==> DirEntry(name, i, t) in entries
  {
    var r := AsRecords(entries);
    if F.Record(name, i, t) in r {
      var k :| 0 <= k < |r| && r[k] == F.Record(name, i, t);
      assert entries[k] == DirEntry(name, i, t);
    }
    if DirEntry(name, i, t) in entries {
      var k :| 0 <= k < |entries| && entries[k] == DirEntry(name, i, t);
      assert r[k] == F.Record(name, i, t);
    }
  }
}
