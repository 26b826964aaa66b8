/** Linear directory blocks of ext4-fs/src/vfs.rs: chains of variable-length records, the index of their names,
    and the edits that `dir_add_entry` and `dir_remove_entry` make. */
module Ext4DirBlock {
  import opened Common
  import opened Ext4Types
  import opened Ext4Layout
  import opened Ext4Volume

  type Name = seq<byte>

  const FIXED_SIZE: nat := 8
  const EXT4_NAME_LEN: nat := 255

  /** `align4`. */
  function Align4(n: nat): (r: nat)
    ensures n <= r < n + 4 && r % 4 == 0
  {
    (n + 3) / 4 * 4
  }

  // Records

  /** A record: its header fields and the bytes after them, as many as `rec_len` leaves. */
  datatype Rec = Rec(inode: nat, nameLen: nat, fileType: nat, body: seq<byte>) {
    function RecLen(): nat {
      FIXED_SIZE + |body|
    }

    predicate Live() {
      inode != 0 && nameLen > 0
    }

    function Name(): Name
      requires nameLen <= |body|
    {
      body[..nameLen]
    }

    /** The name fits the record, and the fields fit their bytes. */
    predicate Fits() {
      nameLen <= |body| && nameLen < 256 && inode < U32 && fileType < 256 && RecLen() % 4 == 0 && RecLen() < U16
    }
  }

  function EncodeRec(r: Rec): (b: seq<byte>)
    requires r.Fits()
    ensures |b| == r.RecLen()
  {
    Le32(r.inode) + Le16(r.RecLen()) + [r.nameLen, r.fileType] + r.body
  }

  function RecLenAt(b: seq<byte>): nat
    requires |b| >= FIXED_SIZE
  {
    From16(b[4..6])
  }

  /** The record at the head of the bytes. */
  function FirstRec(b: seq<byte>): (r: Rec)
    requires |b| >= FIXED_SIZE && FIXED_SIZE <= RecLenAt(b) <= |b|
    ensures r.RecLen() == RecLenAt(b) && r.inode < U32 && r.nameLen < 256 && r.fileType < 256
  {
    Rec(From32(b[..4]), b[6], b[7], b[FIXED_SIZE..RecLenAt(b)])
  }

  lemma RecRoundTrip(r: Rec, rest: seq<byte>)
    requires r.Fits()
    ensures var b := EncodeRec(r) + rest;
            && RecLenAt(b) == r.RecLen() && FirstRec(b) == r && b[r.RecLen()..] == rest
  {
    hide Le16, Le32, From16, From32;
    var b := EncodeRec(r) + rest;
    assert b[..4] == Le32(r.inode) && b[4..6] == Le16(r.RecLen());
    Le32From32(r.inode);
    Le16From16(r.RecLen());
    assert b[FIXED_SIZE..r.RecLen()] == r.body;
  }

  lemma EncodeFirst(b: seq<byte>)
    requires |b| >= FIXED_SIZE && FIXED_SIZE <= RecLenAt(b) <= |b| && FirstRec(b).Fits()
    ensures EncodeRec(FirstRec(b)) == b[..RecLenAt(b)]
  {
    hide Le16, Le32, From16, From32;
    Le32Of(b[..4]);
    Le16Of(b[4..6]);
    var n := RecLenAt(b);
    assert b[..n] == b[..4] + b[4..6] + [b[6], b[7]] + b[FIXED_SIZE..n];
  }

  lemma Le32Of(b: seq<byte>)
    requires |b| == 4
    ensures Le32(From32(b)) == b
  {
    var n := From32(b);
    assert n / 256 == b[1] as nat + 256 * b[2] as nat + 65536 * b[3] as nat;
    assert n / 65536 == b[2] as nat + 256 * b[3] as nat;
    assert n / 16777216 == b[3] as nat;
  }

  lemma Le16Of(b: seq<byte>)
    requires |b| == 2
    ensures Le16(From16(b)) == b
  {
  }

  // Chains

  /** The bytes are records one after the other, up to the very end. */
  ghost predicate Tiled(b: seq<byte>)
    decreases |b|
  {
    b == [] || (
      && |b| >= FIXED_SIZE && FIXED_SIZE <= RecLenAt(b) <= |b|
      && FirstRec(b).Fits() && Tiled(b[RecLenAt(b)..]))
  }

  /** The records of tiled bytes. */
  ghost function Recs(b: seq<byte>): (recs: seq<Rec>)
    requires Tiled(b)
    decreases |b|
  {
    if b == [] then [] else [FirstRec(b)] + Recs(b[RecLenAt(b)..])
  }

  /** The bytes of records. */
  function Encode(recs: seq<Rec>): (b: seq<byte>)
    requires forall i :: 0 <= i < |recs| ==> recs[i].Fits()
  {
    if recs == [] then [] else EncodeRec(recs[0]) + Encode(recs[1..])
  }

  ghost predicate AllFit(recs: seq<Rec>) {
    forall i :: 0 <= i < |recs| ==> recs[i].Fits()
  }

  lemma {:induction false} RecsFit(b: seq<byte>)
    requires Tiled(b)
    ensures AllFit(Recs(b)) && Encode(Recs(b)) == b
    decreases |b|
  {
    hide RecLenAt, FirstRec, EncodeRec;
    if b != [] {
      var rest := b[RecLenAt(b)..];
      RecsFit(rest);
      EncodeFirst(b);
      assert Recs(b)[1..] == Recs(rest);
      assert b == b[..RecLenAt(b)] + rest;
    }
  }

  /** Records and tiled bytes are two views of the same thing. */
  lemma {:induction false} EncodeTiled(recs: seq<Rec>)
    requires AllFit(recs)
    ensures Tiled(Encode(recs)) && Recs(Encode(recs)) == recs
    decreases |recs|
  {
    hide RecLenAt, FirstRec, EncodeRec;
    if recs != [] {
      EncodeTiled(recs[1..]);
      RecRoundTrip(recs[0], Encode(recs[1..]));
      assert Encode(recs) != [] by { assert |EncodeRec(recs[0])| >= 8; }
      assert recs == [recs[0]] + recs[1..];
    }
  }

  lemma {:induction false} EncodeConcat(a: seq<Rec>, b: seq<Rec>)
    requires AllFit(a) && AllFit(b)
    ensures AllFit(a + b) && Encode(a + b) == Encode(a) + Encode(b)
    decreases |a|
  {
    if a == [] {
      assert a + b == b;
    } else {
      EncodeConcat(a[1..], b);
      assert (a + b)[1..] == a[1..] + b;
    }
  }

  lemma EncodeOne(r: Rec)
    requires r.Fits()
    ensures AllFit([r]) && Encode([r]) == EncodeRec(r)
  {
    assert Encode([r]) == EncodeRec(r) + Encode([]);
  }

  // Names

  datatype DirEntry = DirEntry(name: Name, inode: nat, fileType: nat)

  /** `read_dir_entries` over records: what the live ones say, in order. */
  function Entries(recs: seq<Rec>): seq<DirEntry>
    requires AllFit(recs)
  {
    if recs == [] then [] else EntryOf(recs[0]) + Entries(recs[1..])
  }

  function EntryOf(r: Rec): seq<DirEntry>
    requires r.Fits()
  {
    if r.Live() then [DirEntry(r.Name(), r.inode, r.fileType)] else []
  }

  lemma {:induction false} EntriesConcat(a: seq<Rec>, b: seq<Rec>)
    requires AllFit(a) && AllFit(b)
    ensures AllFit(a + b) && Entries(a + b) == Entries(a) + Entries(b)
    decreases |a|
  {
    hide Rec.Live, Rec.Fits, EntryOf;
    if a == [] {
      assert a + b == b;
    } else {
      EntriesConcat(a[1..], b);
      assert (a + b)[1..] == a[1..] + b;
      assert AllFit(a + b);
    }
  }

  lemma EntriesOne(r: Rec)
    requires r.Fits()
    ensures AllFit([r]) && Entries([r]) == EntryOf(r)
  {
    assert Entries([r]) == EntryOf(r) + Entries([]);
  }

  /** No name twice. */
  ghost predicate Distinct(entries: seq<DirEntry>) {
    forall i, j :: 0 <= i < j < |entries| ==> entries[i].name != entries[j].name
  }

  /** `build_dir_index`: later entries win. */
  function MapOf(entries: seq<DirEntry>): map<Name, (nat, nat)> {
    if entries == [] then map[]
    else
      var last := entries[|entries| - 1];
      MapOf(entries[..|entries| - 1])[last.name := (last.inode, last.fileType)]
  }

  /** The index lists the entries, no more and no less. */
  lemma {:induction false} MapOfIs(entries: seq<DirEntry>, name: Name, value: (nat, nat))
    requires Distinct(entries)
    ensures (name in MapOf(entries) && MapOf(entries)[name] == value) <==> DirEntry(name, value.0, value.1) in entries
    decreases |entries|
  {
    if entries != [] {
      var last := |entries| - 1;
      var before := entries[..last];
      var x := DirEntry(name, value.0, value.1);
      MapOfIs(before, name, value);
      InPrefix(entries, x);
      hide Distinct;
      if entries[last].name == name {
        LastOnly(entries, x);
      }
    }
  }

  lemma InPrefix(entries: seq<DirEntry>, x: DirEntry)
    requires entries != []
    ensures x in entries <==> x in entries[..|entries| - 1] || x == entries[|entries| - 1]
  {
    assert entries == entries[..|entries| - 1] + [entries[|entries| - 1]];
  }

  lemma LastOnly(entries: seq<DirEntry>, x: DirEntry)
    requires entries != [] && Distinct(entries) && entries[|entries| - 1].name == x.name
    ensures x !in entries[..|entries| - 1]
  {
    var before := entries[..|entries| - 1];
    forall i | 0 <= i < |before| ensures before[i] != x {
      assert entries[i].name != entries[|entries| - 1].name;
    }
  }

  lemma {:induction false} InMapOf(entries: seq<DirEntry>, name: Name)
    ensures name in MapOf(entries) <==> exists i :: 0 <= i < |entries| && entries[i].name == name
    decreases |entries|
  {
    if entries != [] {
      var last := |entries| - 1;
      var before := entries[..last];
      InMapOf(before, name);
      assert forall i :: 0 <= i < last ==> before[i] == entries[i];
      if name in MapOf(before) {
        var i :| 0 <= i < |before| && before[i].name == name;
        assert entries[i].name == name;
      }
      forall i | 0 <= i < |entries| && entries[i].name == name ensures name in MapOf(entries) {
        if i < last {
          assert before[i].name == name;
        }
      }
    }
  }

  /** Equal as maps, entry by entry. */
  lemma SameMap(entries: seq<DirEntry>, m: map<Name, (nat, nat)>)
    requires Distinct(entries)
    requires forall name, value :: (name in m && m[name] == value) <==> DirEntry(name, value.0, value.1) in entries
    ensures MapOf(entries) == m
  {
    hide MapOf, Distinct;
    forall name ensures name in MapOf(entries) <==> name in m {
      if name in m {
        MapOfIs(entries, name, m[name]);
      }
      if name in MapOf(entries) {
        MapOfIs(entries, name, MapOf(entries)[name]);
      }
    }
    forall name | name in m ensures MapOf(entries)[name] == m[name] {
      MapOfIs(entries, name, m[name]);
    }
  }

  /** A new name, wherever its record goes. */
  lemma EntryAdded(a: seq<DirEntry>, e: DirEntry, b: seq<DirEntry>)
    requires Distinct(a + b) && e.name !in MapOf(a + b)
    ensures Distinct(a + [e] + b) && MapOf(a + [e] + b) == MapOf(a + b)[e.name := (e.inode, e.fileType)]
  {
    hide MapOf;
    InMapOf(a + b, e.name);
    var r := a + [e] + b;
    EntryAddedDistinct(a, e, b);
    var m := MapOf(a + b)[e.name := (e.inode, e.fileType)];
    forall name, value ensures (name in m && m[name] == value) <==> DirEntry(name, value.0, value.1) in r {
      MapOfIs(a + b, name, value);
      MemberSplit(a, e, b, DirEntry(name, value.0, value.1));
      if name == e.name {
        NotMember(a + b, DirEntry(name, value.0, value.1));
      }
    }
    SameMap(r, m);
  }

  lemma MemberSplit(a: seq<DirEntry>, e: DirEntry, b: seq<DirEntry>, x: DirEntry)
    ensures x in a + [e] + b <==> x == e || x in a + b
  {
  }

  lemma NotMember(entries: seq<DirEntry>, x: DirEntry)
    requires !exists i :: 0 <= i < |entries| && entries[i].name == x.name
    ensures x !in entries
  {
  }

  lemma EntryAddedDistinct(a: seq<DirEntry>, e: DirEntry, b: seq<DirEntry>)
    requires Distinct(a + b) && !exists i :: 0 <= i < |a + b| && (a + b)[i].name == e.name
    ensures Distinct(a + [e] + b)
  {
    var r := a + [e] + b;
    forall i, j | 0 <= i < j < |r| ensures r[i].name != r[j].name {
      if i == |a| {
        assert r[j] == (a + b)[j - 1];
      } else if j == |a| {
        assert r[i] == (a + b)[i];
      } else {
        var i', j' := if i < |a| then i else i - 1, if j < |a| then j else j - 1;
        assert r[i] == (a + b)[i'] && r[j] == (a + b)[j'];
      }
    }
  }

  /** A name goes with its record. */
  lemma EntryRemoved(a: seq<DirEntry>, e: DirEntry, b: seq<DirEntry>)
    requires Distinct(a + [e] + b)
    ensures Distinct(a + b) && MapOf(a + b) == MapOf(a + [e] + b) - {e.name}
    ensures e.name in MapOf(a + [e] + b) && MapOf(a + [e] + b)[e.name] == (e.inode, e.fileType)
  {
    hide MapOf;
    var r := a + [e] + b;
    EntryRemovedDistinct(a, e, b);
    MapOfIs(r, e.name, (e.inode, e.fileType));
    var m := MapOf(r) - {e.name};
    forall name, value ensures (name in m && m[name] == value) <==> DirEntry(name, value.0, value.1) in a + b {
      MapOfIs(r, name, value);
      MemberSplit(a, e, b, DirEntry(name, value.0, value.1));
      if name == e.name {
        NoOther(a, e, b, DirEntry(name, value.0, value.1));
      }
    }
    SameMap(a + b, m);
  }

  lemma NoOther(a: seq<DirEntry>, e: DirEntry, b: seq<DirEntry>, x: DirEntry)
    requires Distinct(a + [e] + b) && x.name == e.name
    ensures x !in a + b
  {
    var r := a + [e] + b;
    forall p | 0 <= p < |a + b| ensures (a + b)[p] != x {
      var p' := if p < |a| then p else p + 1;
      assert r[p'] == (a + b)[p] && r[|a|] == e;
    }
  }

  lemma EntryRemovedDistinct(a: seq<DirEntry>, e: DirEntry, b: seq<DirEntry>)
    requires Distinct(a + [e] + b)
    ensures Distinct(a + b)
  {
    var r := a + [e] + b;
    forall i, j | 0 <= i < j < |a + b| ensures (a + b)[i].name != (a + b)[j].name {
      var i', j' := if i < |a| then i else i + 1, if j < |a| then j else j + 1;
      assert r[i'] == (a + b)[i] && r[j'] == (a + b)[j];
    }
  }

  // Edits of one block

  /** The record that `dir_write_entry_at` leaves: the name, and zeros up to `rec_len`. */
  function NewRec(recLen: nat, inode: nat, fileType: nat, name: Name): (r: Rec)
    requires FIXED_SIZE + |name| <= recLen
    ensures r.RecLen() == recLen
  {
    Rec(inode, |name|, fileType, name + Zeros(recLen - FIXED_SIZE - |name|))
  }

  /** Arguments that a new entry may have. */
  predicate Entryable(inode: nat, fileType: nat, name: Name) {
    0 < inode < U32 && fileType < 256 && 0 < |name| <= EXT4_NAME_LEN
  }

  lemma NewRecEntry(recLen: nat, inode: nat, fileType: nat, name: Name)
    requires Entryable(inode, fileType, name) && Align4(FIXED_SIZE + |name|) <= recLen < U16 && recLen % 4 == 0
    ensures var r := NewRec(recLen, inode, fileType, name);
            r.Fits() && EntryOf(r) == [DirEntry(name, inode, fileType)]
  {
    var r := NewRec(recLen, inode, fileType, name);
    assert r.body[..|name|] == name;
  }

  /** What `dir_write_entry_at` does to a block: header, name and zeros over `recLen` bytes. */
  function EntryWritten(block: seq<byte>, off: nat, recLen: nat, inode: nat, fileType: nat, name: Name): (b: seq<byte>)
    requires off + recLen <= |block| && FIXED_SIZE + |name| <= recLen && fileType < 256 && |name| <= EXT4_NAME_LEN
    ensures |b| == |block|
  {
    var headed := Splice(block, off, Le32(inode) + Le16(recLen) + [|name|, fileType]);
    var named := Splice(headed, off + FIXED_SIZE, name);
    Splice(named, off + FIXED_SIZE + |name|, Zeros(recLen - FIXED_SIZE - |name|))
  }

  lemma EntryWrittenIs(block: seq<byte>, off: nat, recLen: nat, inode: nat, fileType: nat, name: Name)
    requires off + recLen <= |block| && Entryable(inode, fileType, name)
    requires Align4(FIXED_SIZE + |name|) <= recLen < U16 && recLen % 4 == 0
    ensures NewRec(recLen, inode, fileType, name).Fits()
    ensures EntryWritten(block, off, recLen, inode, fileType, name)
            == block[..off] + EncodeRec(NewRec(recLen, inode, fileType, name)) + block[off + recLen..]
  {
    hide Le16, Le32, Align4;
    NewRecEntry(recLen, inode, fileType, name);
    var r := NewRec(recLen, inode, fileType, name);
    assert EncodeRec(r) == Le32(inode) + Le16(recLen) + [|name|, fileType] + name + Zeros(recLen - FIXED_SIZE - |name|);
  }

  // The chain, record by record

  /** The bytes up to `off` are whole records. */
  ghost predicate At(block: seq<byte>, off: nat) {
    off <= |block| && Tiled(block[..off]) && Tiled(block[off..])
  }

  lemma AtStart(block: seq<byte>)
    requires Tiled(block)
    ensures At(block, 0)
  {
    assert block[0..] == block;
  }

  /** Tiled bytes after tiled bytes. */
  lemma {:induction false} TiledConcat(a: seq<byte>, b: seq<byte>)
    requires Tiled(a) && Tiled(b)
    ensures Tiled(a + b) && Recs(a + b) == Recs(a) + Recs(b)
    decreases |a|
  {
    hide *;
    RecsFit(a);
    RecsFit(b);
    EncodeConcat(Recs(a), Recs(b));
    EncodeTiled(Recs(a) + Recs(b));
  }

  lemma TiledOne(r: Rec)
    requires r.Fits()
    ensures Tiled(EncodeRec(r)) && Recs(EncodeRec(r)) == [r]
  {
    hide *;
    EncodeOne(r);
    EncodeTiled([r]);
  }

  /** The block is tiled bytes, one record, and tiled bytes. */
  ghost predicate Cut(block: seq<byte>, off: nat, r: Rec, a: seq<byte>, c: seq<byte>) {
    && Tiled(a) && Tiled(c) && r.Fits() && off == |a|
    && block == a + EncodeRec(r) + c
  }

  /** The entries of a block, none if it is not tiled. */
  ghost function EntriesIn(block: seq<byte>): seq<DirEntry> {
    if Tiled(block) then (RecsFit(block); Entries(Recs(block))) else []
  }

  /** The chain put together again around new bytes. */
  lemma Joined(a: seq<byte>, b: seq<byte>)
    requires Tiled(a) && Tiled(b)
    ensures Tiled(a + b) && EntriesIn(a + b) == EntriesIn(a) + EntriesIn(b)
  {
    hide Tiled, Recs, AllFit;
    TiledConcat(a, b);
    RecsFit(a);
    RecsFit(b);
    EntriesConcat(Recs(a), Recs(b));
  }

  lemma EntriesOfRec(r: Rec)
    requires r.Fits()
    ensures Tiled(EncodeRec(r)) && EntriesIn(EncodeRec(r)) == EntryOf(r)
  {
    hide Tiled, Recs, EncodeRec, EntryOf;
    TiledOne(r);
    EntriesOne(r);
  }

  lemma CutEntries(block: seq<byte>, off: nat, r: Rec, a: seq<byte>, c: seq<byte>)
    requires Cut(block, off, r, a, c)
    ensures Tiled(block) && EntriesIn(block) == EntriesIn(a) + EntryOf(r) + EntriesIn(c)
  {
    hide Tiled, EncodeRec, EntryOf, EntriesIn, Rec.Fits;
    EntriesOfRec(r);
    Joined(a, EncodeRec(r));
    Joined(a + EncodeRec(r), c);
  }

  lemma CutSizes(block: seq<byte>, off: nat, r: Rec, a: seq<byte>, c: seq<byte>)
    requires Cut(block, off, r, a, c)
    ensures |a| == off && |block| == off + r.RecLen() + |c| && r.Fits()
    ensures block[..off] == a && block[off..off + r.RecLen()] == EncodeRec(r) && block[off + r.RecLen()..] == c
  {
    hide Tiled, EncodeRec, Rec.Fits;
  }

  /** The record at a place in the chain. */
  lemma CutAt(block: seq<byte>, off: nat)
    requires At(block, off) && off < |block|
    ensures var rest := block[off..];
            && |rest| >= FIXED_SIZE && FIXED_SIZE <= RecLenAt(rest) <= |rest|
            && Cut(block, off, FirstRec(rest), block[..off], block[off + RecLenAt(rest)..])
  {
    hide RecLenAt, FirstRec, EncodeRec;
    var rest := block[off..];
    var n := RecLenAt(rest);
    EncodeFirst(rest);
    assert rest[n..] == block[off + n..];
    assert block == block[..off] + rest[..n] + block[off + n..];
  }

  /** The next place in the chain. */
  lemma AtNext(block: seq<byte>, off: nat, r: Rec, a: seq<byte>, c: seq<byte>)
    requires Cut(block, off, r, a, c)
    ensures At(block, off + r.RecLen()) && EntriesIn(block[..off + r.RecLen()]) == EntriesIn(a) + EntryOf(r)
  {
    CutSizes(block, off, r, a, c);
    assert block[..off + r.RecLen()] == a + EncodeRec(r);
    hide Tiled, EncodeRec, EntryOf, EntriesIn, Rec.Fits;
    EntriesOfRec(r);
    Joined(a, EncodeRec(r));
  }

  // The three edits

  /** A dead record is reused: its place now holds the new entry. */
  lemma Reused(block: seq<byte>, off: nat, r: Rec, a: seq<byte>, c: seq<byte>, inode: nat, fileType: nat, name: Name)
    requires Cut(block, off, r, a, c) && Entryable(inode, fileType, name) && Align4(FIXED_SIZE + |name|) <= r.RecLen()
    ensures |block| == off + r.RecLen() + |c|
    ensures Cut(EntryWritten(block, off, r.RecLen(), inode, fileType, name), off, NewRec(r.RecLen(), inode, fileType, name), a, c)
  {
    CutSizes(block, off, r, a, c);
    hide Tiled, EncodeRec, EntryWritten, Align4;
    EntryWrittenIs(block, off, r.RecLen(), inode, fileType, name);
  }

  /** The bytes of a record that name and header need. */
  function Used(r: Rec): (used: nat)
    ensures FIXED_SIZE + r.nameLen <= used < FIXED_SIZE + r.nameLen + 4 && used % 4 == 0
  {
    Align4(FIXED_SIZE + r.nameLen)
  }

  function Shrunk(r: Rec, used: nat): Rec
    requires FIXED_SIZE <= used <= r.RecLen()
  {
    r.(body := r.body[..used - FIXED_SIZE])
  }

  lemma ShrunkSame(r: Rec)
    requires r.Fits() && Used(r) <= r.RecLen()
    ensures Shrunk(r, Used(r)).Fits() && EntryOf(Shrunk(r, Used(r))) == EntryOf(r) && Shrunk(r, Used(r)).RecLen() == Used(r)
  {
    hide Align4;
    assert r.body[..Used(r) - FIXED_SIZE][..r.nameLen] == r.body[..r.nameLen];
  }

  /** The block after `rec_len` of the record at `off` has been set. */
  function RecLenSet(block: seq<byte>, off: nat, recLen: nat): (b: seq<byte>)
    requires off + FIXED_SIZE <= |block|
    ensures |b| == |block|
  {
    Splice(block, off + 4, Le16(recLen))
  }

  lemma RecLenSetIs(block: seq<byte>, off: nat, r: Rec, a: seq<byte>, c: seq<byte>)
    requires Cut(block, off, r, a, c) && Used(r) <= r.RecLen()
    ensures off + FIXED_SIZE <= |block| && Shrunk(r, Used(r)).Fits()
    ensures RecLenSet(block, off, Used(r)) == a + EncodeRec(Shrunk(r, Used(r))) + r.body[Used(r) - FIXED_SIZE..] + c
  {
    hide *;
    Sizes();
    var used := Used(r);
    CutSizes(block, off, r, a, c);
    CutFits(block, off, r, a, c);
    CutBytes(block, off, r, a, c);
    ShrunkSame(r);
    ShrunkBytes(r, used);
    RecLenBytes(a, Le32(r.inode), Le16(r.RecLen()), [r.nameLen, r.fileType], r.body, used - FIXED_SIZE, c, Le16(used));
    RecLenSetDef(block, off, used);
  }

  lemma RecLenSetDef(block: seq<byte>, off: nat, recLen: nat)
    requires off + FIXED_SIZE <= |block|
    ensures RecLenSet(block, off, recLen) == Splice(block, off + 4, Le16(recLen))
  {
  }

  lemma CutBytes(block: seq<byte>, off: nat, r: Rec, a: seq<byte>, c: seq<byte>)
    requires Cut(block, off, r, a, c)
    ensures r.nameLen < 256 && r.fileType < 256
    ensures block == a + (Le32(r.inode) + Le16(r.RecLen()) + [r.nameLen, r.fileType] + r.body) + c
  {
    hide Le32, Le16, Tiled;
  }

  lemma ShrunkBytes(r: Rec, used: nat)
    requires r.Fits() && FIXED_SIZE <= used <= r.RecLen() && Shrunk(r, used).Fits() && Shrunk(r, used).RecLen() == used
    ensures EncodeRec(Shrunk(r, used)) == Le32(r.inode) + Le16(used) + [r.nameLen, r.fileType] + r.body[..used - FIXED_SIZE]
  {
    hide Le32, Le16;
  }

  lemma RecLenBytes(a: seq<byte>, head: seq<byte>, old_: seq<byte>, mid: seq<byte>, body: seq<byte>, n: nat, c: seq<byte>, new_: seq<byte>)
    requires |head| == 4 && |old_| == 2 && |new_| == 2 && n <= |body|
    ensures Splice(a + (head + old_ + mid + body) + c, |a| + 4, new_) == a + (head + new_ + mid + body[..n]) + body[n..] + c
  {
  }

  lemma RecBytes(r: Rec)
    requires r.Fits()
    ensures EncodeRec(r) == Le32(r.inode) + Le16(r.RecLen()) + ([r.nameLen, r.fileType] + r.body)
    ensures EncodeRec(r) == Le32(r.inode) + Le16(r.RecLen()) + [r.nameLen, r.fileType] + r.body
  {
  }

  lemma Sizes()
    ensures FIXED_SIZE == 8 && U16 == 0x1_0000
  {
  }

  lemma CutFits(block: seq<byte>, off: nat, r: Rec, a: seq<byte>, c: seq<byte>)
    requires Cut(block, off, r, a, c)
    ensures r.Fits() && r.RecLen() % 4 == 0 && r.RecLen() < U16 && r.RecLen() == FIXED_SIZE + |r.body|
  {
  }

  lemma CutTiled(block: seq<byte>, off: nat, r: Rec, a: seq<byte>, c: seq<byte>)
    requires Cut(block, off, r, a, c)
    ensures Tiled(a) && Tiled(c)
  {
  }

  lemma CutJoin(a: seq<byte>, r: Rec, c: seq<byte>)
    requires Tiled(a) && Tiled(c) && r.Fits()
    ensures Cut(a + EncodeRec(r) + c, |a|, r, a, c)
  {
  }

  lemma RoomLeft(r: Rec, name: Name)
    requires r.Fits() && Used(r) + Align4(FIXED_SIZE + |name|) <= r.RecLen()
    ensures Align4(FIXED_SIZE + |name|) <= r.RecLen() - Used(r) < U16 && (r.RecLen() - Used(r)) % 4 == 0
    ensures FIXED_SIZE + |name| <= Align4(FIXED_SIZE + |name|)
  {
  }

  /** The block before the new entry is written into the room that was split off. */
  lemma SplitBytes(block: seq<byte>, off: nat, r: Rec, a: seq<byte>, c: seq<byte>)
    requires Cut(block, off, r, a, c) && Used(r) <= r.RecLen() && off + r.RecLen() <= |block| && Shrunk(r, Used(r)).Fits()
    requires Shrunk(r, Used(r)).RecLen() == Used(r)
    ensures off + FIXED_SIZE <= |block|
    ensures RecLenSet(block, off, Used(r))[..off + Used(r)] == a + EncodeRec(Shrunk(r, Used(r)))
    ensures RecLenSet(block, off, Used(r))[off + r.RecLen()..] == c
    ensures |a + EncodeRec(Shrunk(r, Used(r)))| == off + Used(r)
  {
    CutSizes(block, off, r, a, c);
    RecLenSetIs(block, off, r, a, c);
    hide Tiled, EncodeRec, Align4, RecLenSet, Used, Cut;
    var first, rest := a + EncodeRec(Shrunk(r, Used(r))), r.body[Used(r) - FIXED_SIZE..];
    Parts(first, rest, c);
  }

  lemma Parts(first: seq<byte>, rest: seq<byte>, c: seq<byte>)
    ensures (first + rest + c)[..|first|] == first && (first + rest + c)[|first| + |rest|..] == c
  {
  }

  /** A record is split: the room it does not need becomes the new entry. */
  lemma SplitUp(block: seq<byte>, off: nat, r: Rec, a: seq<byte>, c: seq<byte>, inode: nat, fileType: nat, name: Name)
    requires Cut(block, off, r, a, c) && Entryable(inode, fileType, name)
    requires Used(r) + Align4(FIXED_SIZE + |name|) <= r.RecLen()
    ensures off + r.RecLen() <= |block| && Shrunk(r, Used(r)).Fits()
    ensures Cut(EntryWritten(RecLenSet(block, off, Used(r)), off + Used(r), r.RecLen() - Used(r), inode, fileType, name),
                off + Used(r), NewRec(r.RecLen() - Used(r), inode, fileType, name), a + EncodeRec(Shrunk(r, Used(r))), c)
    ensures EntriesIn(a + EncodeRec(Shrunk(r, Used(r)))) == EntriesIn(a) + EntryOf(r)
  {
    hide *;
    Sizes();
    var used := Used(r);
    CutSizes(block, off, r, a, c);
    CutFits(block, off, r, a, c);
    ShrunkSame(r);
    EntriesOfRec(Shrunk(r, used));
    CutTiled(block, off, r, a, c);
    Joined(a, EncodeRec(Shrunk(r, used)));
    SplitBytes(block, off, r, a, c);
    RoomLeft(r, name);
    EntryWrittenIs(RecLenSet(block, off, used), off + used, r.RecLen() - used, inode, fileType, name);
    CutJoin(a + EncodeRec(Shrunk(r, used)), NewRec(r.RecLen() - used, inode, fileType, name), c);
  }

  /** The record's inode number is cleared, which takes its entry away. */
  lemma InodeCleared(block: seq<byte>, off: nat, r: Rec, a: seq<byte>, c: seq<byte>)
    requires Cut(block, off, r, a, c)
    ensures off + 4 <= |block| && Cut(Splice(block, off, Le32(0)), off, r.(inode := 0), a, c)
    ensures EntryOf(r.(inode := 0)) == []
  {
    CutSizes(block, off, r, a, c);
    CutTiled(block, off, r, a, c);
    hide Tiled, Le16, Le32, Splice;
    RecBytes(r);
    RecBytes(r.(inode := 0));
    SpliceHead(a, Le32(r.inode), Le16(r.RecLen()) + [r.nameLen, r.fileType] + r.body, c, Le32(0));
    HeadFirst(Le32(r.inode), Le16(r.RecLen()), [r.nameLen, r.fileType], r.body);
    HeadFirst(Le32(0), Le16(r.RecLen()), [r.nameLen, r.fileType], r.body);
  }

  lemma HeadFirst(a: seq<byte>, b: seq<byte>, c: seq<byte>, d: seq<byte>)
    ensures a + b + c + d == a + (b + c + d)
  {
  }

  lemma SpliceHead(a: seq<byte>, head: seq<byte>, tail: seq<byte>, c: seq<byte>, new_: seq<byte>)
    requires |head| == 4 && |new_| == 4
    ensures Splice(a + (head + tail) + c, |a|, new_) == a + (new_ + tail) + c
  {
  }

}
