/** What `dir_add_entry` of ext4-fs/src/vfs.rs leaves behind when it refuses a name of more than 255 bytes: its
    length is looked at only by `dir_write_entry_at`, after a record has been cut short or a block mapped. */
module Ext4LongNames {
  import opened Common
  import opened Ext4Types
  import opened Ext4Extents
  import opened Ext4Layout
  import opened Ext4Tree
  import opened Ext4Volume
  import opened Ext4FileState
  import opened Ext4Files
  import opened Ext4ReadWrite
  import opened Ext4DirBlock
  import opened Ext4Directory

  // Entries that take the place of others

  /** The same entries, each once. */
  ghost predicate SameEntries(a: seq<DirEntry>, b: seq<DirEntry>) {
    Distinct(a) && forall e :: e in a <==> e in b
  }

  /** Exactly then the names around them do not notice. */
  lemma MiddleSame(p: seq<DirEntry>, now: seq<DirEntry>, was: seq<DirEntry>, q: seq<DirEntry>)
    requires Distinct(p + was + q)
    ensures Distinct(p + now + q) && MapOf(p + now + q) == MapOf(p + was + q) <==> SameEntries(now, was)
  {
    hide MapOf;
    if Distinct(p + now + q) && MapOf(p + now + q) == MapOf(p + was + q) {
      MiddleBack(p, now, was, q);
    }
    if SameEntries(now, was) {
      MiddleDistinct(p, now, was, q);
      MiddleMap(p, now, was, q);
    }
  }

  lemma MiddleDistinct(p: seq<DirEntry>, now: seq<DirEntry>, was: seq<DirEntry>, q: seq<DirEntry>)
    requires Distinct(p + was + q) && SameEntries(now, was)
    ensures Distinct(p + now + q)
  {
    DistinctParts(p, was, q);
    forall e, f | e in now && (f in p || f in q) ensures e.name != f.name {
      assert e in was;
    }
    DistinctJoin(p, now, q);
  }

  /** No name in two of the three parts, and none twice in one. */
  ghost predicate Separate(p: seq<DirEntry>, m: seq<DirEntry>, q: seq<DirEntry>) {
    && Distinct(p) && Distinct(m) && Distinct(q)
    && (forall e, f :: e in m && (f in p || f in q) ==> e.name != f.name)
    && (forall e, f :: e in p && f in q ==> e.name != f.name)
  }

  lemma DistinctParts(p: seq<DirEntry>, m: seq<DirEntry>, q: seq<DirEntry>)
    requires Distinct(p + m + q)
    ensures Separate(p, m, q)
  {
    var r := p + m + q;
    forall i, j | 0 <= i < j < |p| ensures p[i].name != p[j].name {
      assert r[i] == p[i] && r[j] == p[j];
    }
    forall i, j | 0 <= i < j < |m| ensures m[i].name != m[j].name {
      assert r[|p| + i] == m[i] && r[|p| + j] == m[j];
    }
    forall i, j | 0 <= i < j < |q| ensures q[i].name != q[j].name {
      assert r[|p + m| + i] == q[i] && r[|p + m| + j] == q[j];
    }
    PartsApart(p, m, q);
  }

  lemma PartsApart(p: seq<DirEntry>, m: seq<DirEntry>, q: seq<DirEntry>)
    requires Distinct(p + m + q)
    ensures forall e, f :: e in m && (f in p || f in q) ==> e.name != f.name
    ensures forall e, f :: e in p && f in q ==> e.name != f.name
  {
    var r := p + m + q;
    forall e, f | e in m && (f in p || f in q) ensures e.name != f.name {
      var i :| 0 <= i < |m| && m[i] == e;
      assert r[|p| + i] == e;
      if f in p {
        var j :| 0 <= j < |p| && p[j] == f;
        assert r[j] == f;
      } else {
        var j :| 0 <= j < |q| && q[j] == f;
        assert r[|p + m| + j] == f;
      }
    }
    forall e, f | e in p && f in q ensures e.name != f.name {
      var i :| 0 <= i < |p| && p[i] == e;
      var j :| 0 <= j < |q| && q[j] == f;
      assert r[i] == e && r[|p + m| + j] == f;
    }
  }

  lemma DistinctJoin(p: seq<DirEntry>, m: seq<DirEntry>, q: seq<DirEntry>)
    requires Separate(p, m, q)
    ensures Distinct(p + m + q)
  {
    var r := p + m + q;
    forall i, j | 0 <= i < j < |r| ensures r[i].name != r[j].name {
      if j < |p| {
        assert r[i] == p[i] && r[j] == p[j];
      } else if j < |p + m| {
        assert r[j] == m[j - |p|] && r[j] in m;
        if i < |p| {
          assert r[i] == p[i] && r[i] in p;
        } else {
          assert r[i] == m[i - |p|];
        }
      } else {
        assert r[j] == q[j - |p + m|] && r[j] in q;
        if i < |p| {
          assert r[i] == p[i] && r[i] in p;
        } else if i < |p + m| {
          assert r[i] == m[i - |p|] && r[i] in m;
        } else {
          assert r[i] == q[i - |p + m|];
        }
      }
    }
  }

  lemma MiddleMap(p: seq<DirEntry>, now: seq<DirEntry>, was: seq<DirEntry>, q: seq<DirEntry>)
    requires Distinct(p + was + q) && Distinct(p + now + q) && SameEntries(now, was)
    ensures MapOf(p + now + q) == MapOf(p + was + q)
  {
    hide MapOf, Distinct;
    var m := MapOf(p + was + q);
    forall name, value ensures (name in m && m[name] == value) <==> DirEntry(name, value.0, value.1) in p + now + q {
      MapOfIs(p + was + q, name, value);
      InThree(p, now, q, DirEntry(name, value.0, value.1));
      InThree(p, was, q, DirEntry(name, value.0, value.1));
    }
    SameMap(p + now + q, m);
  }

  lemma InThree(p: seq<DirEntry>, m: seq<DirEntry>, q: seq<DirEntry>, e: DirEntry)
    ensures e in p + m + q <==> e in p || e in m || e in q
  {
  }

  lemma MiddleBack(p: seq<DirEntry>, now: seq<DirEntry>, was: seq<DirEntry>, q: seq<DirEntry>)
    requires Distinct(p + was + q) && Distinct(p + now + q) && MapOf(p + now + q) == MapOf(p + was + q)
    ensures SameEntries(now, was)
  {
    hide MapOf, Distinct;
    DistinctParts(p, was, q);
    DistinctParts(p, now, q);
    forall e ensures e in now <==> e in was {
      MapOfIs(p + was + q, e.name, (e.inode, e.fileType));
      MapOfIs(p + now + q, e.name, (e.inode, e.fileType));
      InThree(p, now, q, e);
      InThree(p, was, q, e);
    }
  }

  // The bytes that a split cuts off

  /** The bytes from the end of the name on, read as a chain of records, say what the records behind the old end
      said: they are tiled, and hold the same entries. */
  ghost predicate CutHarmless(block: seq<byte>, off: nat) {
    At(block, off) && off < |block| && (
      var r := RecHere(block, off);
      && off + Used(r) <= |block| && off + r.RecLen() <= |block|
      && Tiled(block[off + Used(r)..])
      && SameEntries(EntriesIn(block[off + Used(r)..]), EntriesIn(block[off + r.RecLen()..])))
  }

  /** The block around the cut. */
  lemma CutBlock(block: seq<byte>, off: nat)
    requires At(block, off) && off < |block| && Used(RecHere(block, off)) <= RecHere(block, off).RecLen()
    ensures var r := RecHere(block, off);
            && off + FIXED_SIZE <= |block| && off + Used(r) <= off + r.RecLen() <= |block|
            && r.Fits() && Shrunk(r, Used(r)).Fits() && Tiled(block[off + r.RecLen()..])
            && Tiled(block[..off] + EncodeRec(Shrunk(r, Used(r))))
            && EntriesIn(block[..off] + EncodeRec(Shrunk(r, Used(r)))) == EntriesIn(block[..off]) + EntryOf(r)
            && EntriesIn(block) == EntriesIn(block[..off]) + EntryOf(r) + EntriesIn(block[off + r.RecLen()..])
            && RecLenSet(block, off, Used(r)) == block[..off] + EncodeRec(Shrunk(r, Used(r))) + block[off + Used(r)..]
  {
    hide *;
    Ext4DirBlock.Sizes();
    var r := RecHere(block, off);
    HereCut(block, off);
    HereFits(block, off);
    var a, c := block[..off], block[off + r.RecLen()..];
    CutTiled(block, off, r, a, c);
    CutSizes(block, off, r, a, c);
    CutEntries(block, off, r, a, c);
    RecLenSetIs(block, off, r, a, c);
    ShrunkSame(r);
    EntriesOfRec(Shrunk(r, Used(r)));
    Joined(a, EncodeRec(Shrunk(r, Used(r))));
    BodyTail(r);
    TailIs(block, off, EncodeRec(r), c, Used(r));
    var first := a + EncodeRec(Shrunk(r, Used(r)));
    Associates(first, EncodeRec(r)[Used(r)..], c);
  }

  lemma Associates(a: seq<byte>, b: seq<byte>, c: seq<byte>)
    ensures a + b + c == a + (b + c)
  {
  }

  lemma BodyTail(r: Rec)
    requires r.Fits() && Used(r) <= r.RecLen()
    ensures EncodeRec(r)[Used(r)..] == r.body[Used(r) - FIXED_SIZE..]
  {
    hide Le32, Le16, Align4;
  }

  lemma TailIs(block: seq<byte>, off: nat, rec: seq<byte>, c: seq<byte>, used: nat)
    requires off + |rec| <= |block| && used <= |rec| && block[off..off + |rec|] == rec && block[off + |rec|..] == c
    ensures block[off + used..] == rec[used..] + c
  {
  }

  /** The block is tiled after the cut exactly if the bytes from the end of the name on are, and then its entries
      are those up to the name and those that are read from there on. */
  lemma CutShortTiled(block: seq<byte>, off: nat)
    requires At(block, off) && off < |block| && Used(RecHere(block, off)) <= RecHere(block, off).RecLen()
    ensures var r := RecHere(block, off);
            && off + FIXED_SIZE <= |block| && off + Used(r) <= |block| && r.Fits()
            && (Tiled(RecLenSet(block, off, Used(r))) <==> Tiled(block[off + Used(r)..]))
            && (Tiled(block[off + Used(r)..]) ==>
                 EntriesIn(RecLenSet(block, off, Used(r))) == EntriesIn(block[..off]) + EntryOf(r) + EntriesIn(block[off + Used(r)..]))
  {
    hide *;
    CutBlock(block, off);
    var r := RecHere(block, off);
    var first, rest := block[..off] + EncodeRec(Shrunk(r, Used(r))), block[off + Used(r)..];
    if Tiled(rest) {
      Joined(first, rest);
    }
    if Tiled(first + rest) {
      TiledSuffix(first, rest);
    }
  }

  /** After whole records, what follows in a chain is a chain. */
  lemma {:induction false} TiledSuffix(a: seq<byte>, b: seq<byte>)
    requires Tiled(a) && Tiled(a + b)
    ensures Tiled(b)
    decreases |a|
  {
    hide RecLenAt, FirstRec;
    if a == [] {
      assert a + b == b;
    } else {
      SameHead(a, b);
      var n := RecLenAt(a);
      assert (a + b)[n..] == a[n..] + b;
      TiledSuffix(a[n..], b);
    }
  }

  lemma SameHead(a: seq<byte>, b: seq<byte>)
    requires |a| >= FIXED_SIZE
    ensures RecLenAt(a + b) == RecLenAt(a)
  {
    assert (a + b)[4..6] == a[4..6];
  }

  /** Records up to `end` that the chain from the cut on runs over before it meets the old one again: the cut is
      harmless exactly if it finds the same entries on the way. */
  lemma MeetsAgain(block: seq<byte>, off: nat, end: nat)
    requires At(block, off) && off < |block| && Used(RecHere(block, off)) <= RecHere(block, off).RecLen()
    requires off + RecHere(block, off).RecLen() <= end && At(block, end) && Distinct(EntriesIn(block))
    requires Tiled(block[off + Used(RecHere(block, off))..end])
    ensures CutHarmless(block, off) <==>
              SameEntries(EntriesIn(block[off + Used(RecHere(block, off))..end]), EntriesIn(block[off + RecHere(block, off).RecLen()..end]))
  {
    hide *;
    CutBlock(block, off);
    AtParts(block, end);
    var r := RecHere(block, off);
    var old_, cut, c := off + r.RecLen(), off + Used(r), block[end..];
    HereCut(block, off);
    AtNext(block, off, r, block[..off], block[old_..]);
    AtParts(block, old_);
    assert block[..end] == block[..old_] + block[old_..end];
    TiledSuffix(block[..old_], block[old_..end]);
    Joined(block[cut..end], c);
    Joined(block[old_..end], c);
    Joined(block[..old_], block[old_..]);
    assert block[cut..] == block[cut..end] + c && block[old_..] == block[old_..end] + c;
    assert block == block[..old_] + block[old_..];
    SameBefore(EntriesIn(block[..old_]), EntriesIn(block[cut..end]), EntriesIn(block[old_..end]), EntriesIn(c));
    CutHarmlessIs(block, off);
  }

  lemma AtParts(block: seq<byte>, off: nat)
    requires At(block, off)
    ensures off <= |block| && Tiled(block[..off]) && Tiled(block[off..])
  {
    hide Tiled;
  }

  lemma SameBefore(p: seq<DirEntry>, now: seq<DirEntry>, was: seq<DirEntry>, q: seq<DirEntry>)
    requires Distinct(p + (was + q))
    ensures SameEntries(now + q, was + q) <==> SameEntries(now, was)
  {
    hide *;
    assert p + (was + q) == p + (was + q) + [];
    DistinctParts(p, was + q, []);
    SeparateMiddle(p, was + q, []);
    assert [] + was + q == was + q && [] + now + q == now + q;
    assert [] + (was + q) + [] == was + q && [] + (now + q) + [] == now + q;
    MiddleSame([], now, was, q);
    MiddleSame([], now + q, was + q, []);
  }

  /** If the bytes that the record no longer covers are a chain of their own, the cut is harmless exactly if no
      record in it is live. */
  lemma StaleRecords(block: seq<byte>, off: nat)
    requires At(block, off) && off < |block| && Used(RecHere(block, off)) <= RecHere(block, off).RecLen()
    requires off + RecHere(block, off).RecLen() <= |block| && Distinct(EntriesIn(block))
    requires Tiled(block[off + Used(RecHere(block, off))..off + RecHere(block, off).RecLen()])
    ensures CutHarmless(block, off) <==> EntriesIn(block[off + Used(RecHere(block, off))..off + RecHere(block, off).RecLen()]) == []
  {
    hide *;
    var r := RecHere(block, off);
    HereCut(block, off);
    AtNext(block, off, r, block[..off], block[off + r.RecLen()..]);
    MeetsAgain(block, off, off + r.RecLen());
    NoBytesEntries();
    assert block[off + r.RecLen()..off + r.RecLen()] == [];
    NoneTwice(EntriesIn(block[off + Used(r)..off + r.RecLen()]));
  }

  lemma NoneTwice(entries: seq<DirEntry>)
    ensures SameEntries(entries, []) <==> entries == []
  {
    assert entries != [] ==> entries[0] in entries;
  }

  lemma SeparateMiddle(p: seq<DirEntry>, m: seq<DirEntry>, q: seq<DirEntry>)
    requires Separate(p, m, q)
    ensures Distinct(m)
  {
    hide Distinct;
  }

  lemma CutHarmlessIs(block: seq<byte>, off: nat)
    requires At(block, off) && off < |block|
    ensures var r := RecHere(block, off);
            off + Used(r) <= |block| && off + r.RecLen() <= |block| ==>
              (CutHarmless(block, off) <==>
                && Tiled(block[off + Used(r)..])
                && SameEntries(EntriesIn(block[off + Used(r)..]), EntriesIn(block[off + r.RecLen()..])))
  {
    hide At, RecHere, Used, Tiled, SameEntries, EntriesIn;
  }

  /** Room that has never held a record is zero, and then the chain breaks off there. */
  lemma FreshRoom(block: seq<byte>, off: nat)
    requires At(block, off) && off < |block| && Used(RecHere(block, off)) + FIXED_SIZE <= RecHere(block, off).RecLen()
    requires off + RecHere(block, off).RecLen() <= |block|
    requires var free := off + Used(RecHere(block, off)); block[free + 4] == 0 && block[free + 5] == 0
    ensures off + FIXED_SIZE <= |block|
    ensures !Tiled(RecLenSet(block, off, Used(RecHere(block, off)))) && !CutHarmless(block, off)
  {
    hide *;
    Ext4DirBlock.Sizes();
    CutShortTiled(block, off);
    CutHarmlessIs(block, off);
    ZeroLength(block[off + Used(RecHere(block, off))..]);
  }

  lemma ZeroLength(b: seq<byte>)
    requires |b| >= FIXED_SIZE && b[4] == 0 && b[5] == 0
    ensures !Tiled(b)
  {
  }

  // The directory

  /** Whether refusing this name leaves the directory whole: the first record with room, if a block could hold the
      name and there is one, is dead, or live with nothing behind it that reads otherwise. */
  ghost predicate Spared(st: State, i: nat, name: Name)
    requires i in st.inodes
  {
    Align4(FIXED_SIZE + |name|) > BLOCK_SZ || (
      match PlaceOf(st, i, name)
      case Reuse(l, off) => true
      case Split(l, off) => 4096 * l + 4096 <= st.inodes[i].size && CutHarmless(Blk(Content(st.disk, st.inodes[i]), l), off)
      case Append => true)
  }

  /** Nothing has been written exactly if the name is longer than any block has room for, the first record with
      room is dead, or there is none and a block is mapped past the end already. */
  lemma RefusedUnwritten(st: State, st': State, i: nat, name: Name)
    requires Sound(st) && i in st.inodes && DirOk(st.disk, st.inodes[i]) && LongRefused(st, st', i, name)
    ensures Unwritten(st, st') <==>
              || Align4(FIXED_SIZE + |name|) > BLOCK_SZ || PlaceOf(st, i, name).Reuse?
              || (PlaceOf(st, i, name).Append? && DirBlocks(st.inodes[i]) < MappedEnd(Ext(st.disk, st.inodes[i])))
  {
    hide *;
    Ext4DirBlock.Sizes();
    LongRefusedParts(st, st', i, name);
    DirParts(st, i);
    if Align4(FIXED_SIZE + |name|) <= BLOCK_SZ {
      FirstRoom(Content(st.disk, st.inodes[i]), 0, Align4(FIXED_SIZE + |name|));
      FirstInside(Content(st.disk, st.inodes[i]), Align4(FIXED_SIZE + |name|));
      match PlaceOf(st, i, name)
      case Reuse(l, off) =>
      case Split(l, off) => CutShortWrites(st, st', i, l, off, Align4(FIXED_SIZE + |name|));
      case Append => MappedPastWrites(st, st', i);
    }
  }

  lemma FirstInside(bytes: seq<byte>, need: nat)
    ensures forall k: nat, off: nat :: FirstAt(bytes, 0, k, off, need) ==> 4096 * k + 4096 <= |bytes|
  {
    hide NoneBetween, RoomFreeUpTo, Blk;
  }

  lemma LongRefusedParts(st: State, st': State, i: nat, name: Name)
    requires LongRefused(st, st', i, name)
    ensures i in st.inodes && PlaceOf(st, i, name) == PlaceFrom(Content(st.disk, st.inodes[i]), 0, Align4(FIXED_SIZE + |name|))
    ensures Align4(FIXED_SIZE + |name|) > BLOCK_SZ ==> Unwritten(st, st')
    ensures Align4(FIXED_SIZE + |name|) <= BLOCK_SZ ==>
              match PlaceOf(st, i, name)
              case Reuse(l, off) => Unwritten(st, st')
              case Split(l, off) => CutShort(st, st', i, l, off)
              case Append => MappedPast(st, st', i)
  {
    hide Unwritten, CutShort, MappedPast, PlaceFrom, Align4, Content;
  }

  lemma CutShortWrites(st: State, st': State, i: nat, l: nat, off: nat, need: nat)
    requires CutShort(st, st', i, l, off) && 4096 * l + 4096 <= st.inodes[i].size
    requires SplitRoom(Blk(Content(st.disk, st.inodes[i]), l), off, need) && need > 0
    ensures !Unwritten(st, st')
  {
    hide *;
    CutShortParts(st, st', i, l, off);
    var block := Blk(Content(st.disk, st.inodes[i]), l);
    RoomFacts(block, off, need);
    HereFits(block, off);
    LengthChanged(block, off, RecHere(block, off));
    EditedFacts(st, st', i, l, RecLenSet(block, off, Used(RecHere(block, off))));
    UnwrittenIs(st, st');
  }

  lemma UnwrittenIs(st: State, st': State)
    ensures Unwritten(st, st') <==> Sound(st') && st'.disk == st.disk && st'.inodes == st.inodes && st'.used == st.used
  {
    hide Sound;
  }

  lemma CutShortParts(st: State, st': State, i: nat, l: nat, off: nat)
    requires CutShort(st, st', i, l, off)
    ensures i in st.inodes && 4096 * l + 4096 <= st.inodes[i].size
    ensures var block := Blk(Content(st.disk, st.inodes[i]), l);
            && At(block, off) && off < |block| && off + FIXED_SIZE <= |block|
            && BlockEdited(st, st', i, l, RecLenSet(block, off, Used(RecHere(block, off))))
  {
    hide Content, Blk, At, BlockEdited, RecLenSet, Used, RecHere;
  }

  lemma LengthChanged(block: seq<byte>, off: nat, r: Rec)
    requires At(block, off) && off < |block| && off + FIXED_SIZE <= |block| && r == RecHere(block, off) && r.Fits() && Used(r) < r.RecLen()
    ensures RecLenSet(block, off, Used(r)) != block
  {
    hide *;
    Ext4DirBlock.Sizes();
    HereLen(block, off);
    RecLenSetDef(block, off, Used(r));
    FitsShort(r);
    SetLength(block, off, Used(r));
  }

  lemma FitsShort(r: Rec)
    requires r.Fits()
    ensures r.RecLen() < U16
  {
  }

  lemma SetLength(block: seq<byte>, off: nat, n: nat)
    requires off + FIXED_SIZE <= |block| && n < U16
    ensures RecLenAt(Splice(block, off + 4, Le16(n))[off..]) == n
  {
    hide Le16, From16;
    Le16From16(n);
    assert Splice(block, off + 4, Le16(n))[off..][4..6] == Le16(n);
  }

  lemma MappedPastWrites(st: State, st': State, i: nat)
    requires Sound(st) && i in st.inodes && DirOk(st.disk, st.inodes[i]) && MappedPast(st, st', i)
    ensures Unwritten(st, st') <==> DirBlocks(st.inodes[i]) < MappedEnd(Ext(st.disk, st.inodes[i]))
  {
    hide *;
    PastParts(st, st', i);
    GaplessParts(Ext(st'.disk, st'.inodes[i]), DirBlocks(st.inodes[i]) + 1);
    UnwrittenIs(st, st');
  }

  lemma PastParts(st: State, st': State, i: nat)
    requires MappedPast(st, st', i)
    ensures Sound(st') && OthersSame(st, st', i) && i in st.inodes && i in st'.inodes
    ensures st'.inodes[i].kind == st.inodes[i].kind && st'.inodes[i].links == st.inodes[i].links
    ensures st'.inodes[i].size == st.inodes[i].size && DirBlocks(st'.inodes[i]) == DirBlocks(st.inodes[i])
    ensures Content(st'.disk, st'.inodes[i]) == Content(st.disk, st.inodes[i])
    ensures Gapless(Ext(st'.disk, st'.inodes[i]), DirBlocks(st.inodes[i]) + 1)
    ensures DirBlocks(st.inodes[i]) < MappedEnd(Ext(st.disk, st.inodes[i])) ==> Unwritten(st, st')
    ensures Exchanged(st.used, st'.used, Owned(st.disk, st.inodes[i]), Owned(st'.disk, st'.inodes[i]))
  {
    hide Sound, OthersSame, Ext, Content, Owned, Exchanged, Gapless, Unwritten;
  }

  /** The directory is one still, and with the same names, exactly if it is spared. */
  lemma RefusedWhole(st: State, st': State, i: nat, name: Name)
    requires Sound(st) && i in st.inodes && DirOk(st.disk, st.inodes[i]) && LongRefused(st, st', i, name)
    ensures i in st'.inodes && DirOk(st'.disk, st'.inodes[i]) && IndexOf(st'.disk, st'.inodes[i]) == IndexOf(st.disk, st.inodes[i])
            <==> Spared(st, i, name)
    ensures Spared(st, i, name) ==> DirChanged(st, st', i, IndexOf(st.disk, st.inodes[i]))
  {
    hide *;
    Ext4DirBlock.Sizes();
    LongRefusedParts(st, st', i, name);
    SparedIs(st, i, name);
    DirParts(st, i);
    FirstRoom(Content(st.disk, st.inodes[i]), 0, Align4(FIXED_SIZE + |name|));
    FirstInside(Content(st.disk, st.inodes[i]), Align4(FIXED_SIZE + |name|));
    if Align4(FIXED_SIZE + |name|) > BLOCK_SZ || PlaceOf(st, i, name).Reuse? {
      UnwrittenDir(st, st', i);
    } else if PlaceOf(st, i, name).Split? {
      CutShortDir(st, st', i, PlaceOf(st, i, name).l, PlaceOf(st, i, name).off, Align4(FIXED_SIZE + |name|));
    } else {
      MappedPastDir(st, st', i);
    }
    ChangedParts(st, st', i);
  }

  lemma SparedIs(st: State, i: nat, name: Name)
    requires i in st.inodes
    ensures Spared(st, i, name) <==>
              Align4(FIXED_SIZE + |name|) > BLOCK_SZ || (
                match PlaceOf(st, i, name)
                case Reuse(l, off) => true
                case Split(l, off) => 4096 * l + 4096 <= st.inodes[i].size && CutHarmless(Blk(Content(st.disk, st.inodes[i]), l), off)
                case Append => true)
  {
    hide PlaceOf, CutHarmless, Align4, Content, Blk;
  }

  lemma ChangedParts(st: State, st': State, i: nat)
    requires i in st.inodes
    ensures DirChanged(st, st', i, IndexOf(st.disk, st.inodes[i])) ==>
              i in st'.inodes && DirOk(st'.disk, st'.inodes[i]) && IndexOf(st'.disk, st'.inodes[i]) == IndexOf(st.disk, st.inodes[i])
  {
    hide Sound, OthersSame, DirOk, IndexOf, Owned, Exchanged;
  }

  lemma UnwrittenDir(st: State, st': State, i: nat)
    requires Sound(st) && i in st.inodes && DirOk(st.disk, st.inodes[i]) && Unwritten(st, st')
    ensures DirChanged(st, st', i, IndexOf(st.disk, st.inodes[i]))
  {
    hide Sound, DirOk, IndexOf, Owned, Exchanged, Content, Ext;
    OwnedIsUsed(st, i);
  }

  /** A block mapped past the end of a directory is none of its blocks. */
  lemma MappedPastDir(st: State, st': State, i: nat)
    requires Sound(st) && i in st.inodes && DirOk(st.disk, st.inodes[i]) && MappedPast(st, st', i)
    ensures DirChanged(st, st', i, IndexOf(st.disk, st.inodes[i]))
  {
    hide *;
    PastParts(st, st', i);
    DirParts(st, i);
    GaplessParts(Ext(st'.disk, st'.inodes[i]), DirBlocks(st.inodes[i]) + 1);
    GaplessJoin(Ext(st'.disk, st'.inodes[i]), DirBlocks(st.inodes[i]));
    ContentSize(st'.disk, st'.inodes[i]);
    DirJoin(st'.disk, st'.inodes[i], DirBlocks(st.inodes[i]));
    SameIndex(st, st', i);
    ChangedJoin(st, st', i, IndexOf(st.disk, st.inodes[i]));
  }

  lemma ContentSize(disk: Disk, inode: Inode)
    ensures |Content(disk, inode)| == inode.size
  {
  }

  lemma SameIndex(st: State, st': State, i: nat)
    requires i in st.inodes && i in st'.inodes && Content(st'.disk, st'.inodes[i]) == Content(st.disk, st.inodes[i])
    ensures IndexOf(st'.disk, st'.inodes[i]) == IndexOf(st.disk, st.inodes[i])
  {
    hide Content, MapOf, DirEntries;
  }

  lemma ChangedJoin(st: State, st': State, i: nat, index: map<Name, (nat, nat)>)
    requires Sound(st') && OthersSame(st, st', i) && i in st.inodes && i in st'.inodes
    requires DirOk(st'.disk, st'.inodes[i]) && IndexOf(st'.disk, st'.inodes[i]) == index
    requires st'.inodes[i].kind == st.inodes[i].kind && st'.inodes[i].links == st.inodes[i].links
    requires Exchanged(st.used, st'.used, Owned(st.disk, st.inodes[i]), Owned(st'.disk, st'.inodes[i]))
    ensures DirChanged(st, st', i, index)
  {
    hide Sound, OthersSame, DirOk, IndexOf, Owned, Exchanged;
  }

  lemma CutShortDir(st: State, st': State, i: nat, l: nat, off: nat, need: nat)
    requires Sound(st) && i in st.inodes && DirOk(st.disk, st.inodes[i]) && CutShort(st, st', i, l, off)
    requires 4096 * l + 4096 <= st.inodes[i].size && SplitRoom(Blk(Content(st.disk, st.inodes[i]), l), off, need)
    ensures i in st'.inodes && DirOk(st'.disk, st'.inodes[i]) && IndexOf(st'.disk, st'.inodes[i]) == IndexOf(st.disk, st.inodes[i])
            <==> CutHarmless(Blk(Content(st.disk, st.inodes[i]), l), off)
    ensures CutHarmless(Blk(Content(st.disk, st.inodes[i]), l), off) ==> DirChanged(st, st', i, IndexOf(st.disk, st.inodes[i]))
  {
    hide *;
    var bytes := Content(st.disk, st.inodes[i]);
    var block := Blk(bytes, l);
    CutShortParts(st, st', i, l, off);
    RoomFacts(block, off, need);
    DirParts(st, i);
    var r := RecHere(block, off);
    CutBlock(block, off);
    CutShortTiled(block, off);
    CutHarmlessIs(block, off);
    var b := RecLenSet(block, off, Used(r));
    EditedFacts(st, st', i, l, b);
    AroundBlock(bytes, l);
    var p, was, now, q := EntriesUpTo(bytes, l) + (EntriesIn(block[..off]) + EntryOf(r)), EntriesIn(block[off + r.RecLen()..]),
      EntriesIn(block[off + Used(r)..]), EntriesFrom(bytes, l + 1);
    Regroup(EntriesUpTo(bytes, l), EntriesIn(block[..off]) + EntryOf(r), was, q);
    Regroup(EntriesUpTo(bytes, l), EntriesIn(block[..off]) + EntryOf(r), now, q);
    MiddleSame(p, now, was, q);
    if CutHarmless(block, off) {
      EditedDir(st, st', i, l, b, IndexOf(st.disk, st.inodes[i]));
      ChangedParts(st, st', i);
    } else if DirOk(st'.disk, st'.inodes[i]) && IndexOf(st'.disk, st'.inodes[i]) == IndexOf(st.disk, st.inodes[i]) {
      DirParts(st', i);
      ShapeAt(Content(st'.disk, st'.inodes[i]), l);
      EditedNames(st, st', i, l, b);
      assert false;
    }
  }

  lemma Regroup(p: seq<DirEntry>, a: seq<DirEntry>, m: seq<DirEntry>, q: seq<DirEntry>)
    ensures p + (a + m) + q == p + a + m + q
  {
  }

  lemma EditedNames(st: State, st': State, i: nat, l: nat, b: seq<byte>)
    requires BlockEdited(st, st', i, l, b)
    ensures var bytes := Content(st.disk, st.inodes[i]);
            && 4096 * l + 4096 <= |bytes|
            && DirEntries(Content(st'.disk, st'.inodes[i])) == EntriesUpTo(bytes, l) + EntriesIn(b) + EntriesFrom(bytes, l + 1)
  {
    hide Sound, OthersSame, Ext, Owned, Content, Blk, EntriesIn, EntriesUpTo, EntriesFrom, DirEntries;
    EditedEntries(Content(st.disk, st.inodes[i]), Content(st'.disk, st.inodes[i]), l);
  }
}
