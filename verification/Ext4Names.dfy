/** The public operations on names of ext4-fs/src/vfs.rs, on a volume and the cache of directory indices:
    `find`, `create_file`, `create_dir`, `link_inode`, `unlink` and `rename`. */
module Ext4Names {
  import opened Common
  import opened Ext4Types
  import opened Ext4Extents
  import opened Ext4Layout
  import opened Ext4Tree
  import Ext4TreeLayout
  import opened Ext4Volume
  import opened Ext4FileState
  import opened Ext4FileSteps
  import opened Ext4Files
  import opened Ext4ReadWrite
  import opened Ext4Runs
  import opened Ext4Kept
  import Ext4Leaks
  import opened Ext4DirBlock
  import opened Ext4Directory
  import opened Ext4LongNames
  import Ns = Ext4Namespace
  import Ext4Alloc
  import Ext4OnDisk
  import Ext4ContentOnDisk
  import F = Ext4Format

  const DIR_INDEX_CACHE_MAX: nat := 64

  // Directory indices

  /** One step of the inner loop of `build_dir_index`. */
  function IndexWith(index: Ns.Index, r: Rec): Ns.Index
    requires r.Fits()
  {
    if r.Live() then index[r.Name() := (r.inode, r.fileType)] else index
  }

  lemma IndexWithEntries(entries: seq<DirEntry>, r: Rec)
    requires r.Fits()
    ensures IndexWith(MapOf(entries), r) == MapOf(entries + EntryOf(r))
  {
    if r.Live() {
      var e := DirEntry(r.Name(), r.inode, r.fileType);
      assert (entries + [e])[..|entries|] == entries;
    } else {
      assert entries + [] == entries;
    }
  }

  /** The inner loop of `build_dir_index`: the records of one block. */
  method IndexBlock(block: seq<byte>, before: Ns.Index, ghost entries: seq<DirEntry>) returns (index: Ns.Index)
    requires |block| == 4096 && Tiled(block) && before == MapOf(entries)
    ensures index == MapOf(entries + EntriesIn(block))
  {
    hide *;
    U32Value();
    Ext4DirBlock.Sizes();
    index := before;
    var pos := 0;
    AtStart(block);
    NothingIndexed(block, entries);
    while pos + FIXED_SIZE <= 4096
      invariant At(block, pos) && IndexedUpTo(block, pos, entries, index)
      decreases 4096 - pos
    {
      HereFacts(block, pos);
      var r := RecHere(block, pos);
      index := IndexedNext(block, pos, entries, index, r);
      pos := pos + r.RecLen();
    }
    AllIndexed(block, pos, entries, index);
  }

  ghost predicate IndexedUpTo(block: seq<byte>, pos: nat, entries: seq<DirEntry>, index: Ns.Index) {
    pos <= |block| && index == MapOf(entries + EntriesIn(block[..pos]))
  }

  lemma NothingIndexed(block: seq<byte>, entries: seq<DirEntry>)
    ensures IndexedUpTo(block, 0, entries, MapOf(entries))
  {
    NoBytesEntries();
    assert block[..0] == [] && entries + [] == entries;
  }

  method IndexedNext(block: seq<byte>, pos: nat, ghost entries: seq<DirEntry>, index: Ns.Index, r: Rec) returns (next: Ns.Index)
    requires At(block, pos) && pos < |block| && r == RecHere(block, pos) && r.Fits() && IndexedUpTo(block, pos, entries, index)
    ensures IndexedUpTo(block, pos + r.RecLen(), entries, next)
  {
    hide At, RecHere, Tiled, EntriesIn, EntryOf, MapOf, Cut, EncodeRec;
    HereCut(block, pos);
    AtNext(block, pos, r, block[..pos], block[pos + r.RecLen()..]);
    IndexWithEntries(entries + EntriesIn(block[..pos]), r);
    assert entries + EntriesIn(block[..pos]) + EntryOf(r) == entries + (EntriesIn(block[..pos]) + EntryOf(r));
    next := IndexWith(index, r);
  }

  lemma AllIndexed(block: seq<byte>, pos: nat, entries: seq<DirEntry>, index: Ns.Index)
    requires At(block, pos) && pos + FIXED_SIZE > |block| && IndexedUpTo(block, pos, entries, index)
    ensures index == MapOf(entries + EntriesIn(block))
  {
    AllTiled(block, pos);
    assert block[..pos] == block;
  }

  /** `build_dir_index`: the names of the directory, read block by block. */
  method BuildDirIndex(v: Volume, i: nat) returns (index: Ns.Index)
    requires Sound(St(v)) && i in v.inodes && DirOk(v.disk, v.inodes[i])
    modifies v`extentsCache
    ensures Untouched(old(St(v)), St(v)) && SameFiles(old(St(v)), St(v)) && CacheKeys(old(v.extentsCache), v.extentsCache, i)
    ensures index == IndexOf(v.disk, v.inodes[i])
  {
    hide *;
    U32Value();
    ghost var st := St(v);
    StParts(v);
    StaysPut(v);
    CacheKeysFacts(st.cache, st.cache, st.cache, i, []);
    DirParts(st, i);
    var dirSize := v.inodes[i].size;
    index := map[];
    NoneIndexed(Content(v.disk, v.inodes[i]));
    var buf := new byte[4096](_ => 0);
    var l := 0;
    while 4096 * l < dirSize
      invariant Sound(St(v)) && Untouched(st, St(v)) && SameFiles(st, St(v)) && v.disk == st.disk && v.inodes == st.inodes
      invariant CacheKeys(st.cache, v.extentsCache, i)
      invariant 4096 * l <= dirSize && index == MapOf(EntriesUpTo(Content(v.disk, v.inodes[i]), l))
      decreases dirSize - 4096 * l
    {
      ghost var was := St(v);
      StParts(v);
      var n := ReadAt(v, i, 4096 * l, buf);
      MinValue(buf.Length, dirSize - 4096 * l);
      StParts(v);
      UntouchedBoth(st, was, St(v));
      CacheKeysFacts(st.cache, was.cache, v.extentsCache, i, []);
      ShapeAt(Content(v.disk, v.inodes[i]), l);
      BlkIs(Content(v.disk, v.inodes[i]), l);
      assert buf[..] == buf[..n];
      index := IndexBlock(buf[..], index, EntriesUpTo(Content(v.disk, v.inodes[i]), l));
      UpToNextBlock(Content(v.disk, v.inodes[i]), l);
      l := l + 1;
    }
    AllBlocksIndexed(v.disk, v.inodes[i], l);
  }

  lemma NoneIndexed(bytes: seq<byte>)
    ensures MapOf(EntriesUpTo(bytes, 0)) == map[]
  {
  }

  lemma BlkIs(bytes: seq<byte>, l: nat)
    requires 4096 * l + 4096 <= |bytes|
    ensures bytes[4096 * l..4096 * l + 4096] == Blk(bytes, l)
  {
  }

  lemma UpToNextBlock(bytes: seq<byte>, l: nat)
    requires 4096 * l + 4096 <= |bytes|
    ensures EntriesUpTo(bytes, l + 1) == EntriesUpTo(bytes, l) + EntriesIn(Blk(bytes, l))
  {
    hide EntriesIn, Blk;
  }

  lemma AllBlocksIndexed(disk: Disk, inode: Inode, l: nat)
    requires 4096 * l == inode.size
    ensures MapOf(EntriesUpTo(Content(disk, inode), l)) == IndexOf(disk, inode)
  {
    hide MapOf, EntriesIn, Content;
    UpToAndFrom(Content(disk, inode), l);
    assert EntriesUpTo(Content(disk, inode), l) + [] == EntriesUpTo(Content(disk, inode), l);
  }

  lemma UntouchedBoth(st: State, st1: State, st2: State)
    requires Untouched(st, st1) && SameFiles(st, st1) && Untouched(st1, st2) && SameFiles(st1, st2)
    ensures Untouched(st, st2) && SameFiles(st, st2) && Sound(st2)
  {
    hide Sound, Content, Ext, Owned, ByteAt;
    forall i | i in st.inodes ensures SameBytes(st.disk, st.inodes[i], st2.disk, st2.inodes[i]) {
      assert SameBytes(st.disk, st.inodes[i], st1.disk, st1.inodes[i]);
      assert SameBytes(st1.disk, st1.inodes[i], st2.disk, st2.inodes[i]);
    }
  }

  /** `DIR_INDEX_CACHE`. */
  class DirIndexCache {
    var index: map<nat, Ns.Index>

    constructor ()
      ensures index == map[]
    {
      index := map[];
    }
  }

  /** A cached index is what building it again would give, and only directories have one. */
  ghost predicate Agrees(index: map<nat, Ns.Index>, st: State) {
    forall d :: d in index ==> d in st.inodes && st.inodes[d].kind == Directory && index[d] == IndexOf(st.disk, st.inodes[d])
  }

  /** `dir_index`: the cached index, or a new one, which is cached; a cache of 64 is emptied first. */
  method DirIndex(v: Volume, c: DirIndexCache, i: nat) returns (index: Ns.Index)
    requires Sound(St(v)) && i in v.inodes && DirOk(v.disk, v.inodes[i]) && Agrees(c.index, St(v))
    modifies v`extentsCache, c
    ensures Untouched(old(St(v)), St(v)) && SameFiles(old(St(v)), St(v)) && CacheKeys(old(v.extentsCache), v.extentsCache, i)
    ensures Agrees(c.index, St(v)) && index == IndexOf(v.disk, v.inodes[i])
    ensures i in c.index && (forall d :: d in c.index && d != i ==> d in old(c.index))
    ensures c.index == if i in old(c.index) then old(c.index) else (if |old(c.index)| < 64 then old(c.index) else map[])[i := index]
  {
    hide *;
    ghost var st := St(v);
    StParts(v);
    StaysPut(v);
    CacheKeysFacts(st.cache, st.cache, st.cache, i, []);
    AgreesAt(c.index, st, i);
    if i in c.index {
      return c.index[i];
    }
    index := BuildDirIndex(v, i);
    StParts(v);
    ghost var before := c.index;
    if |c.index| >= DIR_INDEX_CACHE_MAX {
      c.index := map[];
    }
    IndexLimit();
    c.index := c.index[i := index];
    DirKindIs(st, i);
    AgreesPut(before, c.index, st, St(v), i, index);
  }

  lemma IndexLimit()
    ensures DIR_INDEX_CACHE_MAX == 64
  {
  }

  lemma AgreesAt(index: map<nat, Ns.Index>, st: State, i: nat)
    requires Agrees(index, st)
    ensures i in index ==> i in st.inodes && index[i] == IndexOf(st.disk, st.inodes[i])
  {
    hide IndexOf;
  }

  lemma DirKindIs(st: State, i: nat)
    requires i in st.inodes && DirOk(st.disk, st.inodes[i])
    ensures st.inodes[i].kind == Directory
  {
  }

  lemma AgreesPut(before: map<nat, Ns.Index>, after: map<nat, Ns.Index>, st: State, st': State, i: nat, index: Ns.Index)
    requires Agrees(before, st) && st'.disk == st.disk && st'.inodes == st.inodes
    requires after == before[i := index] || after == map[i := index]
    requires i in st.inodes && st.inodes[i].kind == Directory && index == IndexOf(st.disk, st.inodes[i])
    ensures Agrees(after, st') && forall d :: d in after && d != i ==> d in before
  {
    hide IndexOf;
  }

  /** `find`. */
  method Find(v: Volume, c: DirIndexCache, i: nat, name: Name) returns (found: Option<(nat, nat)>)
    requires Sound(St(v)) && i in v.inodes && (v.inodes[i].kind == Directory ==> DirOk(v.disk, v.inodes[i])) && Agrees(c.index, St(v))
    modifies v`extentsCache, c
    ensures Untouched(old(St(v)), St(v)) && SameFiles(old(St(v)), St(v)) && CacheKeys(old(v.extentsCache), v.extentsCache, i)
    ensures Agrees(c.index, St(v))
    ensures v.inodes[i].kind != Directory ==> found.None? && c.index == old(c.index)
    ensures v.inodes[i].kind == Directory ==>
              && (found.Some? <==> name in IndexOf(v.disk, v.inodes[i]))
              && (found.Some? ==> found.value == IndexOf(v.disk, v.inodes[i])[name])
              && i in c.index && (forall d :: d in c.index && d != i ==> d in old(c.index))
  {
    hide *;
    ghost var st := St(v);
    StParts(v);
    StaysPut(v);
    CacheKeysFacts(st.cache, st.cache, st.cache, i, []);
    if v.inodes[i].kind != Directory {
      return None;
    }
    var index := DirIndex(v, c, i);
    if name in index {
      return Some(index[name]);
    }
    return None;
  }

  // The tree of names

  /** Kinds, link counts and names of the volume's inodes. */
  ghost function TreeOf(st: State): Ns.Tree {
    Ns.Tree(map i | i in st.inodes :: st.inodes[i].kind,
            map i | i in st.inodes :: st.inodes[i].links,
            map i | i in st.inodes && st.inodes[i].kind == Directory :: IndexOf(st.disk, st.inodes[i]))
  }

  ghost predicate AllDirsOk(st: State) {
    forall i :: i in st.inodes && st.inodes[i].kind == Directory ==> DirOk(st.disk, st.inodes[i])
  }

  /** What every public operation keeps: sound files, tiled directories with unique names, indices that agree
      with the disk, and right link counts. */
  ghost predicate FsOk(st: State, index: map<nat, Ns.Index>) {
    Sound(st) && AllDirsOk(st) && Agrees(index, st) && Ns.Sane(TreeOf(st))
  }

  lemma FsParts(st: State, index: map<nat, Ns.Index>)
    requires FsOk(st, index)
    ensures Sound(st) && AllDirsOk(st) && Agrees(index, st) && Ns.Sane(TreeOf(st))
  {
  }

  lemma FsJoin(st: State, index: map<nat, Ns.Index>)
    requires Sound(st) && AllDirsOk(st) && Agrees(index, st) && Ns.Sane(TreeOf(st))
    ensures FsOk(st, index)
  {
  }

  /** One inode of the tree. */
  lemma TreeAt(st: State, i: nat)
    ensures i in TreeOf(st).kinds <==> i in st.inodes
    ensures i in TreeOf(st).links <==> i in st.inodes
    ensures i in TreeOf(st).names <==> i in st.inodes && st.inodes[i].kind == Directory
    ensures i in st.inodes ==> TreeOf(st).kinds[i] == st.inodes[i].kind && TreeOf(st).links[i] == st.inodes[i].links
    ensures i in st.inodes && st.inodes[i].kind == Directory ==> TreeOf(st).names[i] == IndexOf(st.disk, st.inodes[i])
    ensures AllDirsOk(st) && i in st.inodes && st.inodes[i].kind == Directory ==> DirOk(st.disk, st.inodes[i])
  {
    hide IndexOf, DirOk;
  }

  lemma UntouchedTree(st: State, st': State, index: map<nat, Ns.Index>)
    requires Untouched(st, st')
    ensures TreeOf(st') == TreeOf(st) && (AllDirsOk(st) ==> AllDirsOk(st')) && (Agrees(index, st) ==> Agrees(index, st'))
    ensures Sound(st') && st'.inodes == st.inodes
  {
    hide Sound, Content, Ext, Owned, DirShape, Distinct, DirEntries, MapOf, Gapless;
    forall i | i in st.inodes ensures IndexOf(st'.disk, st.inodes[i]) == IndexOf(st.disk, st.inodes[i]) {
    }
  }

  /** A directory other than the changed one. */
  lemma OtherDir(st: State, st': State, d: nat, i: nat)
    requires OthersSame(st, st', d) && i in st.inodes && i != d
    ensures i in st'.inodes && st'.inodes[i] == st.inodes[i] && IndexOf(st'.disk, st'.inodes[i]) == IndexOf(st.disk, st.inodes[i])
    ensures DirOk(st.disk, st.inodes[i]) ==> DirOk(st'.disk, st'.inodes[i])
  {
    hide Content, Ext, Owned, DirShape, Distinct, DirEntries, MapOf, Gapless;
    assert i in st'.inodes.Keys;
  }

  lemma DirChangedTree(st: State, st': State, d: nat, index: Ns.Index)
    requires DirChanged(st, st', d, index) && AllDirsOk(st) && st.inodes[d].kind == Directory
    ensures TreeOf(st') == TreeOf(st).(names := TreeOf(st).names[d := index]) && AllDirsOk(st')
    ensures Sound(st') && st'.inodes.Keys == st.inodes.Keys && OthersSame(st, st', d)
  {
    hide Sound, OthersSame, DirOk, IndexOf, Owned, Exchanged, AllDirsOk;
    ChangedKeys(st, st', d);
    forall i | i in st.inodes && i != d
      ensures i in st'.inodes && st'.inodes[i] == st.inodes[i] && IndexOf(st'.disk, st'.inodes[i]) == IndexOf(st.disk, st.inodes[i])
      ensures st.inodes[i].kind == Directory ==> DirOk(st'.disk, st'.inodes[i])
    {
      TreeAt(st, i);
      OtherDir(st, st', d, i);
    }
    ChangedDirsOk(st', d);
  }

  lemma ChangedKeys(st: State, st': State, d: nat)
    requires OthersSame(st, st', d)
    ensures st'.inodes.Keys == st.inodes.Keys && forall i :: i in st'.inodes <==> i in st.inodes
  {
    hide Content, Ext, Owned;
    forall i ensures i in st'.inodes <==> i in st.inodes {
      assert i in st'.inodes.Keys <==> i in st.inodes.Keys;
    }
  }

  lemma ChangedDirsOk(st: State, d: nat)
    requires d in st.inodes && DirOk(st.disk, st.inodes[d])
    requires forall i :: i in st.inodes && i != d && st.inodes[i].kind == Directory ==> DirOk(st.disk, st.inodes[i])
    ensures AllDirsOk(st)
  {
    hide DirOk;
  }

  /** Other directories' indices stay right, and that of d after its update. */
  lemma AgreesChanged(index: map<nat, Ns.Index>, index': map<nat, Ns.Index>, st: State, st': State, d: nat, now: Ns.Index)
    requires Agrees(index, st) && DirChanged(st, st', d, now) && st.inodes[d].kind == Directory
    requires forall k :: k in index' ==> k in index && index'[k] == if k == d then now else index[k]
    ensures Agrees(index', st')
  {
    hide Sound, OthersSame, DirOk, IndexOf, Owned, Exchanged;
    forall k | k in index' ensures k in st'.inodes && st'.inodes[k].kind == Directory && index'[k] == IndexOf(st'.disk, st'.inodes[k]) {
      if k != d {
        OtherDir(st, st', d, k);
      }
    }
  }

  // An entry is added: the common part of create_file, link_inode and rename

  /** Why an entry is not added, before any search for room. */
  ghost function EntryError(st: State, d: nat, name: Name): Option<Ext4Error> {
    if d !in st.inodes || st.inodes[d].kind != Directory then Some(NotADirectory)
    else if name == [] then Some(InvalidInput)
    else if name in IndexOf(st.disk, st.inodes[d]) then Some(AlreadyExists)
    else None
  }

  lemma EntryErrorIs(st: State, d: nat, name: Name)
    requires d in st.inodes
    ensures EntryError(st, d, name) ==
            if st.inodes[d].kind != Directory then Some(NotADirectory)
            else if name == [] then Some(InvalidInput)
            else if name in IndexOf(st.disk, st.inodes[d]) then Some(AlreadyExists)
            else None
  {
  }

  /** Why `create_file`, `create_dir` and `link_inode` refuse a name. */
  ghost function NameError(st: State, d: nat, name: Name): Option<Ext4Error> {
    if d in st.inodes && st.inodes[d].kind == Directory && name != [] && |name| > EXT4_NAME_LEN then Some(NameTooLong)
    else EntryError(st, d, name)
  }

  lemma NameErrorIs(st: State, d: nat, name: Name)
    requires d in st.inodes
    ensures NameError(st, d, name) ==
            if st.inodes[d].kind != Directory then Some(NotADirectory)
            else if name == [] then Some(InvalidInput)
            else if |name| > 255 then Some(NameTooLong)
            else if name in IndexOf(st.disk, st.inodes[d]) then Some(AlreadyExists)
            else None
  {
  }

  /** The errors that a full disk excuses: blocks or inode numbers have run out. One block may have been given
      back again. */
  ghost predicate RoomGone(used: set<nat>, blocks: set<nat>, numbers: set<nat>, inodes: set<nat>, e: Ext4Error) {
    || (e == NoSpace && |used| + TREE_MAX + 1 > |blocks|)
    || (e == Unsupported && |used| + 1 > EXTENTS_MAX)
    || (e == NoSpace && numbers == inodes)
  }

  ghost predicate OutOfRoom(v: Volume, e: Ext4Error)
    reads v`used, v.fs.inodeBitmaps
  {
    RoomGone(v.used, v.AllBlocks(), Numbers(v), AllInodes(v), e)
  }

  lemma ExcusedRoom(v: Volume, used: set<nat>, e: Ext4Error)
    requires Excused(used, v.AllBlocks(), e) && |v.used| + 1 >= |used|
    ensures OutOfRoom(v, e)
  {
  }

  lemma NumbersRoom(v: Volume)
    requires Numbers(v) == AllInodes(v)
    ensures OutOfRoom(v, NoSpace)
  {
  }

  lemma OneLess(used: set<nat>, b: nat)
    ensures |used - {b}| + 1 >= |used|
  {
    if b in used {
      assert used == used - {b} + {b};
    } else {
      assert used - {b} == used;
    }
  }

  /** A call fails with the error that is due; if none is, it succeeds, or the disk is full. */
  ghost predicate RightError<T>(due: Option<Ext4Error>, r: Result<T>, v: Volume)
    reads v`used, v.fs.inodeBitmaps
  {
    && (due.Some? ==> r.Err? && r.error == due.value)
    && (due.None? && r.Err? ==> OutOfRoom(v, r.error))
  }

  lemma RightJoin<T>(due: Option<Ext4Error>, r: Result<T>, v: Volume)
    requires due.Some? ==> r.Err? && r.error == due.value
    requires due.None? && r.Err? ==> OutOfRoom(v, r.error)
    ensures RightError(due, r, v)
  {
  }

  /** What a failed call leaves: all that files and directories show, and at most one block more in use. */
  ghost predicate LeftAlone(st: State, st': State) {
    Untouched(st, st') && |st'.used| <= |st.used| + 1
  }

  lemma LeftAloneJoin(st: State, st': State)
    requires Untouched(st, st') && |st'.used| <= |st.used| + 1
    ensures LeftAlone(st, st')
  {
    hide Untouched;
  }

  lemma LeftAloneParts(st: State, st': State)
    requires LeftAlone(st, st')
    ensures Untouched(st, st') && |st'.used| <= |st.used| + 1
  {
    hide Untouched;
  }

  lemma SameInodes(st: State, st': State)
    requires LeftAlone(st, st')
    ensures st'.inodes == st.inodes
  {
    hide *;
    LeftAloneParts(st, st');
    UntouchedMore(st, st');
  }

  /** Nothing but what is cached is different. */
  lemma LeftAloneSame(st: State, st': State)
    requires Sound(st') && st'.disk == st.disk && st'.inodes == st.inodes && st'.used == st.used
    ensures Untouched(st, st') && LeftAlone(st, st')
  {
    hide Sound, Content, Ext, Owned;
  }

  lemma LeftAloneFrom(st: State, st0: State, st': State)
    requires Untouched(st, st0) && st0.used == st.used && LeftAlone(st0, st')
    ensures LeftAlone(st, st')
  {
    hide Sound, Content, Ext, Owned;
  }

  /** `find` within an operation on names: nothing changes but what is cached. */
  method Lookup(v: Volume, c: DirIndexCache, d: nat, name: Name) returns (found: Option<(nat, nat)>)
    requires v.Valid() && Numbered(v) && FsOk(St(v), c.index) && d in v.inodes && v.inodes[d].kind == Directory
    modifies v`extentsCache, c
    ensures v.Valid() && Numbered(v) && FsOk(St(v), c.index) && Numbers(v) == old(Numbers(v))
    ensures Untouched(old(St(v)), St(v)) && TreeOf(St(v)) == TreeOf(old(St(v)))
    ensures Clean(old(St(v)), St(v)) && LeftAlone(old(St(v)), St(v))
    ensures found.Some? <==> name in IndexOf(v.disk, v.inodes[d])
    ensures found.Some? ==> found.value == IndexOf(v.disk, v.inodes[d])[name]
    ensures d in c.index && forall e :: e in c.index && e != d ==> e in old(c.index)
  {
    hide *;
    ghost var st := St(v);
    StParts(v);
    FsParts(st, c.index);
    TreeAt(st, d);
    NumberedParts(v);
    v.Opened();
    v.fs.TwoBitmaps();
    ghost var bits := Ext4Alloc.AllBits(v.fs.inodeBitmaps);
    found := Find(v, c, d, name);
    ghost var st0 := St(v);
    StParts(v);
    UntouchedTree(st, st0, c.index);
    UntouchedClean(st, st0);
    LeftAloneJoin(st, st0);
    FsJoin(st0, c.index);
    assert Ext4Alloc.AllBits(v.fs.inodeBitmaps) == bits;
    NumberedJoin(v);
    v.Closed();
  }

  /** The block that a directory could not be given is one at most. */
  lemma LeakedOne(st: State, d: nat, used: set<nat>, all: set<nat>)
    requires Sound(st) && BlockLeaked(st, d, used, all)
    ensures st.used <= used && |used| <= |st.used| + 1
  {
    hide *;
    BlockLeakedIs(st, d, used, all);
    Ext4Leaks.LeakedCount(st, d, used, all, DirBlocks(st.inodes[d]), DirBlocks(st.inodes[d]) + 1);
    Ext4Leaks.LackingOne(Ext(st.disk, st.inodes[d]), DirBlocks(st.inodes[d]));
  }

  /** An inode was made on the side, an entry for it refused, and the inode given back: all is as before. */
  lemma UndoneUntouched(st: State, st1: State, st2: State, st3: State, i: nat)
    requires i !in st.inodes && OldKeep(st, st1) && i in st1.inodes && st1.inodes == st.inodes[i := st1.inodes[i]]
    requires Untouched(st1, st2) && Sound(st3) && st3.inodes == st2.inodes - {i} && st3.disk == st2.disk && st.used <= st3.used
    ensures Untouched(st, st3)
  {
    hide Sound, Content, Ext, Owned;
  }

  /** The inodes there are have the same bytes and blocks on the other disk. */
  ghost predicate OldKeep(st: State, st': State) {
    forall j :: j in st.inodes ==>
      && j in st'.inodes && st'.inodes[j] == st.inodes[j]
      && Content(st'.disk, st.inodes[j]) == Content(st.disk, st.inodes[j])
      && Ext(st'.disk, st.inodes[j]) == Ext(st.disk, st.inodes[j])
      && Owned(st'.disk, st.inodes[j]) == Owned(st.disk, st.inodes[j])
  }

  lemma CreatedUndone(st: State, st1: State, st2: State, st3: State, i: nat)
    requires Created(st, i, Regular, 1, st1) && LeftAlone(st1, st2) && Sound(st3)
    requires st3.inodes == st2.inodes - {i} && st3.disk == st2.disk && st3.used == st2.used
    ensures LeftAlone(st, st3)
  {
    hide *;
    CreatedParts(st, i, 1, st1);
    LeftAloneParts(st1, st2);
    UntouchedMore(st1, st2);
    CreatedKeep(st, i, st1);
    UndoneUntouched(st, st1, st2, st3, i);
    LeftAloneJoin(st, st3);
  }

  lemma UntouchedMore(st: State, st': State)
    requires Untouched(st, st')
    ensures st'.inodes == st.inodes && st.used <= st'.used
  {
    hide Sound, Content, Ext, Owned;
  }

  lemma CreatedKeep(st: State, i: nat, st1: State)
    requires i !in st.inodes && st1.inodes == st.inodes[i := NewInode(Regular, 1)] && st1.disk == st.disk
    ensures OldKeep(st, st1) && i in st1.inodes && st1.inodes == st.inodes[i := st1.inodes[i]]
  {
    hide Content, Ext, Owned, NewInode;
  }

  /** The same for a directory, whose block is free again. */
  lemma DirMadeUndone(st: State, st1: State, st2: State, st3: State, i: nat, d: nat, b: nat)
    requires DirMade(st, i, d, b, st1) && LeftAlone(st1, st2) && Sound(st3)
    requires st3.inodes == st2.inodes - {i} && st3.disk == st2.disk && st3.used == st2.used - {b}
    ensures LeftAlone(st, st3)
  {
    hide *;
    DirMadeParts(st, i, d, b, st1);
    DirMadeSound(st, i, d, b, st1);
    LeftAloneParts(st1, st2);
    UntouchedMore(st1, st2);
    OneFreed(st.used, st2.used, b);
    forall j | j in st.inodes ensures Owned(st1.disk, st.inodes[j]) == Owned(st.disk, st.inodes[j]) {
      OldOwned(st, st1, j);
    }
    DirMadeKeep(st, i, DirInode(b), st1);
    UndoneUntouched(st, st1, st2, st3, i);
    LeftAloneJoin(st, st3);
  }

  lemma OneFreed(used: set<nat>, after: set<nat>, b: nat)
    requires used + {b} <= after && b !in used && |after| <= |used + {b}| + 1
    ensures used <= after - {b} && |after - {b}| <= |used| + 1
  {
  }

  lemma DirMadeKeep(st: State, i: nat, f: Inode, st1: State)
    requires i !in st.inodes && st1.inodes == st.inodes[i := f] && OldSame(st, st1)
    requires forall j :: j in st.inodes ==> Owned(st1.disk, st.inodes[j]) == Owned(st.disk, st.inodes[j])
    ensures OldKeep(st, st1) && i in st1.inodes && st1.inodes == st.inodes[i := st1.inodes[i]]
  {
    hide Content, Ext, Owned;
  }

  /** The tree of names, and the bytes of the files, are the same. */
  ghost predicate NamesSame(st: State, st': State) {
    TreeOf(st') == TreeOf(st) && FilesKept(st, st')
  }

  lemma NamesSameJoin(st: State, st': State)
    requires TreeOf(st') == TreeOf(st) && FilesKept(st, st')
    ensures NamesSame(st, st')
  {
  }

  lemma NamesSameParts(st: State, st': State)
    requires NamesSame(st, st')
    ensures TreeOf(st') == TreeOf(st) && FilesKept(st, st')
  {
  }

  /** An entry added to, or removed from, a directory changes no regular file and takes blocks for the directory
      only. */
  lemma AddedClean(st: State, st': State, d: nat, name: Name, i: nat, fileType: nat)
    requires Sound(st) && NameAdded(st, st', d, name, i, fileType) && d in st.inodes && st.inodes[d].kind == Directory
    ensures Clean(st, st') && st'.inodes.Keys == st.inodes.Keys
  {
    hide Sound, OthersSame, DirOk, IndexOf, Owned, Exchanged, Clean;
    ChangedKeys(st, st', d);
    DirectoryChanged(st, st', d);
  }

  lemma RemovedClean(st: State, st': State, d: nat, name: Name, i: nat)
    requires Sound(st) && NameRemoved(st, st', d, name, i) && d in st.inodes && st.inodes[d].kind == Directory
    ensures Clean(st, st') && st'.inodes.Keys == st.inodes.Keys
  {
    hide Sound, OthersSame, DirOk, IndexOf, Owned, Exchanged, Clean;
    ChangedKeys(st, st', d);
    DirectoryChanged(st, st', d);
  }

  lemma UntouchedClean(st: State, st': State)
    requires Untouched(st, st')
    ensures FilesKept(st, st') && st'.inodes == st.inodes && (st'.used == st.used ==> Clean(st, st'))
  {
    hide Sound, Content, Ext, Owned, Clean, FilesKept;
    UntouchedKept(st, st');
  }

  lemma AlwaysKept(st: State)
    ensures FilesKept(st, st) && Clean(st, st)
  {
  }

  lemma ContentKept(st: State, st': State, i: nat)
    requires FilesKept(st, st') && i in st.inodes && i in st'.inodes && st.inodes[i].kind == Regular
    ensures Content(st'.disk, st'.inodes[i]) == Content(st.disk, st.inodes[i])
  {
    hide Content;
  }

  /** `dir_add_entry`. */
  method DirAddEntry(v: Volume, c: DirIndexCache, d: nat, name: Name, inodeNum: nat, fileType: nat) returns (r: Result<bool>)
    requires v.Valid() && Sound(St(v)) && AllDirsOk(St(v)) && Agrees(c.index, St(v)) && d in v.inodes
    requires 0 < inodeNum < U32 && fileType < 256 && DirBlocks(v.inodes[d]) + 1 < U32
    modifies v, v.fs, v.fs.blockBitmaps, c
    ensures v.Valid() && CacheKeys(old(v.extentsCache), v.extentsCache, d)
    ensures r.Ok? ==> old(v.inodes[d]).kind == Directory && name != [] && |name| <= EXT4_NAME_LEN
    ensures r.Ok? ==> name !in IndexOf(old(v.disk), old(v.inodes[d])) && NameAdded(old(St(v)), St(v), d, name, inodeNum, fileType)
    ensures r.Err? ==> AddFailed(old(St(v)), St(v), name)
    ensures r.Err? && |name| <= EXT4_NAME_LEN ==> LeftAlone(old(St(v)), St(v))
    ensures EntryError(old(St(v)), d, name).Some? ==> r.Err? && r.error == EntryError(old(St(v)), d, name).value
    ensures EntryError(old(St(v)), d, name).None? && r.Err? && |name| <= EXT4_NAME_LEN ==>
              Excused(v.used, v.AllBlocks(), r.error) && BlockLeaked(old(St(v)), d, v.used, v.AllBlocks())
    ensures EntryError(old(St(v)), d, name).None? && |name| > EXT4_NAME_LEN ==>
              r.Err? && LongFailed(old(St(v)), St(v), d, name, r.error, v.used, v.AllBlocks())
    ensures Agrees(c.index, old(St(v))) && forall k :: k in c.index && k != d ==> k in old(c.index)
  {
    hide *;
    ghost var st := St(v);
    StParts(v);
    EntryErrorIs(st, d, name);
    StaysPut(v);
    TreeAt(st, d);
    CacheKeysFacts(st.cache, st.cache, st.cache, d, []);
    LeftAloneSame(st, st);
    if v.inodes[d].kind != Directory {
      FailedAdd(st, v, name);
      return Err(NotADirectory);
    }
    if name == [] {
      FailedAdd(st, v, name);
      return Err(InvalidInput);
    }
    var found := Find(v, c, d, name);
    ghost var st1 := St(v);
    StParts(v);
    v.Opened();
    v.Closed();
    UntouchedTree(st, st1, c.index);
    AgreesBack(c.index, st, st1);
    if found.Some? {
      FailedUntouched(st, st1, name);
      LeftAloneJoin(st, st1);
      return Err(AlreadyExists);
    }
    TreeAt(st1, d);
    r := DirAddNew(v, d, inodeNum, fileType, name);
    CacheKeysFacts(st.cache, st1.cache, v.extentsCache, d, []);
    StateWithCache(st, st1);
    AddedFrom(st, st1, St(v), d, name, inodeNum, fileType);
    BlockLeakedFrom(st, st1, d, v.used, v.AllBlocks());
    if r.Err? && |name| <= EXT4_NAME_LEN {
      StParts(v);
      AddFailedParts(st, St(v), name);
      LeakedOne(st, d, v.used, v.AllBlocks());
      LeftAloneJoin(st, St(v));
    }
    if |name| > EXT4_NAME_LEN {
      LongFailedFrom(st, st1, St(v), d, name, r.error, v.used, v.AllBlocks());
    }
  }

  lemma LongFailedFrom(st: State, st1: State, st2: State, d: nat, name: Name, e: Ext4Error, used: set<nat>, all: set<nat>)
    requires st1 == st.(cache := st1.cache) && LongFailed(st1, st2, d, name, e, used, all)
    ensures LongFailed(st, st2, d, name, e, used, all)
  {
    hide *;
    LongFailedParts(st1, st2, d, name, e, used, all);
    if e == NameTooLong {
      RefusedFrom(st, st1, st2, d, name);
    } else {
      UntouchedFrom(st, st1, st2);
      PlaceOfFrom(st, st1, d, name);
    }
    LongFailedJoin(st, st2, d, name, e, used, all);
  }

  lemma PlaceOfFrom(st: State, st1: State, d: nat, name: Name)
    requires st1 == st.(cache := st1.cache) && d in st1.inodes
    ensures d in st.inodes && PlaceOf(st1, d, name) == PlaceFrom(Content(st.disk, st.inodes[d]), 0, Align4(FIXED_SIZE + |name|))
  {
    hide PlaceFrom, Content, Align4;
  }

  lemma StateWithCache(st: State, st': State)
    requires st'.inodes == st.inodes && st'.used == st.used && st'.disk == st.disk
    ensures st' == st.(cache := st'.cache)
  {
  }

  lemma AgreesBack(index: map<nat, Ns.Index>, st: State, st': State)
    requires Agrees(index, st') && st'.disk == st.disk && st'.inodes == st.inodes
    ensures Agrees(index, st)
  {
    hide IndexOf;
  }

  // create_file

  lemma CreatedTree(st: State, i: nat, links: nat, st': State, index: map<nat, Ns.Index>)
    requires Created(st, i, Regular, links, st') && AllDirsOk(st) && Agrees(index, st)
    ensures Sound(st') && AllDirsOk(st') && Agrees(index - {i}, st') && i !in TreeOf(st).kinds
    ensures TreeOf(st') == Ns.Tree(TreeOf(st).kinds[i := Regular], TreeOf(st).links[i := links], TreeOf(st).names)
    ensures i in st'.inodes && st'.inodes[i].kind == Regular && Owned(st'.disk, st'.inodes[i]) == {} && i !in st'.cache
    ensures forall d :: d in st.inodes ==> d in st'.inodes && st'.inodes[d] == st.inodes[d] && d != i
    ensures st'.disk == st.disk && st'.used == st.used && forall k :: k in st'.cache ==> k in st.cache
  {
    hide *;
    CreatedSound(st, i, Regular, links, st');
    NewInodeFile(st.disk, st.used, Regular, links);
    NewInodeKind(Regular, links);
    CreatedParts(st, i, links, st');
    TreeAt(st, i);
    OneMoreFile(st, i, NewInode(Regular, links), st', index);
  }

  lemma CreatedParts(st: State, i: nat, links: nat, st': State)
    requires Created(st, i, Regular, links, st')
    ensures i !in st.inodes && st'.inodes == st.inodes[i := NewInode(Regular, links)]
    ensures st'.disk == st.disk && st'.used == st.used && st'.cache == st.cache - {i}
  {
    hide Sound, NewInode;
  }

  lemma OneMoreFile(st: State, i: nat, f: Inode, st': State, index: map<nat, Ns.Index>)
    requires i !in st.inodes && st'.inodes == st.inodes[i := f] && st'.disk == st.disk && f.kind == Regular
    requires AllDirsOk(st) && Agrees(index, st)
    ensures AllDirsOk(st') && Agrees(index - {i}, st')
    ensures TreeOf(st') == Ns.Tree(TreeOf(st).kinds[i := Regular], TreeOf(st).links[i := f.links], TreeOf(st).names)
  {
    hide *;
    OneMoreKept(st, i, f, st', index);
    OneMoreMaps(st, i, f, st');
  }

  lemma OneMoreKept(st: State, i: nat, f: Inode, st': State, index: map<nat, Ns.Index>)
    requires i !in st.inodes && st'.inodes == st.inodes[i := f] && st'.disk == st.disk
    requires f.kind == Directory ==> DirOk(st.disk, f)
    requires AllDirsOk(st) && Agrees(index, st)
    ensures AllDirsOk(st') && Agrees(index - {i}, st')
  {
    hide IndexOf, DirOk;
  }

  lemma OneMoreMaps(st: State, i: nat, f: Inode, st': State)
    requires i !in st.inodes && st'.inodes == st.inodes[i := f] && st'.disk == st.disk
    ensures TreeOf(st').kinds == TreeOf(st).kinds[i := f.kind] && TreeOf(st').links == TreeOf(st).links[i := f.links]
    ensures TreeOf(st').names == if f.kind == Directory then TreeOf(st).names[i := IndexOf(st.disk, f)] else TreeOf(st).names
  {
    hide *;
    OneMoreKind(st, i, f, st');
    OneMoreNames(st, i, f, st');
  }

  lemma OneMoreKind(st: State, i: nat, f: Inode, st': State)
    requires st'.inodes == st.inodes[i := f]
    ensures TreeOf(st').kinds == TreeOf(st).kinds[i := f.kind] && TreeOf(st').links == TreeOf(st).links[i := f.links]
  {
    hide IndexOf;
  }

  lemma OneMoreNames(st: State, i: nat, f: Inode, st': State)
    requires i !in st.inodes && st'.inodes == st.inodes[i := f] && st'.disk == st.disk
    ensures TreeOf(st').names == if f.kind == Directory then TreeOf(st).names[i := IndexOf(st.disk, f)] else TreeOf(st).names
  {
    hide IndexOf;
  }

  lemma NewInodeKind(kind: Kind, links: nat)
    ensures NewInode(kind, links).kind == kind && NewInode(kind, links).links == links && NewInode(kind, links).size == 0
  {
    hide LeafNode;
  }

  lemma DroppedTree(st: State, i: nat, st': State, index: map<nat, Ns.Index>)
    requires Reclaimed(st, i, st') && AllDirsOk(st) && Agrees(index, st)
    ensures Sound(st') && AllDirsOk(st') && Agrees(index - {i}, st') && (i !in index ==> index - {i} == index)
    ensures TreeOf(st') == Ns.Tree(TreeOf(st).kinds - {i}, TreeOf(st).links - {i}, TreeOf(st).names - {i})
  {
    hide IndexOf, DirOk, Sound, FilesOf, AllOwned, Owned;
    ReclaimedSound(st, i, st');
  }

  /** A new inode whose entry could not be added is dropped again. */
  lemma CreateUndone(st: State, st1: State, st2: State, st3: State, d: nat, i: nat, index: map<nat, Ns.Index>)
    requires Created(st, i, Regular, 1, st1) && Untouched(st1, st2) && AllDirsOk(st) && Agrees(index, st1) && d in st.inodes
    requires CacheKeys(st1.cache, st2.cache, d) && st3.inodes == st2.inodes - {i} && st3.disk == st2.disk
    requires st3.used == st2.used && st3.cache == st2.cache
    ensures Sound(st3) && AllDirsOk(st3) && Agrees(index - {i}, st3) && TreeOf(st3) == TreeOf(st)
  {
    hide *;
    CreatedTree(st, i, 1, st1, map[]) by { NothingAgrees(st); }
    UntouchedTree(st1, st2, index);
    UntouchedOwned(st1, st2, i);
    NotInKeys(st1.cache, st2.cache, d, i);
    ReclaimedJoin(st2, i, st3);
    DroppedTree(st2, i, st3, index);
    TreeAt(st, i);
    BackAgain(TreeOf(st), i);
  }

  lemma NothingAgrees(st: State)
    ensures Agrees(map[], st)
  {
  }

  lemma UntouchedOwned(st: State, st': State, i: nat)
    requires Untouched(st, st') && i in st.inodes
    ensures Owned(st'.disk, st.inodes[i]) == Owned(st.disk, st.inodes[i])
  {
    hide Sound, Content, Ext, Owned;
  }

  lemma NotInKeys(a: map<nat, seq<Extent>>, b: map<nat, seq<Extent>>, d: nat, i: nat)
    requires CacheKeys(a, b, d) && i !in a && i != d
    ensures i !in b && b - {i} == b
    ensures forall s: set<nat> :: s - {} == s
  {
  }

  lemma BackAgain(t: Ns.Tree, i: nat)
    requires i !in t.kinds && i !in t.links && i !in t.names
    ensures Ns.Tree(t.kinds[i := Regular] - {i}, t.links[i := 1] - {i}, t.names - {i}) == t
  {
  }

  /** The inode number, for an entry, of a volume with live inodes below 2^32. */
  lemma NumberFits(v: Volume, i: nat)
    requires Numbered(v) && v.fs.Valid() && i in v.inodes
    ensures 0 < i < U32
  {
    assert i in Ext4Alloc.Used(v.fs.Inodes(), Ext4Alloc.AllBits(v.fs.inodeBitmaps));
  }

  /** A new empty file has a name, nothing else has changed, and the bitmap follows. */
  ghost predicate FileEntered(st: State, st': State, d: nat, name: Name, i: nat) {
    && d in TreeOf(st).names && i !in st.inodes && TreeOf(st') == Ns.Create(TreeOf(st), d, name, i)
    && Clean(st, st') && i in st'.inodes && Content(st'.disk, st'.inodes[i]) == []
  }

  lemma FileEnteredJoin(st: State, st': State, d: nat, name: Name, i: nat)
    requires d in TreeOf(st).names && i !in st.inodes && TreeOf(st') == Ns.Create(TreeOf(st), d, name, i)
    requires Clean(st, st') && i in st'.inodes && Content(st'.disk, st'.inodes[i]) == []
    ensures FileEntered(st, st', d, name, i)
  {
    hide TreeOf, Ns.Create, Content, Clean;
  }

  lemma FileEnteredFrom(st: State, st0: State, st': State, d: nat, name: Name, i: nat)
    requires FileEntered(st0, st', d, name, i) && Clean(st, st0) && TreeOf(st) == TreeOf(st0) && st.inodes == st0.inodes
    ensures FileEntered(st, st', d, name, i)
  {
    hide TreeOf, Ns.Create, Content, Clean;
    EnteredKeys(st0, st', d, name, i);
    CleanThrough(st, st0, st');
  }

  lemma EnteredKeys(st: State, st': State, d: nat, name: Name, i: nat)
    requires FileEntered(st, st', d, name, i)
    ensures Clean(st, st') && Passes(st, st, st')
  {
    hide TreeOf, Ns.Create, Content, Clean;
  }

  /** The second half of `create_file`, when the inode is made: its entry is added, or it is dropped again. */
  method EnterFile(v: Volume, c: DirIndexCache, d: nat, name: Name, i: nat, ghost st: State) returns (r: Result<nat>)
    requires v.Valid() && Numbered(v) && FsOk(st, c.index) && Created(st, i, Regular, 1, St(v))
    requires d in st.inodes && st.inodes[d].kind == Directory && DirBlocks(st.inodes[d]) + 1 < U32
    requires name != [] && |name| <= EXT4_NAME_LEN && name !in IndexOf(st.disk, st.inodes[d])
    modifies v, v.fs, v.fs.blockBitmaps, v.fs.inodeBitmaps, c
    ensures v.Valid() && Numbered(v) && FsOk(St(v), c.index)
    ensures r.Ok? ==> r.value == i && FileEntered(st, St(v), d, name, i)
    ensures r.Err? ==> LeftAlone(st, St(v)) && OutOfRoom(v, r.error)
    ensures Numbers(v) == if r.Ok? then old(Numbers(v)) else old(Numbers(v)) - {i}
  {
    hide *;
    FileTypes();
    ghost var st1 := St(v);
    StParts(v);
    FsParts(st, c.index);
    CreatedTree(st, i, 1, st1, c.index);
    CreatedClean(st, i, Regular, 1, st1);
    CleanParts(st, st1);
    SameIndex(st, st1, d);
    EntryErrorIs(st1, d, name);
    c.index := c.index - {i};
    v.Opened();
    v.Closed();
    TreeAt(st, d);
    TreeAt(st, i);
    NumberFits(v, i);
    NumberedParts(v);
    v.fs.TwoBitmaps();
    ghost var bits := Ext4Alloc.AllBits(v.fs.inodeBitmaps);
    ghost var numbers := Numbers(v);
    var added := DirAddEntry(v, c, d, name, i, Ns.FT_REG_FILE);
    ghost var st2 := St(v);
    StParts(v);
    assert Ext4Alloc.AllBits(v.fs.inodeBitmaps) == bits && Numbers(v) == numbers;
    if added.Err? {
      AddFailedParts(st1, st2, name);
      UntouchedTree(st1, st2, c.index);
      NumberedJoin(v);
      FreeInodeNumber(v, i);
      StParts(v);
      CreateUndone(st, st1, st2, St(v), d, i, c.index);
      NoNewIndex(c.index, st1, st, i);
      FsJoin(St(v), c.index);
      CreatedUndone(st, st1, st2, St(v), i);
      ExcusedRoom(v, v.used, added.error);
      return Err(added.error);
    }
    AddedDir(st1, st2, d, name, i, Ns.FT_REG_FILE, c.index);
    AddedClean(st1, st2, d, name, i, Ns.FT_REG_FILE);
    PassesAlong(st, st1, st2);
    CleanThrough(st, st1, st2);
    CleanParts(st1, st2);
    SameKeys(st1, st2, i);
    ContentKept(st1, st2, i);
    NumberedJoin(v);
    IndexAdd(c, d, name, i, Ns.FT_REG_FILE);
    v.Opened();
    v.Closed();
    SameIndex(st, st1, d);
    FreeJoin(TreeOf(st), d, name);
    Ns.CreateKeeps(TreeOf(st), d, name, i);
    CreateShapes(TreeOf(st), TreeOf(st1), TreeOf(st2), d, name, i);
    FsJoin(st2, c.index);
    FileEnteredJoin(st, st2, d, name, i);
    return Ok(i);
  }

  /** The cached index of d, if there is one, with one more name. */
  function WithName(index: map<nat, Ns.Index>, d: nat, name: Name, value: (nat, nat)): map<nat, Ns.Index> {
    if d in index then index[d := index[d][name := value]] else index
  }

  method IndexAdd(c: DirIndexCache, d: nat, name: Name, i: nat, fileType: nat)
    modifies c
    ensures c.index == WithName(old(c.index), d, name, (i, fileType))
  {
    if d in c.index {
      c.index := c.index[d := c.index[d][name := (i, fileType)]];
    }
  }

  /** The tree and the cached indices after an entry has been added. */
  lemma AddedDir(st: State, st': State, d: nat, name: Name, i: nat, fileType: nat, index: map<nat, Ns.Index>)
    requires NameAdded(st, st', d, name, i, fileType) && AllDirsOk(st) && Agrees(index, st)
    requires d in st.inodes && st.inodes[d].kind == Directory
    ensures d in TreeOf(st).names
    ensures TreeOf(st') == TreeOf(st).(names := TreeOf(st).names[d := TreeOf(st).names[d][name := (i, fileType)]])
    ensures Sound(st') && AllDirsOk(st') && Agrees(WithName(index, d, name, (i, fileType)), st')
    ensures st'.inodes.Keys == st.inodes.Keys && OthersSame(st, st', d) && d in st'.inodes
    ensures st'.inodes[d].links == st.inodes[d].links && st'.inodes[d].kind == Directory
  {
    hide *;
    NameAddedParts(st, st', d, name, i, fileType);
    TreeAt(st, d);
    var now := IndexOf(st.disk, st.inodes[d])[name := (i, fileType)];
    DirChangedTree(st, st', d, now);
    AgreesAt(index, st, d);
    WithNameAt(index, d, name, (i, fileType));
    AgreesChanged(index, WithName(index, d, name, (i, fileType)), st, st', d, now);
  }

  lemma WithNameAt(index: map<nat, Ns.Index>, d: nat, name: Name, value: (nat, nat))
    ensures forall k :: k in WithName(index, d, name, value) ==>
              k in index && WithName(index, d, name, value)[k] == if k == d then index[d][name := value] else index[k]
  {
  }

  lemma FileTypes()
    ensures Ns.FT_REG_FILE == 1 && Ns.FT_DIR == 2 && EXT4_NAME_LEN == 255 && U32 == 0x1_0000_0000
  {
  }

  lemma AddFailedParts(st: State, st': State, name: Name)
    requires AddFailed(st, st', name) && |name| <= EXT4_NAME_LEN
    ensures Untouched(st, st') && SameFiles(st, st')
  {
    hide Sound, Untouched, SameFiles;
  }

  lemma NameAddedParts(st: State, st': State, d: nat, name: Name, i: nat, fileType: nat)
    requires NameAdded(st, st', d, name, i, fileType)
    ensures d in st.inodes && DirChanged(st, st', d, IndexOf(st.disk, st.inodes[d])[name := (i, fileType)])
    ensures OthersSame(st, st', d) && d in st'.inodes
    ensures st'.inodes[d].links == st.inodes[d].links && st'.inodes[d].kind == st.inodes[d].kind
  {
    hide Sound, OthersSame, DirOk, IndexOf, Owned, Exchanged;
  }

  /** No index is cached for an inode that is no directory. */
  lemma NoNewIndex(index: map<nat, Ns.Index>, st1: State, st: State, i: nat)
    requires Agrees(index, st1) && i in st1.inodes && st1.inodes[i].kind == Regular
    ensures index - {i} == index
  {
    hide IndexOf;
  }

  lemma SameKeys(st: State, st': State, i: nat)
    requires st'.inodes.Keys == st.inodes.Keys
    ensures i in st'.inodes <==> i in st.inodes
  {
    assert i in st'.inodes.Keys <==> i in st.inodes.Keys;
  }

  lemma SameIndex(st: State, st1: State, d: nat)
    requires d in st.inodes && d in st1.inodes && st1.inodes[d] == st.inodes[d] && st1.disk == st.disk
    ensures IndexOf(st1.disk, st1.inodes[d]) == IndexOf(st.disk, st.inodes[d])
  {
  }

  lemma FreeJoin(t: Ns.Tree, d: nat, n: Name)
    requires d in t.names && n !in t.names[d]
    ensures Ns.Free(t, d, n)
  {
  }

  lemma CreateShapes(t: Ns.Tree, t1: Ns.Tree, t2: Ns.Tree, d: nat, n: Name, i: nat)
    requires d in t.names && t1 == Ns.Tree(t.kinds[i := Regular], t.links[i := 1], t.names)
    requires t2 == t1.(names := t1.names[d := t1.names[d][n := (i, Ns.FT_REG_FILE)]])
    ensures t2 == Ns.Create(t, d, n, i)
  {
  }

  /** `create_file`: a new empty file under a name that was free; on an error the tree of names is as it was. */
  method CreateFile(v: Volume, c: DirIndexCache, d: nat, name: Name) returns (r: Result<nat>)
    requires v.Valid() && Numbered(v) && FsOk(St(v), c.index) && d in v.inodes && DirBlocks(v.inodes[d]) + 1 < U32
    modifies v, v.fs, v.fs.blockBitmaps, v.fs.inodeBitmaps, c
    ensures v.Valid() && Numbered(v) && FsOk(St(v), c.index)
    ensures r.Ok? ==> FileEntered(old(St(v)), St(v), d, name, r.value)
    ensures r.Err? ==> LeftAlone(old(St(v)), St(v))
    ensures r.Ok? ==> OneTaken(old(Numbers(v)), Numbers(v), r.value)
    ensures r.Err? ==> Numbers(v) == old(Numbers(v))
    ensures RightError(NameError(old(St(v)), d, name), r, v)
  {
    hide *;
    FileTypes();
    ghost var st := St(v);
    StParts(v);
    NameErrorIs(st, d, name);
    FsParts(st, c.index);
    TreeAt(st, d);
    AlwaysKept(st);
    LeftAloneSame(st, st);
    ghost var numbers := Numbers(v);
    if v.inodes[d].kind != Directory {
      r := Err(NotADirectory);
      RightJoin(NameError(st, d, name), r, v);
      return;
    }
    if name == [] {
      r := Err(InvalidInput);
      RightJoin(NameError(st, d, name), r, v);
      return;
    }
    NameLimit(name);
    if |name| > EXT4_NAME_LEN {
      r := Err(NameTooLong);
      RightJoin(NameError(st, d, name), r, v);
      return;
    }
    var found := Lookup(v, c, d, name);
    ghost var st0 := St(v);
    StParts(v);
    FsParts(st0, c.index);
    if found.Some? {
      r := Err(AlreadyExists);
      RightJoin(NameError(st, d, name), r, v);
      return;
    }
    var inodeNum := CreateInode(v, Regular, 1);
    if inodeNum.None? {
      r := Err(NoSpace);
      NumbersRoom(v);
      RightJoin(NameError(st, d, name), r, v);
      return;
    }
    OneTakenJoin(numbers, Numbers(v), inodeNum.value);
    r := EnterFile(v, c, d, name, inodeNum.value, st0);
    if r.Ok? {
      FileEnteredFrom(st, st0, St(v), d, name, r.value);
    } else {
      LeftAloneFrom(st, st0, St(v));
    }
    RightJoin(NameError(st, d, name), r, v);
  }

  // link_inode

  /** One inode with another link count. */
  ghost predicate LinksSet(st: State, i: nat, links: nat, st': State) {
    i in st.inodes && st' == st.(inodes := st.inodes[i := st.inodes[i].(links := links)])
  }

  lemma LinksSetTree(st: State, i: nat, links: nat, st': State, index: map<nat, Ns.Index>)
    requires LinksSet(st, i, links, st') && Sound(st) && AllDirsOk(st) && Agrees(index, st)
    ensures Sound(st') && AllDirsOk(st') && Agrees(index, st') && st'.inodes.Keys == st.inodes.Keys
    ensures TreeOf(st') == TreeOf(st).(links := TreeOf(st).links[i := links])
    ensures st'.inodes[i] == st.inodes[i].(links := links)
  {
    hide *;
    LinksSetSound(st, i, links, st');
    LinksSetDirs(st, i, links, st', index);
    LinksSetMaps(st, i, links, st');
  }

  lemma LinksAside(disk: Disk, used: set<nat>, f: Inode, links: nat)
    ensures var g := f.(links := links);
            && Owned(disk, g) == Owned(disk, f) && Ext(disk, g) == Ext(disk, f) && Content(disk, g) == Content(disk, f)
            && (FileOk(disk, used, f) ==> FileOk(disk, used, g)) && (DirOk(disk, f) ==> DirOk(disk, g))
            && IndexOf(disk, g) == IndexOf(disk, f)
  {
    hide WellFormed, Injective, Mapped, DirShape, DirEntries, MapOf, Distinct, Gapless, ByteAt, Ext4Tree.Parse, Ext4Tree.Collect;
  }

  lemma LinksSetSound(st: State, i: nat, links: nat, st': State)
    requires LinksSet(st, i, links, st') && Sound(st)
    ensures Sound(st')
  {
    hide FileOk, Owned, Ext, Content, DirOk, IndexOf;
    LinksAside(st.disk, st.used, st.inodes[i], links);
    forall a, b | a in st'.inodes && b in st'.inodes && a != b ensures Apart(st'.disk, st'.inodes[a], st'.inodes[b]) {
      assert Apart(st.disk, st.inodes[a], st.inodes[b]);
    }
  }

  lemma LinksSetDirs(st: State, i: nat, links: nat, st': State, index: map<nat, Ns.Index>)
    requires LinksSet(st, i, links, st') && AllDirsOk(st) && Agrees(index, st)
    ensures AllDirsOk(st') && Agrees(index, st')
  {
    hide FileOk, Owned, Ext, Content, DirOk, IndexOf;
    LinksAside(st.disk, st.used, st.inodes[i], links);
  }

  lemma LinksSetMaps(st: State, i: nat, links: nat, st': State)
    requires LinksSet(st, i, links, st')
    ensures TreeOf(st') == TreeOf(st).(links := TreeOf(st).links[i := links]) && st'.inodes.Keys == st.inodes.Keys
    ensures i in st'.inodes && st'.inodes[i] == st.inodes[i].(links := links)
  {
    hide *;
    LinksSetParts(st, i, links, st');
    LinksAside(st.disk, st.used, st.inodes[i], links);
    LinksKinds(st, i, links, st');
    LinksNames(st, i, st');
  }

  lemma LinksSetParts(st: State, i: nat, links: nat, st': State)
    requires LinksSet(st, i, links, st')
    ensures i in st.inodes && st'.inodes == st.inodes[i := st.inodes[i].(links := links)] && st'.disk == st.disk
    ensures i in st'.inodes && st'.inodes[i] == st.inodes[i].(links := links) && st'.inodes.Keys == st.inodes.Keys
    ensures forall j :: j in st'.inodes <==> j in st.inodes
    ensures forall j :: j in st.inodes && j != i ==> st'.inodes[j] == st.inodes[j]
  {
  }

  lemma LinksKinds(st: State, i: nat, links: nat, st': State)
    requires i in st.inodes && st'.inodes == st.inodes[i := st.inodes[i].(links := links)]
    ensures TreeOf(st').kinds == TreeOf(st).kinds && TreeOf(st').links == TreeOf(st).links[i := links]
  {
    hide IndexOf;
  }

  lemma LinksNames(st: State, i: nat, st': State)
    requires i in st.inodes && i in st'.inodes && st'.disk == st.disk && (forall j :: j in st'.inodes <==> j in st.inodes)
    requires forall j :: j in st.inodes && j != i ==> st'.inodes[j] == st.inodes[j]
    requires st'.inodes[i].kind == st.inodes[i].kind && IndexOf(st'.disk, st'.inodes[i]) == IndexOf(st.disk, st.inodes[i])
    ensures TreeOf(st').names == TreeOf(st).names
  {
    hide IndexOf;
  }

  lemma LinksSetClean(st: State, i: nat, links: nat, st': State)
    requires LinksSet(st, i, links, st')
    ensures Clean(st, st')
  {
    hide Owned, Ext, Content, DirOk, IndexOf;
    LinksAside(st.disk, st.used, st.inodes[i], links);
    forall b ensures b in AllOwned(st') <==> b in AllOwned(st) {
      if b in AllOwned(st) {
        var j :| j in st.inodes && b in Owned(st.disk, st.inodes[j]);
        assert j in st'.inodes && b in Owned(st'.disk, st'.inodes[j]);
      }
      if b in AllOwned(st') {
        var j :| j in st'.inodes && b in Owned(st'.disk, st'.inodes[j]);
        assert j in st.inodes && b in Owned(st.disk, st.inodes[j]);
      }
    }
  }

  /** `i_links_count` of one inode is set. */
  method SetLinks(v: Volume, ghost index: map<nat, Ns.Index>, i: nat, links: nat)
    requires v.Valid() && Numbered(v) && Sound(St(v)) && AllDirsOk(St(v)) && Agrees(index, St(v)) && i in v.inodes
    modifies v`inodes
    ensures v.Valid() && Numbered(v) && Sound(St(v)) && AllDirsOk(St(v)) && Agrees(index, St(v))
    ensures i in v.inodes && v.inodes.Keys == old(v.inodes).Keys && v.inodes == old(v.inodes)[i := v.inodes[i]]
    ensures v.inodes[i] == old(v.inodes[i]).(links := links)
    ensures TreeOf(St(v)) == TreeOf(old(St(v))).(links := TreeOf(old(St(v))).links[i := links])
    ensures Clean(old(St(v)), St(v))
  {
    hide *;
    ghost var st := St(v);
    StParts(v);
    NumberedParts(v);
    v.inodes := v.inodes[i := v.inodes[i].(links := links)];
    v.Opened();
    v.Closed();
    StParts(v);
    LinksSetJoin(st, i, links, St(v));
    LinksSetTree(st, i, links, St(v), index);
    LinksSetClean(st, i, links, St(v));
    NumberedJoin(v);
  }

  lemma LinksSetJoin(st: State, i: nat, links: nat, st': State)
    requires i in st.inodes && st'.inodes == st.inodes[i := st.inodes[i].(links := links)]
    requires st'.disk == st.disk && st'.used == st.used && st'.cache == st.cache
    ensures LinksSet(st, i, links, st')
  {
  }

  /** Why `link_inode` refuses: directories get no second name. */
  ghost function LinkError(st: State, d: nat, name: Name, target: nat): Option<Ext4Error> {
    if NameError(st, d, name).None? && target in st.inodes && st.inodes[target].kind == Directory then Some(Unsupported)
    else NameError(st, d, name)
  }

  lemma LinkErrorIs(st: State, d: nat, name: Name, target: nat)
    requires d in st.inodes && target in st.inodes
    ensures LinkError(st, d, name, target) ==
            if st.inodes[d].kind != Directory then Some(NotADirectory)
            else if name == [] then Some(InvalidInput)
            else if |name| > 255 then Some(NameTooLong)
            else if name in IndexOf(st.disk, st.inodes[d]) then Some(AlreadyExists)
            else if st.inodes[target].kind == Directory then Some(Unsupported)
            else None
  {
  }

  /** A file has one more name and one more link; nothing else has changed, and the bitmap follows. */
  ghost predicate Linked(st: State, st': State, d: nat, name: Name, target: nat) {
    && d in TreeOf(st).names && target in TreeOf(st).links && TreeOf(st') == Ns.Link(TreeOf(st), d, name, target)
    && Clean(st, st')
  }

  lemma LinkedJoin(st: State, st': State, d: nat, name: Name, target: nat)
    requires d in TreeOf(st).names && target in TreeOf(st).links && TreeOf(st') == Ns.Link(TreeOf(st), d, name, target)
    requires Clean(st, st')
    ensures Linked(st, st', d, name, target)
  {
    hide TreeOf, Ns.Link, Clean;
  }

  /** `link_inode`: one more name, and one more link, for a file. */
  method LinkInode(v: Volume, c: DirIndexCache, d: nat, name: Name, target: nat) returns (r: Result<bool>)
    requires v.Valid() && Numbered(v) && FsOk(St(v), c.index) && d in v.inodes && target in v.inodes
    requires DirBlocks(v.inodes[d]) + 1 < U32 && v.inodes[target].links + 1 < U16
    modifies v, v.fs, v.fs.blockBitmaps, c
    ensures v.Valid() && Numbered(v) && FsOk(St(v), c.index)
    ensures r.Ok? ==> Linked(old(St(v)), St(v), d, name, target)
    ensures r.Err? ==> LeftAlone(old(St(v)), St(v))
    ensures Numbers(v) == old(Numbers(v))
    ensures RightError(LinkError(old(St(v)), d, name, target), r, v)
  {
    hide *;
    ghost var st := St(v);
    StParts(v);
    LinkErrorIs(st, d, name, target);
    AlwaysKept(st);
    FsParts(st, c.index);
    LeftAloneSame(st, st);
    TreeAt(st, d);
    TreeAt(st, target);
    if v.inodes[d].kind != Directory {
      r := Err(NotADirectory);
      RightJoin(LinkError(st, d, name, target), r, v);
      return;
    }
    if name == [] {
      r := Err(InvalidInput);
      RightJoin(LinkError(st, d, name, target), r, v);
      return;
    }
    NameLimit(name);
    if |name| > EXT4_NAME_LEN {
      r := Err(NameTooLong);
      RightJoin(LinkError(st, d, name, target), r, v);
      return;
    }
    var found := Lookup(v, c, d, name);
    ghost var st0 := St(v);
    StParts(v);
    FsParts(st0, c.index);
    if found.Some? {
      r := Err(AlreadyExists);
      RightJoin(LinkError(st, d, name, target), r, v);
      return;
    }
    if v.inodes[target].kind == Directory {
      r := Err(Unsupported);
      RightJoin(LinkError(st, d, name, target), r, v);
      return;
    }
    r := LinkHere(v, c, d, name, target);
    PassesAlong(st, st0, St(v));
    if r.Ok? {
      LinkedFrom(st, st0, St(v), d, name, target);
    } else {
      LeftAloneFrom(st, st0, St(v));
    }
    RightJoin(LinkError(st, d, name, target), r, v);
  }

  lemma LinkedFrom(st: State, st0: State, st': State, d: nat, name: Name, target: nat)
    requires TreeOf(st0) == TreeOf(st) && Clean(st, st0) && Linked(st0, st', d, name, target) && Passes(st, st0, st')
    ensures Linked(st, st', d, name, target)
  {
    hide TreeOf, Clean, Ns.Link, Passes;
    CleanThrough(st, st0, st');
  }

  /** `link_inode` once the name is known to be free and the inode to be a file. */
  method LinkHere(v: Volume, c: DirIndexCache, d: nat, name: Name, target: nat) returns (r: Result<bool>)
    requires v.Valid() && Numbered(v) && FsOk(St(v), c.index) && d in v.inodes && target in v.inodes
    requires DirBlocks(v.inodes[d]) + 1 < U32 && v.inodes[target].links + 1 < U16
    requires v.inodes[d].kind == Directory && v.inodes[target].kind == Regular
    requires name != [] && |name| <= EXT4_NAME_LEN && name !in IndexOf(v.disk, v.inodes[d])
    modifies v, v.fs, v.fs.blockBitmaps, c
    ensures v.Valid() && Numbered(v) && FsOk(St(v), c.index) && Numbers(v) == old(Numbers(v))
    ensures r.Ok? ==> Linked(old(St(v)), St(v), d, name, target)
    ensures r.Err? ==> LeftAlone(old(St(v)), St(v)) && OutOfRoom(v, r.error)
  {
    hide *;
    FileTypes();
    ghost var st := St(v);
    StParts(v);
    FsParts(st, c.index);
    TreeAt(st, d);
    TreeAt(st, target);
    NumberedParts(v);
    v.Opened();
    v.fs.TwoBitmaps();
    NumberFits(v, target);
    EntryErrorIs(st, d, name);
    ghost var bits := Ext4Alloc.AllBits(v.fs.inodeBitmaps);
    ghost var numbers := Numbers(v);
    var added := DirAddEntry(v, c, d, name, target, Ns.FT_REG_FILE);
    ghost var st1 := St(v);
    StParts(v);
    assert Ext4Alloc.AllBits(v.fs.inodeBitmaps) == bits && Numbers(v) == numbers;
    if added.Err? {
      AddFailedParts(st, st1, name);
      UntouchedTree(st, st1, c.index);
      NumberedJoin(v);
      FsJoin(st1, c.index);
      ExcusedRoom(v, v.used, added.error);
      return Err(added.error);
    }
    AddedDir(st, st1, d, name, target, Ns.FT_REG_FILE, c.index);
    AddedClean(st, st1, d, name, target, Ns.FT_REG_FILE);
    ChangedKeys(st, st1, d);
    NumberedJoin(v);
    OtherInode(st, st1, d, target);
    SetLinks(v, WithName(c.index, d, name, (target, Ns.FT_REG_FILE)), target, v.inodes[target].links + 1);
    PassesAlong(st, st1, St(v));
    CleanThrough(st, st1, St(v));
    IndexAdd(c, d, name, target, Ns.FT_REG_FILE);
    FreeJoin(TreeOf(st), d, name);
    Ns.LinkKeeps(TreeOf(st), d, name, target);
    LinkShapes(TreeOf(st), TreeOf(st1), TreeOf(St(v)), d, name, target);
    FsJoin(St(v), c.index);
    LinkedJoin(st, St(v), d, name, target);
    return Ok(true);
  }

  lemma OtherInode(st: State, st': State, d: nat, i: nat)
    requires OthersSame(st, st', d) && i in st.inodes && i != d
    ensures i in st'.inodes && st'.inodes[i] == st.inodes[i]
  {
    hide Content, Ext, Owned;
    assert i in st'.inodes.Keys;
  }

  lemma LinkShapes(t: Ns.Tree, t1: Ns.Tree, t2: Ns.Tree, d: nat, n: Name, i: nat)
    requires d in t.names && i in t.links
    requires t1 == t.(names := t.names[d := t.names[d][n := (i, Ns.FT_REG_FILE)]])
    requires t2 == t1.(links := t1.links[i := t.links[i] + 1])
    ensures t2 == Ns.Link(t, d, n, i)
  {
  }

  // rename

  /** The cached index of d without a name. */
  function WithoutName(index: map<nat, Ns.Index>, d: nat, name: Name): map<nat, Ns.Index> {
    if d in index then index[d := index[d] - {name}] else index
  }

  method IndexRemove(c: DirIndexCache, d: nat, name: Name)
    modifies c
    ensures c.index == WithoutName(old(c.index), d, name)
  {
    if d in c.index {
      c.index := c.index[d := c.index[d] - {name}];
    }
  }

  /** The tree and the cached indices after an entry has been removed. */
  lemma RemovedDir(st: State, st': State, d: nat, name: Name, i: nat, index: map<nat, Ns.Index>)
    requires NameRemoved(st, st', d, name, i) && AllDirsOk(st) && Agrees(index, st)
    requires d in st.inodes && st.inodes[d].kind == Directory
    ensures d in TreeOf(st).names && name in TreeOf(st).names[d] && TreeOf(st).names[d][name].0 == i
    ensures TreeOf(st') == TreeOf(st).(names := TreeOf(st).names[d := TreeOf(st).names[d] - {name}])
    ensures Sound(st') && AllDirsOk(st') && Agrees(WithoutName(index, d, name), st')
    ensures st'.inodes.Keys == st.inodes.Keys && OthersSame(st, st', d) && d in st'.inodes
    ensures st'.inodes[d].links == st.inodes[d].links && st'.inodes[d].kind == Directory
  {
    hide *;
    NameRemovedParts(st, st', d, name, i);
    NameRemovedMore(st, st', d, name, i);
    TreeAt(st, d);
    var now := IndexOf(st.disk, st.inodes[d]) - {name};
    DirChangedTree(st, st', d, now);
    AgreesAt(index, st, d);
    WithoutNameAt(index, d, name);
    AgreesChanged(index, WithoutName(index, d, name), st, st', d, now);
  }

  lemma NameRemovedMore(st: State, st': State, d: nat, name: Name, i: nat)
    requires NameRemoved(st, st', d, name, i)
    ensures d in st.inodes && d in st'.inodes && OthersSame(st, st', d)
    ensures st'.inodes[d].links == st.inodes[d].links && st'.inodes[d].kind == st.inodes[d].kind
    ensures name in IndexOf(st.disk, st.inodes[d]) && IndexOf(st.disk, st.inodes[d])[name].0 == i
  {
    hide Sound, OthersSame, DirOk, IndexOf, Owned, Exchanged;
  }

  lemma WithoutNameAt(index: map<nat, Ns.Index>, d: nat, name: Name)
    ensures forall k :: k in WithoutName(index, d, name) ==>
              k in index && WithoutName(index, d, name)[k] == if k == d then index[d] - {name} else index[k]
  {
  }

  /** The type byte of an entry for an inode of this kind. */
  function FileTypeOf(kind: Kind): nat {
    if kind == Directory then Ns.FT_DIR else Ns.FT_REG_FILE
  }

  lemma FileTypeFits(kind: Kind)
    ensures FileTypeOf(kind) < 256
  {
  }

  lemma TypeOfTarget(st: State, i: nat)
    requires i in st.inodes
    ensures i in TreeOf(st).kinds && FileTypeOf(st.inodes[i].kind) == Ns.TypeByte(TreeOf(st), i)
  {
  }

  /** The inode that an entry names is live. */
  lemma TargetLives(st: State, d: nat, name: Name)
    requires Ns.Sane(TreeOf(st)) && d in st.inodes && st.inodes[d].kind == Directory && name in IndexOf(st.disk, st.inodes[d])
    ensures IndexOf(st.disk, st.inodes[d])[name].0 in st.inodes
  {
    hide *;
    TreeAt(st, d);
    Ns.SaneAt(TreeOf(st), d);
    Ns.NamedParts(TreeOf(st), d);
    TreeAt(st, IndexOf(st.disk, st.inodes[d])[name].0);
  }

  /** Why `rename` refuses its names. */
  ghost function RenameError(st: State, d: nat, from: Name, to: Name): Option<Ext4Error> {
    if d !in st.inodes || st.inodes[d].kind != Directory then Some(NotADirectory)
    else if from == [] || to == [] || from == Ns.DOT || from == Ns.DOTDOT || to == Ns.DOT || to == Ns.DOTDOT then
      Some(InvalidInput)
    else if from == to then None
    else if to in IndexOf(st.disk, st.inodes[d]) then Some(AlreadyExists)
    else if from !in IndexOf(st.disk, st.inodes[d]) then Some(NotFound)
    else None
  }

  lemma RenameErrorIs(st: State, d: nat, from: Name, to: Name)
    requires d in st.inodes
    ensures RenameError(st, d, from, to) ==
            if st.inodes[d].kind != Directory then Some(NotADirectory)
            else if from == [] || to == [] || from == Ns.DOT || from == Ns.DOTDOT || to == Ns.DOT || to == Ns.DOTDOT then
              Some(InvalidInput)
            else if from == to then None
            else if to in IndexOf(st.disk, st.inodes[d]) then Some(AlreadyExists)
            else if from !in IndexOf(st.disk, st.inodes[d]) then Some(NotFound)
            else None
  {
  }

  /** The entry has the other name, and the type of its inode; nothing else has changed, and the bitmap follows. */
  ghost predicate Renamed(st: State, st': State, d: nat, from: Name, to: Name) {
    && d in TreeOf(st).names && from in TreeOf(st).names[d] && |to| <= EXT4_NAME_LEN && Clean(st, st')
    && var i := TreeOf(st).names[d][from].0;
       i in TreeOf(st).kinds && TreeOf(st') == Ns.Rename(TreeOf(st), d, from, to, Ns.TypeByte(TreeOf(st), i))
  }

  lemma RenamedJoin(st: State, st': State, d: nat, from: Name, to: Name, ft: nat)
    requires d in TreeOf(st).names && from in TreeOf(st).names[d] && |to| <= EXT4_NAME_LEN && Clean(st, st')
    requires var i := TreeOf(st).names[d][from].0; i in TreeOf(st).kinds && ft == Ns.TypeByte(TreeOf(st), i)
    requires TreeOf(st') == Ns.Rename(TreeOf(st), d, from, to, ft)
    ensures Renamed(st, st', d, from, to)
  {
    hide TreeOf, Ns.Rename, Ns.TypeByte, Clean;
  }

  /** What `rename` leaves of the volume when the new name has more than 255 bytes: it is in order, with the same
      names, exactly if no block was left for the entry or the directory is spared. */
  ghost predicate LongRename(st: State, st': State, index: map<nat, Ns.Index>, d: nat, to: Name, e: Ext4Error, used: set<nat>, all: set<nat>) {
    && LongFailed(st, st', d, to, e, used, all) && d in st.inodes
    && (FsOk(st', index) && NamesSame(st, st') <==> e != NameTooLong || Spared(st, d, to))
  }

  /** A refused name of more than 255 bytes, seen from the whole volume. */
  lemma RefusedVolume(st: State, st': State, d: nat, name: Name, index: map<nat, Ns.Index>)
    requires Sound(st) && AllDirsOk(st) && Ns.Sane(TreeOf(st)) && Agrees(index, st)
    requires d in st.inodes && st.inodes[d].kind == Directory && LongRefused(st, st', d, name)
    ensures FsOk(st', index) && NamesSame(st, st') <==> Spared(st, d, name)
  {
    hide *;
    TreeAt(st, d);
    RefusedWhole(st, st', d, name);
    if Spared(st, d, name) {
      SameDirectory(st, st', d, index);
    } else if FsOk(st', index) && NamesSame(st, st') {
      FsParts(st', index);
      NamesSameParts(st, st');
      TreeAt(st', d);
      assert false;
    }
  }

  /** A directory whose names are the same. */
  lemma SameDirectory(st: State, st': State, d: nat, index: map<nat, Ns.Index>)
    requires Sound(st) && AllDirsOk(st) && Ns.Sane(TreeOf(st)) && Agrees(index, st)
    requires d in st.inodes && st.inodes[d].kind == Directory && DirChanged(st, st', d, IndexOf(st.disk, st.inodes[d]))
    ensures FsOk(st', index) && NamesSame(st, st')
  {
    hide *;
    TreeAt(st, d);
    AgreesAt(index, st, d);
    DirChangedTree(st, st', d, IndexOf(st.disk, st.inodes[d]));
    AgreesChanged(index, index, st, st', d, IndexOf(st.disk, st.inodes[d]));
    SameNames(TreeOf(st), d);
    DirChangedClean(st, st', d, IndexOf(st.disk, st.inodes[d]));
    CleanParts(st, st');
    NamesSameJoin(st, st');
    FsJoin(st', index);
  }

  lemma SameNames(t: Ns.Tree, d: nat)
    requires d in t.names
    ensures t.(names := t.names[d := t.names[d]]) == t
  {
  }

  lemma DirChangedClean(st: State, st': State, d: nat, index: Ns.Index)
    requires Sound(st) && d in st.inodes && st.inodes[d].kind == Directory && DirChanged(st, st', d, index)
    ensures Clean(st, st')
  {
    hide Sound, OthersSame, DirOk, IndexOf, Owned, Exchanged, Clean;
    DirectoryChanged(st, st', d);
  }

  lemma LongRenameJoin(st: State, st': State, index: map<nat, Ns.Index>, d: nat, to: Name, e: Ext4Error, used: set<nat>, all: set<nat>)
    requires LongFailed(st, st', d, to, e, used, all) && d in st.inodes
    requires FsOk(st', index) && NamesSame(st, st') <==> e != NameTooLong || Spared(st, d, to)
    ensures LongRename(st, st', index, d, to, e, used, all)
  {
    hide LongFailed, FsOk, NamesSame, Spared;
  }

  lemma LongRenameParts(st: State, st': State, index: map<nat, Ns.Index>, d: nat, to: Name, e: Ext4Error, used: set<nat>, all: set<nat>)
    requires LongRename(st, st', index, d, to, e, used, all)
    ensures LongFailed(st, st', d, to, e, used, all) && d in st.inodes
    ensures FsOk(st', index) && NamesSame(st, st') <==> e != NameTooLong || Spared(st, d, to)
  {
    hide LongFailed, FsOk, NamesSame, Spared;
  }

  /** The failed attempt to enter a name of more than 255 bytes. */
  lemma LongRenameFailed(st: State, st': State, index: map<nat, Ns.Index>, d: nat, to: Name, e: Ext4Error, used: set<nat>, all: set<nat>)
    requires Sound(st) && AllDirsOk(st) && Ns.Sane(TreeOf(st)) && Agrees(index, st)
    requires d in st.inodes && st.inodes[d].kind == Directory && LongFailed(st, st', d, to, e, used, all)
    ensures LongRename(st, st', index, d, to, e, used, all)
  {
    hide *;
    LongFailedParts(st, st', d, to, e, used, all);
    if e == NameTooLong {
      RefusedVolume(st, st', d, to, index);
    } else {
      UntouchedClean(st, st');
      UntouchedTree(st, st', index);
      NamesSameJoin(st, st');
      FsJoin(st', index);
    }
    LongRenameJoin(st, st', index, d, to, e, used, all);
  }

  /** The lookups before it have only cached extents. */
  lemma LongRenameFrom(st: State, st1: State, st2: State, index: map<nat, Ns.Index>, d: nat, to: Name, e: Ext4Error,
                       used: set<nat>, all: set<nat>)
    requires st1 == st.(cache := st1.cache) && LongRename(st1, st2, index, d, to, e, used, all)
    ensures LongRename(st, st2, index, d, to, e, used, all)
  {
    hide *;
    LongRenameParts(st1, st2, index, d, to, e, used, all);
    LongFailedFrom(st, st1, st2, d, to, e, used, all);
    SparedFrom(st, st1, d, to);
    NamesSameBack(st, st1, st2);
    LongRenameJoin(st, st2, index, d, to, e, used, all);
  }

  lemma SparedFrom(st: State, st1: State, d: nat, name: Name)
    requires st1 == st.(cache := st1.cache) && d in st.inodes
    ensures Spared(st, d, name) <==> Spared(st1, d, name)
  {
    hide PlaceFrom, Content, Align4, CutHarmless, Blk;
  }

  lemma NamesSameBack(st: State, st1: State, st2: State)
    requires st1 == st.(cache := st1.cache)
    ensures NamesSame(st, st2) <==> NamesSame(st1, st2)
  {
    hide Content, IndexOf;
  }

  /** `rename` within a directory. It checks neither name's length; a new name of more than 255 bytes is refused
      only when its entry is written, and what that leaves behind is `LongRename`. */
  method Rename(v: Volume, c: DirIndexCache, d: nat, from: Name, to: Name) returns (r: Result<bool>)
    requires v.Valid() && Numbered(v) && FsOk(St(v), c.index) && d in v.inodes && DirBlocks(v.inodes[d]) + 1 < U32
    modifies v, v.fs, v.fs.blockBitmaps, c
    ensures v.Valid() && Numbered(v) && Sound(St(v))
    ensures r.Ok? || |to| <= EXT4_NAME_LEN || RenameError(old(St(v)), d, from, to).Some? ==> FsOk(St(v), c.index)
    ensures r.Ok? && from != to ==> Renamed(old(St(v)), St(v), d, from, to)
    ensures r.Err? && (|to| <= EXT4_NAME_LEN || RenameError(old(St(v)), d, from, to).Some?) ==> LeftAlone(old(St(v)), St(v))
    ensures r.Ok? || |to| <= EXT4_NAME_LEN || RenameError(old(St(v)), d, from, to).Some? ==>
              RightError(RenameError(old(St(v)), d, from, to), r, v)
    ensures |to| > EXT4_NAME_LEN && from != to && RenameError(old(St(v)), d, from, to).None? ==>
              r.Err? && LongRename(old(St(v)), St(v), c.index, d, to, r.error, v.used, v.AllBlocks())
    ensures Numbers(v) == old(Numbers(v))
    ensures from == to ==> (r.Ok? && St(v) == old(St(v))) || RenameError(old(St(v)), d, from, to).Some?
  {
    hide *;
    FileTypes();
    ghost var st := St(v);
    StParts(v);
    FsParts(st, c.index);
    RenameErrorIs(st, d, from, to);
    AlwaysKept(st);
    LeftAloneSame(st, st);
    TreeAt(st, d);
    if v.inodes[d].kind != Directory {
      r := Err(NotADirectory);
      RightJoin(RenameError(st, d, from, to), r, v);
      return;
    }
    if from == [] || to == [] {
      r := Err(InvalidInput);
      RightJoin(RenameError(st, d, from, to), r, v);
      return;
    }
    if from == Ns.DOT || from == Ns.DOTDOT || to == Ns.DOT || to == Ns.DOTDOT {
      r := Err(InvalidInput);
      RightJoin(RenameError(st, d, from, to), r, v);
      return;
    }
    if from == to {
      r := Ok(true);
      RightJoin(RenameError(st, d, from, to), r, v);
      return;
    }
    var foundTo := Lookup(v, c, d, to);
    ghost var st0 := St(v);
    StParts(v);
    FsParts(st0, c.index);
    if foundTo.Some? {
      r := Err(AlreadyExists);
      RightJoin(RenameError(st, d, from, to), r, v);
      return;
    }
    var foundFrom := Lookup(v, c, d, from);
    ghost var st1 := St(v);
    StParts(v);
    PassesAlong(st, st0, st1);
    CleanThrough(st, st0, st1);
    LeftAloneFrom(st, st0, st1);
    LeftAloneParts(st, st1);
    FsParts(st1, c.index);
    NumberedParts(v);
    v.Opened();
    if foundFrom.None? {
      r := Err(NotFound);
      RightJoin(RenameError(st, d, from, to), r, v);
      return;
    }
    var i := foundFrom.value.0;
    TargetLives(st1, d, from);
    NumberFits(v, i);
    var fileType := FileTypeOf(v.inodes[i].kind);
    FileTypeFits(v.inodes[i].kind);
    TypeOfTarget(st1, i);
    r := MoveEntry(v, c, d, from, to, i, fileType);
    if |to| > EXT4_NAME_LEN {
      StateWithCache(st, st1);
      LongRenameFrom(st, st1, St(v), c.index, d, to, r.error, v.used, v.AllBlocks());
    }
    PassesAlong(st, st1, St(v));
    if r.Ok? {
      CleanThrough(st, st1, St(v));
      RenamedJoin(st, St(v), d, from, to, fileType);
    } else if |to| <= EXT4_NAME_LEN {
      LeftAloneFrom(st, st1, St(v));
    }
    if r.Ok? || |to| <= EXT4_NAME_LEN {
      RightJoin(RenameError(st, d, from, to), r, v);
    }
  }

  /** The second half of `rename`: the new entry is added, the old one removed. */
  method MoveEntry(v: Volume, c: DirIndexCache, d: nat, from: Name, to: Name, i: nat, fileType: nat) returns (r: Result<bool>)
    requires v.Valid() && Numbered(v) && FsOk(St(v), c.index) && d in v.inodes && DirBlocks(v.inodes[d]) + 1 < U32
    requires v.inodes[d].kind == Directory && from != to && from != Ns.DOT && from != Ns.DOTDOT && to != []
    requires to !in IndexOf(v.disk, v.inodes[d]) && from in IndexOf(v.disk, v.inodes[d]) && IndexOf(v.disk, v.inodes[d])[from].0 == i
    requires 0 < i < U32 && fileType < 256
    modifies v, v.fs, v.fs.blockBitmaps, c
    ensures v.Valid() && Numbered(v) && Sound(St(v))
    ensures r.Ok? || |to| <= EXT4_NAME_LEN ==> FsOk(St(v), c.index)
    ensures r.Ok? ==> |to| <= EXT4_NAME_LEN && d in TreeOf(old(St(v))).names && from in TreeOf(old(St(v))).names[d]
                      && TreeOf(St(v)) == Ns.Rename(TreeOf(old(St(v))), d, from, to, fileType)
    ensures r.Err? && |to| <= EXT4_NAME_LEN ==>
              LeftAlone(old(St(v)), St(v)) && OutOfRoom(v, r.error)
    ensures |to| > EXT4_NAME_LEN ==> r.Err? && LongRename(old(St(v)), St(v), c.index, d, to, r.error, v.used, v.AllBlocks())
    ensures Numbers(v) == old(Numbers(v))
    ensures r.Ok? ==> Clean(old(St(v)), St(v))
  {
    hide *;
    ghost var st := St(v);
    StParts(v);
    EntryErrorIs(st, d, to);
    FsParts(st, c.index);
    TreeAt(st, d);
    NumberedParts(v);
    v.Opened();
    v.fs.TwoBitmaps();
    ghost var bits := Ext4Alloc.AllBits(v.fs.inodeBitmaps);
    ghost var numbers := Numbers(v);
    var added := DirAddEntry(v, c, d, to, i, fileType);
    ghost var st1 := St(v);
    StParts(v);
    assert Ext4Alloc.AllBits(v.fs.inodeBitmaps) == bits && Numbers(v) == numbers;
    if added.Err? {
      RenameFailed(st, st1, d, to, c.index);
      if |to| <= EXT4_NAME_LEN {
        ExcusedRoom(v, v.used, added.error);
      } else {
        LongRenameFailed(st, st1, c.index, d, to, added.error, v.used, v.AllBlocks());
      }
      NumberedJoin(v);
      return Err(added.error);
    }
    AddedDir(st, st1, d, to, i, fileType, c.index);
    AddedClean(st, st1, d, to, i, fileType);
    NumberedJoin(v);
    TreeAt(st1, d);
    AddedNames(st, st1, d, from, to, (i, fileType));
    var removed := DirRemoveEntry(v, d, from);
    var gone := removed.value;
    ghost var st2 := St(v);
    StParts(v);
    assert Ext4Alloc.AllBits(v.fs.inodeBitmaps) == bits && Numbers(v) == numbers;
    ghost var withNew := WithName(c.index, d, to, (i, fileType));
    RemovedDir(st1, st2, d, from, gone, withNew);
    RemovedClean(st1, st2, d, from, gone);
    PassesAlong(st, st1, st2);
    CleanThrough(st, st1, st2);
    NumberedJoin(v);
    ghost var before := c.index;
    IndexRemove(c, d, from);
    IndexAdd(c, d, to, i, fileType);
    v.Opened();
    v.Closed();
    SwapUpdates(before, d, from, to, (i, fileType));
    FreeJoin(TreeOf(st), d, to);
    Ns.RenameKeeps(TreeOf(st), d, from, to, fileType);
    RenameShapes(TreeOf(st), TreeOf(st1), TreeOf(st2), d, from, to, fileType);
    FsJoin(st2, c.index);
    return Ok(true);
  }

  lemma AddedNames(st: State, st1: State, d: nat, from: Name, to: Name, value: (nat, nat))
    requires d in st.inodes && d in st1.inodes && st.inodes[d].kind == Directory && st1.inodes[d].kind == Directory
    requires d in TreeOf(st).names && TreeOf(st1).names == TreeOf(st).names[d := TreeOf(st).names[d][to := value]]
    requires from in IndexOf(st.disk, st.inodes[d]) && from != to
    ensures from in IndexOf(st1.disk, st1.inodes[d])
  {
    hide *;
    TreeAt(st, d);
    TreeAt(st1, d);
  }

  lemma RenameFailed(st: State, st1: State, d: nat, to: Name, index: map<nat, Ns.Index>)
    requires AddFailed(st, st1, to) && AllDirsOk(st) && Agrees(index, st) && Ns.Sane(TreeOf(st))
    ensures Sound(st1) && st1.inodes.Keys == st.inodes.Keys
    ensures |to| <= EXT4_NAME_LEN ==> FsOk(st1, index) && TreeOf(st1) == TreeOf(st) && FilesKept(st, st1)
  {
    hide Sound, Untouched, SameFiles, AllDirsOk, Agrees, Ns.Sane, TreeOf, FilesKept, Clean;
    if |to| <= EXT4_NAME_LEN {
      UntouchedClean(st, st1);
      UntouchedTree(st, st1, index);
    }
  }

  lemma SwapUpdates(index: map<nat, Ns.Index>, d: nat, from: Name, to: Name, value: (nat, nat))
    requires from != to
    ensures WithName(WithoutName(index, d, from), d, to, value) == WithoutName(WithName(index, d, to, value), d, from)
  {
    if d in index {
      assert (index[d] - {from})[to := value] == index[d][to := value] - {from};
    }
  }

  lemma RenameShapes(t: Ns.Tree, t1: Ns.Tree, t2: Ns.Tree, d: nat, from: Name, to: Name, fileType: nat)
    requires d in t.names && from in t.names[d] && from != to
    requires t1 == t.(names := t.names[d := t.names[d][to := (t.names[d][from].0, fileType)]])
    requires t2 == t1.(names := t1.names[d := t1.names[d] - {from}])
    ensures t2 == Ns.Rename(t, d, from, to, fileType)
  {
  }

  // unlink

  /** `ls` finds nothing: no names but "." and "..". */
  predicate NothingListed(index: Ns.Index) {
    forall n :: n in index ==> n == Ns.DOT || n == Ns.DOTDOT
  }

  lemma ListedEmpty(st: State, i: nat)
    requires i in st.inodes && st.inodes[i].kind == Directory
    ensures NothingListed(IndexOf(st.disk, st.inodes[i])) <==> Ns.Empty(TreeOf(st), i)
  {
    hide IndexOf;
    TreeAt(st, i);
  }

  /** Why `unlink` refuses a name. */
  ghost function UnlinkError(st: State, d: nat, name: Name): Option<Ext4Error> {
    if name == [] || name == Ns.DOT || name == Ns.DOTDOT then Some(InvalidInput)
    else if d !in st.inodes || st.inodes[d].kind != Directory then Some(NotADirectory)
    else if name !in IndexOf(st.disk, st.inodes[d]) then Some(NotFound)
    else if Ns.IsDir(TreeOf(st), IndexOf(st.disk, st.inodes[d])[name].0)
            && !Ns.Empty(TreeOf(st), IndexOf(st.disk, st.inodes[d])[name].0) then Some(Unsupported)
    else None
  }

  lemma UnlinkErrorIs(st: State, d: nat, name: Name)
    requires d in st.inodes
    ensures UnlinkError(st, d, name) ==
            if name == [] || name == Ns.DOT || name == Ns.DOTDOT then Some(InvalidInput)
            else if st.inodes[d].kind != Directory then Some(NotADirectory)
            else if name !in IndexOf(st.disk, st.inodes[d]) then Some(NotFound)
            else if Ns.IsDir(TreeOf(st), IndexOf(st.disk, st.inodes[d])[name].0)
                    && !Ns.Empty(TreeOf(st), IndexOf(st.disk, st.inodes[d])[name].0) then Some(Unsupported)
            else None
  {
  }

  /** `unlink`: the name goes; a directory must be empty and goes with it, a file goes with its last name. */
  method Unlink(v: Volume, c: DirIndexCache, d: nat, name: Name) returns (r: Result<bool>)
    requires v.Valid() && Numbered(v) && FsOk(St(v), c.index) && d in v.inodes
    modifies v, v.fs.blockBitmaps, v.fs.inodeBitmaps, c
    ensures v.Valid() && Numbered(v) && FsOk(St(v), c.index)
    ensures r.Err? ==> LeftAlone(old(St(v)), St(v)) && v.used == old(v.used)
    ensures r.Ok? ==> Unlinked(TreeOf(old(St(v))), TreeOf(St(v)), d, name) && Clean(old(St(v)), St(v))
    ensures Numbers(v) == old(Numbers(v)) - (old(v.inodes).Keys - v.inodes.Keys)
    ensures r == var due := UnlinkError(old(St(v)), d, name); if due.Some? then Err(due.value) else Ok(true)
  {
    hide *;
    ghost var st := St(v);
    StParts(v);
    FsParts(st, c.index);
    UnlinkErrorIs(st, d, name);
    AlwaysKept(st);
    NothingGone(v.inodes.Keys, Numbers(v));
    LeftAloneSame(st, st);
    TreeAt(st, d);
    NumberedParts(v);
    v.Opened();
    v.fs.TwoBitmaps();
    ghost var bits := Ext4Alloc.AllBits(v.fs.inodeBitmaps);
    ghost var numbers := Numbers(v);
    if name == [] || name == Ns.DOT || name == Ns.DOTDOT {
      return Err(InvalidInput);
    }
    if v.inodes[d].kind != Directory {
      return Err(NotADirectory);
    }
    var found := Lookup(v, c, d, name);
    ghost var st0 := St(v);
    StParts(v);
    FsParts(st0, c.index);
    TreeAt(st0, d);
    if found.None? {
      return Err(NotFound);
    }
    var i := found.value.0;
    TargetLives(st0, d, name);
    TreeAt(st0, i);
    IsDirIs(TreeOf(st), i);
    if v.inodes[i].kind == Directory {
      TreeAt(st0, i);
      var listed := BuildDirIndex(v, i);
      ghost var st1 := St(v);
      StParts(v);
      UntouchedTree(st0, st1, c.index);
      UntouchedClean(st0, st1);
      ThreeClean(st, st0, st1);
      CleanParts(st, st1);
      LeftAloneJoin(st0, st1);
      LeftAloneFrom(st, st0, st1);
      FsJoin(st1, c.index);
      assert Ext4Alloc.AllBits(v.fs.inodeBitmaps) == bits && Numbers(v) == numbers;
      NumberedJoin(v);
      v.Opened();
      v.Closed();
      ListedEmpty(st1, i);
      if exists n :: n in listed && n != Ns.DOT && n != Ns.DOTDOT {
        SomethingLeft(listed);
        return Err(Unsupported);
      }
      NothingLeft(listed);
      UnlinkDirectory(v, c, d, name, i);
      StParts(v);
      PassesAlong(st, st1, St(v));
      CleanThrough(st, st1, St(v));
    } else {
      UnlinkRegular(v, c, d, name, i);
      StParts(v);
      PassesAlong(st, st0, St(v));
      CleanThrough(st, st0, St(v));
    }
    return Ok(true);
  }

  /** The numbers that `unlink` gives back are those of the inodes that went. */
  lemma NothingGone(keys: set<nat>, numbers: set<nat>)
    ensures numbers - (keys - keys) == numbers
  {
  }

  lemma OneGone(keys: set<nat>, i: nat)
    ensures i in keys ==> keys - (keys - {i}) == {i}
  {
  }

  lemma IsDirIs(t: Ns.Tree, i: nat)
    ensures Ns.IsDir(t, i) <==> i in t.kinds && t.kinds[i] == Directory
  {
  }

  lemma SomethingLeft(index: Ns.Index)
    requires exists n :: n in index && n != Ns.DOT && n != Ns.DOTDOT
    ensures !NothingListed(index)
  {
  }

  lemma NothingLeft(index: Ns.Index)
    requires !exists n :: n in index && n != Ns.DOT && n != Ns.DOTDOT
    ensures NothingListed(index)
  {
  }

  /** What a successful `unlink` has done to the tree. */
  ghost predicate Unlinked(t: Ns.Tree, t': Ns.Tree, d: nat, n: Name) {
    && d in t.names && n in t.names[d] && n != Ns.DOT && n != Ns.DOTDOT
    && var i := t.names[d][n].0;
       && i in t.kinds && i in t.links && d in t.links && t.links[i] > 0 && t.links[d] > 0
       && if t.kinds[i] == Directory then Ns.Empty(t, i) && t' == Ns.UnlinkDir(t, d, n) else t' == Ns.UnlinkFile(t, d, n)
  }

  /** The entry is removed, and every part of `FsOk` but the link counts kept. */
  method RemoveName(v: Volume, ghost index: map<nat, Ns.Index>, d: nat, name: Name, ghost i: nat)
    requires v.Valid() && Numbered(v) && FsOk(St(v), index) && d in v.inodes && v.inodes[d].kind == Directory
    requires name in IndexOf(v.disk, v.inodes[d]) && IndexOf(v.disk, v.inodes[d])[name].0 == i && i != d && i in v.inodes
    modifies v`disk
    ensures v.Valid() && Numbered(v)
    ensures Sound(St(v)) && AllDirsOk(St(v)) && Agrees(WithoutName(index, d, name), St(v))
    ensures d in TreeOf(old(St(v))).names && name in TreeOf(old(St(v))).names[d]
    ensures TreeOf(St(v)) == TreeOf(old(St(v))).(names := TreeOf(old(St(v))).names[d := TreeOf(old(St(v))).names[d] - {name}])
    ensures Clean(old(St(v)), St(v)) && v.inodes.Keys == old(v.inodes).Keys
    ensures Numbers(v) == old(Numbers(v))
  {
    hide *;
    ghost var st := St(v);
    StParts(v);
    FsParts(st, index);
    TreeAt(st, d);
    NumberedParts(v);
    v.Opened();
    v.fs.TwoBitmaps();
    ghost var bits := Ext4Alloc.AllBits(v.fs.inodeBitmaps);
    ghost var numbers := Numbers(v);
    var removed := DirRemoveEntry(v, d, name);
    var gone := removed.value;
    StParts(v);
    assert Ext4Alloc.AllBits(v.fs.inodeBitmaps) == bits && Numbers(v) == numbers;
    RemovedDir(st, St(v), d, name, gone, index);
    RemovedClean(st, St(v), d, name, gone);
    NumberedJoin(v);
  }

  /** An inode is given back, and no index or list of extents of it stays cached. */
  method DropInode(v: Volume, c: DirIndexCache, ghost index: map<nat, Ns.Index>, i: nat)
    requires v.Valid() && Numbered(v) && Sound(St(v)) && AllDirsOk(St(v)) && Agrees(index, St(v)) && i in v.inodes
    modifies v, v.fs.blockBitmaps, v.fs.inodeBitmaps, c
    ensures v.Valid() && Numbered(v) && c.index == old(c.index) - {i}
    ensures Sound(St(v)) && AllDirsOk(St(v)) && Agrees(index - {i}, St(v))
    ensures Clean(old(St(v)), St(v)) && v.inodes.Keys == old(v.inodes).Keys - {i} && Numbers(v) == old(Numbers(v)) - {i}
    ensures TreeOf(St(v)) == Ns.Tree(TreeOf(old(St(v))).kinds - {i}, TreeOf(old(St(v))).links - {i}, TreeOf(old(St(v))).names - {i})
  {
    hide *;
    ghost var st := St(v);
    StParts(v);
    ReclaimInode(v, i);
    DroppedTree(st, i, St(v), index);
    ReclaimedKeys(st, i, St(v));
    StParts(v);
    ReclaimedClean(st, i, St(v));
    c.index := c.index - {i};
    v.Opened();
    v.Closed();
    NumberedParts(v);
    NumberedJoin(v);
  }

  lemma ReclaimedKeys(st: State, i: nat, st': State)
    requires Reclaimed(st, i, st')
    ensures st'.inodes.Keys == st.inodes.Keys - {i}
  {
    hide Sound, Owned;
  }

  lemma ThreeClean(st: State, st1: State, st2: State)
    requires Clean(st, st1) && Clean(st1, st2) && st1.inodes.Keys == st.inodes.Keys
    ensures Clean(st, st2)
  {
    hide Clean;
    PassesAlong(st, st1, st2);
    CleanThrough(st, st1, st2);
  }

  /** The part of `unlink` for an empty directory. */
  method UnlinkDirectory(v: Volume, c: DirIndexCache, d: nat, name: Name, i: nat)
    requires v.Valid() && Numbered(v) && FsOk(St(v), c.index) && d in v.inodes && v.inodes[d].kind == Directory
    requires name in IndexOf(v.disk, v.inodes[d]) && IndexOf(v.disk, v.inodes[d])[name].0 == i && name != Ns.DOT && name != Ns.DOTDOT
    requires i in v.inodes && v.inodes[i].kind == Directory && Ns.Empty(TreeOf(St(v)), i)
    modifies v, v.fs.blockBitmaps, v.fs.inodeBitmaps, c
    ensures v.Valid() && Numbered(v) && FsOk(St(v), c.index)
    ensures Unlinked(TreeOf(old(St(v))), TreeOf(St(v)), d, name) && Clean(old(St(v)), St(v))
    ensures Numbers(v) == old(Numbers(v)) - (old(v.inodes).Keys - v.inodes.Keys)
  {
    hide *;
    ghost var st := St(v);
    ghost var t := TreeOf(St(v));
    StParts(v);
    FsParts(St(v), c.index);
    TreeAt(St(v), d);
    TreeAt(St(v), i);
    DirUnlinkFacts(t, d, name, i);
    RemoveName(v, c.index, d, name, i);
    ghost var st1 := St(v);
    ghost var t1 := TreeOf(St(v));
    TreeAt(St(v), d);
    StParts(v);
    ghost var without := WithoutName(c.index, d, name);
    LinksOfTree(St(v), d);
    SetLinks(v, without, d, v.inodes[d].links - 1);
    ghost var st2 := St(v);
    ghost var t2 := TreeOf(St(v));
    TreeAt(St(v), i);
    StParts(v);
    ThreeClean(st, st1, st2);
    DropInode(v, c, without, i);
    OneGone(st.inodes.Keys, i);
    StParts(v);
    PassesAlong(st, st2, St(v));
    CleanThrough(st, st2, St(v));
    IndexRemove(c, d, name);
    WithoutBoth(old(c.index), d, name, i);
    v.Opened();
    v.Closed();
    NumberedParts(v);
    NumberedJoin(v);
    UnlinkDirShapes(t, t1, t2, TreeOf(St(v)), d, name, i);
    FsJoin(St(v), c.index);
  }

  lemma DirUnlinkFacts(t: Ns.Tree, d: nat, n: Name, i: nat)
    requires Ns.Sane(t) && d in t.names && n in t.names[d] && n != Ns.DOT && n != Ns.DOTDOT
    requires i == t.names[d][n].0 && Ns.Empty(t, i) && i in t.kinds && i in t.links
    ensures i != d && t.links[i] > 0 && d in t.links && t.links[d] > 0 && Ns.Sane(Ns.UnlinkDir(t, d, n))
  {
    hide *;
    Ns.EmptyDirEntry(t, d, n);
    Ns.UnlinkDirKeeps(t, d, n);
    Ns.SaneAt(t, i);
    Ns.DirPositive(t, i);
  }

  lemma LinksOfTree(st: State, d: nat)
    requires d in st.inodes
    ensures d in TreeOf(st).links && TreeOf(st).links[d] == st.inodes[d].links
  {
    hide IndexOf;
  }

  lemma WithoutBoth(index: map<nat, Ns.Index>, d: nat, name: Name, i: nat)
    requires d != i
    ensures WithoutName(index - {i}, d, name) == WithoutName(index, d, name) - {i}
  {
  }

  lemma UnlinkDirShapes(t: Ns.Tree, t1: Ns.Tree, t2: Ns.Tree, t3: Ns.Tree, d: nat, n: Name, i: nat)
    requires d in t.names && n in t.names[d] && t.names[d][n].0 == i && n != Ns.DOT && n != Ns.DOTDOT
    requires i in t.kinds && t.kinds[i] == Directory && i in t.links && t.links[i] > 0 && d in t.links && t.links[d] > 0 && Ns.Empty(t, i)
    requires t1 == t.(names := t.names[d := t.names[d] - {n}])
    requires t2 == t1.(links := t1.links[d := t.links[d] - 1])
    requires t3 == Ns.Tree(t2.kinds - {i}, t2.links - {i}, t2.names - {i})
    ensures t3 == Ns.UnlinkDir(t, d, n) && Unlinked(t, t3, d, n)
  {
    hide Ns.Empty;
  }

  /** The part of `unlink` for a file: one link less, and the end of the file if that was the last. */
  method UnlinkRegular(v: Volume, c: DirIndexCache, d: nat, name: Name, i: nat)
    requires v.Valid() && Numbered(v) && FsOk(St(v), c.index) && d in v.inodes && v.inodes[d].kind == Directory
    requires name in IndexOf(v.disk, v.inodes[d]) && IndexOf(v.disk, v.inodes[d])[name].0 == i
    requires i in v.inodes && v.inodes[i].kind == Regular
    modifies v, v.fs.blockBitmaps, v.fs.inodeBitmaps, c
    ensures v.Valid() && Numbered(v) && FsOk(St(v), c.index)
    ensures Unlinked(TreeOf(old(St(v))), TreeOf(St(v)), d, name) && Clean(old(St(v)), St(v))
    ensures Numbers(v) == old(Numbers(v)) - (old(v.inodes).Keys - v.inodes.Keys)
  {
    hide *;
    ghost var st := St(v);
    ghost var t := TreeOf(St(v));
    StParts(v);
    FsParts(St(v), c.index);
    TreeAt(St(v), d);
    TreeAt(St(v), i);
    Ns.FileEntry(t, d, name);
    Ns.SaneAt(t, d);
    Ns.NotDirNotNamed(t, d);
    Ns.DirPositive(t, d);
    Ns.UnlinkFileKeeps(t, d, name);
    RemoveName(v, c.index, d, name, i);
    ghost var st1 := St(v);
    ghost var t1 := TreeOf(St(v));
    TreeAt(St(v), i);
    StParts(v);
    ghost var without := WithoutName(c.index, d, name);
    var linksLeft := if v.inodes[i].links > 0 then v.inodes[i].links - 1 else 0;
    LinksOfTree(St(v), i);
    SetLinks(v, without, i, linksLeft);
    ghost var st2 := St(v);
    ghost var t2 := TreeOf(St(v));
    TreeAt(St(v), i);
    StParts(v);
    ThreeClean(st, st1, st2);
    NothingGone(v.inodes.Keys, Numbers(v));
    if linksLeft == 0 {
      DropInode(v, c, without, i);
      OneGone(st.inodes.Keys, i);
      StParts(v);
      PassesAlong(st, st2, St(v));
      CleanThrough(st, st2, St(v));
      WithoutBoth(old(c.index), d, name, i);
    }
    IndexRemove(c, d, name);
    v.Opened();
    v.Closed();
    NumberedParts(v);
    NumberedJoin(v);
    UnlinkFileShapes(t, t1, t2, TreeOf(St(v)), d, name, i, linksLeft);
    FsJoin(St(v), c.index);
  }

  lemma UnlinkFileShapes(t: Ns.Tree, t1: Ns.Tree, t2: Ns.Tree, t3: Ns.Tree, d: nat, n: Name, i: nat, left: nat)
    requires d in t.names && n in t.names[d] && t.names[d][n].0 == i && n != Ns.DOT && n != Ns.DOTDOT
    requires i in t.kinds && t.kinds[i] == Regular && i in t.links && t.links[i] > 0 && d in t.links && t.links[d] > 0
    requires i !in t.names && left == t.links[i] - 1
    requires t1 == t.(names := t.names[d := t.names[d] - {n}])
    requires t2 == t1.(links := t1.links[i := left])
    requires t3 == if left == 0 then Ns.Tree(t2.kinds - {i}, t2.links - {i}, t2.names - {i}) else t2
    ensures t3 == Ns.UnlinkFile(t, d, n) && Unlinked(t, t3, d, n)
  {
  }

  // create_dir

  /** The inode of a new directory: one block, and a count of two. */
  function DirInode(b: nat): Inode {
    Inode(Directory, BLOCK_SZ, 2, SECTORS_PER_BLOCK, LeafNode(I_BLOCK_SZ, EXTENTS_IN_INODE, [SingleBlock(0, b)]))
  }

  /** The block of a new directory: "." in 12 bytes, ".." in the rest. */
  function DotBlock(i: nat, d: nat): (b: seq<byte>)
    requires NewRec(12, i, Ns.FT_DIR, Ns.DOT).Fits() && NewRec(4084, d, Ns.FT_DIR, Ns.DOTDOT).Fits()
    ensures |b| == 4096
  {
    EncodeRec(NewRec(12, i, Ns.FT_DIR, Ns.DOT)) + EncodeRec(NewRec(4084, d, Ns.FT_DIR, Ns.DOTDOT))
  }

  lemma DotsFit(i: nat, d: nat)
    requires 0 < i < U32 && 0 < d < U32
    ensures NewRec(12, i, Ns.FT_DIR, Ns.DOT).Fits() && NewRec(4084, d, Ns.FT_DIR, Ns.DOTDOT).Fits()
    ensures EntryOf(NewRec(12, i, Ns.FT_DIR, Ns.DOT)) == [DirEntry(Ns.DOT, i, Ns.FT_DIR)]
    ensures EntryOf(NewRec(4084, d, Ns.FT_DIR, Ns.DOTDOT)) == [DirEntry(Ns.DOTDOT, d, Ns.FT_DIR)]
  {
    NewRecEntry(12, i, Ns.FT_DIR, Ns.DOT);
    NewRecEntry(4084, d, Ns.FT_DIR, Ns.DOTDOT);
  }

  /** A reader by the format sees two directories: the first record, of 12 bytes, is named ".", the other, which fills
      the block, "..". */
  ghost predicate DotsByFormat(block: seq<byte>, i: nat, d: nat) {
    && |block| == 4096 && F.Two(block, 4) == 12
    && F.ReadDir(block) == F.Listing([F.Record([46], i, 2), F.Record([46, 46], d, 2)])
  }

  lemma DotBlockByFormat(i: nat, d: nat)
    requires 0 < i < U32 && 0 < d < U32
    requires NewRec(12, i, Ns.FT_DIR, Ns.DOT).Fits() && NewRec(4084, d, Ns.FT_DIR, Ns.DOTDOT).Fits()
    ensures DotsByFormat(DotBlock(i, d), i, d)
  {
    hide *;
    var block := DotBlock(i, d);
    DotBlockEntries(i, d);
    Ext4ContentOnDisk.EntriesByFormat(block);
    Ext4ContentOnDisk.FirstByFormat(block);
    FirstIsDot(i, d);
    DotRecords(i, d);
    DotsJoin(block, i, d);
  }

  lemma DotsJoin(block: seq<byte>, i: nat, d: nat)
    requires |block| == 4096 && F.Two(block, 4) == 12
    requires F.ReadDir(block) == F.Listing([F.Record([46], i, 2), F.Record([46, 46], d, 2)])
    ensures DotsByFormat(block, i, d)
  {
    hide F.ReadDir, F.Two;
  }

  lemma DotRecords(i: nat, d: nat)
    ensures Ext4ContentOnDisk.AsRecords([DirEntry(Ns.DOT, i, Ns.FT_DIR)] + [DirEntry(Ns.DOTDOT, d, Ns.FT_DIR)])
         == [F.Record([46], i, 2), F.Record([46, 46], d, 2)]
  {
  }

  lemma FirstIsDot(i: nat, d: nat)
    requires NewRec(12, i, Ns.FT_DIR, Ns.DOT).Fits() && NewRec(4084, d, Ns.FT_DIR, Ns.DOTDOT).Fits()
    ensures |DotBlock(i, d)| == 4096 && RecLenAt(DotBlock(i, d)) == 12
  {
    hide EncodeRec;
    var rest := EncodeRec(NewRec(4084, d, Ns.FT_DIR, Ns.DOTDOT));
    RecRoundTrip(NewRec(12, i, Ns.FT_DIR, Ns.DOT), rest);
  }

  lemma DirInodeStored(disk: Disk, b: nat)
    requires 0 < b < U48
    ensures Ext4OnDisk.Stored(disk, DirInode(b).iBlock, [SingleBlock(0, b)])
  {
    hide LeafNode, Ext4OnDisk.Stored;
    SingleStorable(b);
    Ext4OnDisk.StoredZero(disk, [SingleBlock(0, b)]);
  }

  lemma SingleStorable(b: nat)
    requires b < U48
    ensures Ext4TreeLayout.AllStorable([SingleBlock(0, b)])
  {
  }

  /** The block is a tiled directory of two names. */
  lemma DotBlockEntries(i: nat, d: nat)
    requires 0 < i < U32 && 0 < d < U32
    requires NewRec(12, i, Ns.FT_DIR, Ns.DOT).Fits() && NewRec(4084, d, Ns.FT_DIR, Ns.DOTDOT).Fits()
    ensures Tiled(DotBlock(i, d))
    ensures EntriesIn(DotBlock(i, d)) == [DirEntry(Ns.DOT, i, Ns.FT_DIR)] + [DirEntry(Ns.DOTDOT, d, Ns.FT_DIR)]
  {
    hide *;
    DotSizes();
    DotsFit(i, d);
    DotBlockIs(i, d);
    EntriesOfRec(NewRec(12, i, Ns.FT_DIR, Ns.DOT));
    EntriesOfRec(NewRec(4084, d, Ns.FT_DIR, Ns.DOTDOT));
    Joined(EncodeRec(NewRec(12, i, Ns.FT_DIR, Ns.DOT)), EncodeRec(NewRec(4084, d, Ns.FT_DIR, Ns.DOTDOT)));
  }

  lemma DotSizes()
    ensures FIXED_SIZE == 8 && |Ns.DOT| == 1 && |Ns.DOTDOT| == 2 && Ns.FT_DIR == 2 && Ns.DOT != [] && Ns.DOTDOT != []
    ensures Align4(FIXED_SIZE + |Ns.DOT|) <= 12 && Align4(FIXED_SIZE + |Ns.DOTDOT|) <= 4084 && EXT4_NAME_LEN == 255
  {
  }

  lemma DotBlockIs(i: nat, d: nat)
    requires NewRec(12, i, Ns.FT_DIR, Ns.DOT).Fits() && NewRec(4084, d, Ns.FT_DIR, Ns.DOTDOT).Fits()
    ensures DotBlock(i, d) == EncodeRec(NewRec(12, i, Ns.FT_DIR, Ns.DOT)) + EncodeRec(NewRec(4084, d, Ns.FT_DIR, Ns.DOTDOT))
  {
  }

  lemma DotNamesAre(i: nat, d: nat)
    ensures var es := [DirEntry(Ns.DOT, i, Ns.FT_DIR)] + [DirEntry(Ns.DOTDOT, d, Ns.FT_DIR)];
            Distinct(es) && MapOf(es) == Ns.DotNames(i, d)
  {
    var es := [DirEntry(Ns.DOT, i, Ns.FT_DIR)] + [DirEntry(Ns.DOTDOT, d, Ns.FT_DIR)];
    assert |Ns.DOT| != |Ns.DOTDOT|;
    assert es[..1] == [DirEntry(Ns.DOT, i, Ns.FT_DIR)];
    assert es[..1][..0] == [];
    assert MapOf(es[..1]) == map[][Ns.DOT := (i, Ns.FT_DIR)];
  }

  /** A file of one block that a single extent in the inode maps. */
  lemma OneBlockFile(disk: Disk, b: nat)
    requires 0 < b < U48
    ensures var f := DirInode(b);
            && f.kind == Directory && f.size == 4096 && f.links == 2 && |f.iBlock| == I_BLOCK_SZ
            && Ext(disk, f) == [SingleBlock(0, b)] && Tree(disk, f) == {} && Mapped(Ext(disk, f)) == {b}
            && WellFormed(Ext(disk, f)) && Injective(Ext(disk, f)) && Owned(disk, f) == {b}
            && Content(disk, f) == Block(disk, b) && ZeroTail(disk, f)
            && Gapless(Ext(disk, f), 1)
  {
    hide *;
    U32Value();
    SingleList(b);
    DirInodeParts(disk, b);
    OwnedParts(disk, DirInode(b));
    SingleBytes(disk, DirInode(b), b);
    assert {} + {b} == {b};
  }

  lemma SingleList(b: nat)
    requires 0 < b < U48
    ensures var l := [SingleBlock(0, b)];
            && WellFormed(l) && Injective(l) && Mapped(l) == {b} && Gapless(l, 1)
            && MapLogicalBlock(l, 0) == Some(b) && (forall k: nat :: k != 0 ==> MapLogicalBlock(l, k) == None)
  {
    var l := [SingleBlock(0, b)];
    assert SingleBlock(0, b).Valid();
    MapAt(l, 0, 0);
    forall k: nat | k != 0 ensures MapLogicalBlock(l, k) == None {
      MapNone(l, k);
    }
    MapBound(l, 0);
  }

  lemma DirInodeParts(disk: Disk, b: nat)
    requires WellFormed([SingleBlock(0, b)])
    ensures var f := DirInode(b);
            && f.kind == Directory && f.size == 4096 && f.links == 2 && |f.iBlock| == I_BLOCK_SZ
            && Ext(disk, f) == [SingleBlock(0, b)] && Tree(disk, f) == {}
  {
    hide LeafNode, Ext4Tree.Parse, Ext4Tree.Collect, SingleBlock;
    StorableAll([SingleBlock(0, b)]);
    Ext4TreeLayout.DepthZero(disk, [SingleBlock(0, b)]);
  }

  lemma SingleBytes(disk: Disk, f: Inode, b: nat)
    requires f.size == 4096 && Ext(disk, f) == [SingleBlock(0, b)]
    requires MapLogicalBlock([SingleBlock(0, b)], 0) == Some(b)
    requires forall k: nat :: k != 0 ==> MapLogicalBlock([SingleBlock(0, b)], k) == None
    ensures Content(disk, f) == Block(disk, b) && ZeroTail(disk, f)
  {
    hide Ext, MapLogicalBlock, Block;
    forall k | 0 <= k < 4096 ensures Content(disk, f)[k] == Block(disk, b)[k] {
      assert k / BLOCK_SZ == 0 && k % BLOCK_SZ == k;
    }
    forall k: nat | f.size <= k ensures ByteAt(disk, Ext(disk, f), k) == 0 {
      assert k / BLOCK_SZ != 0;
    }
  }

  /** A new directory stands in the state: its inode, and its block, which was free. */
  ghost predicate DirMade(st: State, i: nat, d: nat, b: nat, st': State) {
    && Sound(st) && i !in st.inodes && 0 < i < U32 && 0 < d < U32 && 0 < b < U48 && b !in st.used
    && st'.inodes == st.inodes[i := DirInode(b)] && st'.used == st.used + {b} && st'.cache == st.cache - {i}
    && KeepsBlocks(st.disk, st'.disk, st.used)
    && NewRec(12, i, Ns.FT_DIR, Ns.DOT).Fits() && NewRec(4084, d, Ns.FT_DIR, Ns.DOTDOT).Fits()
    && Block(st'.disk, b) == DotBlock(i, d)
  }

  lemma DirMadeParts(st: State, i: nat, d: nat, b: nat, st': State)
    requires DirMade(st, i, d, b, st')
    ensures Sound(st) && i !in st.inodes && 0 < i < U32 && 0 < d < U32 && 0 < b < U48 && b !in st.used
    ensures st'.inodes == st.inodes[i := DirInode(b)] && st'.used == st.used + {b} && st'.cache == st.cache - {i}
    ensures KeepsBlocks(st.disk, st'.disk, st.used)
    ensures NewRec(12, i, Ns.FT_DIR, Ns.DOT).Fits() && NewRec(4084, d, Ns.FT_DIR, Ns.DOTDOT).Fits()
    ensures Block(st'.disk, b) == DotBlock(i, d)
  {
    hide Sound, DirInode, KeepsBlocks, DotBlock, Block, Rec.Fits;
  }

  /** The new directory itself. */
  lemma DirMadeItself(st: State, i: nat, d: nat, b: nat, st': State)
    requires DirMade(st, i, d, b, st')
    ensures var f := DirInode(b);
            && FileOk(st'.disk, st'.used, f) && Owned(st'.disk, f) == {b} && DirOk(st'.disk, f)
            && IndexOf(st'.disk, f) == Ns.DotNames(i, d) && f.kind == Directory && f.links == 2
  {
    hide *;
    U32Value();
    DirMadeParts(st, i, d, b, st');
    var f := DirInode(b);
    OneBlockFile(st'.disk, b);
    DotBlockEntries(i, d);
    DotNamesAre(i, d);
    OneBlockDir(DotBlock(i, d));
    FileJoin(st'.disk, st'.used, f);
    DirJoin(st'.disk, f, 1);
    IndexIsMap(st'.disk, f);
  }

  lemma IndexIsMap(disk: Disk, f: Inode)
    ensures IndexOf(disk, f) == MapOf(DirEntries(Content(disk, f)))
  {
  }

  lemma OneBlockDir(block: seq<byte>)
    requires |block| == 4096 && Tiled(block)
    ensures DirShape(block) && DirEntries(block) == EntriesIn(block)
  {
    hide Tiled, EntriesIn;
    assert Blk(block, 0) == block;
    forall l | 0 <= l && 4096 * l + 4096 <= |block| ensures Tiled(Blk(block, l)) {
      assert l == 0;
    }
    assert EntriesFrom(block, 1) == [];
    assert EntriesFrom(block, 0) == EntriesIn(block) + [];
  }

  /** With the new directory everything is sound; the old inodes are as they were. */
  lemma DirMadeSound(st: State, i: nat, d: nat, b: nat, st': State)
    requires DirMade(st, i, d, b, st')
    ensures Sound(st') && OldSame(st, st')
  {
    hide *;
    DirMadeParts(st, i, d, b, st');
    DirMadeItself(st, i, d, b, st');
    var st1 := State(st'.disk, st.inodes, st'.used, st'.cache);
    FewerCached(st, i);
    SoundKept(st, st1);
    OldKept(st, st1);
    OneMoreSound(st1, i, DirInode(b), st', st.used);
    OldStays(st, st1, st', i);
  }

  /** What is old reads as before. */
  ghost predicate OldSame(st: State, st': State) {
    forall j :: j in st.inodes ==>
      && j in st'.inodes && st'.inodes[j] == st.inodes[j]
      && Content(st'.disk, st.inodes[j]) == Content(st.disk, st.inodes[j])
      && Ext(st'.disk, st.inodes[j]) == Ext(st.disk, st.inodes[j])
  }

  lemma FewerCached(st: State, i: nat)
    requires Sound(st)
    ensures forall k :: k in st.cache - {i} ==> k in st.inodes && (st.cache - {i})[k] == Ext(st.disk, st.inodes[k])
    ensures forall k :: k in st.inodes ==> Owned(st.disk, st.inodes[k]) <= st.used
  {
    hide WellFormed, Injective, ZeroTail, Owned, Tree, Ext, Mapped, AllApart;
    forall k | k in st.inodes ensures Owned(st.disk, st.inodes[k]) <= st.used {
      assert FileOk(st.disk, st.used, st.inodes[k]);
    }
  }

  lemma OldKept(st: State, st1: State)
    requires st1.inodes == st.inodes
    requires forall j :: j in st.inodes ==>
               && Content(st1.disk, st.inodes[j]) == Content(st.disk, st.inodes[j])
               && Ext(st1.disk, st.inodes[j]) == Ext(st.disk, st.inodes[j])
               && Owned(st1.disk, st.inodes[j]) == Owned(st.disk, st.inodes[j])
    requires forall k :: k in st.inodes ==> Owned(st.disk, st.inodes[k]) <= st.used
    ensures OldSame(st, st1) && forall j :: j in st.inodes ==> Owned(st1.disk, st.inodes[j]) <= st.used
  {
    hide Content, Ext, Owned;
  }

  lemma OldStays(st: State, st1: State, st': State, i: nat)
    requires OldSame(st, st1) && st1.inodes == st.inodes && st'.disk == st1.disk && i !in st.inodes
    requires forall j :: j in st.inodes ==> j in st'.inodes && st'.inodes[j] == st.inodes[j]
    ensures OldSame(st, st')
  {
    hide Content, Ext;
  }

  /** An inode joins whose blocks nobody else owns. */
  lemma OneMoreSound(st: State, i: nat, f: Inode, st': State, others: set<nat>)
    requires Sound(st) && i !in st.inodes && st'.inodes == st.inodes[i := f] && st'.disk == st.disk && st'.used == st.used
    requires st'.cache == st.cache && i !in st.cache
    requires FileOk(st.disk, st.used, f) && Owned(st.disk, f) !! others
    requires forall j :: j in st.inodes ==> Owned(st.disk, st.inodes[j]) <= others
    ensures Sound(st') && forall j :: j in st.inodes ==> j in st'.inodes && st'.inodes[j] == st.inodes[j]
  {
    hide FileOk, Owned, Ext;
    forall x, y | x in st'.inodes && y in st'.inodes && x != y ensures Apart(st'.disk, st'.inodes[x], st'.inodes[y]) {
      assert x != i && y != i ==> Apart(st.disk, st.inodes[x], st.inodes[y]);
    }
  }

  lemma DirMadeTree(st: State, i: nat, d: nat, b: nat, st': State, index: map<nat, Ns.Index>)
    requires DirMade(st, i, d, b, st') && AllDirsOk(st) && Agrees(index, st)
    ensures Sound(st') && AllDirsOk(st') && Agrees(index - {i}, st') && i !in TreeOf(st).kinds && i !in index
    ensures TreeOf(st') == Ns.Tree(TreeOf(st).kinds[i := Directory], TreeOf(st).links[i := 2], TreeOf(st).names[i := Ns.DotNames(i, d)])
    ensures i in st'.inodes && Owned(st'.disk, st'.inodes[i]) == {b} && st'.inodes[i].kind == Directory && i !in st'.cache
    ensures forall j :: j in st.inodes ==> j in st'.inodes && st'.inodes[j] == st.inodes[j] && j != i
  {
    hide *;
    DirMadeParts(st, i, d, b, st');
    DirMadeSound(st, i, d, b, st');
    DirMadeItself(st, i, d, b, st');
    TreeAt(st, i);
    AgreesAt(index, st, i);
    var st1 := State(st'.disk, st.inodes, st'.used, st'.cache);
    OldTree(st, st1, st', index);
    OneMoreKept(st1, i, DirInode(b), st', index);
    OneMoreMaps(st1, i, DirInode(b), st');
    OldMembers(st, st', i);
  }

  lemma OldMembers(st: State, st': State, i: nat)
    requires OldSame(st, st') && i !in st.inodes
    ensures forall j :: j in st.inodes ==> j in st'.inodes && st'.inodes[j] == st.inodes[j] && j != i
  {
    hide Content, Ext;
  }

  lemma OldTree(st: State, st1: State, st': State, index: map<nat, Ns.Index>)
    requires OldSame(st, st') && st1.inodes == st.inodes && st1.disk == st'.disk && AllDirsOk(st) && Agrees(index, st)
    ensures TreeOf(st1) == TreeOf(st) && AllDirsOk(st1) && Agrees(index, st1)
  {
    hide Content, Ext, DirShape, Distinct, DirEntries, MapOf, Gapless;
    forall i | i in st.inodes ensures IndexOf(st1.disk, st.inodes[i]) == IndexOf(st.disk, st.inodes[i]) {
    }
  }

  /** A free inode number is taken; nothing else changes but that nothing of its former owner stays cached. */
  method AllocNumber(v: Volume, c: DirIndexCache) returns (inodeNum: Option<nat>)
    requires v.Valid() && Numbered(v)
    modifies v.fs, v.fs.inodeBitmaps, v`extentsCache, c
    ensures v.Valid() && Numbered(v)
    ensures inodeNum.None? ==> St(v) == old(St(v)) && c.index == old(c.index) && Numbers(v) == old(Numbers(v)) == AllInodes(v)
    ensures inodeNum.Some? ==>
              && inodeNum.value !in v.inodes && 0 < inodeNum.value < U32 && NumberTaken(v, inodeNum.value)
              && v.extentsCache == old(v.extentsCache) - {inodeNum.value} && c.index == old(c.index) - {inodeNum.value}
              && OneTaken(old(Numbers(v)), Numbers(v), inodeNum.value) && old(Numbers(v)) != AllInodes(v)
  {
    hide *;
    StParts(v);
    v.Opened();
    NumberedParts(v);
    v.fs.TwoBitmaps();
    ghost var before := Ext4Alloc.AllBits(v.fs.inodeBitmaps);
    ghost var blocks := Ext4Alloc.AllBits(v.fs.blockBitmaps);
    NumbersAre(v);
    inodeNum := v.fs.AllocInode();
    assert Ext4Alloc.AllBits(v.fs.blockBitmaps) == blocks;
    AllocatedInSets(v.fs.Inodes(), before, Ext4Alloc.AllBits(v.fs.inodeBitmaps), inodeNum);
    if inodeNum.Some? {
      v.extentsCache := v.extentsCache - {inodeNum.value};
      c.index := c.index - {inodeNum.value};
      NumberTakenJoin(v, inodeNum.value);
    }
    NumbersAre(v);
    if inodeNum.Some? {
      OneTakenJoin(old(Numbers(v)), Numbers(v), inodeNum.value);
    }
    v.Closed();
    NumberedJoin(v);
    StParts(v);
  }

  ghost predicate NumberTaken(v: Volume, i: nat)
    reads v.fs.inodeBitmaps
  {
    && Ext4Alloc.Fits(v.fs.Inodes(), Ext4Alloc.AllBits(v.fs.inodeBitmaps))
    && i in Ext4Alloc.Used(v.fs.Inodes(), Ext4Alloc.AllBits(v.fs.inodeBitmaps))
  }

  lemma NumberTakenJoin(v: Volume, i: nat)
    requires v.fs.Valid() && Ext4Alloc.Fits(v.fs.Inodes(), Ext4Alloc.AllBits(v.fs.inodeBitmaps))
    requires i in Ext4Alloc.Used(v.fs.Inodes(), Ext4Alloc.AllBits(v.fs.inodeBitmaps))
    ensures NumberTaken(v, i) && 0 < i < U32
  {
  }

  lemma NumberedAlso(v: Volume, before: set<nat>, i: nat)
    requires NumberTaken(v, i) && v.inodes.Keys <= before + {i}
    requires before <= Ext4Alloc.Used(v.fs.Inodes(), Ext4Alloc.AllBits(v.fs.inodeBitmaps))
    ensures Numbered(v)
  {
  }

  /** The new directory's block is written, and its inode. */
  method MakeDir(v: Volume, i: nat, d: nat, b: nat, ghost st: State)
    requires v.Valid() && Numbered(v) && NumberTaken(v, i) && Sound(st) && i !in st.inodes && 0 < i < U32 && 0 < d < U32
    requires 0 < b < U48 && b !in st.used && v.used == st.used + {b} && v.disk == st.disk && v.inodes == st.inodes
    requires v.extentsCache == st.cache - {i}
    modifies v`disk, v`inodes
    ensures v.Valid() && Numbered(v) && DirMade(st, i, d, b, St(v))
    ensures i in v.inodes && Ext4OnDisk.Stored(v.disk, v.inodes[i].iBlock, [SingleBlock(0, b)])
    ensures DotsByFormat(Block(v.disk, b), i, d)
  {
    hide *;
    U32Value();
    DotSizes();
    NumberedParts(v);
    v.Opened();
    DotsFit(i, d);
    ghost var single := [SingleBlock(0, b)];
    SingleList(b);
    v.disk := v.disk[b := Zeros(BLOCK_SZ)];
    ghost var d0 := v.disk;
    var r1 := DirWriteEntryAt(v, [SingleBlock(0, b)], 0, 0, 12, i, Ns.FT_DIR, Ns.DOT);
    ghost var d1 := v.disk;
    var r2 := DirWriteEntryAt(v, [SingleBlock(0, b)], 0, 12, BLOCK_SZ - 12, d, Ns.FT_DIR, Ns.DOTDOT);
    TwoRecords(d0, d1, v.disk, b, i, d);
    OnlyNewBlock(st, d0, d1, v.disk, b, i, d);
    v.inodes := v.inodes[i := DirInode(b)];
    v.Closed();
    NumberedAlso(v, st.inodes.Keys, i);
    StParts(v);
    DirMadeJoin(st, i, d, b, St(v));
    DirInodeStored(v.disk, b);
    DotBlockByFormat(i, d);
  }

  lemma DirMadeJoin(st: State, i: nat, d: nat, b: nat, st': State)
    requires Sound(st) && i !in st.inodes && 0 < i < U32 && 0 < d < U32 && 0 < b < U48 && b !in st.used
    requires st'.inodes == st.inodes[i := DirInode(b)] && st'.used == st.used + {b} && st'.cache == st.cache - {i}
    requires KeepsBlocks(st.disk, st'.disk, st.used)
    requires NewRec(12, i, Ns.FT_DIR, Ns.DOT).Fits() && NewRec(4084, d, Ns.FT_DIR, Ns.DOTDOT).Fits()
    requires Block(st'.disk, b) == DotBlock(i, d)
    ensures DirMade(st, i, d, b, st')
  {
    hide Sound, DirInode, KeepsBlocks, DotBlock, Block, Rec.Fits, NewRec;
  }

  /** Both records written, the block is a directory block. */
  lemma TwoRecords(d0: Disk, d1: Disk, d2: Disk, b: nat, i: nat, d: nat)
    requires MapLogicalBlock([SingleBlock(0, b)], 0) == Some(b)
    requires NewRec(12, i, Ns.FT_DIR, Ns.DOT).Fits() && NewRec(4084, d, Ns.FT_DIR, Ns.DOTDOT).Fits()
    requires Written(d0, [SingleBlock(0, b)], d1, 0, EncodeRec(NewRec(12, i, Ns.FT_DIR, Ns.DOT)), 12)
    requires Written(d1, [SingleBlock(0, b)], d2, 12, EncodeRec(NewRec(4084, d, Ns.FT_DIR, Ns.DOTDOT)), 4084)
    ensures Block(d2, b) == DotBlock(i, d)
  {
    hide Mapped, SameOutside, Block, MapLogicalBlock, EncodeRec, NewRec;
    forall k | 0 <= k < 4096 ensures Block(d2, b)[k] == DotBlock(i, d)[k] {
      assert k / BLOCK_SZ == 0 && k % BLOCK_SZ == k;
      assert ByteAt(d2, [SingleBlock(0, b)], k) == Block(d2, b)[k];
    }
  }

  lemma OnlyNewBlock(st: State, d0: Disk, d1: Disk, d2: Disk, b: nat, i: nat, d: nat)
    requires b !in st.used && d0 == st.disk[b := Zeros(BLOCK_SZ)] && Mapped([SingleBlock(0, b)]) == {b}
    requires NewRec(12, i, Ns.FT_DIR, Ns.DOT).Fits() && NewRec(4084, d, Ns.FT_DIR, Ns.DOTDOT).Fits()
    requires Written(d0, [SingleBlock(0, b)], d1, 0, EncodeRec(NewRec(12, i, Ns.FT_DIR, Ns.DOT)), 12)
    requires Written(d1, [SingleBlock(0, b)], d2, 12, EncodeRec(NewRec(4084, d, Ns.FT_DIR, Ns.DOTDOT)), 4084)
    ensures KeepsBlocks(st.disk, d2, st.used)
  {
    hide Mapped, ByteAt, MapLogicalBlock, EncodeRec, NewRec, Zeros;
  }

  /** When `create_dir` takes an inode number and leaves it taken: the name is accepted and a number is free, but no
      block is. */
  ghost predicate NumberDue(st: State, d: nat, name: Name, numbers: set<nat>, inodes: set<nat>, blocks: set<nat>) {
    NameError(st, d, name).None? && numbers != inodes && |st.used| == |blocks|
  }

  lemma NumberDueIs(st: State, d: nat, name: Name, numbers: set<nat>, inodes: set<nat>, blocks: set<nat>)
    ensures NumberDue(st, d, name, numbers, inodes, blocks) <==>
              NameError(st, d, name).None? && numbers != inodes && |st.used| == |blocks|
  {
    hide NameError;
  }

  /** `create_dir`: a new directory of two names, and one more link for its parent. On an error the tree of names
      is as it was (an inode number that was taken before a block could not be had stays taken: `NumberDue`). */
  method CreateDir(v: Volume, c: DirIndexCache, d: nat, name: Name) returns (r: Result<nat>)
    requires v.Valid() && Numbered(v) && FsOk(St(v), c.index) && d in v.inodes && DirBlocks(v.inodes[d]) + 1 < U32
    requires v.inodes[d].links + 1 < U16
    modifies v, v.fs, v.fs.blockBitmaps, v.fs.inodeBitmaps, c
    ensures v.Valid() && Numbered(v) && FsOk(St(v), c.index)
    ensures r.Ok? ==> DirEntered(old(St(v)), St(v), d, name, r.value)
    ensures r.Err? ==> LeftAlone(old(St(v)), St(v))
    ensures r.Ok? ==> OneTaken(old(Numbers(v)), Numbers(v), r.value)
    ensures r.Err? ==> if NumberDue(old(St(v)), d, name, old(Numbers(v)), AllInodes(v), v.AllBlocks())
                       then r.error == NoSpace && exists i :: OneTaken(old(Numbers(v)), Numbers(v), i)
                       else Numbers(v) == old(Numbers(v))
    ensures NumberDue(old(St(v)), d, name, old(Numbers(v)), AllInodes(v), v.AllBlocks()) ==> r.Err?
    ensures RightError(NameError(old(St(v)), d, name), r, v)
  {
    hide *;
    FileTypes();
    ghost var st := St(v);
    StParts(v);
    NameErrorIs(st, d, name);
    NumberDueIs(st, d, name, Numbers(v), AllInodes(v), v.AllBlocks());
    AlwaysKept(st);
    FsParts(st, c.index);
    LeftAloneSame(st, st);
    TreeAt(st, d);
    NumberedParts(v);
    v.Opened();
    NumberFits(v, d);
    v.fs.TwoBitmaps();
    if v.inodes[d].kind != Directory {
      r := Err(NotADirectory);
      RightJoin(NameError(st, d, name), r, v);
      return;
    }
    if name == [] {
      r := Err(InvalidInput);
      RightJoin(NameError(st, d, name), r, v);
      return;
    }
    NameLimit(name);
    if |name| > EXT4_NAME_LEN {
      r := Err(NameTooLong);
      RightJoin(NameError(st, d, name), r, v);
      return;
    }
    var found := Lookup(v, c, d, name);
    ghost var st0 := St(v);
    StParts(v);
    FsParts(st0, c.index);
    if found.Some? {
      r := Err(AlreadyExists);
      RightJoin(NameError(st, d, name), r, v);
      return;
    }
    r := CreateDirHere(v, c, d, name);
    if r.Ok? {
      DirEnteredFrom(st, st0, St(v), d, name, r.value);
    } else {
      LeftAloneFrom(st, st0, St(v));
    }
    RightJoin(NameError(st, d, name), r, v);
  }

  /** `create_dir` once the name is known to be free. */
  method CreateDirHere(v: Volume, c: DirIndexCache, d: nat, name: Name) returns (r: Result<nat>)
    requires v.Valid() && Numbered(v) && FsOk(St(v), c.index) && d in v.inodes && DirBlocks(v.inodes[d]) + 1 < U32
    requires v.inodes[d].kind == Directory && v.inodes[d].links + 1 < U16 && 0 < d < U32
    requires name != [] && |name| <= EXT4_NAME_LEN && name !in IndexOf(v.disk, v.inodes[d])
    modifies v, v.fs, v.fs.blockBitmaps, v.fs.inodeBitmaps, c
    ensures v.Valid() && Numbered(v) && FsOk(St(v), c.index)
    ensures r.Ok? ==> DirEntered(old(St(v)), St(v), d, name, r.value)
    ensures r.Err? ==> LeftAlone(old(St(v)), St(v)) && OutOfRoom(v, r.error)
    ensures r.Ok? ==> OneTaken(old(Numbers(v)), Numbers(v), r.value)
    ensures old(Numbers(v)) != AllInodes(v) && |old(v.used)| == |v.AllBlocks()| ==>
              r.Err? && r.error == NoSpace && exists i :: OneTaken(old(Numbers(v)), Numbers(v), i)
    ensures r.Err? && !(old(Numbers(v)) != AllInodes(v) && |old(v.used)| == |v.AllBlocks()|) ==> Numbers(v) == old(Numbers(v))
  {
    hide *;
    ghost var st := St(v);
    ghost var index := c.index;
    StParts(v);
    FsParts(st, c.index);
    AlwaysKept(st);
    LeftAloneSame(st, st);
    var inodeNum := AllocNumber(v, c);
    if inodeNum.None? {
      NumbersRoom(v);
      return Err(NoSpace);
    }
    var i := inodeNum.value;
    OneTakenJoin(old(Numbers(v)), Numbers(v), i);
    StParts(v);
    v.Opened();
    v.fs.TwoBitmaps();
    ghost var bits := Ext4Alloc.AllBits(v.fs.inodeBitmaps);
    ghost var numbers := Numbers(v);
    NumberTakenParts(v, i);
    NumberedParts(v);
    var block := v.AllocBlock();
    assert Ext4Alloc.AllBits(v.fs.inodeBitmaps) == bits && Numbers(v) == numbers;
    StParts(v);
    NumberKept(v, bits, i);
    if block.None? {
      ExcusedFull(v.used, v.AllBlocks());
      ExcusedRoom(v, v.used, NoSpace);
      CacheDroppedTree(st, St(v), i, index);
      LeftAloneSame(st, St(v));
      FsJoin(St(v), c.index);
      return Err(NoSpace);
    }
    MakeDir(v, i, d, block.value, st);
    r := EnterDir(v, c, d, name, i, block.value, st, index);
  }

  lemma NumberTakenParts(v: Volume, i: nat)
    requires NumberTaken(v, i)
    ensures Ext4Alloc.Fits(v.fs.Inodes(), Ext4Alloc.AllBits(v.fs.inodeBitmaps))
    ensures i in Ext4Alloc.Used(v.fs.Inodes(), Ext4Alloc.AllBits(v.fs.inodeBitmaps))
  {
  }

  lemma NumberKept(v: Volume, bits: seq<seq<bool>>, i: nat)
    requires bits == Ext4Alloc.AllBits(v.fs.inodeBitmaps) && Ext4Alloc.Fits(v.fs.Inodes(), bits)
    requires i in Ext4Alloc.Used(v.fs.Inodes(), bits) && v.inodes.Keys <= Ext4Alloc.Used(v.fs.Inodes(), bits)
    ensures NumberTaken(v, i) && Numbered(v)
  {
  }

  lemma CacheDroppedTree(st: State, st': State, i: nat, index: map<nat, Ns.Index>)
    requires Sound(st) && AllDirsOk(st) && Agrees(index, st) && i !in st.inodes
    requires st'.inodes == st.inodes && st'.disk == st.disk && st'.used == st.used && st'.cache == st.cache - {i}
    ensures Sound(st') && AllDirsOk(st') && Agrees(index - {i}, st') && TreeOf(st') == TreeOf(st)
  {
    hide FileOk, DirOk, IndexOf, Ext, Owned;
  }

  /** A new directory of two names has a name, nothing else has changed, and the bitmap follows. */
  ghost predicate DirEntered(st: State, st': State, d: nat, name: Name, i: nat) {
    && d in TreeOf(st).names && d in TreeOf(st).links && i !in st.inodes
    && TreeOf(st') == Ns.CreateDir(TreeOf(st), d, name, i) && Clean(st, st')
  }

  lemma DirEnteredJoin(st: State, st': State, d: nat, name: Name, i: nat)
    requires d in TreeOf(st).names && d in TreeOf(st).links && i !in st.inodes
    requires TreeOf(st') == Ns.CreateDir(TreeOf(st), d, name, i) && Clean(st, st')
    ensures DirEntered(st, st', d, name, i)
  {
    hide TreeOf, Ns.CreateDir, Clean;
  }

  lemma DirEnteredFrom(st: State, st0: State, st': State, d: nat, name: Name, i: nat)
    requires DirEntered(st0, st', d, name, i) && Clean(st, st0) && TreeOf(st) == TreeOf(st0) && st.inodes == st0.inodes
    ensures DirEntered(st, st', d, name, i)
  {
    hide TreeOf, Ns.CreateDir, Clean;
    PassesAlong(st, st0, st');
    CleanThrough(st, st0, st');
  }

  /** The new directory takes its one block, and changes nothing that is old. */
  lemma DirMadeClean(st: State, i: nat, d: nat, b: nat, st': State)
    requires DirMade(st, i, d, b, st')
    ensures Clean(st, st') && st.inodes.Keys <= st'.inodes.Keys
  {
    hide *;
    DirMadeParts(st, i, d, b, st');
    DirMadeSound(st, i, d, b, st');
    DirMadeItself(st, i, d, b, st');
    DirMadeOwned(st, i, b, st');
    OldFilesKept(st, st', i);
    CleanJoin(st, st');
  }

  lemma CleanJoin(st: State, st': State)
    requires FilesKept(st, st') && Unowned(st') == Unowned(st)
    ensures Clean(st, st')
  {
  }

  lemma OldFilesKept(st: State, st': State, i: nat)
    requires OldSame(st, st') && i !in st.inodes && i in st'.inodes && st'.inodes == st.inodes[i := st'.inodes[i]]
    ensures FilesKept(st, st') && st.inodes.Keys <= st'.inodes.Keys
  {
    hide Content, Ext;
  }

  lemma DirMadeOwned(st: State, i: nat, b: nat, st': State)
    requires Sound(st) && i !in st.inodes && st'.inodes == st.inodes[i := DirInode(b)] && st'.used == st.used + {b}
    requires b !in st.used && Owned(st'.disk, DirInode(b)) == {b} && KeepsBlocks(st.disk, st'.disk, st.used)
    ensures Unowned(st') == Unowned(st) && i in st'.inodes && st'.inodes == st.inodes[i := st'.inodes[i]]
  {
    hide DirInode, KeepsBlocks, Owned, FileOk, AllApart, CacheOk;
    forall j | j in st.inodes ensures Owned(st'.disk, st.inodes[j]) == Owned(st.disk, st.inodes[j]) {
      OldOwned(st, st', j);
    }
    forall x ensures x in AllOwned(st') <==> x in AllOwned(st) || x == b {
      if x in AllOwned(st) {
        var j :| j in st.inodes && x in Owned(st.disk, st.inodes[j]);
        assert j in st'.inodes && st'.inodes[j] == st.inodes[j] && x in Owned(st'.disk, st'.inodes[j]);
      }
      if x in AllOwned(st') {
        var j :| j in st'.inodes && x in Owned(st'.disk, st'.inodes[j]);
        assert j != i ==> j in st.inodes && x in Owned(st.disk, st.inodes[j]);
      }
      if x == b {
        assert i in st'.inodes && x in Owned(st'.disk, st'.inodes[i]);
      }
    }
  }

  lemma OldOwned(st: State, st': State, j: nat)
    requires Sound(st) && j in st.inodes && KeepsBlocks(st.disk, st'.disk, st.used)
    ensures Owned(st'.disk, st.inodes[j]) == Owned(st.disk, st.inodes[j])
  {
    hide KeepsBlocks, Owned, WellFormed, Injective, ZeroTail, AllApart, CacheOk, Content, Ext;
    assert FileOk(st.disk, st.used, st.inodes[j]);
    KeepsFewer(st.disk, st'.disk, st.used, Owned(st.disk, st.inodes[j]));
    FileKept(st.disk, st'.disk, st.inodes[j]);
  }

  lemma NewDirNames(st: State, st1: State, i: nat, d: nat, name: Name)
    requires d in st.inodes && st.inodes[d].kind == Directory && d in st1.inodes && st1.inodes[d].kind == Directory && i != d
    requires TreeOf(st1) == Ns.Tree(TreeOf(st).kinds[i := Directory], TreeOf(st).links[i := 2], TreeOf(st).names[i := Ns.DotNames(i, d)])
    ensures IndexOf(st1.disk, st1.inodes[d]) == IndexOf(st.disk, st.inodes[d])
  {
    hide *;
    TreeAt(st, d);
    TreeAt(st1, d);
  }

  /** The second half of `create_dir`: the entry is added, or block and inode number are given back. */
  method EnterDir(v: Volume, c: DirIndexCache, d: nat, name: Name, i: nat, b: nat, ghost st: State, ghost index: map<nat, Ns.Index>)
    returns (r: Result<nat>)
    requires v.Valid() && Numbered(v) && FsOk(st, index) && c.index == index - {i} && DirMade(st, i, d, b, St(v))
    requires d in st.inodes && st.inodes[d].kind == Directory && DirBlocks(st.inodes[d]) + 1 < U32 && st.inodes[d].links + 1 < U16
    requires name != [] && |name| <= EXT4_NAME_LEN && name !in IndexOf(st.disk, st.inodes[d])
    modifies v, v.fs, v.fs.blockBitmaps, v.fs.inodeBitmaps, c
    ensures v.Valid() && Numbered(v) && FsOk(St(v), c.index)
    ensures r.Ok? ==> r.value == i && DirEntered(st, St(v), d, name, i)
    ensures r.Err? ==> LeftAlone(st, St(v)) && OutOfRoom(v, r.error)
    ensures Numbers(v) == if r.Ok? then old(Numbers(v)) else old(Numbers(v)) - {i}
  {
    hide *;
    FileTypes();
    ghost var st1 := St(v);
    StParts(v);
    FsParts(st, index);
    DirMadeParts(st, i, d, b, st1);
    DirMadeTree(st, i, d, b, st1, index);
    DirMadeClean(st, i, d, b, st1);
    CleanParts(st, st1);
    TreeAt(st, d);
    TreeAt(st, i);
    TreeAt(st1, d);
    NumberedParts(v);
    v.Opened();
    v.fs.TwoBitmaps();
    NumberFits(v, i);
    ghost var bits := Ext4Alloc.AllBits(v.fs.inodeBitmaps);
    ghost var numbers := Numbers(v);
    NewDirNames(st, st1, i, d, name);
    EntryErrorIs(st1, d, name);
    var added := DirAddEntry(v, c, d, name, i, Ns.FT_DIR);
    ghost var st2 := St(v);
    StParts(v);
    assert Ext4Alloc.AllBits(v.fs.inodeBitmaps) == bits && Numbers(v) == numbers;
    if added.Err? {
      AddFailedParts(st1, st2, name);
      LeftAloneParts(st1, st2);
      UntouchedMore(st1, st2);
      NumberedJoin(v);
      GiveUpDir(v, c, d, i, b, st, st1, index);
      ExcusedRoom(v, st2.used, added.error);
      return Err(added.error);
    }
    NameAddedParts(st1, st2, d, name, i, Ns.FT_DIR);
    ChangedKeys(st1, st2, d);
    NumberedJoin(v);
    FinishDir(v, c, d, name, i, st, st1);
    return Ok(i);
  }

  /** The entry is made: the parent gets one more link. */
  method FinishDir(v: Volume, c: DirIndexCache, d: nat, name: Name, i: nat, ghost st: State, ghost st1: State)
    requires v.Valid() && Numbered(v) && Sound(st1) && AllDirsOk(st1) && Agrees(c.index, st1) && Ns.Sane(TreeOf(st)) && Clean(st, st1)
    requires i !in st.inodes && d in st.inodes && d in st1.inodes && st1.inodes[d] == st.inodes[d] && st.inodes[d].kind == Directory
    requires st.inodes.Keys <= st1.inodes.Keys && name !in IndexOf(st.disk, st.inodes[d]) && st.inodes[d].links + 1 < U16
    requires TreeOf(st1) == Ns.Tree(TreeOf(st).kinds[i := Directory], TreeOf(st).links[i := 2], TreeOf(st).names[i := Ns.DotNames(i, d)])
    requires NameAdded(st1, St(v), d, name, i, Ns.FT_DIR)
    modifies v`inodes, c
    ensures v.Valid() && Numbered(v) && FsOk(St(v), c.index) && DirEntered(st, St(v), d, name, i)
  {
    hide *;
    FileTypes();
    ghost var st2 := St(v);
    StParts(v);
    TreeAt(st, d);
    TreeAt(st, i);
    AddedDir(st1, st2, d, name, i, Ns.FT_DIR, c.index);
    AddedClean(st1, st2, d, name, i, Ns.FT_DIR);
    PassesAlong(st, st1, st2);
    CleanThrough(st, st1, st2);
    IndexAdd(c, d, name, i, Ns.FT_DIR);
    SetLinks(v, c.index, d, v.inodes[d].links + 1);
    PassesAlong(st, st2, St(v));
    CleanThrough(st, st2, St(v));
    FreeJoin(TreeOf(st), d, name);
    Ns.CreateDirKeeps(TreeOf(st), d, name, i);
    CreateDirShapes(TreeOf(st), TreeOf(st1), TreeOf(st2), TreeOf(St(v)), d, name, i);
    FsJoin(St(v), c.index);
    DirEnteredJoin(st, St(v), d, name, i);
  }

  /** The entry could not be made: the directory goes, and names and bytes are as they were. */
  method GiveUpDir(v: Volume, c: DirIndexCache, ghost d: nat, i: nat, b: nat, ghost st: State, ghost st1: State, ghost index: map<nat, Ns.Index>)
    requires v.Valid() && Numbered(v) && FsOk(st, index) && DirMade(st, i, d, b, st1)
    requires LeftAlone(st1, St(v)) && Agrees(c.index, st1) && AllDirsOk(st1)
    requires CacheKeys(st1.cache, v.extentsCache, d) && d in st.inodes && i !in c.index
    modifies v, v.fs.blockBitmaps, v.fs.inodeBitmaps
    ensures v.Valid() && Numbered(v) && FsOk(St(v), c.index) && LeftAlone(st, St(v)) && |v.used| + 1 >= |old(v.used)|
    ensures Numbers(v) == old(Numbers(v)) - {i}
  {
    hide *;
    ghost var st2 := St(v);
    StParts(v);
    LeftAloneParts(st1, st2);
    UntouchedTree(st1, st2, c.index);
    OneLess(v.used, b);
    UndoDir(v, c, d, i, b, st, st1, index);
    StParts(v);
    FsParts(St(v), c.index);
    DirMadeUndone(st, st1, st2, St(v), i, d, b);
  }

  lemma CreateDirShapes(t: Ns.Tree, t1: Ns.Tree, t2: Ns.Tree, t3: Ns.Tree, d: nat, n: Name, i: nat)
    requires d in t.names && d in t.links && d != i
    requires t1 == Ns.Tree(t.kinds[i := Directory], t.links[i := 2], t.names[i := Ns.DotNames(i, d)])
    requires t2 == t1.(names := t1.names[d := t1.names[d][n := (i, Ns.FT_DIR)]])
    requires t3 == t2.(links := t2.links[d := t.links[d] + 1])
    ensures t3 == Ns.CreateDir(t, d, n, i)
  {
    hide Ns.DotNames;
  }

  /** The failed end of `create_dir`: block and number are free again, and the names as they were. */
  method UndoDir(v: Volume, c: DirIndexCache, ghost d: nat, i: nat, b: nat, ghost st: State, ghost st1: State, ghost index: map<nat, Ns.Index>)
    requires v.Valid() && Numbered(v) && FsOk(st, index) && DirMade(st, i, d, b, st1)
    requires Untouched(st1, St(v)) && Agrees(c.index, St(v)) && AllDirsOk(St(v)) && TreeOf(St(v)) == TreeOf(st1)
    requires CacheKeys(st1.cache, v.extentsCache, d) && d in st.inodes
    requires i !in c.index
    modifies v, v.fs.blockBitmaps, v.fs.inodeBitmaps
    ensures v.Valid() && Numbered(v) && FsOk(St(v), c.index) && TreeOf(St(v)) == TreeOf(st)
    ensures v.inodes == old(v.inodes) - {i} && v.disk == old(v.disk) && v.used == old(v.used) - {b}
    ensures Numbers(v) == old(Numbers(v)) - {i}
  {
    hide *;
    ghost var st2 := St(v);
    StParts(v);
    FsParts(st, index);
    DirMadeParts(st, i, d, b, st1);
    DirMadeTree(st, i, d, b, st1, index);
    TreeAt(st, i);
    UntouchedTree(st1, st2, c.index);
    UntouchedOwned(st1, st2, i);
    NotInKeys(st1.cache, st2.cache, d, i);
    NumberedParts(v);
    v.Opened();
    v.fs.TwoBitmaps();
    ghost var bits := Ext4Alloc.AllBits(v.fs.inodeBitmaps);
    ghost var numbers := Numbers(v);
    v.FreeBlock(b);
    assert Ext4Alloc.AllBits(v.fs.inodeBitmaps) == bits && Numbers(v) == numbers;
    NumberedJoin(v);
    FreeInodeNumber(v, i);
    StParts(v);
    ReclaimedJoin(st2, i, St(v));
    DroppedTree(st2, i, St(v), c.index);
    DirBackAgain(TreeOf(st), i, d);
    FsJoin(St(v), c.index);
  }

  lemma DirBackAgain(t: Ns.Tree, i: nat, d: nat)
    requires i !in t.kinds && i !in t.links && i !in t.names
    ensures Ns.Tree(t.kinds[i := Directory] - {i}, t.links[i := 2] - {i}, t.names[i := Ns.DotNames(i, d)] - {i}) == t
  {
    hide Ns.DotNames;
  }
}
