/** Whole runs over the inodes of a volume: creating, writing, clearing and reclaiming files refines the same
    operations on a map from inode numbers to byte sequences, and moves exactly the owned blocks. */
module Ext4Runs {
  import opened Common
  import opened Ext4Types
  import opened Ext4Extents
  import opened Ext4Layout
  import opened Ext4Tree
  import opened Ext4TreeLayout
  import opened Ext4Volume
  import opened Ext4FileState
  import opened Ext4FileSteps
  import opened Ext4Files
  import opened Ext4ReadWrite
  import Ext4Alloc
  import Ext4OnDisk

  // Inodes come and go

  /** A new inode: no bytes, an empty leaf as its root. */
  function NewInode(kind: Kind, links: nat): Inode {
    Inode(kind, 0, links, 0, LeafNode(I_BLOCK_SZ, EXTENTS_IN_INODE, []))
  }

  ghost predicate Created(st: State, i: nat, kind: Kind, links: nat, st': State) {
    && Sound(st) && i !in st.inodes && st'.inodes == st.inodes[i := NewInode(kind, links)]
    && st'.disk == st.disk && st'.used == st.used && st'.cache == st.cache - {i}
  }

  ghost predicate Reclaimed(st: State, i: nat, st': State) {
    && Sound(st) && i in st.inodes && st'.inodes == st.inodes - {i}
    && st'.disk == st.disk && st'.used == st.used - Owned(st.disk, st.inodes[i]) && st'.cache == st.cache - {i}
  }

  lemma NewInodeFile(disk: Disk, used: set<nat>, kind: Kind, links: nat)
    ensures var f := NewInode(kind, links); FileOk(disk, used, f) && Owned(disk, f) == {} && Content(disk, f) == []
  {
    hide *;
    var f := NewInode(kind, links);
    NewInodeParts(disk, kind, links);
    NoExtents(disk);
    OwnedParts(disk, f);
    ZeroTailOfNothing(disk, f);
    assert Owned(disk, f) == {};
    FileJoin(disk, used, f);
  }

  lemma NewInodeParts(disk: Disk, kind: Kind, links: nat)
    ensures var f := NewInode(kind, links);
            |f.iBlock| == I_BLOCK_SZ && Ext(disk, f) == [] && Tree(disk, f) == {} && Content(disk, f) == []
  {
    hide LeafNode, Parse, Collect;
    assert AllStorable([]);
    DepthZero(disk, []);
  }

  lemma ZeroTailOfNothing(disk: Disk, inode: Inode)
    requires Ext(disk, inode) == [] && forall k: nat :: ByteAt(disk, [], k) == 0
    ensures ZeroTail(disk, inode)
  {
    hide ByteAt, Ext;
  }

  lemma CreatedSound(st: State, i: nat, kind: Kind, links: nat, st': State)
    requires Created(st, i, kind, links, st')
    ensures Sound(st') && FilesOf(st') == FilesOf(st)[i := []] && AllOwned(st') == AllOwned(st)
  {
    hide Sound, FileOk, Owned, Content, NewInode;
    NewInodeFile(st.disk, st.used, kind, links);
    CreatedKeeps(st, i, kind, links, st');
    forall b | b in AllOwned(st) ensures b in AllOwned(st') {
      var a :| a in st.inodes && b in Owned(st.disk, st.inodes[a]);
      assert a in st'.inodes && b in Owned(st'.disk, st'.inodes[a]);
    }
  }

  lemma CreatedKeeps(st: State, i: nat, kind: Kind, links: nat, st': State)
    requires Created(st, i, kind, links, st')
    ensures Sound(st')
  {
    hide FileOk, Owned, Ext, Content, NewInode;
    NewInodeFile(st.disk, st.used, kind, links);
    forall a, b | a in st'.inodes && b in st'.inodes && a != b ensures Apart(st'.disk, st'.inodes[a], st'.inodes[b]) {
      assert a != i && b != i ==> Apart(st.disk, st.inodes[a], st.inodes[b]);
    }
  }

  lemma ReclaimedSound(st: State, i: nat, st': State)
    requires Reclaimed(st, i, st')
    ensures Sound(st') && FilesOf(st') == FilesOf(st) - {i}
    ensures AllOwned(st') == AllOwned(st) - Owned(st.disk, st.inodes[i])
  {
    hide WellFormed, Injective, ZeroTail, Owned, Tree, Ext, Mapped, Content;
    forall j | j in st'.inodes ensures FileOk(st'.disk, st'.used, st'.inodes[j]) {
      assert FileOk(st.disk, st.used, st.inodes[j]) && Apart(st.disk, st.inodes[j], st.inodes[i]);
    }
    forall a, b | a in st'.inodes && b in st'.inodes && a != b ensures Apart(st'.disk, st'.inodes[a], st'.inodes[b]) {
      assert Apart(st.disk, st.inodes[a], st.inodes[b]);
    }
    forall b | b in AllOwned(st) && b !in Owned(st.disk, st.inodes[i]) ensures b in AllOwned(st') {
      var a :| a in st.inodes && b in Owned(st.disk, st.inodes[a]);
      assert a in st'.inodes && b in Owned(st'.disk, st'.inodes[a]);
    }
    forall b | b in AllOwned(st') ensures b in AllOwned(st) && b !in Owned(st.disk, st.inodes[i]) {
      var a :| a in st'.inodes && b in Owned(st'.disk, st'.inodes[a]);
      assert Apart(st.disk, st.inodes[a], st.inodes[i]);
    }
  }

  /** Live inodes have their bits set, so that a newly allocated number is no live inode's. */
  ghost predicate Numbered(v: Volume)
    reads v, v.fs.inodeBitmaps
  {
    && Ext4Alloc.Fits(v.fs.Inodes(), Ext4Alloc.AllBits(v.fs.inodeBitmaps))
    && v.inodes.Keys <= Ext4Alloc.Used(v.fs.Inodes(), Ext4Alloc.AllBits(v.fs.inodeBitmaps))
  }

  /** The inode numbers whose bits are set, and all there are. */
  ghost function Numbers(v: Volume): set<nat>
    reads v.fs.inodeBitmaps
  {
    var bits := Ext4Alloc.AllBits(v.fs.inodeBitmaps);
    if Ext4Alloc.Fits(v.fs.Inodes(), bits) then Ext4Alloc.Used(v.fs.Inodes(), bits) else {}
  }

  ghost function AllInodes(v: Volume): set<nat> {
    AllNumbers(v.fs.Inodes())
  }

  lemma NumbersAre(v: Volume)
    requires Ext4Alloc.Fits(v.fs.Inodes(), Ext4Alloc.AllBits(v.fs.inodeBitmaps))
    ensures Numbers(v) == Ext4Alloc.Used(v.fs.Inodes(), Ext4Alloc.AllBits(v.fs.inodeBitmaps))
    ensures AllInodes(v) == AllNumbers(v.fs.Inodes())
  {
  }

  /** The number had its bit clear, and of all bits that one alone is set now. */
  ghost predicate OneTaken(before: set<nat>, after: set<nat>, i: nat) {
    i !in before && after == before + {i}
  }

  lemma OneTakenJoin(before: set<nat>, after: set<nat>, i: nat)
    ensures i !in before && after == before + {i} <==> OneTaken(before, after, i)
    ensures OneTaken(before, after, i) ==> after - {i} == before
  {
  }

  /** The part of `create_file` that makes the inode: its number was free, and no list of extents that a
      former owner of the number left behind survives in the cache. */
  method CreateInode(v: Volume, kind: Kind, links: nat) returns (inodeNum: Option<nat>)
    requires v.Valid() && Numbered(v) && Sound(St(v))
    modifies v, v.fs, v.fs.inodeBitmaps
    ensures v.Valid() && Numbered(v)
    ensures inodeNum.None? ==> St(v) == old(St(v)) && Numbers(v) == old(Numbers(v)) == AllInodes(v)
    ensures inodeNum.Some? ==> Created(old(St(v)), inodeNum.value, kind, links, St(v))
    ensures inodeNum.Some? ==> inodeNum.value in v.inodes && Ext4OnDisk.Stored(v.disk, v.inodes[inodeNum.value].iBlock, [])
    ensures inodeNum.Some? ==> OneTaken(old(Numbers(v)), Numbers(v), inodeNum.value) && old(Numbers(v)) != AllInodes(v)
  {
    hide *;
    ghost var st := St(v);
    StParts(v);
    v.Opened();
    NumberedParts(v);
    v.fs.TwoBitmaps();
    ghost var before := Ext4Alloc.AllBits(v.fs.inodeBitmaps);
    ghost var blocks := Ext4Alloc.AllBits(v.fs.blockBitmaps);
    NumbersAre(v);
    inodeNum := v.fs.AllocInode();
    assert Ext4Alloc.AllBits(v.fs.blockBitmaps) == blocks;
    AllocatedInSets(v.fs.Inodes(), before, Ext4Alloc.AllBits(v.fs.inodeBitmaps), inodeNum);
    if inodeNum.Some? {
      v.extentsCache := v.extentsCache - {inodeNum.value};
      v.inodes := v.inodes[inodeNum.value := NewInode(kind, links)];
    }
    v.Closed();
    NumberedJoin(v);
    StParts(v);
    NumbersAre(v);
    if inodeNum.Some? {
      OneTakenJoin(old(Numbers(v)), Numbers(v), inodeNum.value);
      CreatedJoin(st, inodeNum.value, kind, links, St(v));
      NewInodeStored(v.disk, kind, links);
    }
  }

  lemma NewInodeStored(disk: Disk, kind: Kind, links: nat)
    ensures Ext4OnDisk.Stored(disk, NewInode(kind, links).iBlock, [])
  {
    hide LeafNode, Ext4OnDisk.Stored;
    Ext4OnDisk.StoredZero(disk, []);
  }

  lemma CreatedJoin(st: State, i: nat, kind: Kind, links: nat, st': State)
    requires Sound(st) && i !in st.inodes && st'.inodes == st.inodes[i := NewInode(kind, links)]
    requires st'.disk == st.disk && st'.used == st.used && st'.cache == st.cache - {i}
    ensures Created(st, i, kind, links, st')
  {
    hide Sound, NewInode;
  }

  lemma NumberedParts(v: Volume)
    requires Numbered(v)
    ensures Ext4Alloc.Fits(v.fs.Inodes(), Ext4Alloc.AllBits(v.fs.inodeBitmaps))
    ensures v.inodes.Keys <= Ext4Alloc.Used(v.fs.Inodes(), Ext4Alloc.AllBits(v.fs.inodeBitmaps))
  {
  }

  lemma NumberedJoin(v: Volume)
    requires Ext4Alloc.Fits(v.fs.Inodes(), Ext4Alloc.AllBits(v.fs.inodeBitmaps))
    requires v.inodes.Keys <= Ext4Alloc.Used(v.fs.Inodes(), Ext4Alloc.AllBits(v.fs.inodeBitmaps))
    ensures Numbered(v)
  {
  }

  /** The end of `unlink` when no link is left: the blocks, and then the number, are given back, no others. */
  method ReclaimInode(v: Volume, i: nat)
    requires v.Valid() && Numbered(v) && Sound(St(v)) && i in v.inodes
    modifies v, v.fs.blockBitmaps, v.fs.inodeBitmaps
    ensures v.Valid() && Numbered(v) && Reclaimed(old(St(v)), i, St(v))
    ensures Numbers(v) == old(Numbers(v)) - {i}
  {
    hide *;
    ghost var st := St(v);
    StParts(v);
    v.Opened();
    NumberedParts(v);
    v.fs.TwoBitmaps();
    ghost var before := Ext4Alloc.AllBits(v.fs.inodeBitmaps);
    ghost var numbers := Numbers(v);
    ResetInode(v, i, 0);
    assert Ext4Alloc.AllBits(v.fs.inodeBitmaps) == before && Numbers(v) == numbers;
    EmptiedKeys(st, i, St(v));
    EmptiedMore(st, i, St(v));
    StParts(v);
    v.extentsCache := v.extentsCache - {i};
    v.Opened();
    v.Closed();
    NumberedJoin(v);
    FreeInodeNumber(v, i);
    StParts(v);
    ReclaimedJoin(st, i, St(v));
  }

  /** `dealloc_inode`: the number is free, and no live inode's; all other numbers are as before. */
  method FreeInodeNumber(v: Volume, i: nat)
    requires v.Valid() && Numbered(v)
    modifies v`inodes, v.fs.inodeBitmaps
    ensures v.Valid() && Numbered(v) && v.inodes == old(v.inodes) - {i} && Numbers(v) == old(Numbers(v)) - {i}
  {
    hide *;
    v.Opened();
    NumberedParts(v);
    v.fs.TwoBitmaps();
    ghost var before := Ext4Alloc.AllBits(v.fs.inodeBitmaps);
    ghost var blocks := Ext4Alloc.AllBits(v.fs.blockBitmaps);
    NumbersAre(v);
    v.fs.DeallocInode(i);
    assert Ext4Alloc.AllBits(v.fs.blockBitmaps) == blocks;
    DeallocatedInSets(v.fs.Inodes(), before, Ext4Alloc.AllBits(v.fs.inodeBitmaps), i);
    NumbersAre(v);
    v.inodes := v.inodes - {i};
    v.Closed();
    NumberedJoin(v);
  }

  lemma EmptiedKeys(st: State, i: nat, st': State)
    requires Emptied(st, i, st')
    ensures st'.inodes.Keys == st.inodes.Keys
  {
    hide Sound, Owned, Ext, Tree;
  }

  lemma EmptiedMore(st: State, i: nat, st': State)
    requires Emptied(st, i, st')
    ensures i in st.inodes && st'.disk == st.disk && st'.used == st.used - Owned(st.disk, st.inodes[i])
    ensures st'.inodes.Keys == st.inodes.Keys && st'.inodes - {i} == st.inodes - {i} && st'.cache == st.cache - {i}
  {
    hide Sound, Owned, Ext, Tree;
    assert forall j :: j in st'.inodes.Keys <==> j in st.inodes.Keys;
  }

  lemma ReclaimedJoin(st: State, i: nat, st': State)
    requires Sound(st) && i in st.inodes && st'.inodes == st.inodes - {i}
    requires st'.disk == st.disk && st'.used == st.used - Owned(st.disk, st.inodes[i]) && st'.cache == st.cache - {i}
    ensures Reclaimed(st, i, st')
  {
    hide Sound, Owned;
  }

  // Runs

  /** What a user of the files sees: bytes by inode number. */
  ghost function FilesOf(st: State): map<nat, seq<byte>> {
    map i | i in st.inodes :: Content(st.disk, st.inodes[i])
  }

  ghost function AllOwned(st: State): set<nat> {
    set i, b | i in st.inodes && b in Owned(st.disk, st.inodes[i]) :: b
  }

  /** `Fail` stands for a write, or a directory's growth, that returned an error: it was to map the blocks from `from`
      up to `to` of an inode, on a volume of the blocks `all`. `Pause` stands for reads, and for operations that
      returned an error before they took a block. */
  datatype Op = Create(i: nat, kind: Kind, links: nat) | Write(i: nat, offset: nat, buf: seq<byte>)
              | Clear(i: nat) | Reclaim(i: nat) | Fail(i: nat, from: nat, to: nat, all: set<nat>) | Pause

  /** The same operations on byte sequences. */
  function Apply(files: map<nat, seq<byte>>, op: Op): map<nat, seq<byte>> {
    match op
    case Create(i, _, _) => files[i := []]
    case Write(i, offset, buf) => if i in files then files[i := Overwritten(files[i], offset, buf)] else files
    case Clear(i) => files[i := []]
    case Reclaim(i) => files - {i}
    case Fail(_, _, _, _) => files
    case Pause => files
  }

  /** What the methods promise of one operation. */
  ghost predicate Step(st: State, op: Op, st': State) {
    match op
    case Create(i, kind, links) => Created(st, i, kind, links, st')
    case Write(i, offset, buf) => WriteDone(st, st', i, offset, buf)
    case Clear(i) => Emptied(st, i, st')
    case Reclaim(i) => Reclaimed(st, i, st')
    case Fail(i, from, to, all) => Untouched(st, st') && Leaked(st, i, st'.used, all, from, to)
    case Pause => Untouched(st, st') && st'.used == st.used
  }

  ghost predicate Run(states: seq<State>, ops: seq<Op>) {
    && |states| == |ops| + 1
    && forall k :: 0 <= k < |ops| ==> Step(states[k], ops[k], states[k + 1])
  }

  function ApplyAll(files: map<nat, seq<byte>>, ops: seq<Op>): map<nat, seq<byte>> {
    if ops == [] then files else Apply(ApplyAll(files, ops[..|ops| - 1]), ops[|ops| - 1])
  }

  lemma OthersFiles(st: State, st': State, i: nat)
    requires OthersSame(st, st', i) && i in st.inodes && i in st'.inodes
    ensures FilesOf(st') == FilesOf(st)[i := Content(st'.disk, st'.inodes[i])]
  {
    hide Content;
    forall j ensures j in FilesOf(st') <==> j in FilesOf(st)[i := Content(st'.disk, st'.inodes[i])] {
      assert j in st'.inodes.Keys <==> j in st.inodes.Keys;
    }
  }

  lemma StepRefines(st: State, op: Op, st': State)
    requires Sound(st) && Step(st, op, st')
    ensures Sound(st') && FilesOf(st') == Apply(FilesOf(st), op)
  {
    hide Sound, Content, Owned, OthersSame, Overwritten, Emptied, Created, Reclaimed, Leaked;
    match op
    case Create(i, kind, links) => CreatedSound(st, i, kind, links, st');
    case Write(i, offset, buf) => OthersFiles(st, st', i);
    case Clear(i) =>
      EmptiedSound(st, i, st');
      OthersFiles(st, st', i);
    case Reclaim(i) => ReclaimedSound(st, i, st');
    case Fail(_, _, _, _) =>
    case Pause =>
  }

  /** After any run every file is sound and holds what the operations on byte sequences give. */
  lemma {:induction false} RunRefines(states: seq<State>, ops: seq<Op>)
    requires Run(states, ops) && Sound(states[0])
    ensures Sound(states[|ops|]) && FilesOf(states[|ops|]) == ApplyAll(FilesOf(states[0]), ops)
    decreases |ops|
  {
    hide Sound, FilesOf, Step, Apply;
    if ops != [] {
      var last := |ops| - 1;
      RunPrefix(states, ops);
      RunRefines(states[..last + 1], ops[..last]);
      assert Step(states[last], ops[last], states[last + 1]);
      StepRefines(states[last], ops[last], states[last + 1]);
    }
  }

  lemma RunPrefix(states: seq<State>, ops: seq<Op>)
    requires Run(states, ops) && ops != []
    ensures Run(states[..|ops|], ops[..|ops| - 1])
  {
    hide Step;
  }

  // Accounting

  /** The used blocks are the files' and those that no file ever owned, such as bitmaps and inode tables. */
  ghost predicate Accounted(st: State, fixed: set<nat>) {
    AllOwned(st) !! fixed && st.used == AllOwned(st) + fixed
  }

  lemma AllOwnedAfter(st: State, st': State, i: nat)
    requires Sound(st) && Sound(st') && OthersSame(st, st', i) && i in st.inodes && i in st'.inodes
    ensures AllOwned(st') == AllOwned(st) - Owned(st.disk, st.inodes[i]) + Owned(st'.disk, st'.inodes[i])
  {
    hide FilesOk, CacheOk, Owned, Content;
    forall b ensures b in AllOwned(st') <==> b in AllOwned(st) - Owned(st.disk, st.inodes[i]) + Owned(st'.disk, st'.inodes[i]) {
      if b in AllOwned(st') && b !in Owned(st'.disk, st'.inodes[i]) {
        var j :| j in st'.inodes && b in Owned(st'.disk, st'.inodes[j]);
        assert j in st.inodes.Keys && Apart(st.disk, st.inodes[j], st.inodes[i]);
        assert b in AllOwned(st);
      }
      if b in AllOwned(st) && b !in Owned(st.disk, st.inodes[i]) {
        var j :| j in st.inodes && b in Owned(st.disk, st.inodes[j]);
        assert j in st'.inodes.Keys;
      }
    }
  }

  lemma OwnedInAll(st: State, i: nat)
    requires i in st.inodes
    ensures Owned(st.disk, st.inodes[i]) <= AllOwned(st)
  {
    hide Owned;
  }

  /** Blocks moved between one file and the free ones. */
  lemma ExchangeAccounted(st: State, st': State, i: nat, fixed: set<nat>)
    requires Sound(st) && Sound(st') && OthersSame(st, st', i) && i in st.inodes && i in st'.inodes
    requires Exchanged(st.used, st'.used, Owned(st.disk, st.inodes[i]), Owned(st'.disk, st'.inodes[i]))
    requires Accounted(st, fixed)
    ensures Accounted(st', fixed)
  {
    hide Sound, OthersSame, AllOwned, Owned;
    AllOwnedAfter(st, st', i);
    OwnedInAll(st, i);
  }

  lemma PauseAccounted(st: State, st': State, fixed: set<nat>)
    requires Untouched(st, st') && st'.used == st.used && Accounted(st, fixed)
    ensures Accounted(st', fixed)
  {
    hide Sound, Content, Ext, Owned;
    forall b ensures b in AllOwned(st') <==> b in AllOwned(st) {
      if b in AllOwned(st) {
        var j :| j in st.inodes && b in Owned(st.disk, st.inodes[j]);
      }
      if b in AllOwned(st') {
        var j :| j in st'.inodes && b in Owned(st'.disk, st'.inodes[j]);
      }
    }
  }

  lemma StepAccounted(st: State, op: Op, st': State, fixed: set<nat>)
    requires Sound(st) && Step(st, op, st') && !op.Fail? && Accounted(st, fixed)
    ensures Accounted(st', fixed)
  {
    hide Sound, Content, Owned, OthersSame, Exchanged, Overwritten, Untouched, AllOwned, Emptied, Created;
    match op
    case Create(i, kind, links) => CreatedAccounted(st, i, kind, links, st', fixed);
    case Write(i, offset, buf) => ExchangeAccounted(st, st', i, fixed);
    case Clear(i) => EmptiedAccounted(st, i, st', fixed);
    case Reclaim(i) =>
      ReclaimedSound(st, i, st');
      OwnedInAll(st, i);
    case Pause => PauseAccounted(st, st', fixed);
  }

  lemma CreatedAccounted(st: State, i: nat, kind: Kind, links: nat, st': State, fixed: set<nat>)
    requires Created(st, i, kind, links, st') && Accounted(st, fixed)
    ensures Accounted(st', fixed)
  {
    hide Sound, AllOwned;
    CreatedSound(st, i, kind, links, st');
  }

  lemma EmptiedAccounted(st: State, i: nat, st': State, fixed: set<nat>)
    requires Emptied(st, i, st') && Accounted(st, fixed)
    ensures Accounted(st', fixed)
  {
    hide Sound, Owned, Ext, Tree, OthersSame, AllOwned, OnlyInode, Content;
    EmptiedSound(st, i, st');
    ExchangeAccounted(st, st', i, fixed);
  }

  /** In runs without errors the bitmap is exactly the files' blocks and the fixed ones. */
  lemma {:induction false} RunAccounted(states: seq<State>, ops: seq<Op>, fixed: set<nat>)
    requires Run(states, ops) && Sound(states[0]) && Accounted(states[0], fixed)
    requires forall k :: 0 <= k < |ops| ==> !ops[k].Fail?
    ensures Accounted(states[|ops|], fixed)
    decreases |ops|
  {
    hide Sound, Accounted, Step;
    if ops != [] {
      var last := |ops| - 1;
      RunPrefix(states, ops);
      var earlier := states[..last + 1];
      RunAccounted(earlier, ops[..last], fixed);
      RunRefines(earlier, ops[..last]);
      assert Step(states[last], ops[last], states[last + 1]);
      StepAccounted(states[last], ops[last], states[last + 1], fixed);
    }
  }

  /** Two files never share a block, whatever the run. */
  lemma RunApart(states: seq<State>, ops: seq<Op>, i: nat, j: nat)
    requires Run(states, ops) && Sound(states[0])
    requires i in states[|ops|].inodes && j in states[|ops|].inodes && i != j
    ensures var st := states[|ops|];
            && Owned(st.disk, st.inodes[i]) !! Owned(st.disk, st.inodes[j])
            && Owned(st.disk, st.inodes[i]) <= st.used
  {
    hide FileOk, Owned, CacheOk, Step;
    RunRefines(states, ops);
    SoundApart(states[|ops|], i);
  }
}
