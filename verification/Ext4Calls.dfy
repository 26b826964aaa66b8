/** Sequences of calls on a volume of ext4-fs/src/vfs.rs, names and bytes of files mixed: what each call answers, what it
    does to the tree of names and the bytes of the files, as its counterpart on plain values does, and what it does
    to blocks and inode numbers. */
module Ext4Calls {
  import opened Common
  import opened Ext4Types
  import opened Ext4Extents
  import opened Ext4Layout
  import opened Ext4Volume
  import opened Ext4FileState
  import opened Ext4FileSteps
  import opened Ext4Files
  import opened Ext4ReadWrite
  import opened Ext4Runs
  import opened Ext4Kept
  import opened Ext4Leaks
  import opened Ext4DirBlock
  import opened Ext4Directory
  import opened Ext4Names
  import opened Ext4Mixed
  import Ns = Ext4Namespace
  import Ext4Alloc

  // Calls and answers

  datatype Call = CreateFile(d: nat, name: Name) | CreateDir(d: nat, name: Name) | LinkInode(d: nat, name: Name, target: nat)
                | Unlink(d: nat, name: Name) | Rename(d: nat, from: Name, to: Name)
                | WriteAt(i: nat, offset: nat, buf: seq<byte>) | ReadAt(i: nat, offset: nat, len: nat) | Clear(i: nat)

  /** `LeftOut` answers a call that its caller was not to make. */
  datatype Answer = Success | Made(i: nat) | Wrote(n: nat) | Got(bytes: seq<byte>) | Failure(error: Ext4Error) | LeftOut

  /** What a caller has to respect: handles of live inodes, sizes and counts within their fields, and no new name
      of more than 255 bytes for `rename`. */
  predicate Callable(inodes: map<nat, Inode>, call: Call) {
    match call
    case CreateFile(d, _) => d in inodes && DirBlocks(inodes[d]) + 1 < U32
    case CreateDir(d, _) => d in inodes && DirBlocks(inodes[d]) + 1 < U32 && inodes[d].links + 1 < U16
    case LinkInode(d, _, target) =>
      d in inodes && DirBlocks(inodes[d]) + 1 < U32 && target in inodes && inodes[target].links + 1 < U16
    case Unlink(d, _) => d in inodes
    case Rename(d, _, to) => d in inodes && DirBlocks(inodes[d]) + 1 < U32 && |to| <= EXT4_NAME_LEN
    case WriteAt(i, offset, buf) => i in inodes && WriteFits(offset, |buf|)
    case ReadAt(i, _, _) => i in inodes
    case Clear(i) => i in inodes
  }

  /** What a call may do to the plain values, given its answer. */
  ghost predicate Fitting(call: Call, change: Change, answer: Answer) {
    if answer.Failure? || answer.LeftOut? then change == Names(Ns.Refused)
    else match call
      case CreateFile(d, name) => answer.Made? && change == Names(Ns.CreateFileOp(d, name, answer.i))
      case CreateDir(d, name) => answer.Made? && change == Names(Ns.CreateDirOp(d, name, answer.i))
      case LinkInode(d, name, target) => answer.Success? && change == Names(Ns.LinkOp(d, name, target))
      case Unlink(d, name) =>
        answer.Success? && (change == Names(Ns.UnlinkFileOp(d, name)) || change == Names(Ns.UnlinkDirOp(d, name)))
      case Rename(d, from, to) =>
        answer.Success? && if from == to then change == Names(Ns.Refused)
                           else change.Names? && change.op.RenameOp? && change.op.d == d && change.op.n == from && change.op.to == to
      case WriteAt(i, offset, buf) =>
        answer == Wrote(|buf|) && change == if buf == [] then Names(Ns.Refused) else Bytes(i, offset, buf)
      case ReadAt(_, _, _) => answer.Got? && change == Names(Ns.Refused)
      case Clear(i) => answer.Success? && change == NoBytes(i)
  }

  /** The part of the bytes that a read asks for. */
  function Part(bytes: seq<byte>, offset: nat, len: nat): seq<byte> {
    if offset >= |bytes| then [] else bytes[offset..offset + Min(len, |bytes| - offset)]
  }

  /** A read of a file with these bytes tells the part of them that it asked for. */
  predicate Tells(files: map<nat, seq<byte>>, call: Call, answer: Answer) {
    call.ReadAt? && call.i in files && !answer.LeftOut? ==> answer == Got(Part(files[call.i], call.offset, call.len))
  }

  // What is due

  /** A volume at one moment: its files and directories, and the inode numbers whose bits are set. */
  datatype Moment = Moment(st: State, numbers: set<nat>)

  /** The blocks and the inode numbers that there are. */
  datatype Room = Room(blocks: set<nat>, numbers: set<nat>)

  ghost function Now(v: Volume): Moment
    reads v, v.fs.inodeBitmaps
  {
    Moment(St(v), Numbers(v))
  }

  ghost function RoomOf(v: Volume): Room {
    Room(v.AllBlocks(), AllInodes(v))
  }

  lemma NowParts(v: Volume)
    ensures Now(v).st == St(v) && Now(v).numbers == Numbers(v)
    ensures RoomOf(v).blocks == v.AllBlocks() && RoomOf(v).numbers == AllInodes(v)
  {
  }

  /** The error that a call must fail with, if there is one. */
  ghost function Due(st: State, call: Call): Option<Ext4Error> {
    match call
    case CreateFile(d, name) => NameError(st, d, name)
    case CreateDir(d, name) => NameError(st, d, name)
    case LinkInode(d, name, target) => LinkError(st, d, name, target)
    case Unlink(d, name) => UnlinkError(st, d, name)
    case Rename(d, from, to) => RenameError(st, d, from, to)
    case WriteAt(i, _, _) => FileError(st, i)
    case ReadAt(_, _, _) => None
    case Clear(i) => FileError(st, i)
  }

  ghost function FileError(st: State, i: nat): Option<Ext4Error> {
    if i in st.inodes && st.inodes[i].kind != Regular then Some(NotAFile) else None
  }

  lemma DueIs(st: State, call: Call)
    ensures call.CreateFile? || call.CreateDir? ==> Due(st, call) == NameError(st, call.d, call.name)
    ensures call.LinkInode? ==> Due(st, call) == LinkError(st, call.d, call.name, call.target)
    ensures call.Unlink? ==> Due(st, call) == UnlinkError(st, call.d, call.name)
    ensures call.Rename? ==> Due(st, call) == RenameError(st, call.d, call.from, call.to)
    ensures call.WriteAt? || call.Clear? ==>
              Due(st, call) == if call.i in st.inodes && st.inodes[call.i].kind != Regular then Some(NotAFile) else None
    ensures call.ReadAt? ==> Due(st, call) == None
  {
    hide NameError, LinkError, UnlinkError, RenameError;
  }

  /** With which other errors a call may fail: those for which a disk is to blame that hardly has room. */
  ghost predicate Crowded(w: Moment, room: Room, call: Call, e: Ext4Error) {
    match call
    case WriteAt(_, _, _) => Excused(w.st.used, room.blocks, e)
    case Unlink(_, _) => false
    case ReadAt(_, _, _) => false
    case Clear(_) => false
    case _ => RoomGone(w.st.used, room.blocks, w.numbers, room.numbers, e)
  }

  /** A call fails with the error that is due; if none is, it succeeds, or the disk is crowded. */
  ghost predicate Right(w: Moment, w': Moment, room: Room, call: Call, answer: Answer) {
    && (Due(w.st, call).Some? ==> answer == Failure(Due(w.st, call).value))
    && (Due(w.st, call).None? && answer.Failure? ==> Crowded(w', room, call, answer.error))
  }

  lemma RightAnswer(w: Moment, w': Moment, room: Room, call: Call, answer: Answer)
    requires Due(w.st, call).Some? ==> answer == Failure(Due(w.st, call).value)
    requires Due(w.st, call).None? && answer.Failure? ==> Crowded(w', room, call, answer.error)
    ensures Right(w, w', room, call, answer)
  {
    hide Due, Crowded;
  }

  lemma CrowdedIs(w: Moment, room: Room, call: Call, e: Ext4Error)
    ensures call.WriteAt? ==> (Crowded(w, room, call, e) <==> Excused(w.st.used, room.blocks, e))
    ensures call.CreateFile? || call.CreateDir? || call.LinkInode? || call.Rename? ==>
              (Crowded(w, room, call, e) <==> RoomGone(w.st.used, room.blocks, w.numbers, room.numbers, e))
  {
    hide Excused, RoomGone;
  }

  // Blocks and numbers

  /** How many blocks a call may take without giving them an owner, if it fails: those that its range lacks, or the
      one that a directory lacks. */
  ghost function MayLose(st: State, call: Call): nat {
    match call
    case WriteAt(i, offset, buf) =>
      if i in st.inodes then
        Lacking(Ext(st.disk, st.inodes[i]), offset / BLOCK_SZ, (offset + |buf| + (BLOCK_SZ - 1)) / BLOCK_SZ)
      else 0
    case Unlink(_, _) => 0
    case ReadAt(_, _, _) => 0
    case Clear(_) => 0
    case _ => 1
  }

  /** Blocks without an owner do not change; a failure may leave some more. */
  ghost predicate BlocksKept(st: State, st': State, call: Call, answer: Answer) {
    if answer.Failure? then Unowned(st) <= Unowned(st') && |Unowned(st')| <= |Unowned(st)| + MayLose(st, call)
    else Unowned(st') == Unowned(st)
  }

  /** Inode numbers that are taken and no live inode's. */
  ghost function Reserved(w: Moment): set<nat> {
    w.numbers - w.st.inodes.Keys
  }

  /** Exactly then a call takes an inode number for good: `create_dir`, its name accepted, finds a number and no block. */
  ghost predicate Forgets(w: Moment, room: Room, call: Call) {
    call.CreateDir? && NumberDue(w.st, call.d, call.name, w.numbers, room.numbers, room.blocks)
  }

  ghost predicate NumbersKept(w: Moment, w': Moment, room: Room, call: Call, answer: Answer) {
    if Forgets(w, room, call) then answer == Failure(NoSpace) && OneMore(Reserved(w), Reserved(w'))
    else Reserved(w') == Reserved(w)
  }

  ghost predicate OneMore(before: set<nat>, after: set<nat>) {
    exists i :: OneTaken(before, after, i)
  }

  lemma SameReserved(w: Moment, w': Moment, room: Room, call: Call, answer: Answer)
    requires Reserved(w') == Reserved(w) && !Forgets(w, room, call)
    ensures NumbersKept(w, w', room, call, answer)
  {
    hide Reserved, Forgets;
  }

  lemma ForgetsOnly(w: Moment, room: Room, call: Call)
    ensures Forgets(w, room, call) <==> call.CreateDir? && NumberDue(w.st, call.d, call.name, w.numbers, room.numbers, room.blocks)
  {
    hide NumberDue;
  }

  // One call

  ghost predicate Seen(st: State, st': State, change: Change) {
    Possible(ViewOf(st), change) && ViewOf(st') == Changed(ViewOf(st), change)
  }

  lemma SeenJoin(st: State, st': State, change: Change)
    requires Possible(ViewOf(st), change) && ViewOf(st') == Changed(ViewOf(st), change)
    ensures Seen(st, st', change)
  {
    hide Possible, ViewOf, Changed;
  }

  lemma SeenParts(st: State, st': State, change: Change)
    requires Seen(st, st', change)
    ensures Possible(ViewOf(st), change) && ViewOf(st') == Changed(ViewOf(st), change)
  {
    hide Possible, ViewOf, Changed;
  }

  /** One call: its answer, and what it did to the plain values, the blocks and the inode numbers. */
  ghost predicate Done(w: Moment, w': Moment, room: Room, call: Call, change: Change, answer: Answer) {
    && Fitting(call, change, answer) && !answer.LeftOut? && Tells(ViewOf(w.st).files, call, answer) && Right(w, w', room, call, answer)
    && Seen(w.st, w'.st, change) && BlocksKept(w.st, w'.st, call, answer) && NumbersKept(w, w', room, call, answer)
  }

  lemma DoneJoin(w: Moment, w': Moment, room: Room, call: Call, change: Change, answer: Answer)
    requires Fitting(call, change, answer) && !answer.LeftOut? && Tells(ViewOf(w.st).files, call, answer)
    requires Right(w, w', room, call, answer) && Seen(w.st, w'.st, change)
    requires BlocksKept(w.st, w'.st, call, answer) && NumbersKept(w, w', room, call, answer)
    ensures Done(w, w', room, call, change, answer)
  {
    hide Fitting, Tells, ViewOf, Right, Seen, BlocksKept, NumbersKept;
  }

  /** A volume and its index cache between two calls. */
  ghost predicate Ready(v: Volume, c: DirIndexCache)
    reads v, v.fs, v.fs.blockBitmaps, v.fs.inodeBitmaps, c
  {
    v.Valid() && Numbered(v) && FsOk(St(v), c.index)
  }

  lemma ReadyParts(v: Volume, c: DirIndexCache)
    requires Ready(v, c)
    ensures v.Valid() && Numbered(v) && FsOk(St(v), c.index)
  {
  }

  lemma ReadyJoin(v: Volume, c: DirIndexCache)
    requires v.Valid() && Numbered(v) && FsOk(St(v), c.index)
    ensures Ready(v, c)
  {
  }

  /** A call that failed and left all alone. */
  lemma FailedDone(w: Moment, w': Moment, room: Room, call: Call, e: Ext4Error, index: map<nat, Ns.Index>)
    requires FsOk(w.st, index) && Untouched(w.st, w'.st) && |w'.st.used| <= |w.st.used| + MayLose(w.st, call)
    requires Right(w, w', room, call, Failure(e)) && NumbersKept(w, w', room, call, Failure(e)) && !call.ReadAt?
    ensures FsOk(w'.st, index) && Done(w, w', room, call, Names(Ns.Refused), Failure(e))
  {
    hide *;
    FsParts(w.st, index);
    NothingChanged(w.st, w'.st, index);
    SeenJoin(w.st, w'.st, Names(Ns.Refused));
    FailedFits(w.st, call, e);
    UnownedMore(w.st, w'.st);
    FailedBlocks(w.st, w'.st, call, e);
    DoneJoin(w, w', room, call, Names(Ns.Refused), Failure(e));
  }

  lemma FailedFits(st: State, call: Call, e: Ext4Error)
    ensures Fitting(call, Names(Ns.Refused), Failure(e)) && (!call.ReadAt? ==> Tells(ViewOf(st).files, call, Failure(e)))
  {
    hide ViewOf;
  }

  lemma FailedBlocks(st: State, st': State, call: Call, e: Ext4Error)
    requires Unowned(st) <= Unowned(st') && |Unowned(st')| <= |Unowned(st)| + (|st'.used| - |st.used|)
    requires |st'.used| <= |st.used| + MayLose(st, call)
    ensures BlocksKept(st, st', call, Failure(e))
  {
    hide Unowned, MayLose;
  }

  /** What is in use on top is without an owner. */
  lemma UnownedMore(st: State, st': State)
    requires Sound(st) && Untouched(st, st')
    ensures Unowned(st) <= Unowned(st') && |Unowned(st')| <= |Unowned(st)| + (|st'.used| - |st.used|)
  {
    hide *;
    SameOwned(st, st');
    OwnedInUse(st);
    UntouchedMore(st, st');
    MoreSlack(st, st');
  }

  lemma MoreSlack(st: State, st': State)
    requires AllOwned(st') == AllOwned(st) && AllOwned(st) <= st.used <= st'.used
    ensures Unowned(st) <= Unowned(st') && |Unowned(st')| <= |Unowned(st)| + (|st'.used| - |st.used|)
  {
    hide AllOwned;
    assert st.used == Unowned(st) + AllOwned(st) && st'.used == Unowned(st') + AllOwned(st);
  }

  lemma SuccessBlocks(st: State, st': State, call: Call, answer: Answer)
    requires Unowned(st') == Unowned(st) && !answer.Failure?
    ensures BlocksKept(st, st', call, answer)
  {
    hide Unowned, MayLose;
  }

  lemma SameNumbers(w: Moment, w': Moment, room: Room, call: Call, answer: Answer)
    requires w'.numbers == w.numbers && w'.st.inodes.Keys == w.st.inodes.Keys && !Forgets(w, room, call)
    ensures NumbersKept(w, w', room, call, answer)
  {
    hide *;
    ReservedAre(w);
    ReservedAre(w');
    SameReserved(w, w', room, call, answer);
  }

  lemma ReservedAre(w: Moment)
    ensures Reserved(w) == w.numbers - w.st.inodes.Keys
  {
  }

  /** The number of a new inode was taken for it. */
  lemma MadeNumber(w: Moment, w': Moment, room: Room, call: Call, answer: Answer, i: nat, kind: Kind)
    requires w.st.inodes.Keys <= w.numbers && OneTaken(w.numbers, w'.numbers, i) && !Forgets(w, room, call)
    requires TreeOf(w'.st).kinds == TreeOf(w.st).kinds[i := kind]
    ensures NumbersKept(w, w', room, call, answer)
  {
    hide *;
    KeysOfTree(w.st);
    KeysOfTree(w'.st);
    OneTakenJoin(w.numbers, w'.numbers, i);
    ReservedAre(w);
    ReservedAre(w');
    KeysPlus(TreeOf(w.st).kinds, i, kind);
    assert Reserved(w') == Reserved(w);
    SameReserved(w, w', room, call, answer);
  }

  lemma KeysPlus(kinds: map<nat, Kind>, i: nat, kind: Kind)
    ensures kinds[i := kind].Keys == kinds.Keys + {i}
  {
  }

  lemma KeysOfTree(st: State)
    ensures TreeOf(st).kinds.Keys == st.inodes.Keys
  {
    hide IndexOf;
  }

  lemma NumberedKeys(v: Volume)
    requires Numbered(v)
    ensures v.inodes.Keys <= Numbers(v)
  {
  }

  lemma AddsName(st: State, call: Call)
    requires call.CreateFile? || call.CreateDir? || call.LinkInode? || call.Rename?
    ensures MayLose(st, call) == 1
  {
  }

  lemma RightOf<T>(w: Moment, v: Volume, call: Call, r: Result<T>, answer: Answer)
    requires call.CreateFile? || call.CreateDir? || call.LinkInode? || call.Rename?
    requires RightError(Due(w.st, call), r, v)
    requires if r.Err? then answer == Failure(r.error) else !answer.Failure?
    ensures Right(w, Now(v), RoomOf(v), call, answer)
  {
    hide Due, RoomGone;
  }

  lemma CleanBlocks(st: State, st': State, call: Call, answer: Answer)
    requires Clean(st, st') && !answer.Failure?
    ensures BlocksKept(st, st', call, answer)
  {
    hide *;
    CleanParts(st, st');
    SuccessBlocks(st, st', call, answer);
  }

  lemma NoRead(files: map<nat, seq<byte>>, call: Call, answer: Answer)
    requires !call.ReadAt?
    ensures Tells(files, call, answer)
  {
  }

  // One call after the other

  /** A free name, as the error that is due for it tells. */
  lemma FreeName(st: State, d: nat, name: Name)
    requires d in st.inodes && NameError(st, d, name).None?
    ensures Ns.Free(TreeOf(st), d, name)
  {
    hide *;
    NameErrorIs(st, d, name);
    TreeAt(st, d);
    FreeJoin(TreeOf(st), d, name);
  }

  lemma CallableParts(inodes: map<nat, Inode>, call: Call)
    requires Callable(inodes, call)
    ensures match call
            case CreateFile(d, _) => d in inodes && DirBlocks(inodes[d]) + 1 < U32
            case CreateDir(d, _) => d in inodes && DirBlocks(inodes[d]) + 1 < U32 && inodes[d].links + 1 < U16
            case LinkInode(d, _, target) =>
              d in inodes && DirBlocks(inodes[d]) + 1 < U32 && target in inodes && inodes[target].links + 1 < U16
            case Unlink(d, _) => d in inodes
            case Rename(d, _, to) => d in inodes && DirBlocks(inodes[d]) + 1 < U32 && |to| <= EXT4_NAME_LEN
            case WriteAt(i, offset, buf) => i in inodes && WriteFits(offset, |buf|)
            case ReadAt(i, _, _) => i in inodes
            case Clear(i) => i in inodes
  {
    hide DirBlocks, WriteFits;
  }

  lemma RightParts<T>(due: Option<Ext4Error>, r: Result<T>, v: Volume)
    requires RightError(due, r, v) && r.Ok?
    ensures due.None?
  {
  }

  /** A call on names that failed. */
  lemma NameRefused(w: Moment, w': Moment, room: Room, call: Call, e: Ext4Error, index: map<nat, Ns.Index>)
    requires call.CreateFile? || call.CreateDir? || call.LinkInode? || call.Rename?
    requires FsOk(w.st, index) && LeftAlone(w.st, w'.st) && Right(w, w', room, call, Failure(e))
    requires NumbersKept(w, w', room, call, Failure(e))
    ensures Done(w, w', room, call, Names(Ns.Refused), Failure(e))
  {
    hide *;
    LeftAloneParts(w.st, w'.st);
    AddsName(w.st, call);
    FailedDone(w, w', room, call, e, index);
  }

  method CallCreateFile(v: Volume, c: DirIndexCache, call: Call) returns (answer: Answer, ghost change: Change)
    requires Ready(v, c) && Callable(v.inodes, call) && call.CreateFile?
    modifies v, v.fs, v.fs.blockBitmaps, v.fs.inodeBitmaps, c
    ensures Ready(v, c) && Done(old(Now(v)), Now(v), RoomOf(v), call, change, answer)
  {
    hide *;
    ghost var w := Now(v);
    ghost var index := c.index;
    NowParts(v);
    ReadyParts(v, c);
    CallableParts(v.inodes, call);
    NumberedKeys(v);
    StParts(v);
    DueIs(w.st, call);
    ForgetsOnly(w, RoomOf(v), call);
    var r := Ext4Names.CreateFile(v, c, call.d, call.name);
    NowParts(v);
    StParts(v);
    ReadyJoin(v, c);
    if r.Err? {
      answer, change := Failure(r.error), Names(Ns.Refused);
      RightOf(w, v, call, r, answer);
      SameInodes(w.st, St(v));
      SameNumbers(w, Now(v), RoomOf(v), call, answer);
      NameRefused(w, Now(v), RoomOf(v), call, r.error, index);
      return;
    }
    answer, change := Made(r.value), Names(Ns.CreateFileOp(call.d, call.name, r.value));
    RightOf(w, v, call, r, answer);
    RightParts(NameError(w.st, call.d, call.name), r, v);
    FreeName(w.st, call.d, call.name);
    EnteredView(w.st, St(v), call.d, call.name, r.value);
    SeenJoin(w.st, St(v), change);
    EnteredParts(w.st, St(v), call.d, call.name, r.value);
    CleanBlocks(w.st, St(v), call, answer);
    CreateKinds(TreeOf(w.st), call.d, call.name, r.value);
    MadeNumber(w, Now(v), RoomOf(v), call, answer, r.value, Regular);
    CreateFits(call, r.value);
    NoRead(ViewOf(w.st).files, call, answer);
    DoneJoin(w, Now(v), RoomOf(v), call, change, answer);
  }

  lemma CreateKinds(t: Ns.Tree, d: nat, n: Name, i: nat)
    requires d in t.names
    ensures Ns.Create(t, d, n, i).kinds == t.kinds[i := Regular]
    ensures d in t.links ==> Ns.CreateDir(t, d, n, i).kinds == t.kinds[i := Directory]
  {
  }

  lemma CreateFits(call: Call, i: nat)
    ensures call.CreateFile? ==> Fitting(call, Names(Ns.CreateFileOp(call.d, call.name, i)), Made(i))
    ensures call.CreateDir? ==> Fitting(call, Names(Ns.CreateDirOp(call.d, call.name, i)), Made(i))
  {
  }

  method CallCreateDir(v: Volume, c: DirIndexCache, call: Call) returns (answer: Answer, ghost change: Change)
    requires Ready(v, c) && Callable(v.inodes, call) && call.CreateDir?
    modifies v, v.fs, v.fs.blockBitmaps, v.fs.inodeBitmaps, c
    ensures Ready(v, c) && Done(old(Now(v)), Now(v), RoomOf(v), call, change, answer)
  {
    hide *;
    ghost var w := Now(v);
    ghost var index := c.index;
    NowParts(v);
    ReadyParts(v, c);
    CallableParts(v.inodes, call);
    NumberedKeys(v);
    StParts(v);
    DueIs(w.st, call);
    ForgetsOnly(w, RoomOf(v), call);
    var r := Ext4Names.CreateDir(v, c, call.d, call.name);
    NowParts(v);
    StParts(v);
    ReadyJoin(v, c);
    if r.Err? {
      answer, change := Failure(r.error), Names(Ns.Refused);
      RightOf(w, v, call, r, answer);
      SameInodes(w.st, St(v));
      if Forgets(w, RoomOf(v), call) {
        NumberForgotten(w, Now(v), RoomOf(v), call);
      } else {
        SameNumbers(w, Now(v), RoomOf(v), call, answer);
      }
      NameRefused(w, Now(v), RoomOf(v), call, r.error, index);
      return;
    }
    answer, change := Made(r.value), Names(Ns.CreateDirOp(call.d, call.name, r.value));
    RightOf(w, v, call, r, answer);
    RightParts(NameError(w.st, call.d, call.name), r, v);
    FreeName(w.st, call.d, call.name);
    DirEnteredView(w.st, St(v), call.d, call.name, r.value);
    SeenJoin(w.st, St(v), change);
    DirEnteredParts(w.st, St(v), call.d, call.name, r.value);
    CleanBlocks(w.st, St(v), call, answer);
    CreateKinds(TreeOf(w.st), call.d, call.name, r.value);
    MadeNumber(w, Now(v), RoomOf(v), call, answer, r.value, Directory);
    CreateFits(call, r.value);
    NoRead(ViewOf(w.st).files, call, answer);
    DoneJoin(w, Now(v), RoomOf(v), call, change, answer);
  }

  /** A number that was free is taken now, and nobody's. */
  lemma NumberForgotten(w: Moment, w': Moment, room: Room, call: Call)
    requires Forgets(w, room, call) && w.st.inodes.Keys <= w.numbers && w'.st.inodes == w.st.inodes
    requires exists i :: OneTaken(w.numbers, w'.numbers, i)
    ensures NumbersKept(w, w', room, call, Failure(NoSpace))
  {
    hide Forgets, OneTaken;
    var i :| OneTaken(w.numbers, w'.numbers, i);
    OneTakenJoin(w.numbers, w'.numbers, i);
    assert Reserved(w') == Reserved(w) + {i};
    OneTakenJoin(Reserved(w), Reserved(w'), i);
  }

  method CallLinkInode(v: Volume, c: DirIndexCache, call: Call) returns (answer: Answer, ghost change: Change)
    requires Ready(v, c) && Callable(v.inodes, call) && call.LinkInode?
    modifies v, v.fs, v.fs.blockBitmaps, v.fs.inodeBitmaps, c
    ensures Ready(v, c) && Done(old(Now(v)), Now(v), RoomOf(v), call, change, answer)
  {
    hide *;
    ghost var w := Now(v);
    ghost var index := c.index;
    NowParts(v);
    ReadyParts(v, c);
    CallableParts(v.inodes, call);
    NumberedKeys(v);
    StParts(v);
    DueIs(w.st, call);
    ForgetsOnly(w, RoomOf(v), call);
    var r := Ext4Names.LinkInode(v, c, call.d, call.name, call.target);
    NowParts(v);
    StParts(v);
    ReadyJoin(v, c);
    answer, change := if r.Err? then Failure(r.error) else Success, Names(Ns.Refused);
    RightOf(w, v, call, r, answer);
    if r.Err? {
      SameInodes(w.st, St(v));
      SameNumbers(w, Now(v), RoomOf(v), call, answer);
      NameRefused(w, Now(v), RoomOf(v), call, r.error, index);
      return;
    }
    RightParts(LinkError(w.st, call.d, call.name, call.target), r, v);
    change := Names(Ns.LinkOp(call.d, call.name, call.target));
    LinkFree(w.st, call.d, call.name, call.target);
    LinkedView(w.st, St(v), call.d, call.name, call.target);
    SeenJoin(w.st, St(v), change);
    LinkedParts(w.st, St(v), call.d, call.name, call.target);
    CleanBlocks(w.st, St(v), call, answer);
    LinkOpIs(TreeOf(w.st), call.d, call.name, call.target);
    SameKindKeys(w.st, St(v));
    SameNumbers(w, Now(v), RoomOf(v), call, answer);
    LinkFits(call);
    NoRead(ViewOf(w.st).files, call, answer);
    DoneJoin(w, Now(v), RoomOf(v), call, change, answer);
  }

  lemma SameKindKeys(st: State, st': State)
    requires TreeOf(st').kinds == TreeOf(st).kinds
    ensures st'.inodes.Keys == st.inodes.Keys
  {
    hide *;
    KeysOfTree(st);
    KeysOfTree(st');
  }

  lemma LinkFree(st: State, d: nat, name: Name, target: nat)
    requires d in st.inodes && target in st.inodes && LinkError(st, d, name, target).None?
    ensures Ns.Free(TreeOf(st), d, name) && target in TreeOf(st).kinds && TreeOf(st).kinds[target] == Regular
  {
    hide *;
    LinkErrorIs(st, d, name, target);
    TreeAt(st, d);
    TreeAt(st, target);
    FreeJoin(TreeOf(st), d, name);
  }

  lemma LinkFits(call: Call)
    requires call.LinkInode?
    ensures Fitting(call, Names(Ns.LinkOp(call.d, call.name, call.target)), Success)
  {
  }

  method CallUnlink(v: Volume, c: DirIndexCache, call: Call) returns (answer: Answer, ghost change: Change)
    requires Ready(v, c) && Callable(v.inodes, call) && call.Unlink?
    modifies v, v.fs, v.fs.blockBitmaps, v.fs.inodeBitmaps, c
    ensures Ready(v, c) && Done(old(Now(v)), Now(v), RoomOf(v), call, change, answer)
  {
    hide *;
    ghost var w := Now(v);
    ghost var index := c.index;
    NowParts(v);
    ReadyParts(v, c);
    CallableParts(v.inodes, call);
    NumberedKeys(v);
    StParts(v);
    DueIs(w.st, call);
    ForgetsOnly(w, RoomOf(v), call);
    var r := Ext4Names.Unlink(v, c, call.d, call.name);
    NowParts(v);
    StParts(v);
    ReadyJoin(v, c);
    answer, change := if r.Err? then Failure(r.error) else Success, Names(Ns.Refused);
    RightAnswer(w, Now(v), RoomOf(v), call, answer);
    if r.Err? {
      SameInodes(w.st, St(v));
      LeftAloneParts(w.st, St(v));
      SameNumbers(w, Now(v), RoomOf(v), call, answer);
      FailedDone(w, Now(v), RoomOf(v), call, r.error, index);
      return;
    }
    ghost var op := UnlinkedView(w.st, St(v), call.d, call.name);
    change := Names(op);
    SeenJoin(w.st, St(v), change);
    CleanBlocks(w.st, St(v), call, answer);
    UnlinkOnly(w.st, St(v), call.d, call.name);
    GoneNumbers(w, Now(v), RoomOf(v), call, answer);
    UnlinkFits(call, op);
    NoRead(ViewOf(w.st).files, call, answer);
    DoneJoin(w, Now(v), RoomOf(v), call, change, answer);
  }

  lemma UnlinkOnly(st: State, st': State, d: nat, n: Name)
    requires Unlinked(TreeOf(st), TreeOf(st'), d, n)
    ensures st'.inodes.Keys <= st.inodes.Keys
  {
    hide *;
    var op := UnlinkOpIs(TreeOf(st), TreeOf(st'), d, n);
    KeysOfTree(st);
    KeysOfTree(st');
  }

  /** Numbers go with their inodes. */
  lemma GoneNumbers(w: Moment, w': Moment, room: Room, call: Call, answer: Answer)
    requires w'.st.inodes.Keys <= w.st.inodes.Keys && w'.numbers == w.numbers - (w.st.inodes.Keys - w'.st.inodes.Keys)
    requires !Forgets(w, room, call)
    ensures NumbersKept(w, w', room, call, answer)
  {
    hide *;
    ReservedAre(w);
    ReservedAre(w');
    assert Reserved(w') == Reserved(w);
    SameReserved(w, w', room, call, answer);
  }

  lemma UnlinkFits(call: Call, op: Ns.Op)
    requires call.Unlink? && (op == Ns.UnlinkFileOp(call.d, call.name) || op == Ns.UnlinkDirOp(call.d, call.name))
    ensures Fitting(call, Names(op), Success)
  {
  }

  method CallRename(v: Volume, c: DirIndexCache, call: Call) returns (answer: Answer, ghost change: Change)
    requires Ready(v, c) && Callable(v.inodes, call) && call.Rename?
    modifies v, v.fs, v.fs.blockBitmaps, v.fs.inodeBitmaps, c
    ensures Ready(v, c) && Done(old(Now(v)), Now(v), RoomOf(v), call, change, answer)
  {
    hide *;
    ghost var w := Now(v);
    ghost var index := c.index;
    NowParts(v);
    ReadyParts(v, c);
    CallableParts(v.inodes, call);
    NumberedKeys(v);
    StParts(v);
    DueIs(w.st, call);
    ForgetsOnly(w, RoomOf(v), call);
    var r := Ext4Names.Rename(v, c, call.d, call.from, call.to);
    NowParts(v);
    StParts(v);
    ReadyJoin(v, c);
    answer, change := if r.Err? then Failure(r.error) else Success, Names(Ns.Refused);
    RightOf(w, v, call, r, answer);
    if r.Err? {
      SameInodes(w.st, St(v));
      SameNumbers(w, Now(v), RoomOf(v), call, answer);
      NameRefused(w, Now(v), RoomOf(v), call, r.error, index);
      return;
    }
    RightParts(RenameError(w.st, call.d, call.from, call.to), r, v);
    if call.from == call.to {
      SameNumbers(w, Now(v), RoomOf(v), call, answer);
      FsParts(St(v), c.index);
      LeftAloneSame(w.st, St(v));
      SameName(call);
      NoRead(ViewOf(w.st).files, call, answer);
      IdleDone(w, Now(v), RoomOf(v), call, answer, index);
      return;
    }
    RenameFree(w.st, call.d, call.from, call.to);
    ghost var op := RenamedView(w.st, St(v), call.d, call.from, call.to);
    change := Names(op);
    SeenJoin(w.st, St(v), change);
    CleanBlocks(w.st, St(v), call, answer);
    RenamedKinds(w.st, St(v), call.d, call.from, call.to);
    SameKindKeys(w.st, St(v));
    SameNumbers(w, Now(v), RoomOf(v), call, answer);
    RenameFits(call, op);
    NoRead(ViewOf(w.st).files, call, answer);
    DoneJoin(w, Now(v), RoomOf(v), call, change, answer);
  }

  lemma SameName(call: Call)
    requires call.Rename? && call.from == call.to
    ensures Fitting(call, Names(Ns.Refused), Success)
  {
  }

  lemma RenamedKinds(st: State, st': State, d: nat, from: Name, to: Name)
    requires Renamed(st, st', d, from, to)
    ensures TreeOf(st').kinds == TreeOf(st).kinds
  {
    hide TreeOf, Clean;
  }

  /** A call that had nothing to do, or only to read. */
  lemma IdleDone(w: Moment, w': Moment, room: Room, call: Call, answer: Answer, index: map<nat, Ns.Index>)
    requires FsOk(w.st, index) && Untouched(w.st, w'.st) && w'.st.used == w.st.used
    requires Fitting(call, Names(Ns.Refused), answer) && !answer.Failure? && !answer.LeftOut?
    requires Tells(ViewOf(w.st).files, call, answer) && Right(w, w', room, call, answer) && NumbersKept(w, w', room, call, answer)
    ensures FsOk(w'.st, index) && Done(w, w', room, call, Names(Ns.Refused), answer)
  {
    hide *;
    NothingChanged(w.st, w'.st, index);
    SeenJoin(w.st, w'.st, Names(Ns.Refused));
    UntouchedClean(w.st, w'.st);
    CleanBlocks(w.st, w'.st, call, answer);
    DoneJoin(w, w', room, call, Names(Ns.Refused), answer);
  }

  lemma RenameFits(call: Call, op: Ns.Op)
    requires call.Rename? && op.RenameOp? && op.d == call.d && op.n == call.from && op.to == call.to && call.from != call.to
    ensures Fitting(call, Names(op), Success)
  {
  }

  lemma RenameFree(st: State, d: nat, from: Name, to: Name)
    requires d in st.inodes && RenameError(st, d, from, to).None? && from != to
    ensures Ns.Free(TreeOf(st), d, to) && from != Ns.DOT && from != Ns.DOTDOT
  {
    hide *;
    RenameErrorIs(st, d, from, to);
    TreeAt(st, d);
    FreeJoin(TreeOf(st), d, to);
  }

  /** The numbers of live inodes are taken still: none is new, and the bits are the same. */
  lemma StillNumbered(v: Volume, before: set<nat>, bits: seq<seq<bool>>)
    requires Ext4Alloc.AllBits(v.fs.inodeBitmaps) == bits && v.inodes.Keys <= before
    requires Ext4Alloc.Fits(v.fs.Inodes(), bits) && before <= Ext4Alloc.Used(v.fs.Inodes(), bits)
    ensures Numbered(v)
  {
    hide *;
    NumberedJoin(v);
  }

  method CallWriteAt(v: Volume, c: DirIndexCache, call: Call) returns (answer: Answer, ghost change: Change)
    requires Ready(v, c) && Callable(v.inodes, call) && call.WriteAt?
    modifies v, v.fs, v.fs.blockBitmaps, v.fs.inodeBitmaps, c
    ensures Ready(v, c) && Done(old(Now(v)), Now(v), RoomOf(v), call, change, answer)
  {
    hide *;
    ghost var w := Now(v);
    ghost var index := c.index;
    NowParts(v);
    ReadyParts(v, c);
    CallableParts(v.inodes, call);
    NumberedKeys(v);
    StParts(v);
    DueIs(w.st, call);
    ForgetsOnly(w, RoomOf(v), call);
    FsParts(w.st, c.index);
    NumberedParts(v);
    v.Opened();
    v.fs.TwoBitmaps();
    ghost var bits := Ext4Alloc.AllBits(v.fs.inodeBitmaps);
    var r := Ext4ReadWrite.WriteAt(v, call.i, call.offset, call.buf);
    assert Ext4Alloc.AllBits(v.fs.inodeBitmaps) == bits && Numbers(v) == w.numbers;
    NowParts(v);
    StParts(v);
    answer, change := if r.Err? then Failure(r.error) else Wrote(r.value), Names(Ns.Refused);
    if r.Err? {
      CrowdedIs(Now(v), RoomOf(v), call, r.error);
      WriteLoses(w.st, St(v), call, v.used, v.AllBlocks());
    }
    RightAnswer(w, Now(v), RoomOf(v), call, answer);
    NoRead(ViewOf(w.st).files, call, answer);
    WriteFitting(call);
    if r.Ok? && call.buf != [] {
      change := Bytes(call.i, call.offset, call.buf);
      WroteSeen(w.st, St(v), call, c.index);
      SuccessBlocks(w.st, St(v), call, answer);
      SameNumbers(w, Now(v), RoomOf(v), call, answer);
      DoneJoin(w, Now(v), RoomOf(v), call, change, answer);
    } else {
      UntouchedMore(w.st, St(v));
      SameNumbers(w, Now(v), RoomOf(v), call, answer);
      if r.Err? {
        FailedDone(w, Now(v), RoomOf(v), call, r.error, index);
        NothingChanged(w.st, St(v), c.index);
      } else {
        IdleDone(w, Now(v), RoomOf(v), call, answer, index);
      }
    }
    StillNumbered(v, w.st.inodes.Keys, bits);
    ReadyJoin(v, c);
  }

  /** A failed write loses no more blocks than its range lacked. */
  lemma WriteLoses(st: State, st': State, call: Call, used: set<nat>, all: set<nat>)
    requires Sound(st) && call.WriteAt? && call.i in st.inodes && used == st'.used
    requires st.inodes[call.i].kind != Regular ==> st'.used == st.used
    requires st.inodes[call.i].kind == Regular ==>
               Leaked(st, call.i, used, all, call.offset / BLOCK_SZ, (call.offset + |call.buf| + (BLOCK_SZ - 1)) / BLOCK_SZ)
    ensures |st'.used| <= |st.used| + MayLose(st, call)
  {
    hide *;
    U32Value();
    MayLoseWrite(st, call);
    if st.inodes[call.i].kind == Regular {
      LeakedCount(st, call.i, used, all, call.offset / BLOCK_SZ, (call.offset + |call.buf| + (BLOCK_SZ - 1)) / BLOCK_SZ);
    }
  }

  lemma MayLoseWrite(st: State, call: Call)
    requires call.WriteAt? && call.i in st.inodes
    ensures MayLose(st, call) ==
            Lacking(Ext(st.disk, st.inodes[call.i]), call.offset / BLOCK_SZ, (call.offset + |call.buf| + (BLOCK_SZ - 1)) / BLOCK_SZ)
  {
    hide Lacking, Ext;
  }

  lemma WroteSeen(st: State, st': State, call: Call, index: map<nat, Ns.Index>)
    requires FsOk(st, index) && call.WriteAt? && call.i in st.inodes && st.inodes[call.i].kind == Regular
    requires WriteDone(st, st', call.i, call.offset, call.buf)
    ensures FsOk(st', index) && Seen(st, st', Bytes(call.i, call.offset, call.buf))
    ensures Unowned(st') == Unowned(st) && st'.inodes.Keys == st.inodes.Keys
  {
    hide *;
    FsParts(st, index);
    WriteKeepsNames(st, st', call.i, call.offset, call.buf, index);
    SeenJoin(st, st', Bytes(call.i, call.offset, call.buf));
    WriteDoneParts(st, st', call.i, call.offset, call.buf);
    ChangedKeys(st, st', call.i);
    WriteStep(st, st', call.i, call.offset, call.buf);
    OpSucceeds(st, st', Op.Write(call.i, call.offset, call.buf));
    SucceededSame(st, st');
  }

  lemma OpSucceeds(st: State, st': State, op: Op)
    requires Step(st, op, st') && !op.Fail?
    ensures Succeeded(st, st')
  {
    hide Clean, Step;
    assert FileOp(st, op, st');
  }

  lemma WriteStep(st: State, st': State, i: nat, offset: nat, buf: seq<byte>)
    requires WriteDone(st, st', i, offset, buf)
    ensures Step(st, Op.Write(i, offset, buf), st')
  {
    hide WriteDone;
  }

  lemma WriteFitting(call: Call)
    ensures call.WriteAt? && call.buf != [] ==> Fitting(call, Bytes(call.i, call.offset, call.buf), Wrote(|call.buf|))
    ensures call.WriteAt? && call.buf == [] ==> Fitting(call, Names(Ns.Refused), Wrote(|call.buf|))
    ensures call.Clear? ==> Fitting(call, NoBytes(call.i), Success)
    ensures call.ReadAt? ==> forall bytes :: Fitting(call, Names(Ns.Refused), Got(bytes))
  {
  }

  method CallClear(v: Volume, c: DirIndexCache, call: Call) returns (answer: Answer, ghost change: Change)
    requires Ready(v, c) && Callable(v.inodes, call) && call.Clear?
    modifies v, v.fs, v.fs.blockBitmaps, v.fs.inodeBitmaps, c
    ensures Ready(v, c) && Done(old(Now(v)), Now(v), RoomOf(v), call, change, answer)
  {
    hide *;
    ghost var w := Now(v);
    ghost var index := c.index;
    NowParts(v);
    ReadyParts(v, c);
    CallableParts(v.inodes, call);
    NumberedKeys(v);
    StParts(v);
    DueIs(w.st, call);
    ForgetsOnly(w, RoomOf(v), call);
    FsParts(w.st, c.index);
    NumberedParts(v);
    v.Opened();
    v.fs.TwoBitmaps();
    ghost var bits := Ext4Alloc.AllBits(v.fs.inodeBitmaps);
    LeftAloneSame(w.st, w.st);
    var r := Ext4ReadWrite.Clear(v, call.i);
    assert Ext4Alloc.AllBits(v.fs.inodeBitmaps) == bits && Numbers(v) == w.numbers;
    NowParts(v);
    StParts(v);
    answer, change := if r.Err? then Failure(r.error) else Success, Names(Ns.Refused);
    RightAnswer(w, Now(v), RoomOf(v), call, answer);
    NoRead(ViewOf(w.st).files, call, answer);
    if r.Ok? {
      change := NoBytes(call.i);
      ClearedSeen(w.st, St(v), call, c.index);
      SuccessBlocks(w.st, St(v), call, answer);
      SameNumbers(w, Now(v), RoomOf(v), call, answer);
      WriteFitting(call);
      DoneJoin(w, Now(v), RoomOf(v), call, change, answer);
    } else {
      SameNumbers(w, Now(v), RoomOf(v), call, answer);
      FailedDone(w, Now(v), RoomOf(v), call, r.error, index);
    }
    StillNumbered(v, w.st.inodes.Keys, bits);
    ReadyJoin(v, c);
  }

  lemma ClearedSeen(st: State, st': State, call: Call, index: map<nat, Ns.Index>)
    requires FsOk(st, index) && call.Clear? && call.i in st.inodes && st.inodes[call.i].kind == Regular && Emptied(st, call.i, st')
    requires call.i in st'.inodes && st'.inodes[call.i].kind == st.inodes[call.i].kind && st'.inodes[call.i].links == st.inodes[call.i].links
    ensures FsOk(st', index) && Seen(st, st', NoBytes(call.i))
    ensures Unowned(st') == Unowned(st) && st'.inodes.Keys == st.inodes.Keys
  {
    hide *;
    FsParts(st, index);
    ClearKeepsNames(st, st', call.i, index);
    SeenJoin(st, st', NoBytes(call.i));
    EmptiedSound(st, call.i, st');
    EmptiedKeys(st, call.i, st');
    ClearStep(st, st', call.i);
    OpSucceeds(st, st', Op.Clear(call.i));
    SucceededSame(st, st');
  }

  lemma ClearStep(st: State, st': State, i: nat)
    requires Emptied(st, i, st')
    ensures Step(st, Op.Clear(i), st')
  {
    hide Emptied;
  }

  method CallReadAt(v: Volume, c: DirIndexCache, call: Call) returns (answer: Answer, ghost change: Change)
    requires Ready(v, c) && Callable(v.inodes, call) && call.ReadAt?
    modifies v, v.fs, v.fs.blockBitmaps, v.fs.inodeBitmaps, c
    ensures Ready(v, c) && Done(old(Now(v)), Now(v), RoomOf(v), call, change, answer)
  {
    hide *;
    ghost var w := Now(v);
    ghost var index := c.index;
    NowParts(v);
    ReadyParts(v, c);
    CallableParts(v.inodes, call);
    NumberedKeys(v);
    StParts(v);
    DueIs(w.st, call);
    ForgetsOnly(w, RoomOf(v), call);
    FsParts(w.st, c.index);
    NumberedParts(v);
    v.Opened();
    var buf := new byte[call.len](_ => 0);
    var n := Ext4ReadWrite.ReadAt(v, call.i, call.offset, buf);
    v.Closed();
    NowParts(v);
    StParts(v);
    ContentLength(v.disk, v.inodes[call.i]);
    if call.offset < v.inodes[call.i].size {
      MinValue(buf.Length, v.inodes[call.i].size - call.offset);
    }
    answer, change := Got(buf[..n]), Names(Ns.Refused);
    ReadTells(w.st, St(v), call, buf[..n]);
    SameNumbers(w, Now(v), RoomOf(v), call, answer);
    RightAnswer(w, Now(v), RoomOf(v), call, answer);
    WriteFitting(call);
    IdleDone(w, Now(v), RoomOf(v), call, answer, index);
    NumberedJoin(v);
    ReadyJoin(v, c);
  }

  lemma ReadTells(st: State, st': State, call: Call, bytes: seq<byte>)
    requires call.ReadAt? && call.i in st.inodes && st'.inodes == st.inodes && st'.disk == st.disk
    requires |bytes| == if call.offset >= st.inodes[call.i].size then 0 else Min(call.len, st.inodes[call.i].size - call.offset)
    requires |bytes| > 0 ==> |bytes| + call.offset <= |Content(st'.disk, st'.inodes[call.i])|
                             && bytes == Content(st'.disk, st'.inodes[call.i])[call.offset..call.offset + |bytes|]
    ensures Tells(ViewOf(st).files, call, Got(bytes))
  {
    hide *;
    BytesAt(st, call.i);
    ContentLength(st.disk, st.inodes[call.i]);
    PartIs(Content(st.disk, st.inodes[call.i]), call.offset, call.len);
    TellsIs(st, call, Got(bytes));
  }

  lemma ContentLength(disk: Ext4Tree.Disk, inode: Inode)
    ensures |Content(disk, inode)| == inode.size
  {
  }

  lemma PartIs(bytes: seq<byte>, offset: nat, len: nat)
    ensures offset >= |bytes| ==> Part(bytes, offset, len) == []
    ensures offset < |bytes| ==> offset + Min(len, |bytes| - offset) <= |bytes|
    ensures offset < |bytes| ==> Part(bytes, offset, len) == bytes[offset..offset + Min(len, |bytes| - offset)]
  {
  }

  lemma TellsIs(st: State, call: Call, answer: Answer)
    requires call.ReadAt?
    ensures (call.i in BytesOf(st) ==> answer == Got(Part(BytesOf(st)[call.i], call.offset, call.len))) ==> Tells(ViewOf(st).files, call, answer)
  {
    hide BytesOf, TreeOf, Part;
  }

  /** One call of any kind. */
  method Perform(v: Volume, c: DirIndexCache, call: Call) returns (answer: Answer, ghost change: Change)
    requires Ready(v, c) && Callable(v.inodes, call)
    modifies v, v.fs, v.fs.blockBitmaps, v.fs.inodeBitmaps, c
    ensures Ready(v, c) && Done(old(Now(v)), Now(v), RoomOf(v), call, change, answer)
  {
    hide *;
    match call
    case CreateFile(_, _) => answer, change := CallCreateFile(v, c, call);
    case CreateDir(_, _) => answer, change := CallCreateDir(v, c, call);
    case LinkInode(_, _, _) => answer, change := CallLinkInode(v, c, call);
    case Unlink(_, _) => answer, change := CallUnlink(v, c, call);
    case Rename(_, _, _) => answer, change := CallRename(v, c, call);
    case WriteAt(_, _, _) => answer, change := CallWriteAt(v, c, call);
    case ReadAt(_, _, _) => answer, change := CallReadAt(v, c, call);
    case Clear(_) => answer, change := CallClear(v, c, call);
  }

  // Runs

  /** One call of a run. A call that its caller was not to make is left out. */
  ghost predicate Stepped(w: Moment, w': Moment, room: Room, call: Call, change: Change, answer: Answer) {
    if Callable(w.st.inodes, call) then Done(w, w', room, call, change, answer)
    else answer == LeftOut && change == Names(Ns.Refused) && w' == w
  }

  ghost predicate Ran(ws: seq<Moment>, room: Room, calls: seq<Call>, changes: seq<Change>, answers: seq<Answer>) {
    && |ws| == |calls| + 1 && |changes| == |answers| == |calls|
    && forall k :: 0 <= k < |calls| ==> Stepped(ws[k], ws[k + 1], room, calls[k], changes[k], answers[k])
  }

  lemma RanNext(ws: seq<Moment>, room: Room, calls: seq<Call>, n: nat, changes: seq<Change>, answers: seq<Answer>,
                w: Moment, change: Change, answer: Answer)
    requires n < |calls| && Ran(ws, room, calls[..n], changes, answers) && Stepped(ws[n], w, room, calls[n], change, answer)
    ensures Ran(ws + [w], room, calls[..n + 1], changes + [change], answers + [answer])
  {
    hide Stepped;
  }

  lemma RanPrefix(ws: seq<Moment>, room: Room, calls: seq<Call>, changes: seq<Change>, answers: seq<Answer>)
    requires Ran(ws, room, calls, changes, answers) && calls != []
    ensures var n := |calls| - 1;
            && Ran(ws[..n + 1], room, calls[..n], changes[..n], answers[..n])
            && Stepped(ws[n], ws[n + 1], room, calls[n], changes[n], answers[n])
  {
    hide Stepped;
  }

  lemma SteppedParts(w: Moment, w': Moment, room: Room, call: Call, change: Change, answer: Answer)
    requires Stepped(w, w', room, call, change, answer)
    ensures !Callable(w.st.inodes, call) ==> answer == LeftOut && change == Names(Ns.Refused) && w' == w
    ensures Callable(w.st.inodes, call) ==>
              && Fitting(call, change, answer) && !answer.LeftOut? && Tells(ViewOf(w.st).files, call, answer)
              && Right(w, w', room, call, answer) && Seen(w.st, w'.st, change)
              && BlocksKept(w.st, w'.st, call, answer) && NumbersKept(w, w', room, call, answer)
  {
    hide Callable, Fitting, Tells, ViewOf, Right, Seen, BlocksKept, NumbersKept;
  }

  /** Any sequence of calls, on names and on bytes: between any two of them everything is in order. What `Ran` means
      for the plain values, the blocks and the inode numbers is in the lemmas below. */
  method PerformAll(v: Volume, c: DirIndexCache, calls: seq<Call>) returns (answers: seq<Answer>, ghost changes: seq<Change>, ghost ws: seq<Moment>)
    requires Ready(v, c)
    modifies v, v.fs, v.fs.blockBitmaps, v.fs.inodeBitmaps, c
    ensures Ready(v, c) && Ran(ws, RoomOf(v), calls, changes, answers)
    ensures ws[0] == old(Now(v)) && ws[|calls|] == Now(v)
    ensures forall k :: 0 <= k < |ws| ==> Sound(ws[k].st) && ViewOk(ViewOf(ws[k].st))
  {
    hide *;
    answers, changes, ws := [], [], [Now(v)];
    RanNothing(ws[0], RoomOf(v), calls);
    InOrder(v, c);
    for n := 0 to |calls|
      invariant Ready(v, c) && Ran(ws, RoomOf(v), calls[..n], changes, answers) && |ws| == n + 1
      invariant ws[0] == old(Now(v)) && ws[n] == Now(v)
      invariant forall k :: 0 <= k < |ws| ==> Sound(ws[k].st) && ViewOk(ViewOf(ws[k].st))
    {
      NowParts(v);
      StParts(v);
      var answer := LeftOut;
      ghost var change := Names(Ns.Refused);
      if Callable(v.inodes, calls[n]) {
        answer, change := Perform(v, c, calls[n]);
        SteppedDone(ws[n], Now(v), RoomOf(v), calls[n], change, answer);
      } else {
        SteppedOver(ws[n], RoomOf(v), calls[n]);
      }
      InOrder(v, c);
      RanNext(ws, RoomOf(v), calls, n, changes, answers, Now(v), change, answer);
      answers, changes, ws := answers + [answer], changes + [change], ws + [Now(v)];
    }
    assert calls[..|calls|] == calls;
    RanSizes(ws, RoomOf(v), calls, changes, answers);
  }

  lemma RanSizes(ws: seq<Moment>, room: Room, calls: seq<Call>, changes: seq<Change>, answers: seq<Answer>)
    requires Ran(ws, room, calls, changes, answers)
    ensures |ws| == |calls| + 1 && |changes| == |answers| == |calls|
  {
    hide Stepped;
  }

  lemma RanNothing(w: Moment, room: Room, calls: seq<Call>)
    ensures Ran([w], room, calls[..0], [], [])
  {
  }

  lemma InOrder(v: Volume, c: DirIndexCache)
    requires Ready(v, c)
    ensures Sound(Now(v).st) && ViewOk(ViewOf(Now(v).st))
  {
    hide *;
    ReadyParts(v, c);
    NowParts(v);
    FsParts(St(v), c.index);
    ViewOfOk(St(v), c.index);
  }

  lemma SteppedDone(w: Moment, w': Moment, room: Room, call: Call, change: Change, answer: Answer)
    requires Callable(w.st.inodes, call) && Done(w, w', room, call, change, answer)
    ensures Stepped(w, w', room, call, change, answer)
  {
    hide Callable, Done;
  }

  lemma SteppedOver(w: Moment, room: Room, call: Call)
    requires !Callable(w.st.inodes, call)
    ensures Stepped(w, w, room, call, Names(Ns.Refused), LeftOut)
  {
    hide Callable, Done;
  }

  // What a run means

  /** The calls one after the other on plain values: each change fits the call and its answer and is possible in its
      turn, and each read tells the bytes as they are then. */
  ghost predicate Follows(view: View, calls: seq<Call>, changes: seq<Change>, answers: seq<Answer>, last: View)
    requires |calls| == |changes| == |answers|
  {
    if calls == [] then last == view
    else
      var n := |calls| - 1;
      exists before: View ::
        Follows(view, calls[..n], changes[..n], answers[..n], before) && Next(before, calls[n], changes[n], answers[n], last)
  }

  ghost predicate Next(view: View, call: Call, change: Change, answer: Answer, next: View) {
    Fitting(call, change, answer) && Tells(view.files, call, answer) && Possible(view, change) && next == Changed(view, change)
  }

  /** What users see in a run follows from the calls on plain values. */
  lemma {:induction false} RunFollows(ws: seq<Moment>, room: Room, calls: seq<Call>, changes: seq<Change>, answers: seq<Answer>)
    requires Ran(ws, room, calls, changes, answers) && forall k :: 0 <= k < |ws| ==> ViewOk(ViewOf(ws[k].st))
    ensures |ws| == |calls| + 1 && |changes| == |answers| == |calls|
    ensures Follows(ViewOf(ws[0].st), calls, changes, answers, ViewOf(ws[|calls|].st))
    decreases |calls|
  {
    hide *;
    RanSizes(ws, room, calls, changes, answers);
    FollowsIs(ViewOf(ws[0].st), calls, changes, answers, ViewOf(ws[|calls|].st));
    if calls != [] {
      var n := |calls| - 1;
      RanPrefix(ws, room, calls, changes, answers);
      RunFollows(ws[..n + 1], room, calls[..n], changes[..n], answers[..n]);
      SteppedNext(ws[n], ws[n + 1], room, calls[n], changes[n], answers[n]);
      assert ws[..n + 1][0] == ws[0] && ws[..n + 1][n] == ws[n];
    }
  }

  lemma FollowsIs(view: View, calls: seq<Call>, changes: seq<Change>, answers: seq<Answer>, last: View)
    requires |calls| == |changes| == |answers|
    ensures calls == [] && last == view ==> Follows(view, calls, changes, answers, last)
    ensures calls != [] ==>
              var n := |calls| - 1;
              forall before: View ::
                Follows(view, calls[..n], changes[..n], answers[..n], before) && Next(before, calls[n], changes[n], answers[n], last)
                ==> Follows(view, calls, changes, answers, last)
  {
    hide Next;
  }

  lemma SteppedNext(w: Moment, w': Moment, room: Room, call: Call, change: Change, answer: Answer)
    requires Stepped(w, w', room, call, change, answer) && ViewOk(ViewOf(w.st))
    ensures Next(ViewOf(w.st), call, change, answer, ViewOf(w'.st))
  {
    hide *;
    SteppedParts(w, w', room, call, change, answer);
    if Callable(w.st.inodes, call) {
      SeenParts(w.st, w'.st, change);
    } else {
      SkippedFits(ViewOf(w.st), call);
    }
    NextJoin(ViewOf(w.st), call, change, answer, ViewOf(w'.st));
  }

  lemma NextJoin(view: View, call: Call, change: Change, answer: Answer, next: View)
    requires Fitting(call, change, answer) && Tells(view.files, call, answer) && Possible(view, change) && next == Changed(view, change)
    ensures Next(view, call, change, answer, next)
  {
    hide Fitting, Tells, Possible, Changed;
  }

  lemma SkippedFits(view: View, call: Call)
    requires ViewOk(view)
    ensures Fitting(call, Names(Ns.Refused), LeftOut) && Tells(view.files, call, LeftOut)
    ensures Possible(view, Names(Ns.Refused)) && view == Changed(view, Names(Ns.Refused))
  {
    hide Ns.Sane;
    RefusedIs(view.tree);
  }

  /** Whatever calls follow each other, the counts stay those of the names, exactly the regular files have bytes,
      no directory is cut off from the root, and entries have the types of what they name. */
  lemma {:induction false} FollowsOk(view: View, calls: seq<Call>, changes: seq<Change>, answers: seq<Answer>, last: View)
    requires |calls| == |changes| == |answers| && ViewOk(view) && Follows(view, calls, changes, answers, last)
    ensures ViewOk(last) && (Ns.Rooted(view.tree) ==> Ns.Rooted(last.tree)) && (Ns.Typed(view.tree) ==> Ns.Typed(last.tree))
    decreases |calls|
  {
    hide Fitting, Tells, Possible, Changed, ViewOk, Ns.Rooted, Ns.Typed;
    if calls != [] {
      var n := |calls| - 1;
      var before: View :| Follows(view, calls[..n], changes[..n], answers[..n], before) && Next(before, calls[n], changes[n], answers[n], last);
      FollowsOk(view, calls[..n], changes[..n], answers[..n], before);
      ChangedOk(before, changes[n]);
      ChangedStill(before, changes[n]);
    }
  }

  lemma ChangedStill(view: View, change: Change)
    requires ViewOk(view) && Possible(view, change)
    ensures Ns.Rooted(view.tree) ==> Ns.Rooted(Changed(view, change).tree)
    ensures Ns.Typed(view.tree) ==> Ns.Typed(Changed(view, change).tree)
  {
    hide Ns.Sane, Ns.Allowed, Ns.Next, Ns.Rooted, Ns.Typed, Overwritten;
    if change.Names? && Ns.Rooted(view.tree) {
      Ns.NextRooted(view.tree, change.op);
    }
    if change.Names? && Ns.Typed(view.tree) {
      Ns.NextTyped(view.tree, change.op);
    }
  }

  /** How many blocks the failures of a run may have taken. */
  ghost function AllMayLose(ws: seq<Moment>, calls: seq<Call>, answers: seq<Answer>): nat
    requires |calls| == |answers| && |ws| == |calls| + 1
  {
    if calls == [] then 0
    else
      var n := |calls| - 1;
      AllMayLose(ws[..n + 1], calls[..n], answers[..n]) + if answers[n].Failure? then MayLose(ws[n].st, calls[n]) else 0
  }

  /** Blocks in use without an owner: those at the start, and for each failure no more than its range lacked. */
  lemma {:induction false} RunBlocks(ws: seq<Moment>, room: Room, calls: seq<Call>, changes: seq<Change>, answers: seq<Answer>)
    requires Ran(ws, room, calls, changes, answers)
    ensures |ws| == |calls| + 1 && |answers| == |calls|
    ensures Unowned(ws[0].st) <= Unowned(ws[|calls|].st)
    ensures |Unowned(ws[|calls|].st)| <= |Unowned(ws[0].st)| + AllMayLose(ws, calls, answers)
    ensures (forall k :: 0 <= k < |calls| ==> !answers[k].Failure?) ==> Unowned(ws[|calls|].st) == Unowned(ws[0].st)
    decreases |calls|
  {
    hide *;
    RanSizes(ws, room, calls, changes, answers);
    if calls != [] {
      var n := |calls| - 1;
      RanPrefix(ws, room, calls, changes, answers);
      RunBlocks(ws[..n + 1], room, calls[..n], changes[..n], answers[..n]);
      SteppedBlocks(ws[n], ws[n + 1], room, calls[n], changes[n], answers[n]);
      MayLoseNext(ws, calls, answers);
      assert ws[..n + 1][0] == ws[0] && ws[..n + 1][n] == ws[n];
    }
  }

  lemma MayLoseNext(ws: seq<Moment>, calls: seq<Call>, answers: seq<Answer>)
    requires |calls| == |answers| && |ws| == |calls| + 1 && calls != []
    ensures var n := |calls| - 1;
            AllMayLose(ws, calls, answers) ==
            AllMayLose(ws[..n + 1], calls[..n], answers[..n]) + if answers[n].Failure? then MayLose(ws[n].st, calls[n]) else 0
  {
    hide MayLose;
  }

  lemma SteppedBlocks(w: Moment, w': Moment, room: Room, call: Call, change: Change, answer: Answer)
    requires Stepped(w, w', room, call, change, answer)
    ensures Unowned(w.st) <= Unowned(w'.st)
    ensures answer.Failure? ==> |Unowned(w'.st)| <= |Unowned(w.st)| + MayLose(w.st, call)
    ensures !answer.Failure? ==> Unowned(w'.st) == Unowned(w.st)
  {
    hide *;
    SteppedParts(w, w', room, call, change, answer);
    if Callable(w.st.inodes, call) {
      BlocksKeptParts(w.st, w'.st, call, answer);
    }
  }

  lemma BlocksKeptParts(st: State, st': State, call: Call, answer: Answer)
    requires BlocksKept(st, st', call, answer)
    ensures Unowned(st) <= Unowned(st')
    ensures answer.Failure? ==> |Unowned(st')| <= |Unowned(st)| + MayLose(st, call)
    ensures !answer.Failure? ==> Unowned(st') == Unowned(st)
  {
    hide Unowned, MayLose;
  }

  /** How often a run has taken an inode number for good. */
  ghost function Forgotten(ws: seq<Moment>, room: Room, calls: seq<Call>): nat
    requires |ws| == |calls| + 1
  {
    if calls == [] then 0
    else
      var n := |calls| - 1;
      Forgotten(ws[..n + 1], room, calls[..n]) + if Callable(ws[n].st.inodes, calls[n]) && Forgets(ws[n], room, calls[n]) then 1 else 0
  }

  /** Inode numbers that are taken and no live inode's: those at the start, and one for each call that forgot one. */
  lemma {:induction false} RunNumbers(ws: seq<Moment>, room: Room, calls: seq<Call>, changes: seq<Change>, answers: seq<Answer>)
    requires Ran(ws, room, calls, changes, answers)
    ensures |ws| == |calls| + 1 && Reserved(ws[0]) <= Reserved(ws[|calls|])
    ensures |Reserved(ws[|calls|])| == |Reserved(ws[0])| + Forgotten(ws, room, calls)
    ensures Forgotten(ws, room, calls) == 0 ==> Reserved(ws[|calls|]) == Reserved(ws[0])
    decreases |calls|
  {
    hide *;
    RanSizes(ws, room, calls, changes, answers);
    ForgottenIs(ws, room, calls);
    if calls != [] {
      var n := |calls| - 1;
      RanPrefix(ws, room, calls, changes, answers);
      RunNumbers(ws[..n + 1], room, calls[..n], changes[..n], answers[..n]);
      SteppedNumbers(ws[n], ws[n + 1], room, calls[n], changes[n], answers[n]);
      assert ws[..n + 1][0] == ws[0] && ws[..n + 1][n] == ws[n];
    }
  }

  lemma ForgottenIs(ws: seq<Moment>, room: Room, calls: seq<Call>)
    requires |ws| == |calls| + 1
    ensures calls == [] ==> Forgotten(ws, room, calls) == 0
    ensures calls != [] ==>
              var n := |calls| - 1;
              Forgotten(ws, room, calls) ==
              Forgotten(ws[..n + 1], room, calls[..n]) + if Callable(ws[n].st.inodes, calls[n]) && Forgets(ws[n], room, calls[n]) then 1 else 0
  {
    hide Callable, Forgets;
  }

  lemma SteppedNumbers(w: Moment, w': Moment, room: Room, call: Call, change: Change, answer: Answer)
    requires Stepped(w, w', room, call, change, answer)
    ensures Reserved(w) <= Reserved(w')
    ensures |Reserved(w')| == |Reserved(w)| + if Callable(w.st.inodes, call) && Forgets(w, room, call) then 1 else 0
    ensures !(Callable(w.st.inodes, call) && Forgets(w, room, call)) ==> Reserved(w') == Reserved(w)
  {
    hide *;
    SteppedParts(w, w', room, call, change, answer);
    if Callable(w.st.inodes, call) {
      NumbersKeptParts(w, w', room, call, answer);
    }
  }

  lemma NumbersKeptParts(w: Moment, w': Moment, room: Room, call: Call, answer: Answer)
    requires NumbersKept(w, w', room, call, answer)
    ensures Reserved(w) <= Reserved(w')
    ensures |Reserved(w')| == |Reserved(w)| + if Forgets(w, room, call) then 1 else 0
    ensures !Forgets(w, room, call) ==> Reserved(w') == Reserved(w)
  {
    hide Reserved, Forgets;
  }
}
