/** Whole runs of easy-fs: creating, writing and clearing files refines the same operations on byte sequences,
    the bitmap always holds exactly the blocks of the files, and names stay unique. */
module EfsRuns {
  import opened Common
  import opened EfsLayout
  import opened EfsBytes
  import opened EfsState
  import opened EfsDirEntry
  import opened EfsFs

  /** `Pause` stands for the operations that only read. */
  datatype Op = Create(root: nat, name: seq<byte>) | Write(i: nat, offset: nat, buf: seq<byte>) | Clear(i: nat) | Pause

  /** What the methods of the file system promise of one operation. */
  ghost predicate Step(st: State, op: Op, st': State)
    requires AllOk(st)
  {
    match op
    case Create(root, name) =>
      root < |FilesOf(st)| && DirOk(FilesOf(st)[root]) &&
      if Listed(Listing(FilesOf(st)[root]), name) then st' == st else FileCreated(st, root, name, st')
    case Write(i, offset, buf) => WriteDone(st, i, offset, buf, st')
    case Clear(i) => ClearedAt(st, i, st')
    case Pause => st' == st
  }

  /** The bytes of the files by inode number: what the operations mean. */
  ghost function Apply(files: seq<seq<byte>>, op: Op): seq<seq<byte>> {
    match op
    case Create(root, name) =>
      if root < |files| && DirOk(files[root]) && NameOk(name) && !Listed(Listing(files[root]), name) then
        (files + [[]])[root := Overwritten(files[root], |files[root]|, AsBytes(New(name, |files|)))]
      else files
    case Write(i, offset, buf) => if i < |files| then files[i := Overwritten(files[i], offset, buf)] else files
    case Clear(i) => if i < |files| then files[i := []] else files
    case Pause => files
  }

  ghost function ApplyAll(files: seq<seq<byte>>, ops: seq<Op>): seq<seq<byte>> {
    if ops == [] then files else Apply(ApplyAll(files, ops[..|ops| - 1]), ops[|ops| - 1])
  }

  ghost predicate Run(states: seq<State>, ops: seq<Op>) {
    && |states| == |ops| + 1
    && forall k :: 0 <= k < |ops| ==> AllOk(states[k]) && Step(states[k], ops[k], states[k + 1])
  }

  lemma FileCreatedRefines(st: State, root: nat, name: seq<byte>, st': State)
    requires Sound(st) && FileCreated(st, root, name, st')
    ensures |FilesOf(st)| == |st.nodes| && Sound(st')
    ensures FilesOf(st') == (FilesOf(st) + [[]])[root := Overwritten(FilesOf(st)[root], |FilesOf(st)[root]|,
                                                                     AsBytes(New(name, |st.nodes|)))]
  {
    hide Sound, AllOk, FilesOf, AddedNode, WriteDone, Overwritten, AsBytes;
    SoundFiles(st);
    var mid :| CreatedThrough(st, root, name, mid, st');
    AddedSound(st, mid);
    WriteRefines(mid, root, |FilesOf(st)[root]|, AsBytes(New(name, |st.nodes|)), st');
  }

  lemma StepRefines(st: State, op: Op, st': State)
    requires Sound(st) && Step(st, op, st')
    ensures Sound(st') && FilesOf(st') == Apply(FilesOf(st), op)
  {
    hide Sound, AllOk, FilesOf, WriteDone, ClearedAt, Overwritten, AsBytes, New, DirOk, NameOk, Listing, Listed;
    SoundFiles(st);
    match op
    case Create(root, name) =>
      if !Listed(Listing(FilesOf(st)[root]), name) {
        FileCreatedRefines(st, root, name, st');
      }
    case Write(i, offset, buf) =>
      WrittenInside(st, i, offset, buf, st');
      WriteRefines(st, i, offset, buf, st');
    case Clear(i) =>
      ClearedInside(st, i, st');
      ClearedSound(st, i, st');
    case Pause =>
  }

  lemma WrittenInside(st: State, i: nat, offset: nat, buf: seq<byte>, st': State)
    requires WriteDone(st, i, offset, buf, st')
    ensures i < |st.nodes|
  {
    hide WroteTo, GrewThenWrote;
  }

  lemma ClearedInside(st: State, i: nat, st': State)
    requires ClearedAt(st, i, st')
    ensures i < |st.nodes|
  {
    hide Owned, At, BitsOf;
  }

  /** After any run every file holds what the operations on byte sequences give, and the set bits of the data
      bitmap are as many as the sizes of the files call for. */
  lemma {:induction false} RunRefines(states: seq<State>, ops: seq<Op>)
    requires Run(states, ops) && Sound(states[0])
    ensures Sound(states[|ops|]) && FilesOf(states[|ops|]) == ApplyAll(FilesOf(states[0]), ops)
    ensures |states[|ops|].used| == SumOfTotals(states[|ops|].nodes)
    decreases |ops|
  {
    hide Sound, AllOk, FilesOf, Step, Apply, SumOfTotals;
    if ops != [] {
      var last := |ops| - 1;
      RunPrefix(states, ops);
      RunRefines(states[..last + 1], ops[..last]);
      StepRefines(states[last], ops[last], states[last + 1]);
    }
    Conserved(states[|ops|]);
  }

  lemma RunPrefix(states: seq<State>, ops: seq<Op>)
    requires Run(states, ops) && ops != []
    ensures Run(states[..|ops|], ops[..|ops| - 1])
  {
    hide AllOk, Step;
    var states', ops' := states[..|ops|], ops[..|ops| - 1];
    forall k | 0 <= k < |ops'| ensures AllOk(states'[k]) && Step(states'[k], ops'[k], states'[k + 1]) {
      assert AllOk(states[k]) && Step(states[k], ops[k], states[k + 1]);
    }
  }

  // Names

  /** File 0 is a directory whose names differ, and whose numbers are those of different other files. */
  ghost predicate Named(files: seq<seq<byte>>) {
    && 0 < |files| && DirOk(files[0]) && NamesDiffer(Listing(files[0])) && NumbersOk(Listing(files[0]), |files|)
  }

  ghost predicate NumbersOk(l: seq<(seq<byte>, nat)>, count: nat) {
    && (forall k :: 0 <= k < |l| ==> 0 < l[k].1 < count)
    && forall j, k :: 0 <= j < k < |l| ==> l[j].1 != l[k].1
  }

  /** The root is written to by `create` only, and new inode numbers fit their field. */
  ghost predicate KeepsRoot(files: seq<seq<byte>>, op: Op) {
    match op
    case Create(root, _) => root == 0 && |files| < U32
    case Write(i, _, _) => i != 0
    case _ => true
  }

  lemma ApplyNamed(files: seq<seq<byte>>, op: Op)
    requires Named(files) && KeepsRoot(files, op)
    ensures Named(Apply(files, op))
    ensures Listing(Apply(files, op)[0]) ==
            match op
            case Create(_, name) =>
              if NameOk(name) && !Listed(Listing(files[0]), name) then Listing(files[0]) + [(name, |files|)]
              else Listing(files[0])
            case Clear(i) => if i == 0 then [] else Listing(files[0])
            case _ => Listing(files[0])
  {
    hide Overwritten, AsBytes, New, EntryAt, NameOf, NameOk;
    match op
    case Create(root, name) =>
      if NameOk(name) && !Listed(Listing(files[0]), name) {
        NewName(files, name);
      }
    case _ =>
  }

  lemma NewName(files: seq<seq<byte>>, name: seq<byte>)
    requires Named(files) && NameOk(name) && !Listed(Listing(files[0]), name) && |files| < U32
    ensures |name| <= NAME_SZ
    ensures var files' := (files + [[]])[0 := Overwritten(files[0], |files[0]|, AsBytes(New(name, |files|)))];
            Named(files') && Listing(files'[0]) == Listing(files[0]) + [(name, |files|)]
  {
    hide Overwritten, AsBytes, New, DirOk, Listing;
    Appended(files[0], name, |files|);
  }

  /** Along any run that leaves the root to `create`, looking a name up finds at most one file. */
  lemma {:induction false} RunNamed(states: seq<State>, ops: seq<Op>)
    requires Run(states, ops) && Sound(states[0]) && Named(FilesOf(states[0]))
    requires forall k :: 0 <= k < |ops| ==> KeepsRoot(FilesOf(states[k]), ops[k])
    ensures Sound(states[|ops|]) && Named(FilesOf(states[|ops|]))
    decreases |ops|
  {
    hide Sound, AllOk, FilesOf, Step, Apply, Named, KeepsRoot;
    if ops != [] {
      var last := |ops| - 1;
      RunPrefix(states, ops);
      KeepsPrefix(states, ops);
      RunNamed(states[..last + 1], ops[..last]);
      StepRefines(states[last], ops[last], states[last + 1]);
      ApplyNamed(FilesOf(states[last]), ops[last]);
    }
  }

  lemma KeepsPrefix(states: seq<State>, ops: seq<Op>)
    requires Run(states, ops) && ops != []
    requires forall k :: 0 <= k < |ops| ==> KeepsRoot(FilesOf(states[k]), ops[k])
    ensures forall k :: 0 <= k < |ops| - 1 ==>
              AllOk(states[..|ops|][k]) && KeepsRoot(FilesOf(states[..|ops|][k]), ops[..|ops| - 1][k])
  {
    hide AllOk, FilesOf, Step, KeepsRoot;
    forall k | 0 <= k < |ops| - 1
      ensures AllOk(states[..|ops|][k]) && KeepsRoot(FilesOf(states[..|ops|][k]), ops[..|ops| - 1][k])
    {
      assert states[..|ops|][k] == states[k] && ops[..|ops| - 1][k] == ops[k];
      assert KeepsRoot(FilesOf(states[k]), ops[k]);
    }
  }
}
