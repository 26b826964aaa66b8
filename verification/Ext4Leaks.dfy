/** Blocks that calls of ext4-fs/src/vfs.rs take and never give back when they fail: which they are, how many, and
    what that makes of the bitmap over a run. */
module Ext4Leaks {
  import opened Common
  import opened Ext4Types
  import opened Ext4Extents
  import opened Ext4Layout
  import opened Ext4Tree
  import opened Ext4Volume
  import opened Ext4FileState
  import opened Ext4FileSteps
  import opened Ext4Files
  import opened Ext4Runs

  // One failure

  /** How many blocks of a range a list does not map. */
  ghost function Lacking(extents: seq<Extent>, from: nat, upTo: nat): nat
    decreases upTo - from
  {
    if from >= upTo then 0 else Lacking(extents, from, upTo - 1) + if MapLogicalBlock(extents, upTo - 1).None? then 1 else 0
  }

  /** The physical blocks that the new list gives to those. */
  ghost function Given(old_: seq<Extent>, extents: seq<Extent>, from: nat, upTo: nat): set<nat>
    decreases upTo - from
  {
    if from >= upTo then {}
    else
      Given(old_, extents, from, upTo - 1) +
      if MapLogicalBlock(old_, upTo - 1).None? && MapLogicalBlock(extents, upTo - 1).Some? then
        {MapLogicalBlock(extents, upTo - 1).value}
      else {}
  }

  lemma {:induction false} GivenCount(old_: seq<Extent>, extents: seq<Extent>, from: nat, upTo: nat)
    requires Injective(extents) && Covered(extents, from, upTo)
    ensures |Given(old_, extents, from, upTo)| == Lacking(old_, from, upTo)
    decreases upTo - from
  {
    hide MapLogicalBlock;
    if from < upTo {
      GivenCount(old_, extents, from, upTo - 1);
      GivenBefore(old_, extents, from, upTo - 1);
    }
  }

  /** No block is given twice. */
  lemma GivenBefore(old_: seq<Extent>, extents: seq<Extent>, from: nat, l: nat)
    requires Injective(extents) && MapLogicalBlock(extents, l).Some?
    ensures MapLogicalBlock(extents, l).value !in Given(old_, extents, from, l)
  {
    hide MapLogicalBlock;
    if MapLogicalBlock(extents, l).value in Given(old_, extents, from, l) {
      var m := GivenFrom(old_, extents, from, l, MapLogicalBlock(extents, l).value);
      assert false;
    }
  }

  lemma {:induction false} GivenFrom(old_: seq<Extent>, extents: seq<Extent>, from: nat, upTo: nat, p: nat) returns (l: nat)
    requires p in Given(old_, extents, from, upTo)
    ensures from <= l < upTo && MapLogicalBlock(old_, l).None? && MapLogicalBlock(extents, l) == Some(p)
    decreases upTo - from
  {
    hide MapLogicalBlock;
    l := upTo - 1;
    if p in Given(old_, extents, from, upTo - 1) {
      l := GivenFrom(old_, extents, from, upTo - 1, p);
    }
  }

  lemma {:induction false} IsGiven(old_: seq<Extent>, extents: seq<Extent>, from: nat, upTo: nat, l: nat)
    requires from <= l < upTo && MapLogicalBlock(old_, l).None? && MapLogicalBlock(extents, l).Some?
    ensures MapLogicalBlock(extents, l).value in Given(old_, extents, from, upTo)
    decreases upTo - from
  {
    hide MapLogicalBlock;
    if l < upTo - 1 {
      IsGiven(old_, extents, from, upTo - 1, l);
    }
  }

  /** The bits left set are one for each block that the range lacked, and none of them was set before. */
  lemma LeftCount(st: State, i: nat, used: set<nat>, extents: seq<Extent>, from: nat, upTo: nat)
    requires Sound(st) && LeftSet(st, i, used, extents, from, upTo)
    ensures |used| == |st.used| + Lacking(Ext(st.disk, st.inodes[i]), from, upTo)
  {
    hide *;
    LeftSetParts(st, i, used, extents, from, upTo);
    SoundFile(st, i);
    FileParts(st.disk, st.used, st.inodes[i]);
    var old_ := Ext(st.disk, st.inodes[i]);
    var given := Given(old_, extents, from, upTo);
    GivenIsNew(st.used, old_, extents, from, upTo);
    assert used == st.used + given;
    GivenCount(old_, extents, from, upTo);
  }

  lemma LeftSetParts(st: State, i: nat, used: set<nat>, extents: seq<Extent>, from: nat, upTo: nat)
    requires LeftSet(st, i, used, extents, from, upTo)
    ensures i in st.inodes && from <= upTo && WellFormed(extents) && Injective(extents)
    ensures Extends(Ext(st.disk, st.inodes[i]), extents) && Covered(extents, from, upTo)
    ensures TakenOnly(st.used, Ext(st.disk, st.inodes[i]), extents, from, upTo)
    ensures used == st.used + Mapped(extents)
  {
    hide WellFormed, Injective, Extends, Covered, TakenOnly, Mapped, Ext;
  }

  lemma GivenIsNew(used: set<nat>, old_: seq<Extent>, extents: seq<Extent>, from: nat, upTo: nat)
    requires WellFormed(old_) && WellFormed(extents) && Extends(old_, extents) && TakenOnly(used, old_, extents, from, upTo)
    requires Mapped(old_) <= used
    ensures used + Mapped(extents) == used + Given(old_, extents, from, upTo) && used !! Given(old_, extents, from, upTo)
  {
    hide MapLogicalBlock, WellFormed;
    forall p | p in Given(old_, extents, from, upTo) ensures p in Mapped(extents) && p !in used {
      var l := GivenFrom(old_, extents, from, upTo, p);
      MapBound(extents, l);
    }
    forall p | p in Mapped(extents) ensures p in used || p in Given(old_, extents, from, upTo) {
      var l: nat :| l < U32 && MapLogicalBlock(extents, l).Some? && MapLogicalBlock(extents, l).value == p;
      if MapLogicalBlock(old_, l).Some? {
        MapBound(old_, l);
      } else {
        IsGiven(old_, extents, from, upTo, l);
      }
    }
  }

  /** A failure inside a range sets at most as many bits as the range lacks blocks, and fewer only on a disk that
      is full now. */
  lemma LeakedCount(st: State, i: nat, used: set<nat>, all: set<nat>, from: nat, to: nat)
    requires Sound(st) && i in st.inodes && Leaked(st, i, used, all, from, to)
    ensures st.used <= used && |used| <= |st.used| + Lacking(Ext(st.disk, st.inodes[i]), from, to)
    ensures |used| == |st.used| + Lacking(Ext(st.disk, st.inodes[i]), from, to) || |used| == |all|
  {
    hide *;
    var extents, upTo := LeakedParts(st, i, used, all, from, to);
    LeftCount(st, i, used, extents, from, upTo);
    LeftSetParts(st, i, used, extents, from, upTo);
    LackingMore(Ext(st.disk, st.inodes[i]), from, upTo, to);
  }

  lemma LeakedParts(st: State, i: nat, used: set<nat>, all: set<nat>, from: nat, to: nat) returns (extents: seq<Extent>, upTo: nat)
    requires Leaked(st, i, used, all, from, to)
    ensures LeftSet(st, i, used, extents, from, upTo) && upTo <= to && (upTo == to || |used| == |all|)
  {
    hide LeftSet;
    extents, upTo :| LeftSet(st, i, used, extents, from, upTo) && upTo <= to && (upTo == to || |used| == |all|);
  }

  lemma {:induction false} LackingMore(extents: seq<Extent>, from: nat, upTo: nat, end: nat)
    requires from <= upTo <= end
    ensures Lacking(extents, from, upTo) <= Lacking(extents, from, end)
    decreases end - upTo
  {
    hide MapLogicalBlock;
    if upTo < end {
      LackingMore(extents, from, upTo, end - 1);
    }
  }

  lemma LackingOne(extents: seq<Extent>, l: nat)
    ensures Lacking(extents, l, l + 1) <= 1
  {
    hide MapLogicalBlock;
  }

  /** The last free block of a volume is lost when an empty file asks for two: the call fails, the file has none,
      and the block is nobody's. */
  method LastBlockLost(v: Volume, i: nat) returns (r: Result<seq<Extent>>)
    requires v.Valid() && Sound(St(v)) && i in v.inodes
    requires Ext(v.disk, v.inodes[i]) == [] && Tree(v.disk, v.inodes[i]) == {}
    requires |v.used| + 1 == |v.AllBlocks()|
    modifies v, v.fs, v.fs.blockBitmaps
    ensures v.Valid() && r.Err? && Untouched(old(St(v)), St(v))
    ensures |v.used| == |old(v.used)| + 1 && AllOwned(St(v)) == AllOwned(old(St(v)))
  {
    hide *;
    U32Value();
    ghost var st := St(v);
    StParts(v);
    r := EnsureWriteBlocks(v, i, 0, 2);
    StParts(v);
    v.UsedInRange();
    TwoTaken(st, St(v), i, if r.Ok? then r.value else []);
    LackingTwo();
    LeakedCount(st, i, v.used, v.AllBlocks(), 0, 2);
    SameOwned(st, St(v));
  }

  lemma LackingTwo()
    ensures Lacking([], 0, 2) == 2
  {
    assert MapLogicalBlock([], 0).None? && MapLogicalBlock([], 1).None?;
    assert Lacking([], 0, 1) == 1;
  }

  /** Two blocks of a file that had none were both free before. */
  lemma TwoTaken(st: State, st': State, i: nat, extents: seq<Extent>)
    requires Sound(st) && i in st.inodes && Ext(st.disk, st.inodes[i]) == [] && Tree(st.disk, st.inodes[i]) == {}
    ensures Grew(st, st', i, extents) && Covered(extents, 0, 2) ==> |st'.used| >= |st.used| + 2
  {
    hide *;
    if Grew(st, st', i, extents) && Covered(extents, 0, 2) {
      GrewParts(st, st', i, extents);
      SoundFile(st', i);
      FileParts(st'.disk, st'.used, st'.inodes[i]);
      NoneOwned(st.disk, st.inodes[i]);
      TwoBlocks(extents);
      NewOnes(st.used, st'.used, Owned(st'.disk, st'.inodes[i]));
      TwoMore(st.used, st'.used, MapLogicalBlock(extents, 0).value, MapLogicalBlock(extents, 1).value);
    }
  }

  lemma NoneOwned(disk: Disk, inode: Inode)
    requires Ext(disk, inode) == [] && Tree(disk, inode) == {}
    ensures Owned(disk, inode) == {}
  {
    hide Ext, Tree;
  }

  lemma TwoBlocks(extents: seq<Extent>)
    requires WellFormed(extents) && Injective(extents) && Covered(extents, 0, 2)
    ensures MapLogicalBlock(extents, 0).Some? && MapLogicalBlock(extents, 1).Some?
    ensures MapLogicalBlock(extents, 0).value in Mapped(extents) && MapLogicalBlock(extents, 1).value in Mapped(extents)
    ensures MapLogicalBlock(extents, 0).value != MapLogicalBlock(extents, 1).value
  {
    hide MapLogicalBlock, WellFormed, Mapped;
    MapBound(extents, 0);
    MapBound(extents, 1);
  }

  lemma NewOnes(used: set<nat>, used': set<nat>, owned: set<nat>)
    requires Exchanged(used, used', {}, owned)
    ensures used' == used + owned && used !! owned
  {
  }

  lemma TwoMore(used: set<nat>, used': set<nat>, p: nat, q: nat)
    requires used <= used' && p in used' && q in used' && p !in used && q !in used && p != q
    ensures |used'| >= |used| + 2
  {
    SubsetSize(used + {p} + {q}, used');
  }

  lemma SameOwned(st: State, st': State)
    ensures Untouched(st, st') ==> AllOwned(st') == AllOwned(st)
  {
    hide Sound, Content, Ext, Owned;
    if Untouched(st, st') {
      forall b ensures b in AllOwned(st') <==> b in AllOwned(st) {
        if b in AllOwned(st) {
          var j :| j in st.inodes && b in Owned(st.disk, st.inodes[j]);
          assert j in st'.inodes && b in Owned(st'.disk, st'.inodes[j]);
        }
        if b in AllOwned(st') {
          var j :| j in st'.inodes && b in Owned(st'.disk, st'.inodes[j]);
          assert j in st.inodes && b in Owned(st.disk, st.inodes[j]);
        }
      }
    }
  }

  // Whole runs

  /** The blocks whose bits the failures of a run have left set. */
  ghost function Lost(states: seq<State>, ops: seq<Op>): set<nat>
    requires |states| == |ops| + 1
  {
    if ops == [] then {}
    else Lost(states[..|ops|], ops[..|ops| - 1]) + LostAt(states[|ops| - 1], ops[|ops| - 1], states[|ops|])
  }

  ghost function LostAt(st: State, op: Op, st': State): set<nat> {
    if op.Fail? then st'.used - st.used else {}
  }

  /** How many blocks those failures lacked. */
  ghost function Wanted(states: seq<State>, ops: seq<Op>): nat
    requires |states| == |ops| + 1
  {
    if ops == [] then 0
    else Wanted(states[..|ops|], ops[..|ops| - 1]) + WantedAt(states[|ops| - 1], ops[|ops| - 1])
  }

  ghost function WantedAt(st: State, op: Op): nat {
    if op.Fail? && op.i in st.inodes then Lacking(Ext(st.disk, st.inodes[op.i]), op.from, op.to) else 0
  }

  /** No failure left the disk without a free block. */
  ghost predicate NeverFull(states: seq<State>, ops: seq<Op>)
    requires |states| == |ops| + 1
  {
    forall k :: 0 <= k < |ops| && ops[k].Fail? ==> |states[k + 1].used| != |ops[k].all|
  }

  /** After any run, failures or not, the blocks in use are those that files own, the fixed ones, and those lost,
      and no block is two of these. Failures lose no more blocks than they lacked, and all of them unless the disk
      was full. */
  lemma {:induction false} RunLost(states: seq<State>, ops: seq<Op>, fixed: set<nat>)
    requires Run(states, ops) && Sound(states[0]) && Accounted(states[0], fixed)
    ensures Accounted(states[|ops|], fixed + Lost(states, ops)) && fixed !! Lost(states, ops)
    ensures |Lost(states, ops)| <= Wanted(states, ops)
    ensures NeverFull(states, ops) ==> |Lost(states, ops)| == Wanted(states, ops)
    decreases |ops|
  {
    hide Sound, Accounted, Step, LostAt, WantedAt;
    if ops == [] {
      assert fixed + {} == fixed;
    } else {
      var last := |ops| - 1;
      RunPrefix(states, ops);
      var earlier := states[..last + 1];
      RunLost(earlier, ops[..last], fixed);
      RunRefines(earlier, ops[..last]);
      assert Step(states[last], ops[last], states[last + 1]);
      var before := fixed + Lost(earlier, ops[..last]);
      StepLost(states[last], ops[last], states[last + 1], before);
      assert fixed + Lost(states, ops) == before + LostAt(states[last], ops[last], states[last + 1]);
      BothCount(Lost(earlier, ops[..last]), LostAt(states[last], ops[last], states[last + 1]));
      FullBefore(states, ops);
    }
  }

  lemma BothCount(a: set<nat>, b: set<nat>)
    ensures a !! b ==> |a + b| == |a| + |b|
  {
  }

  lemma FullBefore(states: seq<State>, ops: seq<Op>)
    requires |states| == |ops| + 1 && ops != []
    ensures NeverFull(states, ops) ==> NeverFull(states[..|ops|], ops[..|ops| - 1])
    ensures NeverFull(states, ops) && ops[|ops| - 1].Fail? ==> |states[|ops|].used| != |ops[|ops| - 1].all|
  {
  }

  lemma StepLost(st: State, op: Op, st': State, fixed: set<nat>)
    requires Sound(st) && Step(st, op, st') && Accounted(st, fixed)
    ensures Accounted(st', fixed + LostAt(st, op, st')) && fixed !! LostAt(st, op, st')
    ensures |LostAt(st, op, st')| <= WantedAt(st, op)
    ensures (op.Fail? ==> |st'.used| != |op.all|) ==> |LostAt(st, op, st')| == WantedAt(st, op)
  {
    hide *;
    LostIs(st, op, st');
    if op.Fail? {
      FailIs(st, op, st');
      SameOwned(st, st');
      MoreUsed(st, st', fixed);
      LeakedInside(st, op.i, st'.used, op.all, op.from, op.to);
      LeakedCount(st, op.i, st'.used, op.all, op.from, op.to);
    } else {
      StepAccounted(st, op, st', fixed);
      assert fixed + {} == fixed;
    }
  }

  lemma LostIs(st: State, op: Op, st': State)
    ensures LostAt(st, op, st') == if op.Fail? then st'.used - st.used else {}
    ensures WantedAt(st, op) == if op.Fail? && op.i in st.inodes then Lacking(Ext(st.disk, st.inodes[op.i]), op.from, op.to) else 0
  {
    hide Lacking, Ext;
  }

  lemma FailIs(st: State, op: Op, st': State)
    requires Step(st, op, st') && op.Fail?
    ensures Untouched(st, st') && st.used <= st'.used && Leaked(st, op.i, st'.used, op.all, op.from, op.to)
  {
    hide Sound, Content, Ext, Owned, Leaked;
  }

  lemma LeakedInside(st: State, i: nat, used: set<nat>, all: set<nat>, from: nat, to: nat)
    requires Leaked(st, i, used, all, from, to)
    ensures i in st.inodes
  {
    hide *;
    var extents, upTo := LeakedParts(st, i, used, all, from, to);
    LeftSetParts(st, i, used, extents, from, upTo);
  }

  lemma MoreUsed(st: State, st': State, fixed: set<nat>)
    requires Accounted(st, fixed) && AllOwned(st') == AllOwned(st) && st.used <= st'.used
    ensures Accounted(st', fixed + (st'.used - st.used)) && fixed !! (st'.used - st.used)
    ensures |st'.used - st.used| == |st'.used| - |st.used|
  {
    hide AllOwned;
    assert st'.used == st.used + (st'.used - st.used);
  }
}
