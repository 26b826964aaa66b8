/** What operations on names leave alone: the bytes of every regular file that stays, and the blocks that are in
    use without an owner. */
module Ext4Kept {
  import opened Common
  import opened Ext4Extents
  import opened Ext4Layout
  import opened Ext4Volume
  import opened Ext4FileState
  import opened Ext4Files
  import opened Ext4Runs

  /** Every regular file that is there before and after holds the same bytes. */
  ghost predicate FilesKept(st: State, st': State) {
    forall i :: i in st.inodes && i in st'.inodes && st.inodes[i].kind == Regular ==>
      st'.inodes[i].kind == Regular && Content(st'.disk, st'.inodes[i]) == Content(st.disk, st.inodes[i])
  }

  /** Blocks in use that belong to no inode: bitmaps, inode tables, and what operations that failed left behind. */
  ghost function Unowned(st: State): set<nat> {
    st.used - AllOwned(st)
  }

  /** Bytes are kept, and the bitmap follows the ownership of blocks exactly. */
  ghost predicate Clean(st: State, st': State) {
    FilesKept(st, st') && Unowned(st') == Unowned(st)
  }

  ghost predicate Passes(st: State, st1: State, st2: State) {
    forall i :: i in st.inodes && i in st2.inodes ==> i in st1.inodes
  }

  lemma PassesAlong(st: State, st1: State, st2: State)
    requires st.inodes.Keys <= st1.inodes.Keys || st2.inodes.Keys <= st1.inodes.Keys
    ensures Passes(st, st1, st2)
  {
    forall i | i in st.inodes && i in st2.inodes ensures i in st1.inodes {
      assert i in st.inodes.Keys && i in st2.inodes.Keys;
    }
  }

  lemma FilesThrough(st: State, st1: State, st2: State)
    requires FilesKept(st, st1) && FilesKept(st1, st2) && Passes(st, st1, st2)
    ensures FilesKept(st, st2)
  {
    hide Content;
  }

  lemma CleanThrough(st: State, st1: State, st2: State)
    requires Clean(st, st1) && Clean(st1, st2) && Passes(st, st1, st2)
    ensures Clean(st, st2)
  {
    hide FilesKept, Unowned;
    FilesThrough(st, st1, st2);
  }

  lemma CleanParts(st: State, st': State)
    requires Clean(st, st')
    ensures FilesKept(st, st') && Unowned(st') == Unowned(st)
  {
  }

  lemma UntouchedKept(st: State, st': State)
    requires Untouched(st, st')
    ensures FilesKept(st, st') && (st'.used == st.used ==> Clean(st, st'))
  {
    hide Sound, Content, Ext, Owned;
    if st'.used == st.used {
      forall b ensures b in AllOwned(st') <==> b in AllOwned(st) {
        if b in AllOwned(st) {
          var j :| j in st.inodes && b in Owned(st.disk, st.inodes[j]);
          assert j in st'.inodes && b in Owned(st'.disk, st'.inodes[j]);
        }
        if b in AllOwned(st') {
          var j :| j in st'.inodes && b in Owned(st'.disk, st'.inodes[j]);
          assert j in st.inodes && b in Owned(st.disk, st.inodes[j]);
        }
      }
    }
  }

  /** A directory has changed, and taken or given up blocks of its own. */
  lemma DirectoryChanged(st: State, st': State, d: nat)
    requires Sound(st) && Sound(st') && OthersSame(st, st', d) && d in st.inodes && d in st'.inodes
    requires st.inodes[d].kind == Directory
    requires Exchanged(st.used, st'.used, Owned(st.disk, st.inodes[d]), Owned(st'.disk, st'.inodes[d]))
    ensures Clean(st, st')
  {
    hide Sound, AllOwned, Owned, Content, Ext;
    AllOwnedAfter(st, st', d);
    OwnedInAll(st, d);
  }

  lemma CreatedClean(st: State, i: nat, kind: Kind, links: nat, st': State)
    requires Created(st, i, kind, links, st')
    ensures Clean(st, st') && i in st'.inodes && Content(st'.disk, st'.inodes[i]) == []
    ensures st.inodes.Keys <= st'.inodes.Keys
  {
    hide Sound, AllOwned, NewInode, Content;
    CreatedSound(st, i, kind, links, st');
    CreatedFiles(st, i, kind, links, st');
  }

  lemma CreatedFiles(st: State, i: nat, kind: Kind, links: nat, st': State)
    requires Created(st, i, kind, links, st') && FilesOf(st') == FilesOf(st)[i := []]
    ensures FilesKept(st, st') && i in st'.inodes && Content(st'.disk, st'.inodes[i]) == []
  {
    hide Sound, AllOwned, NewInode, Content;
    assert FilesOf(st')[i] == [];
  }

  lemma ReclaimedClean(st: State, i: nat, st': State)
    requires Reclaimed(st, i, st')
    ensures Clean(st, st') && st'.inodes.Keys <= st.inodes.Keys
  {
    hide Sound, AllOwned, Content, Owned;
    ReclaimedSound(st, i, st');
    OwnedInAll(st, i);
    ReclaimedFiles(st, i, st');
  }

  lemma ReclaimedFiles(st: State, i: nat, st': State)
    requires Reclaimed(st, i, st')
    ensures FilesKept(st, st')
  {
    hide Sound, AllOwned, Content, Owned;
  }

  // Runs

  /** A successful operation on names, or one on the bytes of a file. */
  ghost predicate Succeeded(st: State, st': State) {
    Clean(st, st') || exists op :: FileOp(st, op, st')
  }

  ghost predicate FileOp(st: State, op: Op, st': State) {
    Step(st, op, st') && !op.Fail?
  }

  lemma OwnedInUse(st: State)
    requires Sound(st)
    ensures AllOwned(st) <= st.used && Accounted(st, Unowned(st))
  {
    hide Owned, WellFormed, Injective, ZeroTail, AllApart, CacheOk, Ext, Tree, Mapped;
    forall b | b in AllOwned(st) ensures b in st.used {
      var i :| i in st.inodes && b in Owned(st.disk, st.inodes[i]);
      assert FileOk(st.disk, st.used, st.inodes[i]);
    }
  }

  lemma SucceededSame(st: State, st': State)
    requires Sound(st) && Sound(st') && Succeeded(st, st')
    ensures Unowned(st') == Unowned(st)
  {
    hide Sound, AllOwned, Step, FilesKept;
    if !Clean(st, st') {
      var op :| FileOp(st, op, st');
      OwnedInUse(st);
      StepAccounted(st, op, st', Unowned(st));
    }
  }

  /** However successful operations on names and on files follow each other, the blocks in use are those that
      inodes own and those that were in use without an owner at the start. */
  lemma {:induction false} RunBalanced(states: seq<State>)
    requires states != [] && forall k :: 0 <= k < |states| ==> Sound(states[k])
    requires forall k :: 0 < k < |states| ==> Succeeded(states[k - 1], states[k])
    ensures var last := states[|states| - 1];
            last.used == AllOwned(last) + Unowned(states[0]) && AllOwned(last) !! Unowned(states[0])
  {
    hide Sound, AllOwned, Succeeded, Unowned;
    var last := |states| - 1;
    if last > 0 {
      var earlier := states[..last];
      forall k | 0 < k < |earlier| ensures Succeeded(earlier[k - 1], earlier[k]) {
        assert Succeeded(states[k - 1], states[k]);
      }
      RunBalanced(earlier);
      SucceededSame(states[last - 1], states[last]);
    }
    OwnedInUse(states[last]);
    SameSlack(states, last);
  }

  lemma SameSlack(states: seq<State>, last: nat)
    requires last == |states| - 1 && Accounted(states[last], Unowned(states[last]))
    requires last > 0 ==>
               && states[last - 1].used == AllOwned(states[last - 1]) + Unowned(states[0])
               && AllOwned(states[last - 1]) !! Unowned(states[0])
               && Unowned(states[last]) == Unowned(states[last - 1])
    ensures states[last].used == AllOwned(states[last]) + Unowned(states[0])
    ensures AllOwned(states[last]) !! Unowned(states[0])
  {
    hide AllOwned;
    if last > 0 {
      assert Unowned(states[last - 1]) == Unowned(states[0]);
    }
  }
}
