/** What the users of a volume of ext4-fs/src/vfs.rs see, the tree of names and the bytes of regular files, as plain
    values: operations on names carry the bytes over, and operations on bytes leave names, directories and their
    cached indices alone. */
module Ext4Mixed {
  import opened Common
  import opened Ext4Types
  import opened Ext4Extents
  import opened Ext4Layout
  import opened Ext4Volume
  import opened Ext4FileState
  import opened Ext4FileSteps
  import opened Ext4Files
  import opened Ext4ReadWrite
  import opened Ext4Runs
  import opened Ext4Kept
  import opened Ext4DirBlock
  import opened Ext4Directory
  import opened Ext4Names
  import Ns = Ext4Namespace
  import Ext4Alloc

  // Plain values

  /** What the users of a volume see: names, kinds and link counts, and the bytes of every regular file. */
  datatype View = View(tree: Ns.Tree, files: map<nat, seq<byte>>)

  datatype Change = Names(op: Ns.Op) | Bytes(i: nat, offset: nat, buf: seq<byte>) | NoBytes(i: nat)

  ghost predicate Possible(view: View, change: Change) {
    match change
    case Names(op) => Ns.Allowed(view.tree, op)
    case Bytes(i, _, _) => i in view.files
    case NoBytes(i) => i in view.files
  }

  ghost function Changed(view: View, change: Change): View
    requires Possible(view, change)
  {
    match change
    case Names(op) => View(Ns.Next(view.tree, op), Carried(view.files, Ns.Next(view.tree, op)))
    case Bytes(i, offset, buf) => view.(files := view.files[i := Overwritten(view.files[i], offset, buf)])
    case NoBytes(i) => view.(files := view.files[i := []])
  }

  /** Files keep their bytes, new ones are empty, and those that are gone are gone. */
  ghost function Carried(files: map<nat, seq<byte>>, tree: Ns.Tree): map<nat, seq<byte>> {
    map i | i in tree.kinds && tree.kinds[i] == Regular :: if i in files then files[i] else []
  }

  /** The tree is sane, and exactly its regular files have bytes. */
  ghost predicate ViewOk(view: View) {
    Ns.Sane(view.tree) && forall i :: i in view.files <==> i in view.tree.kinds && view.tree.kinds[i] == Regular
  }

  lemma ChangedOk(view: View, change: Change)
    requires ViewOk(view) && Possible(view, change)
    ensures ViewOk(Changed(view, change))
  {
    hide Ns.Sane, Ns.Allowed, Ns.Next, Overwritten;
    if change.Names? {
      Ns.NextSane(view.tree, change.op);
    }
  }

  // The view of a volume

  ghost function BytesOf(st: State): map<nat, seq<byte>> {
    map i | i in st.inodes && st.inodes[i].kind == Regular :: Content(st.disk, st.inodes[i])
  }

  ghost function ViewOf(st: State): View {
    View(TreeOf(st), BytesOf(st))
  }

  lemma BytesAt(st: State, i: nat)
    ensures i in BytesOf(st) <==> i in st.inodes && st.inodes[i].kind == Regular
    ensures i in BytesOf(st) ==> BytesOf(st)[i] == Content(st.disk, st.inodes[i])
  {
    hide Content;
  }

  lemma ViewOfOk(st: State, index: map<nat, Ns.Index>)
    requires FsOk(st, index)
    ensures ViewOk(ViewOf(st))
  {
    hide *;
    FsParts(st, index);
    forall i ensures i in BytesOf(st) <==> i in TreeOf(st).kinds && TreeOf(st).kinds[i] == Regular {
      BytesAt(st, i);
      TreeAt(st, i);
    }
    ViewOkJoin(st);
  }

  lemma ViewOkJoin(st: State)
    requires Ns.Sane(TreeOf(st)) && forall i :: i in BytesOf(st) <==> i in TreeOf(st).kinds && TreeOf(st).kinds[i] == Regular
    ensures ViewOk(ViewOf(st))
  {
    hide Ns.Sane, TreeOf, BytesOf;
  }

  // Calls on files leave the names alone

  /** A regular file has changed, and nothing else. */
  lemma FileChanged(st: State, st': State, i: nat, index: map<nat, Ns.Index>)
    requires FsOk(st, index) && i in st.inodes && st.inodes[i].kind == Regular
    requires Sound(st') && OthersSame(st, st', i) && i in st'.inodes
    requires st'.inodes[i].kind == st.inodes[i].kind && st'.inodes[i].links == st.inodes[i].links
    ensures FsOk(st', index) && TreeOf(st') == TreeOf(st)
    ensures BytesOf(st') == BytesOf(st)[i := Content(st'.disk, st'.inodes[i])]
  {
    hide *;
    FsParts(st, index);
    ChangedKeys(st, st', i);
    forall k | k in st.inodes && k != i
      ensures k in st'.inodes && st'.inodes[k] == st.inodes[k] && IndexOf(st'.disk, st'.inodes[k]) == IndexOf(st.disk, st.inodes[k])
      ensures st.inodes[k].kind == Directory ==> DirOk(st'.disk, st'.inodes[k])
      ensures Content(st'.disk, st'.inodes[k]) == Content(st.disk, st.inodes[k])
    {
      TreeAt(st, k);
      OtherDir(st, st', i, k);
      OtherBytes(st, st', i, k);
    }
    DirsStay(st, st', i);
    FilesStay(st, st', i);
    IndicesStay(st, st', i, index);
    FsJoin(st', index);
  }

  lemma OtherBytes(st: State, st': State, i: nat, k: nat)
    requires OthersSame(st, st', i) && k in st.inodes && k != i
    ensures k in st'.inodes && Content(st'.disk, st'.inodes[k]) == Content(st.disk, st.inodes[k])
  {
    hide Content, Ext, Owned;
    assert k in st'.inodes.Keys;
  }

  lemma DirsStay(st: State, st': State, i: nat)
    requires i in st.inodes && i in st'.inodes && st.inodes[i].kind == Regular
    requires st'.inodes[i].kind == st.inodes[i].kind && st'.inodes[i].links == st.inodes[i].links
    requires forall k :: k in st'.inodes <==> k in st.inodes
    requires forall k :: k in st.inodes && k != i ==>
               && st'.inodes[k] == st.inodes[k] && IndexOf(st'.disk, st'.inodes[k]) == IndexOf(st.disk, st.inodes[k])
               && (st.inodes[k].kind == Directory ==> DirOk(st'.disk, st'.inodes[k]))
    ensures TreeOf(st') == TreeOf(st) && AllDirsOk(st')
  {
    hide IndexOf, DirOk;
  }

  lemma FilesStay(st: State, st': State, i: nat)
    requires i in st.inodes && i in st'.inodes && st.inodes[i].kind == Regular && st'.inodes[i].kind == Regular
    requires forall k :: k in st'.inodes <==> k in st.inodes
    requires forall k :: k in st.inodes && k != i ==>
               st'.inodes[k] == st.inodes[k] && Content(st'.disk, st'.inodes[k]) == Content(st.disk, st.inodes[k])
    ensures BytesOf(st') == BytesOf(st)[i := Content(st'.disk, st'.inodes[i])]
  {
    hide Content;
  }

  lemma IndicesStay(st: State, st': State, i: nat, index: map<nat, Ns.Index>)
    requires Agrees(index, st) && i in st.inodes && st.inodes[i].kind == Regular
    requires forall k :: k in st.inodes && k != i ==>
               k in st'.inodes && st'.inodes[k] == st.inodes[k] && IndexOf(st'.disk, st'.inodes[k]) == IndexOf(st.disk, st.inodes[k])
    ensures Agrees(index, st')
  {
    hide IndexOf;
  }

  /** A write keeps directories, indices and names, and changes the bytes of its file alone. */
  lemma WriteKeepsNames(st: State, st': State, i: nat, offset: nat, buf: seq<byte>, index: map<nat, Ns.Index>)
    requires FsOk(st, index) && i in st.inodes && st.inodes[i].kind == Regular && WriteDone(st, st', i, offset, buf)
    ensures FsOk(st', index) && TreeOf(st') == TreeOf(st)
    ensures Possible(ViewOf(st), Bytes(i, offset, buf)) && ViewOf(st') == Changed(ViewOf(st), Bytes(i, offset, buf))
  {
    hide *;
    WriteDoneParts(st, st', i, offset, buf);
    FileChanged(st, st', i, index);
    BytesAt(st, i);
    BytesView(st, st', i, offset, buf);
  }

  lemma BytesView(st: State, st': State, i: nat, offset: nat, buf: seq<byte>)
    requires TreeOf(st') == TreeOf(st) && i in BytesOf(st)
    requires BytesOf(st') == BytesOf(st)[i := Overwritten(BytesOf(st)[i], offset, buf)]
    ensures Possible(ViewOf(st), Bytes(i, offset, buf)) && ViewOf(st') == Changed(ViewOf(st), Bytes(i, offset, buf))
  {
    hide TreeOf, BytesOf, Overwritten;
  }

  /** So does emptying a file. */
  lemma ClearKeepsNames(st: State, st': State, i: nat, index: map<nat, Ns.Index>)
    requires FsOk(st, index) && i in st.inodes && st.inodes[i].kind == Regular && Emptied(st, i, st')
    requires i in st'.inodes && st'.inodes[i].kind == st.inodes[i].kind && st'.inodes[i].links == st.inodes[i].links
    ensures FsOk(st', index) && TreeOf(st') == TreeOf(st)
    ensures Possible(ViewOf(st), NoBytes(i)) && ViewOf(st') == Changed(ViewOf(st), NoBytes(i))
  {
    hide *;
    EmptiedSound(st, i, st');
    FileChanged(st, st', i, index);
    BytesAt(st, i);
    NoBytesView(st, st', i);
  }

  lemma NoBytesView(st: State, st': State, i: nat)
    requires TreeOf(st') == TreeOf(st) && i in BytesOf(st) && BytesOf(st') == BytesOf(st)[i := []]
    ensures Possible(ViewOf(st), NoBytes(i)) && ViewOf(st') == Changed(ViewOf(st), NoBytes(i))
  {
    hide TreeOf, BytesOf;
  }

  /** A read, or a call that failed, changes nothing. */
  lemma NothingChanged(st: State, st': State, index: map<nat, Ns.Index>)
    requires FsOk(st, index) && Untouched(st, st')
    ensures FsOk(st', index) && ViewOf(st') == ViewOf(st)
    ensures Possible(ViewOf(st), Names(Ns.Refused)) && ViewOf(st') == Changed(ViewOf(st), Names(Ns.Refused))
  {
    hide *;
    FsParts(st, index);
    UntouchedTree(st, st', index);
    UntouchedBytes(st, st');
    SameView(st, st');
    FsJoin(st', index);
    RefusedIs(TreeOf(st));
    AlwaysKept(st);
    FilesCarried(st, st);
    NamesView(st, st, Ns.Refused);
  }

  lemma UntouchedBytes(st: State, st': State)
    requires Untouched(st, st')
    ensures BytesOf(st') == BytesOf(st)
  {
    hide Sound, Content, Ext, Owned;
  }

  lemma SameView(st: State, st': State)
    requires TreeOf(st') == TreeOf(st) && BytesOf(st') == BytesOf(st)
    ensures ViewOf(st') == ViewOf(st)
  {
    hide TreeOf, BytesOf;
  }

  // Calls on names leave the bytes alone

  lemma FilesCarried(st: State, st': State)
    requires FilesKept(st, st')
    requires forall i :: i in st'.inodes && st'.inodes[i].kind == Regular ==>
               (i in st.inodes && st.inodes[i].kind == Regular) || Content(st'.disk, st'.inodes[i]) == []
    requires forall i :: i in st.inodes && i in st'.inodes ==> st'.inodes[i].kind == st.inodes[i].kind
    ensures BytesOf(st') == Carried(BytesOf(st), TreeOf(st'))
  {
    hide Content, IndexOf;
    forall i ensures i in BytesOf(st') <==> i in Carried(BytesOf(st), TreeOf(st')) {
    }
  }

  lemma NamesView(st: State, st': State, op: Ns.Op)
    requires Ns.Allowed(TreeOf(st), op) && TreeOf(st') == Ns.Next(TreeOf(st), op) && BytesOf(st') == Carried(BytesOf(st), TreeOf(st'))
    ensures Possible(ViewOf(st), Names(op)) && ViewOf(st') == Changed(ViewOf(st), Names(op))
  {
    hide TreeOf, BytesOf, Ns.Allowed, Ns.Next, Carried;
  }

  /** The kinds of the inodes that stay. */
  lemma KindsStay(st: State, st': State)
    requires forall i :: i in TreeOf(st').kinds && i in TreeOf(st).kinds ==> TreeOf(st').kinds[i] == TreeOf(st).kinds[i]
    ensures forall i :: i in st.inodes && i in st'.inodes ==> st'.inodes[i].kind == st.inodes[i].kind
  {
    hide IndexOf;
    forall i | i in st.inodes && i in st'.inodes ensures st'.inodes[i].kind == st.inodes[i].kind {
      assert i in TreeOf(st').kinds && i in TreeOf(st).kinds;
    }
  }

  /** A call that makes no regular file. */
  lemma NamesOnly(st: State, st': State, op: Ns.Op)
    requires Ns.Allowed(TreeOf(st), op) && TreeOf(st') == Ns.Next(TreeOf(st), op) && Clean(st, st')
    requires forall i :: i in TreeOf(st').kinds && i in TreeOf(st).kinds ==> TreeOf(st').kinds[i] == TreeOf(st).kinds[i]
    requires forall i :: i in TreeOf(st').kinds && i !in TreeOf(st).kinds ==> TreeOf(st').kinds[i] == Directory
    ensures Possible(ViewOf(st), Names(op)) && ViewOf(st') == Changed(ViewOf(st), Names(op))
  {
    hide *;
    CleanParts(st, st');
    KindsStay(st, st');
    NewAreDirs(st, st');
    FilesCarried(st, st');
    NamesView(st, st', op);
  }

  lemma NewAreDirs(st: State, st': State)
    requires forall i :: i in TreeOf(st').kinds && i in TreeOf(st).kinds ==> TreeOf(st').kinds[i] == TreeOf(st).kinds[i]
    requires forall i :: i in TreeOf(st').kinds && i !in TreeOf(st).kinds ==> TreeOf(st').kinds[i] == Directory
    ensures forall i :: i in st'.inodes && st'.inodes[i].kind == Regular ==> i in st.inodes && st.inodes[i].kind == Regular
  {
    hide IndexOf;
    forall i | i in st'.inodes && st'.inodes[i].kind == Regular ensures i in st.inodes && st.inodes[i].kind == Regular {
      assert i in TreeOf(st').kinds;
      if i in st.inodes {
        assert i in TreeOf(st).kinds;
      }
    }
  }

  lemma RefusedIs(t: Ns.Tree)
    ensures Ns.Allowed(t, Ns.Refused) && Ns.Next(t, Ns.Refused) == t
  {
  }

  lemma EnteredView(st: State, st': State, d: nat, name: Name, i: nat)
    requires FileEntered(st, st', d, name, i) && Ns.Free(TreeOf(st), d, name)
    ensures var op := Ns.CreateFileOp(d, name, i); Possible(ViewOf(st), Names(op)) && ViewOf(st') == Changed(ViewOf(st), Names(op))
  {
    hide *;
    EnteredParts(st, st', d, name, i);
    var op := Ns.CreateFileOp(d, name, i);
    TreeAt(st, i);
    CreateOp(TreeOf(st), d, name, i);
    KindsStay(st, st');
    OneNewFile(st, st', i);
    FilesCarried(st, st');
    NamesView(st, st', op);
  }

  lemma EnteredParts(st: State, st': State, d: nat, name: Name, i: nat)
    requires FileEntered(st, st', d, name, i)
    ensures d in TreeOf(st).names && i !in st.inodes && TreeOf(st') == Ns.Create(TreeOf(st), d, name, i)
    ensures Clean(st, st') && FilesKept(st, st') && i in st'.inodes && Content(st'.disk, st'.inodes[i]) == []
  {
    hide TreeOf, Ns.Create, Content, Unowned;
  }

  lemma CreateOp(t: Ns.Tree, d: nat, n: Name, i: nat)
    requires Ns.Free(t, d, n) && i !in t.kinds
    ensures var op := Ns.CreateFileOp(d, n, i); Ns.Allowed(t, op) && d in t.names && Ns.Next(t, op) == Ns.Create(t, d, n, i)
    ensures Ns.Create(t, d, n, i).kinds == t.kinds[i := Regular]
  {
  }

  lemma OneNewFile(st: State, st': State, i: nat)
    requires TreeOf(st').kinds == TreeOf(st).kinds[i := Regular] && i in st'.inodes && Content(st'.disk, st'.inodes[i]) == []
    ensures forall k :: k in st'.inodes && st'.inodes[k].kind == Regular ==>
              (k in st.inodes && st.inodes[k].kind == Regular) || Content(st'.disk, st'.inodes[k]) == []
  {
    hide IndexOf, Content;
    forall k | k in st'.inodes && st'.inodes[k].kind == Regular && k != i ensures k in st.inodes && st.inodes[k].kind == Regular {
      assert k in TreeOf(st').kinds && TreeOf(st').kinds[k] == Regular;
    }
  }

  lemma DirEnteredView(st: State, st': State, d: nat, name: Name, i: nat)
    requires DirEntered(st, st', d, name, i) && Ns.Free(TreeOf(st), d, name)
    ensures var op := Ns.CreateDirOp(d, name, i); Possible(ViewOf(st), Names(op)) && ViewOf(st') == Changed(ViewOf(st), Names(op))
    ensures Clean(st, st')
  {
    hide *;
    DirEnteredParts(st, st', d, name, i);
    TreeAt(st, i);
    CreateDirOpIs(TreeOf(st), d, name, i);
    NamesOnly(st, st', Ns.CreateDirOp(d, name, i));
  }

  lemma DirEnteredParts(st: State, st': State, d: nat, name: Name, i: nat)
    requires DirEntered(st, st', d, name, i)
    ensures d in TreeOf(st).names && d in TreeOf(st).links && i !in st.inodes
    ensures TreeOf(st') == Ns.CreateDir(TreeOf(st), d, name, i) && Clean(st, st')
  {
    hide TreeOf, Ns.CreateDir, Clean;
  }

  lemma CreateDirOpIs(t: Ns.Tree, d: nat, n: Name, i: nat)
    requires Ns.Free(t, d, n) && i !in t.kinds && d in t.links
    ensures var op := Ns.CreateDirOp(d, n, i); Ns.Allowed(t, op) && d in t.names && Ns.Next(t, op) == Ns.CreateDir(t, d, n, i)
    ensures Ns.CreateDir(t, d, n, i).kinds == t.kinds[i := Directory]
  {
  }

  lemma LinkedView(st: State, st': State, d: nat, name: Name, target: nat)
    requires Linked(st, st', d, name, target) && Ns.Free(TreeOf(st), d, name)
    requires target in TreeOf(st).kinds && TreeOf(st).kinds[target] == Regular
    ensures var op := Ns.LinkOp(d, name, target); Possible(ViewOf(st), Names(op)) && ViewOf(st') == Changed(ViewOf(st), Names(op))
    ensures Clean(st, st')
  {
    hide *;
    LinkedParts(st, st', d, name, target);
    LinkOpIs(TreeOf(st), d, name, target);
    NamesOnly(st, st', Ns.LinkOp(d, name, target));
  }

  lemma LinkedParts(st: State, st': State, d: nat, name: Name, target: nat)
    requires Linked(st, st', d, name, target)
    ensures d in TreeOf(st).names && target in TreeOf(st).links && TreeOf(st') == Ns.Link(TreeOf(st), d, name, target)
    ensures Clean(st, st')
  {
    hide TreeOf, Ns.Link, Clean;
  }

  lemma LinkOpIs(t: Ns.Tree, d: nat, n: Name, i: nat)
    requires Ns.Free(t, d, n) && i in t.kinds && t.kinds[i] == Regular && i in t.links
    ensures var op := Ns.LinkOp(d, n, i); Ns.Allowed(t, op) && d in t.names && Ns.Next(t, op) == Ns.Link(t, d, n, i)
    ensures Ns.Link(t, d, n, i).kinds == t.kinds
  {
  }

  lemma RenamedView(st: State, st': State, d: nat, from: Name, to: Name) returns (op: Ns.Op)
    requires Renamed(st, st', d, from, to) && Ns.Free(TreeOf(st), d, to) && from != Ns.DOT && from != Ns.DOTDOT
    ensures op.RenameOp? && op.d == d && op.n == from && op.to == to
    ensures Possible(ViewOf(st), Names(op)) && ViewOf(st') == Changed(ViewOf(st), Names(op)) && Clean(st, st')
  {
    hide *;
    RenamedParts(st, st', d, from, to);
    op := Ns.RenameOp(d, from, to);
    RenameOpIs(TreeOf(st), d, from, to);
    NamesOnly(st, st', op);
  }

  lemma RenamedParts(st: State, st': State, d: nat, from: Name, to: Name)
    requires Renamed(st, st', d, from, to)
    ensures d in TreeOf(st).names && from in TreeOf(st).names[d] && Clean(st, st')
    ensures var i := TreeOf(st).names[d][from].0;
            i in TreeOf(st).kinds && TreeOf(st') == Ns.Rename(TreeOf(st), d, from, to, Ns.TypeByte(TreeOf(st), i))
  {
    hide TreeOf, Ns.Rename, Ns.TypeByte, Clean;
  }

  lemma RenameOpIs(t: Ns.Tree, d: nat, from: Name, to: Name)
    requires Ns.Free(t, d, to) && d in t.names && from in t.names[d] && from != Ns.DOT && from != Ns.DOTDOT
    requires t.names[d][from].0 in t.kinds
    ensures var op := Ns.RenameOp(d, from, to);
            Ns.Allowed(t, op) && Ns.Next(t, op) == Ns.Rename(t, d, from, to, Ns.TypeByte(t, t.names[d][from].0))
    ensures Ns.Next(t, Ns.RenameOp(d, from, to)).kinds == t.kinds
  {
  }

  lemma UnlinkedView(st: State, st': State, d: nat, name: Name) returns (op: Ns.Op)
    requires Unlinked(TreeOf(st), TreeOf(st'), d, name) && Clean(st, st')
    ensures op == Ns.UnlinkFileOp(d, name) || op == Ns.UnlinkDirOp(d, name)
    ensures Possible(ViewOf(st), Names(op)) && ViewOf(st') == Changed(ViewOf(st), Names(op))
  {
    hide *;
    op := UnlinkOpIs(TreeOf(st), TreeOf(st'), d, name);
    NamesOnly(st, st', op);
  }

  lemma UnlinkOpIs(t: Ns.Tree, t': Ns.Tree, d: nat, n: Name) returns (op: Ns.Op)
    requires Unlinked(t, t', d, n)
    ensures op == Ns.UnlinkFileOp(d, n) || op == Ns.UnlinkDirOp(d, n)
    ensures Ns.Allowed(t, op) && t' == Ns.Next(t, op)
    ensures forall i :: i in t'.kinds ==> i in t.kinds && t'.kinds[i] == t.kinds[i]
  {
    op := if t.kinds[t.names[d][n].0] == Directory then Ns.UnlinkDirOp(d, n) else Ns.UnlinkFileOp(d, n);
  }
}
