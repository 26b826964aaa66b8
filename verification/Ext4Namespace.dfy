/** Names and link counts of ext4-fs/src/vfs.rs: what `create_file`, `create_dir`, `link_inode`, `unlink` and
    `rename` do to a tree of directories, and why the counts stay right in every run. */
module Ext4Namespace {
  import opened Common
  import opened Ext4Types
  import opened Ext4Layout
  import opened Ext4Volume
  import opened Ext4DirBlock

  const DOT: Name := [46]
  const DOTDOT: Name := [46, 46]
  const ROOT: nat := 2
  const FT_REG_FILE: nat := 1
  const FT_DIR: nat := 2

  type Index = map<Name, (nat, nat)>

  /** Kinds and link counts of the live inodes, and the names in the live directories. */
  datatype Tree = Tree(kinds: map<nat, Kind>, links: map<nat, nat>, names: map<nat, Index>)

  predicate IsDir(t: Tree, i: nat) {
    i in t.kinds && t.kinds[i] == Directory
  }

  /** The entries, other than "." and "..", that name inode i. */
  ghost function Refs(t: Tree, i: nat): set<(nat, Name)> {
    set d, n | d in t.names && n in t.names[d] && n != DOT && n != DOTDOT && t.names[d][n].0 == i :: (d, n)
  }

  /** The names of the subdirectories of a directory. */
  ghost function Subdirs(t: Tree, d: nat): set<Name> {
    if d !in t.names then {} else set n | n in t.names[d] && n != DOT && n != DOTDOT && IsDir(t, t.names[d][n].0)
  }

  // What holds between operations

  /** Every name of a directory names a live inode; "." names itself and ".." a directory. */
  ghost predicate NamedDir(t: Tree, d: nat) {
    && d in t.names && (forall n :: n in t.names[d] ==> t.names[d][n].0 in t.kinds)
    && DOT in t.names[d] && DOTDOT in t.names[d]
    && t.names[d][DOT].0 == d && IsDir(t, t.names[d][DOTDOT].0)
  }

  /** A regular file's count is the number of entries naming it, and not zero; a directory's is 2 and one for
      each subdirectory. */
  ghost predicate Counted(t: Tree, i: nat) {
    && i in t.kinds && i in t.links
    && (t.kinds[i] == Regular ==> t.links[i] == |Refs(t, i)| && t.links[i] > 0)
    && (t.kinds[i] == Directory ==> t.links[i] == 2 + |Subdirs(t, i)|)
  }

  /** A directory other than the root has one entry naming it, in the directory that its ".." names; the root
      has none, and is its own parent. */
  ghost predicate Placed(t: Tree, d: nat) {
    && d in t.names && DOTDOT in t.names[d]
    && if d == ROOT then Refs(t, d) == {} && t.names[d][DOTDOT].0 == ROOT else exists n :: Refs(t, d) == {(t.names[d][DOTDOT].0, n)}
  }

  ghost predicate Shaped(t: Tree) {
    t.links.Keys == t.kinds.Keys && (forall d :: d in t.names <==> IsDir(t, d)) && IsDir(t, ROOT)
  }

  ghost predicate Sane(t: Tree) {
    && Shaped(t)
    && (forall d :: d in t.names ==> NamedDir(t, d) && Placed(t, d))
    && forall i :: i in t.kinds ==> Counted(t, i)
  }

  lemma SaneAt(t: Tree, d: nat)
    requires Sane(t)
    ensures Shaped(t) && (d in t.names ==> NamedDir(t, d) && Placed(t, d)) && (d in t.kinds ==> Counted(t, d))
  {
    hide Shaped, NamedDir, Placed, Counted;
  }

  lemma SaneJoin(t: Tree)
    requires Shaped(t)
    requires forall d :: d in t.names ==> NamedDir(t, d) && Placed(t, d)
    requires forall i :: i in t.kinds ==> Counted(t, i)
    ensures Sane(t)
  {
    hide Shaped, NamedDir, Placed, Counted;
  }

  // How entries change references

  ghost function WithEntry(t: Tree, d: nat, n: Name, i: nat, fileType: nat): Tree
    requires d in t.names
  {
    t.(names := t.names[d := t.names[d][n := (i, fileType)]])
  }

  ghost function WithoutEntry(t: Tree, d: nat, n: Name): Tree
    requires d in t.names
  {
    t.(names := t.names[d := t.names[d] - {n}])
  }

  lemma RefsWithEntry(t: Tree, d: nat, n: Name, i: nat, fileType: nat, j: nat)
    requires d in t.names && n !in t.names[d] && n != DOT && n != DOTDOT
    ensures Refs(WithEntry(t, d, n, i, fileType), j) == Refs(t, j) + (if j == i then {(d, n)} else {})
    ensures (d, n) !in Refs(t, j)
  {
    var t' := WithEntry(t, d, n, i, fileType);
    forall x ensures x in Refs(t', j) <==> x in Refs(t, j) + (if j == i then {(d, n)} else {}) {
    }
  }

  lemma RefsWithoutEntry(t: Tree, d: nat, n: Name, j: nat)
    requires d in t.names && n in t.names[d] && n != DOT && n != DOTDOT
    ensures Refs(WithoutEntry(t, d, n), j) == Refs(t, j) - (if j == t.names[d][n].0 then {(d, n)} else {})
    ensures j == t.names[d][n].0 ==> (d, n) in Refs(t, j)
  {
    var t' := WithoutEntry(t, d, n);
    forall x ensures x in Refs(t', j) <==> x in Refs(t, j) - (if j == t.names[d][n].0 then {(d, n)} else {}) {
    }
  }

  /** References depend on the names only. */
  lemma RefsSame(t: Tree, t': Tree, j: nat)
    requires t'.names == t.names
    ensures Refs(t', j) == Refs(t, j)
  {
  }

  // The operations

  function Create(t: Tree, d: nat, n: Name, i: nat): Tree
    requires d in t.names
  {
    Tree(t.kinds[i := Regular], t.links[i := 1], t.names[d := t.names[d][n := (i, FT_REG_FILE)]])
  }

  function Link(t: Tree, d: nat, n: Name, i: nat): Tree
    requires d in t.names && i in t.links
  {
    Tree(t.kinds, t.links[i := t.links[i] + 1], t.names[d := t.names[d][n := (i, FT_REG_FILE)]])
  }

  /** Names of a new directory. */
  function DotNames(i: nat, parent: nat): Index {
    map[DOT := (i, FT_DIR), DOTDOT := (parent, FT_DIR)]
  }

  function CreateDir(t: Tree, d: nat, n: Name, i: nat): Tree
    requires d in t.names && d in t.links
  {
    Tree(t.kinds[i := Directory], t.links[i := 2][d := t.links[d] + 1],
         t.names[i := DotNames(i, d)][d := t.names[d][n := (i, FT_DIR)]])
  }

  /** The last link of a file goes, and the file with it; or one of several. */
  function UnlinkFile(t: Tree, d: nat, n: Name): Tree
    requires d in t.names && n in t.names[d] && t.names[d][n].0 in t.links && t.links[t.names[d][n].0] > 0
  {
    var i := t.names[d][n].0;
    var names := t.names[d := t.names[d] - {n}];
    if t.links[i] == 1 then Tree(t.kinds - {i}, t.links - {i}, names)
    else Tree(t.kinds, t.links[i := t.links[i] - 1], names)
  }

  function UnlinkDir(t: Tree, d: nat, n: Name): Tree
    requires d in t.names && n in t.names[d] && d in t.links && t.links[d] > 0
  {
    var i := t.names[d][n].0;
    Tree(t.kinds - {i}, t.links[d := t.links[d] - 1] - {i}, t.names[d := t.names[d] - {n}] - {i})
  }

  function Rename(t: Tree, d: nat, from: Name, to: Name, fileType: nat): Tree
    requires d in t.names && from in t.names[d]
  {
    t.(names := t.names[d := t.names[d][to := (t.names[d][from].0, fileType)] - {from}])
  }

  /** The type byte of entries that name an inode. */
  function TypeByte(t: Tree, i: nat): nat
    requires i in t.kinds
  {
    if t.kinds[i] == Directory then 2 else 1
  }

  /** A name that an operation may add to a directory. */
  ghost predicate Free(t: Tree, d: nat, n: Name) {
    d in t.names && n !in t.names[d]
  }

  lemma FreeIsNoDot(t: Tree, d: nat, n: Name)
    requires Sane(t) && Free(t, d, n)
    ensures n != DOT && n != DOTDOT && d in t.names && n !in t.names[d] && IsDir(t, d) && d in t.links && d in t.kinds
  {
    hide Placed, Counted, Refs, Subdirs;
    SaneAt(t, d);
  }

  /** An inode that is not live is referred to by no entry. */
  lemma NoRefsToNew(t: Tree, i: nat)
    requires Sane(t) && i !in t.kinds
    ensures Refs(t, i) == {} && i !in t.names && i !in t.links && i != ROOT
  {
    hide Placed, Counted, Refs, Subdirs;
    SaneAt(t, i);
    forall d, n | d in t.names && n in t.names[d] ensures t.names[d][n].0 != i {
      SaneAt(t, d);
    }
    NoRefs(t, i);
  }

  lemma NoRefs(t: Tree, i: nat)
    requires forall d, n :: d in t.names && n in t.names[d] ==> t.names[d][n].0 != i
    ensures Refs(t, i) == {}
  {
  }

  /** Counting again when neither kind, count, references nor subdirectories have changed. */
  lemma StillCounted(t: Tree, t': Tree, i: nat)
    requires Counted(t, i) && i in t'.kinds && i in t'.links && t'.kinds[i] == t.kinds[i] && t'.links[i] == t.links[i]
    requires t.kinds[i] == Regular ==> Refs(t', i) == Refs(t, i)
    requires t.kinds[i] == Directory ==> Subdirs(t', i) == Subdirs(t, i)
    ensures Counted(t', i)
  {
    hide Refs, Subdirs;
  }

  lemma StillPlaced(t: Tree, t': Tree, d: nat)
    requires Placed(t, d) && d in t'.names && DOTDOT in t'.names[d] && d in t.names && DOTDOT in t.names[d]
    requires t'.names[d][DOTDOT].0 == t.names[d][DOTDOT].0 && Refs(t', d) == Refs(t, d)
    ensures Placed(t', d)
  {
    hide Refs;
  }

  /** Names of a directory when one entry has come, and no inode has gone. */
  lemma StillNamed(t: Tree, t': Tree, e: nat, d: nat, n: Name, i: nat, fileType: nat)
    requires NamedDir(t, e) && d in t.names && n != DOT && n != DOTDOT && e in t'.names
    requires t'.names[e] == if e == d then t.names[d][n := (i, fileType)] else t.names[e]
    requires i in t'.kinds && forall j :: j in t.kinds ==> j in t'.kinds
    requires forall j :: IsDir(t, j) ==> IsDir(t', j)
    ensures NamedDir(t', e)
  {
  }

  lemma OneMore<T>(s: set<T>, x: T)
    requires x !in s
    ensures |s + {x}| == |s| + 1
  {
  }

  lemma OneLess<T>(s: set<T>, x: T)
    requires x in s
    ensures |s - {x}| == |s| - 1
  {
  }

  // create_file

  lemma CreateRefs(t: Tree, d: nat, n: Name, i: nat, j: nat)
    requires Free(t, d, n) && n != DOT && n != DOTDOT
    ensures Refs(Create(t, d, n, i), j) == Refs(t, j) + (if j == i then {(d, n)} else {})
  {
    hide Refs;
    RefsWithEntry(t, d, n, i, FT_REG_FILE, j);
    RefsSame(WithEntry(t, d, n, i, FT_REG_FILE), Create(t, d, n, i), j);
  }

  /** An entry for a file changes no directory's subdirectories. */
  lemma FileEntrySubdirs(t: Tree, t': Tree, d: nat, n: Name, i: nat, fileType: nat, e: nat)
    requires d in t.names && n !in t.names[d] && t'.names == t.names[d := t.names[d][n := (i, fileType)]]
    requires !IsDir(t', i) && forall j :: IsDir(t', j) <==> IsDir(t, j)
    ensures Subdirs(t', e) == Subdirs(t, e)
  {
    hide IsDir;
    if e in t.names {
      forall m ensures m in Subdirs(t', e) <==> m in Subdirs(t, e) {
      }
    }
  }

  lemma CreateAt(t: Tree, d: nat, n: Name, i: nat, e: nat)
    requires Sane(t) && Free(t, d, n) && i !in t.kinds
    ensures var t' := Create(t, d, n, i);
            && (e in t'.names ==> NamedDir(t', e) && Placed(t', e)) && (e in t'.kinds ==> Counted(t', e))
  {
    hide Sane, Refs, Subdirs, NamedDir, Counted, Placed, Free;
    FreeIsNoDot(t, d, n);
    var t' := Create(t, d, n, i);
    NoRefsToNew(t, i);
    SaneAt(t, e);
    CreateRefs(t, d, n, i, e);
    FileEntrySubdirs(t, t', d, n, i, FT_REG_FILE, e);
    if e == i {
      NewFileCounted(t', i, (d, n));
    } else {
      if e in t.kinds {
        StillCounted(t, t', e);
      }
      if e in t.names {
        NamedParts(t, e);
        StillNamed(t, t', e, d, n, i, FT_REG_FILE);
        StillPlaced(t, t', e);
      }
    }
  }

  lemma NamedParts(t: Tree, e: nat)
    requires NamedDir(t, e)
    ensures e in t.names && DOT in t.names[e] && DOTDOT in t.names[e] && t.names[e][DOT].0 == e
    ensures forall n :: n in t.names[e] ==> t.names[e][n].0 in t.kinds
  {
  }

  lemma NewFileCounted(t: Tree, i: nat, r: (nat, Name))
    requires i in t.kinds && i in t.links && t.kinds[i] == Regular && t.links[i] == 1 && Refs(t, i) == {} + {r}
    ensures Counted(t, i)
  {
    hide Refs;
  }

  lemma CreateKeeps(t: Tree, d: nat, n: Name, i: nat)
    requires Sane(t) && Free(t, d, n) && i !in t.kinds
    ensures Sane(Create(t, d, n, i))
  {
    hide *;
    FreeIsNoDot(t, d, n);
    var t' := Create(t, d, n, i);
    forall e ensures (e in t'.names ==> NamedDir(t', e) && Placed(t', e)) && (e in t'.kinds ==> Counted(t', e)) {
      CreateAt(t, d, n, i, e);
    }
    CreateShape(t, d, n, i);
    SaneJoin(t');
  }

  lemma CreateShape(t: Tree, d: nat, n: Name, i: nat)
    requires Sane(t) && Free(t, d, n) && i !in t.kinds
    ensures Shaped(Create(t, d, n, i))
  {
    hide NamedDir, Counted, Placed;
  }

  // link_inode

  lemma LinkAt(t: Tree, d: nat, n: Name, i: nat, e: nat)
    requires Sane(t) && Free(t, d, n) && i in t.kinds && t.kinds[i] == Regular && i in t.links
    ensures var t' := Link(t, d, n, i);
            && (e in t'.names ==> NamedDir(t', e) && Placed(t', e)) && (e in t'.kinds ==> Counted(t', e))
  {
    hide Sane, Refs, Subdirs, NamedDir, Counted, Placed, Free;
    FreeIsNoDot(t, d, n);
    var t' := Link(t, d, n, i);
    SaneAt(t, e);
    RefsWithEntry(t, d, n, i, FT_REG_FILE, e);
    RefsSame(WithEntry(t, d, n, i, FT_REG_FILE), t', e);
    FileEntrySubdirs(t, t', d, n, i, FT_REG_FILE, e);
    if e == i {
      LinkedCounted(t, t', i, (d, n));
      FileIsNoDir(t, i);
    } else {
      if e in t.kinds {
        StillCounted(t, t', e);
      }
      if e in t.names {
        NamedParts(t, e);
        StillNamed(t, t', e, d, n, i, FT_REG_FILE);
        StillPlaced(t, t', e);
      }
    }
  }

  lemma FileIsNoDir(t: Tree, i: nat)
    requires Sane(t) && i in t.kinds && t.kinds[i] == Regular
    ensures i !in t.names
  {
    hide NamedDir, Counted, Placed;
  }

  lemma LinkedCounted(t: Tree, t': Tree, i: nat, r: (nat, Name))
    requires Counted(t, i) && t.kinds[i] == Regular && i in t'.kinds && i in t'.links && t'.kinds[i] == Regular
    requires t'.links[i] == t.links[i] + 1 && Refs(t', i) == Refs(t, i) + {r} && r !in Refs(t, i)
    ensures Counted(t', i)
  {
    hide Refs;
    OneMore(Refs(t, i), r);
  }

  lemma LinkKeeps(t: Tree, d: nat, n: Name, i: nat)
    requires Sane(t) && Free(t, d, n) && i in t.kinds && t.kinds[i] == Regular && i in t.links
    ensures Sane(Link(t, d, n, i))
  {
    hide *;
    FreeIsNoDot(t, d, n);
    var t' := Link(t, d, n, i);
    forall e ensures (e in t'.names ==> NamedDir(t', e) && Placed(t', e)) && (e in t'.kinds ==> Counted(t', e)) {
      LinkAt(t, d, n, i, e);
    }
    LinkShape(t, d, n, i);
    SaneJoin(t');
  }

  lemma LinkShape(t: Tree, d: nat, n: Name, i: nat)
    requires Sane(t) && Free(t, d, n) && i in t.kinds && t.kinds[i] == Regular && i in t.links
    ensures Shaped(Link(t, d, n, i))
  {
    hide NamedDir, Counted, Placed;
  }

  // create_dir

  /** `CreateDir`, seen inode by inode. */
  lemma CreateDirView(t: Tree, d: nat, n: Name, i: nat)
    requires d in t.names && d in t.links && d in t.kinds && i !in t.names && i !in t.links && i !in t.kinds
    ensures var t' := CreateDir(t, d, n, i);
            && (forall e :: e in t'.names <==> e in t.names || e == i)
            && t'.names[d] == t.names[d][n := (i, FT_DIR)] && t'.names[i] == DotNames(i, d)
            && (forall e :: e in t.names && e != d ==> t'.names[e] == t.names[e])
            && (forall e :: e in t'.kinds <==> e in t.kinds || e == i)
            && (forall e :: e in t.kinds ==> t'.kinds[e] == t.kinds[e]) && t'.kinds[i] == Directory
            && (forall e :: e in t'.links <==> e in t.links || e == i)
            && (forall e :: e in t.links && e != d ==> t'.links[e] == t.links[e])
            && t'.links[d] == t.links[d] + 1 && t'.links[i] == 2
            && forall e :: IsDir(t', e) <==> IsDir(t, e) || e == i
  {
    hide DotNames;
  }

  lemma DotsAreNoRefs(t: Tree, i: nat, parent: nat, j: nat)
    requires i !in t.names
    ensures Refs(t.(names := t.names[i := DotNames(i, parent)]), j) == Refs(t, j)
  {
    var t' := t.(names := t.names[i := DotNames(i, parent)]);
    forall x ensures x in Refs(t', j) <==> x in Refs(t, j) {
    }
  }

  lemma CreateDirRefs(t: Tree, d: nat, n: Name, i: nat, j: nat)
    requires Sane(t) && Free(t, d, n) && i !in t.kinds && d in t.links && d in t.names
    ensures Refs(CreateDir(t, d, n, i), j) == Refs(t, j) + (if j == i then {(d, n)} else {})
  {
    FreeIsNoDot(t, d, n);
    NoRefsToNew(t, i);
    CreateDirView(t, d, n, i);
    hide Sane, IsDir, Refs, DotNames, Free, CreateDir, WithEntry;
    var t1 := t.(names := t.names[i := DotNames(i, d)]);
    DotsAreNoRefs(t, i, d, j);
    RefsWithEntry(t1, d, n, i, FT_DIR, j);
    TwoUpdates(t, t1, CreateDir(t, d, n, i), d, n, i);
    RefsSame(WithEntry(t1, d, n, i, FT_DIR), CreateDir(t, d, n, i), j);
  }

  lemma TwoUpdates(t: Tree, t1: Tree, t': Tree, d: nat, n: Name, i: nat)
    requires d in t.names && i !in t.names && t1.names == t.names[i := DotNames(i, d)]
    requires (forall e :: e in t'.names <==> e in t.names || e == i)
    requires t'.names[d] == t.names[d][n := (i, FT_DIR)] && t'.names[i] == DotNames(i, d)
    requires forall e :: e in t.names && e != d ==> t'.names[e] == t.names[e]
    ensures d in t1.names && t'.names == WithEntry(t1, d, n, i, FT_DIR).names
  {
    hide DotNames;
  }

  /** One more directory adds a subdirectory where its entry went. */
  lemma DirEntrySubdirs(t: Tree, t': Tree, d: nat, n: Name, i: nat)
    requires d in t.names && n !in t.names[d] && n != DOT && n != DOTDOT
    requires d in t'.names && t'.names[d] == t.names[d][n := (i, FT_DIR)]
    requires IsDir(t', i) && forall j :: j in t.kinds ==> (IsDir(t', j) <==> IsDir(t, j))
    requires forall m :: m in t.names[d] ==> t.names[d][m].0 in t.kinds
    ensures Subdirs(t', d) == Subdirs(t, d) + {n} && n !in Subdirs(t, d)
  {
    hide IsDir;
    forall m ensures m in Subdirs(t', d) <==> m in Subdirs(t, d) + {n} {
    }
  }

  lemma OtherSubdirs(t: Tree, t': Tree, e: nat)
    requires e in t.names && e in t'.names && t'.names[e] == t.names[e]
    requires forall j :: j in t.kinds ==> (IsDir(t', j) <==> IsDir(t, j))
    requires forall m :: m in t.names[e] ==> t.names[e][m].0 in t.kinds
    ensures Subdirs(t', e) == Subdirs(t, e)
  {
    hide IsDir;
    forall m ensures m in Subdirs(t', e) <==> m in Subdirs(t, e) {
    }
  }

  lemma DotsAreNoSubdirs(t: Tree, i: nat, parent: nat)
    requires i in t.names && t.names[i] == DotNames(i, parent)
    ensures Subdirs(t, i) == {}
  {
    hide IsDir;
  }

  lemma CreateDirSubdirs(t: Tree, d: nat, n: Name, i: nat, e: nat)
    requires Sane(t) && Free(t, d, n) && i !in t.kinds && d in t.links && d in t.names && d in t.kinds
    ensures var t' := CreateDir(t, d, n, i);
            && (e in t.names && e != d ==> Subdirs(t', e) == Subdirs(t, e))
            && (e == d ==> Subdirs(t', e) == Subdirs(t, e) + {n})
            && Subdirs(t', i) == {} && n !in Subdirs(t, d)
  {
    FreeIsNoDot(t, d, n);
    NoRefsToNew(t, i);
    SaneAt(t, d);
    NamedParts(t, d);
    CreateDirView(t, d, n, i);
    hide Sane, NamedDir, Counted, Placed, Subdirs, DotNames, Free, CreateDir, IsDir, Shaped;
    var t' := CreateDir(t, d, n, i);
    DirEntrySubdirs(t, t', d, n, i);
    DotsAreNoSubdirs(t', i, d);
    if e in t.names && e != d {
      SaneAt(t, e);
      NamedParts(t, e);
      OtherSubdirs(t, t', e);
    }
  }

  lemma CreateDirAt(t: Tree, d: nat, n: Name, i: nat, e: nat)
    requires Sane(t) && Free(t, d, n) && i !in t.kinds && d in t.links
    ensures var t' := CreateDir(t, d, n, i);
            && (e in t'.names ==> NamedDir(t', e) && Placed(t', e)) && (e in t'.kinds ==> Counted(t', e))
  {
    hide Sane, Refs, Subdirs, NamedDir, Counted, Placed, Free;
    FreeIsNoDot(t, d, n);
    NoRefsToNew(t, i);
    CreateDirView(t, d, n, i);
    hide CreateDir, IsDir, DotNames;
    var t' := CreateDir(t, d, n, i);
    SaneAt(t, e);
    CreateDirRefs(t, d, n, i, e);
    CreateDirSubdirs(t, d, n, i, e);
    NotDirNotNamed(t, e);
    if e == i {
      NewDirCounted(t', i);
      NewDirPlaced(t', i, d, n);
    } else {
      if e == d {
        ParentCounted(t, t', d, n);
      } else if e in t.kinds {
        StillCounted(t, t', e);
      }
      if e in t.names {
        NamedParts(t, e);
        StillNamed(t, t', e, d, n, i, FT_DIR);
        StillPlaced(t, t', e);
      }
    }
  }

  lemma NotDirNotNamed(t: Tree, e: nat)
    requires Sane(t)
    ensures e in t.names <==> IsDir(t, e)
  {
    hide NamedDir, Counted, Placed;
  }

  lemma NewDirCounted(t: Tree, i: nat)
    requires i in t.kinds && i in t.links && t.kinds[i] == Directory && t.links[i] == 2 && Subdirs(t, i) == {}
    ensures Counted(t, i)
  {
    hide Refs, Subdirs;
  }

  lemma NewDirPlaced(t: Tree, i: nat, d: nat, n: Name)
    requires i in t.kinds && d in t.kinds
    requires i in t.names && t.names[i] == DotNames(i, d) && i in t.kinds && t.kinds[i] == Directory && IsDir(t, d)
    requires i != ROOT && Refs(t, i) == {} + {(d, n)} && d in t.kinds
    ensures NamedDir(t, i) && Placed(t, i)
  {
    hide Refs;
  }

  lemma ParentCounted(t: Tree, t': Tree, d: nat, n: Name)
    requires Counted(t, d) && IsDir(t, d) && d in t'.kinds && d in t'.links && t'.kinds[d] == Directory
    requires t'.links[d] == t.links[d] + 1 && Subdirs(t', d) == Subdirs(t, d) + {n} && n !in Subdirs(t, d)
    ensures Counted(t', d)
  {
    hide Refs, Subdirs;
    OneMore(Subdirs(t, d), n);
  }

  lemma CreateDirKeeps(t: Tree, d: nat, n: Name, i: nat)
    requires Sane(t) && Free(t, d, n) && i !in t.kinds && d in t.links
    ensures Sane(CreateDir(t, d, n, i))
  {
    hide *;
    FreeIsNoDot(t, d, n);
    var t' := CreateDir(t, d, n, i);
    forall e ensures (e in t'.names ==> NamedDir(t', e) && Placed(t', e)) && (e in t'.kinds ==> Counted(t', e)) {
      CreateDirAt(t, d, n, i, e);
    }
    CreateDirShape(t, d, n, i);
    SaneJoin(t');
  }

  lemma CreateDirShape(t: Tree, d: nat, n: Name, i: nat)
    requires Sane(t) && Free(t, d, n) && i !in t.kinds && d in t.links && d in t.names
    ensures Shaped(CreateDir(t, d, n, i))
  {
    hide *;
    FreeIsNoDot(t, d, n);
    NoRefsToNew(t, i);
    CreateDirView(t, d, n, i);
    SaneAt(t, d);
    ShapedGrows(t, CreateDir(t, d, n, i), i);
  }

  lemma ShapedGrows(t: Tree, t': Tree, i: nat)
    requires Shaped(t)
    requires forall e :: e in t'.names <==> e in t.names || e == i
    requires forall e :: e in t'.kinds <==> e in t.kinds || e == i
    requires forall e :: e in t'.links <==> e in t.links || e == i
    requires forall e :: IsDir(t', e) <==> IsDir(t, e) || e == i
    ensures Shaped(t')
  {
    hide IsDir;
    forall e ensures e in t'.links.Keys <==> e in t'.kinds.Keys {
      assert e in t.links.Keys <==> e in t.kinds.Keys;
    }
  }

  // rename

  lemma RenameRefs(t: Tree, d: nat, from: Name, to: Name, fileType: nat, j: nat)
    requires Free(t, d, to) && from in t.names[d] && from != DOT && from != DOTDOT && to != DOT && to != DOTDOT
    ensures var i := t.names[d][from].0;
            Refs(Rename(t, d, from, to, fileType), j) == if j == i then Refs(t, j) - {(d, from)} + {(d, to)} else Refs(t, j)
    ensures j == t.names[d][from].0 ==> (d, from) in Refs(t, j) && (d, to) !in Refs(t, j)
  {
    hide Refs;
    var i := t.names[d][from].0;
    var t1 := WithEntry(t, d, to, i, fileType);
    RefsWithEntry(t, d, to, i, fileType, j);
    RefsWithoutEntry(t1, d, from, j);
    assert WithoutEntry(t1, d, from).names == Rename(t, d, from, to, fileType).names;
    RefsSame(WithoutEntry(t1, d, from), Rename(t, d, from, to, fileType), j);
    RefsWithoutEntry(t, d, from, j);
  }

  lemma RenameSubdirs(t: Tree, d: nat, from: Name, to: Name, fileType: nat, e: nat)
    requires Free(t, d, to) && from in t.names[d] && from != DOT && from != DOTDOT && to != DOT && to != DOTDOT
    ensures var t' := Rename(t, d, from, to, fileType);
            && (e != d ==> Subdirs(t', e) == Subdirs(t, e))
            && (e == d ==> Subdirs(t', e) == if from in Subdirs(t, e) then Subdirs(t, e) - {from} + {to} else Subdirs(t, e))
            && to !in Subdirs(t, d)
  {
    hide IsDir;
    var t' := Rename(t, d, from, to, fileType);
    forall j ensures IsDir(t', j) == IsDir(t, j) {
      SameKinds(t, t', j);
    }
    if e in t.names {
      forall m ensures m in Subdirs(t', e) <==>
                       m in (if e == d && from in Subdirs(t, e) then Subdirs(t, e) - {from} + {to} else Subdirs(t, e)) {
      }
    }
  }

  lemma SameKinds(t: Tree, t': Tree, j: nat)
    requires t'.kinds == t.kinds
    ensures IsDir(t', j) == IsDir(t, j)
  {
  }

  /** As many references, as many subdirectories. */
  lemma SameCounted(t: Tree, t': Tree, i: nat)
    requires Counted(t, i) && i in t'.kinds && i in t'.links && t'.kinds[i] == t.kinds[i] && t'.links[i] == t.links[i]
    requires |Refs(t', i)| == |Refs(t, i)| && |Subdirs(t', i)| == |Subdirs(t, i)|
    ensures Counted(t', i)
  {
    hide Refs, Subdirs;
  }

  lemma Swapped<T>(s: set<T>, x: T, y: T)
    requires x in s && y !in s
    ensures |s - {x} + {y}| == |s|
  {
    OneLess(s, x);
    OneMore(s - {x}, y);
  }

  lemma RenamedCounts(t: Tree, d: nat, from: Name, to: Name, fileType: nat, e: nat)
    requires Free(t, d, to) && from in t.names[d] && from != DOT && from != DOTDOT && to != DOT && to != DOTDOT
    ensures var t' := Rename(t, d, from, to, fileType);
            |Refs(t', e)| == |Refs(t, e)| && |Subdirs(t', e)| == |Subdirs(t, e)|
  {
    hide Refs, Subdirs, Rename;
    RenameRefs(t, d, from, to, fileType, e);
    RenameSubdirs(t, d, from, to, fileType, e);
    if e == t.names[d][from].0 {
      Swapped(Refs(t, e), (d, from), (d, to));
    }
    if e == d && from in Subdirs(t, e) {
      Swapped(Subdirs(t, e), from, to);
    }
  }

  /** A directory that is renamed keeps its one entry, under the other name. */
  lemma RenamedPlaced(t: Tree, t': Tree, d: nat, from: Name, to: Name, e: nat)
    requires Placed(t, e) && e in t.names && e in t'.names && DOTDOT in t.names[e] && DOTDOT in t'.names[e]
    requires t'.names[e][DOTDOT].0 == t.names[e][DOTDOT].0
    requires Refs(t', e) == Refs(t, e) - {(d, from)} + {(d, to)} && (d, from) in Refs(t, e)
    ensures Placed(t', e)
  {
    hide Refs;
    if e != ROOT {
      var n :| Refs(t, e) == {(t.names[e][DOTDOT].0, n)};
      assert (d, from) == (t.names[e][DOTDOT].0, n);
      assert Refs(t', e) == {(t.names[e][DOTDOT].0, to)};
    }
  }

  lemma RenameNamed(t: Tree, d: nat, from: Name, to: Name, fileType: nat, e: nat)
    requires NamedDir(t, e) && d in t.names && from in t.names[d] && from != DOT && from != DOTDOT && to != DOT && to != DOTDOT
    requires t.names[d][from].0 in t.kinds
    ensures var t' := Rename(t, d, from, to, fileType);
            NamedDir(t', e) && DOTDOT in t'.names[e] && t'.names[e][DOTDOT] == t.names[e][DOTDOT]
  {
    SameKinds(t, Rename(t, d, from, to, fileType), t.names[e][DOTDOT].0);
  }

  lemma RenameAt(t: Tree, d: nat, from: Name, to: Name, fileType: nat, e: nat)
    requires Sane(t) && Free(t, d, to) && from in t.names[d] && from != DOT && from != DOTDOT
    ensures var t' := Rename(t, d, from, to, fileType);
            && (e in t'.names ==> NamedDir(t', e) && Placed(t', e)) && (e in t'.kinds ==> Counted(t', e))
  {
    hide *;
    FreeIsNoDot(t, d, to);
    SaneAt(t, e);
    SaneAt(t, d);
    NamedParts(t, d);
    RenameSame(t, d, from, to, fileType, e);
    var t' := Rename(t, d, from, to, fileType);
    RenamedCounts(t, d, from, to, fileType, e);
    if e in t.kinds {
      CountedParts(t, e);
      SameCounted(t, t', e);
    }
    if e in t.names {
      NamedParts(t, e);
      RenameNamed(t, d, from, to, fileType, e);
      RenameRefs(t, d, from, to, fileType, e);
      if e == t.names[d][from].0 {
        RenamedPlaced(t, t', d, from, to, e);
      } else {
        StillPlaced(t, t', e);
      }
    }
  }

  lemma CountedParts(t: Tree, i: nat)
    requires Counted(t, i)
    ensures i in t.kinds && i in t.links
  {
  }

  lemma RenameSame(t: Tree, d: nat, from: Name, to: Name, fileType: nat, e: nat)
    requires d in t.names && from in t.names[d]
    ensures var t' := Rename(t, d, from, to, fileType);
            t'.kinds == t.kinds && t'.links == t.links && (e in t'.names <==> e in t.names)
  {
  }

  /** `rename` keeps everything, whether it renames a file or a directory. */
  lemma RenameKeeps(t: Tree, d: nat, from: Name, to: Name, fileType: nat)
    requires Sane(t) && Free(t, d, to) && from in t.names[d] && from != DOT && from != DOTDOT
    ensures Sane(Rename(t, d, from, to, fileType))
  {
    hide *;
    FreeIsNoDot(t, d, to);
    var t' := Rename(t, d, from, to, fileType);
    forall e ensures (e in t'.names ==> NamedDir(t', e) && Placed(t', e)) && (e in t'.kinds ==> Counted(t', e)) {
      RenameAt(t, d, from, to, fileType, e);
    }
    SaneAt(t, d);
    RenameShape(t, d, from, to, fileType);
    SaneJoin(t');
  }

  lemma RenameShape(t: Tree, d: nat, from: Name, to: Name, fileType: nat)
    requires Shaped(t) && d in t.names && from in t.names[d]
    ensures Shaped(Rename(t, d, from, to, fileType))
  {
  }

  // unlink of a file

  /** The entry that names a file is not "." or "..", and the file is no directory. */
  lemma FileEntry(t: Tree, d: nat, n: Name)
    requires Sane(t) && d in t.names && n in t.names[d]
    requires t.names[d][n].0 in t.kinds && t.kinds[t.names[d][n].0] == Regular
    ensures n != DOT && n != DOTDOT && !IsDir(t, t.names[d][n].0) && t.names[d][n].0 in t.links && t.names[d][n].0 !in t.names
    ensures t.links[t.names[d][n].0] == |Refs(t, t.names[d][n].0)| > 0
  {
    hide Refs, Subdirs, Placed;
    SaneAt(t, d);
    SaneAt(t, t.names[d][n].0);
  }

  lemma UnlinkFileRefs(t: Tree, d: nat, n: Name, j: nat)
    requires d in t.names && n in t.names[d] && n != DOT && n != DOTDOT
    requires t.names[d][n].0 in t.links && t.links[t.names[d][n].0] > 0
    ensures Refs(UnlinkFile(t, d, n), j) == Refs(t, j) - (if j == t.names[d][n].0 then {(d, n)} else {})
    ensures j == t.names[d][n].0 ==> (d, n) in Refs(t, j)
  {
    hide Refs;
    RefsWithoutEntry(t, d, n, j);
    RefsSame(WithoutEntry(t, d, n), UnlinkFile(t, d, n), j);
  }

  /** An entry of a file is in no directory's subdirectories. */
  lemma FileGoneSubdirs(t: Tree, t': Tree, d: nat, n: Name, e: nat)
    requires d in t.names && n in t.names[d] && !IsDir(t, t.names[d][n].0) && t'.names == t.names[d := t.names[d] - {n}]
    requires forall j :: IsDir(t', j) <==> IsDir(t, j)
    ensures Subdirs(t', e) == Subdirs(t, e)
  {
    hide IsDir;
    if e in t.names {
      forall m ensures m in Subdirs(t', e) <==> m in Subdirs(t, e) {
      }
    }
  }

  /** `UnlinkFile`, seen inode by inode. */
  lemma UnlinkFileView(t: Tree, d: nat, n: Name)
    requires d in t.names && n in t.names[d] && t.names[d][n].0 in t.links && t.links[t.names[d][n].0] > 0
    requires t.names[d][n].0 in t.kinds && t.kinds[t.names[d][n].0] == Regular
    ensures var t', i := UnlinkFile(t, d, n), t.names[d][n].0;
            && t'.names == t.names[d := t.names[d] - {n}]
            && (forall e :: e in t'.names <==> e in t.names)
            && (forall e :: e in t'.kinds <==> e in t.kinds && !(e == i && t.links[i] == 1))
            && (forall e :: e in t'.kinds ==> t'.kinds[e] == t.kinds[e])
            && (forall e :: e in t'.links <==> e in t.links && !(e == i && t.links[i] == 1))
            && (forall e :: e in t'.links ==> t'.links[e] == if e == i then t.links[e] - 1 else t.links[e])
            && forall e :: IsDir(t', e) <==> IsDir(t, e)
  {
  }

  lemma UnlinkedCounted(t: Tree, t': Tree, i: nat, r: (nat, Name))
    requires Counted(t, i) && t.kinds[i] == Regular && i in t'.kinds && i in t'.links && t'.kinds[i] == Regular
    requires t'.links[i] == t.links[i] - 1 > 0 && Refs(t', i) == Refs(t, i) - {r} && r in Refs(t, i)
    ensures Counted(t', i)
  {
    hide Refs;
    OneLess(Refs(t, i), r);
  }

  /** The names of a directory when one entry has gone, and perhaps the file that it named. */
  lemma NamedWithout(t: Tree, t': Tree, e: nat, i: nat)
    requires NamedDir(t, e) && e in t'.names && (forall n :: n in t'.names[e] ==> n in t.names[e] && t'.names[e][n] == t.names[e][n])
    requires DOT in t'.names[e] && DOTDOT in t'.names[e]
    requires forall j :: j in t.kinds && j != i ==> j in t'.kinds
    requires i in t'.kinds || (e != i && t.names[e][DOTDOT].0 != i && Refs(t', i) == {})
    requires IsDir(t', t.names[e][DOTDOT].0)
    ensures NamedDir(t', e)
  {
    forall n | n in t'.names[e] ensures t'.names[e][n].0 in t'.kinds {
      if t'.names[e][n].0 == i && i !in t'.kinds {
        if n != DOT && n != DOTDOT {
          RefsMember(t', e, n);
        }
      }
    }
  }

  lemma RefsMember(t: Tree, d: nat, n: Name)
    requires d in t.names && n in t.names[d] && n != DOT && n != DOTDOT
    ensures (d, n) in Refs(t, t.names[d][n].0)
  {
  }

  lemma OnlyRef<T>(s: set<T>, x: T)
    requires |s| == 1 && x in s
    ensures s - {x} == {}
  {
    OneLess(s, x);
  }

  lemma UnlinkFileCounted(t: Tree, d: nat, n: Name, e: nat)
    requires Sane(t) && d in t.names && n in t.names[d]
    requires t.names[d][n].0 in t.kinds && t.kinds[t.names[d][n].0] == Regular
    requires t.names[d][n].0 in t.links && t.links[t.names[d][n].0] > 0
    requires e in UnlinkFile(t, d, n).kinds
    ensures Counted(UnlinkFile(t, d, n), e)
  {
    hide *;
    FileEntry(t, d, n);
    UnlinkFileView(t, d, n);
    var t', i := UnlinkFile(t, d, n), t.names[d][n].0;
    SaneAt(t, e);
    CountedParts(t, e);
    UnlinkFileRefs(t, d, n, e);
    FileGoneSubdirs(t, t', d, n, e);
    if e == i {
      UnlinkedCounted(t, t', i, (d, n));
    } else {
      StillCounted(t, t', e);
    }
  }

  lemma UnlinkFileNamed(t: Tree, d: nat, n: Name, e: nat)
    requires Sane(t) && d in t.names && n in t.names[d]
    requires t.names[d][n].0 in t.kinds && t.kinds[t.names[d][n].0] == Regular
    requires t.names[d][n].0 in t.links && t.links[t.names[d][n].0] > 0
    requires e in UnlinkFile(t, d, n).names
    ensures NamedDir(UnlinkFile(t, d, n), e) && Placed(UnlinkFile(t, d, n), e)
  {
    hide *;
    FileEntry(t, d, n);
    UnlinkFileView(t, d, n);
    var t', i := UnlinkFile(t, d, n), t.names[d][n].0;
    assert e in t.names;
    SaneAt(t, e);
    UnlinkFileRefs(t, d, n, e);
    UnlinkFileRefs(t, d, n, i);
    NamedParts(t, e);
    ParentIsDir(t, e);
    if i !in t'.kinds {
      OnlyRef(Refs(t, i), (d, n));
    }
    ParentIsNot(t, e, i);
    NamedWithout(t, t', e, i);
    StillPlaced(t, t', e);
  }

  lemma ParentIsNot(t: Tree, e: nat, i: nat)
    requires NamedDir(t, e)
    ensures e in t.names && DOTDOT in t.names[e] && (!IsDir(t, i) ==> t.names[e][DOTDOT].0 != i)
  {
  }

  lemma UnlinkFileAt(t: Tree, d: nat, n: Name, e: nat)
    requires Sane(t) && d in t.names && n in t.names[d]
    requires t.names[d][n].0 in t.kinds && t.kinds[t.names[d][n].0] == Regular
    requires t.names[d][n].0 in t.links && t.links[t.names[d][n].0] > 0
    ensures var t' := UnlinkFile(t, d, n);
            && (e in t'.names ==> NamedDir(t', e) && Placed(t', e)) && (e in t'.kinds ==> Counted(t', e))
  {
    hide *;
    var t' := UnlinkFile(t, d, n);
    if e in t'.kinds {
      UnlinkFileCounted(t, d, n, e);
    }
    if e in t'.names {
      UnlinkFileNamed(t, d, n, e);
    }
  }

  lemma ParentIsDir(t: Tree, e: nat)
    requires NamedDir(t, e)
    ensures e in t.names && DOTDOT in t.names[e] && IsDir(t, t.names[e][DOTDOT].0)
  {
  }

  /** `unlink` of a file keeps everything; the file goes exactly with its last entry. */
  lemma UnlinkFileKeeps(t: Tree, d: nat, n: Name)
    requires Sane(t) && d in t.names && n in t.names[d]
    requires t.names[d][n].0 in t.kinds && t.kinds[t.names[d][n].0] == Regular
    ensures t.names[d][n].0 in t.links && t.links[t.names[d][n].0] > 0
    ensures Sane(UnlinkFile(t, d, n))
    ensures t.names[d][n].0 in UnlinkFile(t, d, n).kinds <==> |Refs(t, t.names[d][n].0)| > 1
  {
    hide *;
    FileEntry(t, d, n);
    var t' := UnlinkFile(t, d, n);
    forall e ensures (e in t'.names ==> NamedDir(t', e) && Placed(t', e)) && (e in t'.kinds ==> Counted(t', e)) {
      UnlinkFileAt(t, d, n, e);
    }
    UnlinkFileView(t, d, n);
    SaneAt(t, d);
    UnlinkFileShape(t, d, n);
    SaneJoin(t');
  }

  lemma UnlinkFileShape(t: Tree, d: nat, n: Name)
    requires Shaped(t) && d in t.names && n in t.names[d] && t.names[d][n].0 in t.links && t.links[t.names[d][n].0] > 0
    requires t.names[d][n].0 in t.kinds && t.kinds[t.names[d][n].0] == Regular
    ensures Shaped(UnlinkFile(t, d, n))
  {
    UnlinkFileView(t, d, n);
    hide UnlinkFile, IsDir;
    var t' := UnlinkFile(t, d, n);
    forall e ensures e in t'.links.Keys <==> e in t'.kinds.Keys {
      assert e in t.links.Keys <==> e in t.kinds.Keys;
    }
  }

  // unlink of a directory

  /** Nothing but "." and ".." is in the directory. */
  predicate Empty(t: Tree, i: nat) {
    i in t.names && t.names[i].Keys <= {DOT, DOTDOT}
  }

  /** An entry that names an empty directory: the only one, not in the directory itself, and no ".." but the
      root's own leads to it. */
  lemma EmptyDirEntry(t: Tree, d: nat, n: Name)
    requires Sane(t) && d in t.names && n in t.names[d] && n != DOT && n != DOTDOT && Empty(t, t.names[d][n].0)
    ensures var i := t.names[d][n].0;
            && i != d && i != ROOT && Refs(t, i) == {(d, n)} && IsDir(t, i) && d in t.links && t.links[d] > 0
            && forall e :: e in t.names && e != i ==> DOTDOT in t.names[e] && t.names[e][DOTDOT].0 != i
  {
    hide *;
    var i := t.names[d][n].0;
    EmptyIsDir(t, i);
    SaneAt(t, i);
    SaneAt(t, d);
    NotDirNotNamed(t, d);
    NotDirNotNamed(t, i);
    RefsMember(t, d, n);
    DirPositive(t, d);
    NotInItself(t, d, n);
    OnlyEntry(t, i, (d, n));
    forall e | e in t.names && e != i ensures DOTDOT in t.names[e] && t.names[e][DOTDOT].0 != i {
      SaneAt(t, e);
      ParentNotEmpty(t, e, i);
    }
  }

  lemma EmptyIsDir(t: Tree, i: nat)
    requires Empty(t, i)
    ensures i in t.names
  {
  }

  lemma NotInItself(t: Tree, d: nat, n: Name)
    requires d in t.names && n in t.names[d] && n != DOT && n != DOTDOT && Empty(t, t.names[d][n].0)
    ensures t.names[d][n].0 != d
  {
  }

  lemma DirPositive(t: Tree, d: nat)
    requires (d in t.kinds ==> Counted(t, d)) && IsDir(t, d)
    ensures d in t.links && t.links[d] > 0
  {
    hide Subdirs, Refs;
  }

  lemma OnlyEntry(t: Tree, i: nat, r: (nat, Name))
    requires Placed(t, i) && r in Refs(t, i)
    ensures i != ROOT && Refs(t, i) == {r}
  {
    hide Refs;
  }

  lemma ParentNotEmpty(t: Tree, e: nat, i: nat)
    requires Placed(t, e) && e != i && Empty(t, i)
    ensures DOTDOT in t.names[e] && (e != ROOT ==> t.names[e][DOTDOT].0 != i)
    ensures e == ROOT ==> t.names[e][DOTDOT].0 == ROOT
  {
    if e != ROOT {
      var m :| Refs(t, e) == {(t.names[e][DOTDOT].0, m)};
      assert (t.names[e][DOTDOT].0, m) in Refs(t, e);
    }
  }

  lemma UnlinkDirRefs(t: Tree, d: nat, n: Name, j: nat)
    requires d in t.names && n in t.names[d] && n != DOT && n != DOTDOT && d in t.links && t.links[d] > 0
    requires Empty(t, t.names[d][n].0) && t.names[d][n].0 != d
    ensures Refs(UnlinkDir(t, d, n), j) == Refs(t, j) - (if j == t.names[d][n].0 then {(d, n)} else {})
  {
    var i := t.names[d][n].0;
    var t1 := WithoutEntry(t, d, n);
    RefsWithoutEntry(t, d, n, j);
    var t' := UnlinkDir(t, d, n);
    assert t'.names == t1.names - {i};
    assert t1.names[i].Keys <= {DOT, DOTDOT};
    forall x ensures x in Refs(t', j) <==> x in Refs(t1, j) {
    }
  }

  /** `UnlinkDir`, seen inode by inode. */
  lemma UnlinkDirView(t: Tree, d: nat, n: Name)
    requires d in t.names && n in t.names[d] && d in t.links && t.links[d] > 0 && t.names[d][n].0 != d
    ensures var t', i := UnlinkDir(t, d, n), t.names[d][n].0;
            && (forall e :: e in t'.names <==> e in t.names && e != i) && t'.names[d] == t.names[d] - {n}
            && (forall e :: e in t'.names && e != d ==> t'.names[e] == t.names[e])
            && (forall e :: e in t'.kinds <==> e in t.kinds && e != i)
            && (forall e :: e in t'.kinds ==> t'.kinds[e] == t.kinds[e])
            && (forall e :: e in t'.links <==> e in t.links && e != i)
            && (forall e :: e in t'.links ==> t'.links[e] == if e == d then t.links[e] - 1 else t.links[e])
            && forall e :: IsDir(t', e) <==> IsDir(t, e) && e != i
  {
  }

  lemma UnlinkDirSubdirs(t: Tree, t': Tree, d: nat, n: Name, e: nat)
    requires d in t.names && n in t.names[d] && n != DOT && n != DOTDOT
    requires e in t.names && e in t'.names && t'.names[e] == (if e == d then t.names[d] - {n} else t.names[e])
    requires IsDir(t, t.names[d][n].0) && Refs(t, t.names[d][n].0) == {(d, n)}
    requires forall j :: IsDir(t', j) <==> IsDir(t, j) && j != t.names[d][n].0
    ensures Subdirs(t', e) == Subdirs(t, e) - (if e == d then {n} else {}) && (e == d ==> n in Subdirs(t, d))
  {
    var i := t.names[d][n].0;
    hide IsDir;
    forall m ensures m in Subdirs(t', e) <==> m in Subdirs(t, e) - (if e == d then {n} else {}) {
      if m in t.names[e] && m != DOT && m != DOTDOT && t.names[e][m].0 == i {
        RefsMember(t, e, m);
        assert (e, m) == (d, n);
      }
    }
  }

  lemma LostChildCounted(t: Tree, t': Tree, d: nat, n: Name)
    requires Counted(t, d) && IsDir(t, d) && d in t'.kinds && d in t'.links && t'.kinds[d] == Directory
    requires t'.links[d] == t.links[d] - 1 && Subdirs(t', d) == Subdirs(t, d) - {n} && n in Subdirs(t, d)
    ensures Counted(t', d)
  {
    hide Refs, Subdirs;
    OneLess(Subdirs(t, d), n);
  }

  lemma UnlinkDirCounted(t: Tree, d: nat, n: Name, e: nat)
    requires Sane(t) && d in t.names && n in t.names[d] && n != DOT && n != DOTDOT && Empty(t, t.names[d][n].0)
    requires d in t.links && t.links[d] > 0
    requires e in UnlinkDir(t, d, n).kinds
    ensures Counted(UnlinkDir(t, d, n), e)
  {
    hide *;
    EmptyDirEntry(t, d, n);
    UnlinkDirView(t, d, n);
    NotDirNotNamed(t, d);
    NotDirNotNamed(t, e);
    var t', i := UnlinkDir(t, d, n), t.names[d][n].0;
    SaneAt(t, e);
    CountedParts(t, e);
    UnlinkDirRefs(t, d, n, e);
    if e in t'.names {
      UnlinkDirSubdirs(t, t', d, n, e);
      if e == d {
        DirKind(t, d);
        LostChildCounted(t, t', d, n);
      } else {
        StillCounted(t, t', e);
      }
    } else {
      FileStillCounted(t, t', e);
    }
  }

  lemma UnlinkDirNamed(t: Tree, d: nat, n: Name, e: nat)
    requires Sane(t) && d in t.names && n in t.names[d] && n != DOT && n != DOTDOT && Empty(t, t.names[d][n].0)
    requires d in t.links && t.links[d] > 0
    requires e in UnlinkDir(t, d, n).names
    ensures NamedDir(UnlinkDir(t, d, n), e) && Placed(UnlinkDir(t, d, n), e)
  {
    hide *;
    EmptyDirEntry(t, d, n);
    UnlinkDirView(t, d, n);
    var t', i := UnlinkDir(t, d, n), t.names[d][n].0;
    SaneAt(t, e);
    UnlinkDirRefs(t, d, n, e);
    UnlinkDirRefs(t, d, n, i);
    NamedParts(t, e);
    ParentIsDir(t, e);
    NamedWithout(t, t', e, i);
    StillPlaced(t, t', e);
  }

  lemma UnlinkDirAt(t: Tree, d: nat, n: Name, e: nat)
    requires Sane(t) && d in t.names && n in t.names[d] && n != DOT && n != DOTDOT && Empty(t, t.names[d][n].0)
    requires d in t.links && t.links[d] > 0
    ensures var t' := UnlinkDir(t, d, n);
            && (e in t'.names ==> NamedDir(t', e) && Placed(t', e)) && (e in t'.kinds ==> Counted(t', e))
  {
    hide *;
    var t' := UnlinkDir(t, d, n);
    if e in t'.kinds {
      UnlinkDirCounted(t, d, n, e);
    }
    if e in t'.names {
      UnlinkDirNamed(t, d, n, e);
    }
  }

  lemma DirKind(t: Tree, d: nat)
    requires IsDir(t, d)
    ensures d in t.kinds && t.kinds[d] == Directory
  {
  }

  lemma FileStillCounted(t: Tree, t': Tree, e: nat)
    requires Counted(t, e) && !IsDir(t, e) && e in t'.kinds && e in t'.links
    requires t'.kinds[e] == t.kinds[e] && t'.links[e] == t.links[e] && Refs(t', e) == Refs(t, e)
    ensures Counted(t', e)
  {
    hide Refs, Subdirs;
  }

  /** `unlink` of an empty directory keeps everything. */
  lemma UnlinkDirKeeps(t: Tree, d: nat, n: Name)
    requires Sane(t) && d in t.names && n in t.names[d] && n != DOT && n != DOTDOT && Empty(t, t.names[d][n].0)
    ensures d in t.links && t.links[d] > 0 && t.names[d][n].0 != d
    ensures Sane(UnlinkDir(t, d, n))
  {
    hide *;
    EmptyDirEntry(t, d, n);
    var t' := UnlinkDir(t, d, n);
    forall e ensures (e in t'.names ==> NamedDir(t', e) && Placed(t', e)) && (e in t'.kinds ==> Counted(t', e)) {
      UnlinkDirAt(t, d, n, e);
    }
    SaneAt(t, d);
    UnlinkDirShape(t, d, n);
    SaneJoin(t');
  }

  lemma UnlinkDirShape(t: Tree, d: nat, n: Name)
    requires Shaped(t) && d in t.names && n in t.names[d] && d in t.links && t.links[d] > 0 && t.names[d][n].0 != d
    requires t.names[d][n].0 != ROOT
    ensures Shaped(UnlinkDir(t, d, n))
  {
    UnlinkDirView(t, d, n);
    hide UnlinkDir, IsDir;
    var t' := UnlinkDir(t, d, n);
    forall e ensures e in t'.links.Keys <==> e in t'.kinds.Keys {
      assert e in t.links.Keys <==> e in t.kinds.Keys;
    }
  }

  // Runs

  datatype Op = CreateFileOp(d: nat, n: Name, i: nat) | LinkOp(d: nat, n: Name, i: nat) | CreateDirOp(d: nat, n: Name, i: nat)
              | UnlinkFileOp(d: nat, n: Name) | UnlinkDirOp(d: nat, n: Name) | RenameOp(d: nat, n: Name, to: Name)
              | Refused

  /** The case in which the source carries the operation out. */
  ghost predicate Allowed(t: Tree, op: Op) {
    match op
    case CreateFileOp(d, n, i) => Free(t, d, n) && i !in t.kinds
    case LinkOp(d, n, i) => Free(t, d, n) && i in t.kinds && t.kinds[i] == Regular && i in t.links
    case CreateDirOp(d, n, i) => Free(t, d, n) && i !in t.kinds && d in t.links
    case UnlinkFileOp(d, n) =>
      && d in t.names && n in t.names[d] && t.names[d][n].0 in t.kinds && t.kinds[t.names[d][n].0] == Regular
      && t.names[d][n].0 in t.links && t.links[t.names[d][n].0] > 0
    case UnlinkDirOp(d, n) =>
      && d in t.names && n in t.names[d] && n != DOT && n != DOTDOT && Empty(t, t.names[d][n].0) && d in t.links && t.links[d] > 0
    case RenameOp(d, n, to) => Free(t, d, to) && n in t.names[d] && n != DOT && n != DOTDOT && t.names[d][n].0 in t.kinds
    case Refused => true
  }

  ghost function Next(t: Tree, op: Op): Tree
    requires Allowed(t, op)
  {
    match op
    case CreateFileOp(d, n, i) => Create(t, d, n, i)
    case LinkOp(d, n, i) => Link(t, d, n, i)
    case CreateDirOp(d, n, i) => CreateDir(t, d, n, i)
    case UnlinkFileOp(d, n) => UnlinkFile(t, d, n)
    case UnlinkDirOp(d, n) => UnlinkDir(t, d, n)
    case RenameOp(d, n, to) => Rename(t, d, n, to, TypeByte(t, t.names[d][n].0))
    case Refused => t
  }

  lemma NextSane(t: Tree, op: Op)
    requires Sane(t) && Allowed(t, op)
    ensures Sane(Next(t, op))
  {
    hide Sane, Create, Link, CreateDir, UnlinkFile, UnlinkDir, Rename, Empty;
    match op
    case CreateFileOp(d, n, i) => CreateKeeps(t, d, n, i);
    case LinkOp(d, n, i) => LinkKeeps(t, d, n, i);
    case CreateDirOp(d, n, i) => CreateDirKeeps(t, d, n, i);
    case UnlinkFileOp(d, n) => UnlinkFileKeeps(t, d, n);
    case UnlinkDirOp(d, n) => UnlinkDirKeeps(t, d, n);
    case RenameOp(d, n, to) => RenameKeeps(t, d, n, to, TypeByte(t, t.names[d][n].0));
    case Refused =>
  }

  // The root

  /** Going up by "..", k times at most, leads from a directory to the root. As every directory but the root has its
      entry in the one that its ".." names, it is reached from the root by names. */
  ghost predicate Reached(t: Tree, d: nat, k: nat)
    decreases k
  {
    d == ROOT || (k > 0 && d in t.names && DOTDOT in t.names[d] && Reached(t, t.names[d][DOTDOT].0, k - 1))
  }

  /** Every live directory is reached from the root; so is every live file, since some directory names it. */
  ghost predicate Rooted(t: Tree) {
    forall d :: d in t.names ==> exists k :: Reached(t, d, k)
  }

  /** Directories that stay have the parents they had. */
  ghost predicate SameParents(t: Tree, t': Tree) {
    forall d :: d in t.names && d in t'.names && DOTDOT in t.names[d] ==>
      DOTDOT in t'.names[d] && t'.names[d][DOTDOT].0 == t.names[d][DOTDOT].0
  }

  lemma {:induction false} StillReached(t: Tree, t': Tree, d: nat, k: nat)
    requires Sane(t') && SameParents(t, t') && Reached(t, d, k) && d in t'.names
    ensures Reached(t', d, k)
    decreases k
  {
    hide Sane, SameParents;
    if d != ROOT {
      ParentStays(t, t', d);
      StillReached(t, t', t.names[d][DOTDOT].0, k - 1);
    }
  }

  lemma ParentStays(t: Tree, t': Tree, d: nat)
    requires Sane(t') && SameParents(t, t') && d in t.names && d in t'.names && DOTDOT in t.names[d]
    ensures DOTDOT in t'.names[d] && t'.names[d][DOTDOT].0 == t.names[d][DOTDOT].0 && t.names[d][DOTDOT].0 in t'.names
  {
    hide Refs, Subdirs, Counted, Placed;
    SaneAt(t', d);
  }

  lemma NextRooted(t: Tree, op: Op)
    requires Sane(t) && Rooted(t) && Allowed(t, op)
    ensures Rooted(Next(t, op))
  {
    hide Sane, Allowed, Next, Reached;
    NextSane(t, op);
    var t' := Next(t, op);
    NextParents(t, op);
    forall d | d in t'.names ensures exists k :: Reached(t', d, k) {
      if d in t.names {
        var k :| Reached(t, d, k);
        StillReached(t, t', d, k);
      } else {
        var parent := NewParent(t, op, d);
        var k :| Reached(t, parent, k);
        StillReached(t, t', parent, k);
        OneFurther(t', d, parent, k);
      }
    }
  }

  lemma OneFurther(t: Tree, d: nat, parent: nat, k: nat)
    requires d in t.names && DOTDOT in t.names[d] && t.names[d][DOTDOT].0 == parent && Reached(t, parent, k)
    ensures Reached(t, d, k + 1)
  {
  }

  lemma NextParents(t: Tree, op: Op)
    requires Sane(t) && Allowed(t, op)
    ensures SameParents(t, Next(t, op))
  {
    hide Sane, Refs, Subdirs, Empty;
    match op
    case CreateFileOp(d, n, i) => FreeIsNoDot(t, d, n);
    case LinkOp(d, n, i) => FreeIsNoDot(t, d, n);
    case CreateDirOp(d, n, i) =>
      FreeIsNoDot(t, d, n);
      NoRefsToNew(t, i);
    case UnlinkFileOp(d, n) => FileEntry(t, d, n);
    case UnlinkDirOp(d, n) =>
    case RenameOp(d, n, to) => FreeIsNoDot(t, d, to);
    case Refused =>
  }

  /** Only `create_dir` makes directories, and gives them a parent that was there. */
  lemma NewParent(t: Tree, op: Op, e: nat) returns (parent: nat)
    requires Sane(t) && Allowed(t, op) && e in Next(t, op).names && e !in t.names
    ensures parent in t.names && parent in Next(t, op).names
    ensures DOTDOT in Next(t, op).names[e] && Next(t, op).names[e][DOTDOT].0 == parent
  {
    hide Sane, Refs, Subdirs, Empty;
    assert op.CreateDirOp?;
    parent := op.d;
    FreeIsNoDot(t, op.d, op.n);
  }

  // Types

  /** Every entry has the type of the inode it names. */
  ghost predicate Typed(t: Tree) {
    forall d, n :: d in t.names && n in t.names[d] && t.names[d][n].0 in t.kinds ==> t.names[d][n].1 == TypeByte(t, t.names[d][n].0)
  }

  lemma NextTyped(t: Tree, op: Op)
    requires Sane(t) && Typed(t) && Allowed(t, op)
    ensures Typed(Next(t, op))
  {
    hide Sane, Refs, Subdirs, Empty;
    match op
    case CreateFileOp(d, n, i) =>
      FreeIsNoDot(t, d, n);
      NamesOthers(t, i);
    case LinkOp(d, n, i) => FreeIsNoDot(t, d, n);
    case CreateDirOp(d, n, i) =>
      FreeIsNoDot(t, d, n);
      NamesOthers(t, i);
    case UnlinkFileOp(d, n) => FileEntry(t, d, n);
    case UnlinkDirOp(d, n) =>
    case RenameOp(d, n, to) => FreeIsNoDot(t, d, to);
    case Refused =>
  }

  /** No entry names an inode that is not live. */
  lemma NamesOthers(t: Tree, i: nat)
    requires Sane(t) && i !in t.kinds
    ensures i !in t.names && forall d, n :: d in t.names && n in t.names[d] ==> t.names[d][n].0 != i
  {
    hide Placed, Counted, Refs, Subdirs;
    SaneAt(t, i);
    forall d, n | d in t.names && n in t.names[d] ensures t.names[d][n].0 != i {
      SaneAt(t, d);
    }
  }

  ghost predicate Run(trees: seq<Tree>, ops: seq<Op>) {
    && |trees| == |ops| + 1
    && forall k :: 0 <= k < |ops| ==> Allowed(trees[k], ops[k]) && trees[k + 1] == Next(trees[k], ops[k])
  }

  /** In every run, a file's count is the number of its names, and a directory's 2 and its subdirectories; no directory
      is cut off from the root, and entries have the types of what they name. */
  lemma {:induction false} RunSane(trees: seq<Tree>, ops: seq<Op>, i: nat)
    requires Run(trees, ops) && Sane(trees[0])
    ensures Sane(trees[|ops|]) && (i in trees[|ops|].kinds ==> Counted(trees[|ops|], i))
    ensures Rooted(trees[0]) ==> Rooted(trees[|ops|])
    ensures Typed(trees[0]) ==> Typed(trees[|ops|])
    decreases |ops|
  {
    hide Sane, Allowed, Next, Counted, Rooted, Typed;
    if ops != [] {
      var last := |ops| - 1;
      RunSane(trees[..last + 1], ops[..last], i);
      NextSane(trees[last], ops[last]);
      if Rooted(trees[last]) {
        NextRooted(trees[last], ops[last]);
      }
      if Typed(trees[last]) {
        NextTyped(trees[last], ops[last]);
      }
    }
    SaneAt(trees[|ops|], i);
  }
}
