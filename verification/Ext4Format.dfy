/** How ext4 keeps the blocks of a file and the names of a directory: readers of extent trees and of linear directories
    that go by the bytes of the on-disk format, and by nothing else. */
module Ext4Format {
  import opened Common

  /** `count` blocks of the file from block `first` on lie on the disk from block `start` on. */
  datatype Stretch = Stretch(first: nat, count: nat, start: nat)

  datatype Tree = Bad | Tree(stretches: seq<Stretch>, nodes: seq<nat>)

  /** Numbers have their low byte first. */
  function Two(b: seq<byte>, at: nat): nat
    requires at + 2 <= |b|
  {
    b[at] as nat + 0x100 * b[at + 1] as nat
  }

  function Four(b: seq<byte>, at: nat): nat
    requires at + 4 <= |b|
  {
    b[at] as nat + 0x100 * b[at + 1] as nat + 0x1_0000 * b[at + 2] as nat + 0x100_0000 * b[at + 3] as nat
  }

  /** A node begins with the magic number 0xF30A, the number of its entries, their room, and its depth. */
  predicate IsNode(node: seq<byte>, depth: nat) {
    |node| >= 12 && node[0] == 0x0A && node[1] == 0xF3 && Two(node, 6) == depth && 12 + 12 * Two(node, 2) <= |node|
  }

  /** Entry i of a leaf: the first block, the number of blocks, and 16 high and 32 low bits of the place on the disk. */
  function StretchAt(node: seq<byte>, i: nat): Stretch
    requires 24 + 12 * i <= |node|
  {
    var at := 12 + 12 * i;
    Stretch(Four(node, at), Two(node, at + 4), 0x1_0000_0000 * Two(node, at + 6) + Four(node, at + 8))
  }

  /** Entry i of an index node: the first block, and 32 low and 16 high bits of the place of the child. */
  function ChildOf(node: seq<byte>, i: nat): nat
    requires 24 + 12 * i <= |node|
  {
    var at := 12 + 12 * i;
    Four(node, at + 4) + 0x1_0000_0000 * Two(node, at + 8)
  }

  function ReadNode(disk: map<nat, seq<byte>>, node: seq<byte>, depth: nat): Tree
    decreases depth, 1, 0
  {
    if !IsNode(node, depth) then Bad
    else if depth == 0 then Tree(seq(Two(node, 2), i requires 0 <= i < Two(node, 2) => StretchAt(node, i)), [])
    else ReadChildren(disk, node, Two(node, 2), depth)
  }

  /** The first n children, with the blocks of nodes on the way. */
  function ReadChildren(disk: map<nat, seq<byte>>, node: seq<byte>, n: nat, depth: nat): Tree
    requires 12 + 12 * n <= |node| && depth > 0
    decreases depth, 0, n
  {
    if n == 0 then Tree([], [])
    else
      var child := ChildOf(node, n - 1);
      if child !in disk || |disk[child]| != 4096 then Bad
      else
        match (ReadChildren(disk, node, n - 1, depth), ReadNode(disk, disk[child], depth - 1))
        case (Tree(s, m), Tree(s', m')) => Tree(s + s', m + [child] + m')
        case _ => Bad
  }

  /** The tree below the 60 bytes in an inode. */
  function ReadTree(disk: map<nat, seq<byte>>, root: seq<byte>): Tree {
    if |root| != 60 then Bad else ReadNode(disk, root, Two(root, 6))
  }

  /** Every node says how many entries its bytes have room for, and searching by block number finds its way: every index
      entry has the first block of the file that lies below it. */
  ghost predicate Keyed(disk: map<nat, seq<byte>>, node: seq<byte>, depth: nat)
    decreases depth, 1
  {
    && IsNode(node, depth) && 12 + 12 * Two(node, 4) <= |node| < 24 + 12 * Two(node, 4)
    && (depth > 0 ==> forall i: nat :: i < Two(node, 2) ==> KeyedChild(disk, node, i, depth))
  }

  ghost predicate KeyedChild(disk: map<nat, seq<byte>>, node: seq<byte>, i: nat, depth: nat)
    requires 24 + 12 * i <= |node| && depth > 0
    decreases depth, 0
  {
    var child := ChildOf(node, i);
    && child in disk && Keyed(disk, disk[child], depth - 1)
    && var below := ReadNode(disk, disk[child], depth - 1);
       below.Tree? && below.stretches != [] && Four(node, 12 + 12 * i) == below.stretches[0].first
  }

  // Files

  /** The place on the disk of block l of the file, -1 if no stretch holds it. */
  function Place(stretches: seq<Stretch>, l: nat): int {
    if stretches == [] then -1
    else
      var s := stretches[0];
      if s.first <= l < s.first + s.count then s.start + (l - s.first) else Place(stretches[1..], l)
  }

  /** Byte k of the file: byte k mod 4096 of block k / 4096, or zero in a hole. */
  function FileByte(disk: map<nat, seq<byte>>, stretches: seq<Stretch>, k: nat): byte {
    var p := Place(stretches, k / 4096);
    if p >= 0 && p in disk && |disk[p]| == 4096 then disk[p][k % 4096] else 0
  }

  // Directories

  datatype Record = Record(name: seq<byte>, inode: nat, fileType: nat)

  datatype Listing = Broken | Listing(records: seq<Record>)

  /** Records one after the other: the inode number, the length of the record, the length of the name, the type, and
      the name. A record without an inode or a name only takes up room. */
  function ReadDir(b: seq<byte>): Listing
    decreases |b|
  {
    if b == [] then Listing([])
    else if |b| < 8 || Two(b, 4) < 8 || Two(b, 4) % 4 != 0 || Two(b, 4) > |b| || 8 + b[6] as nat > Two(b, 4) then Broken
    else
      match ReadDir(b[Two(b, 4)..])
      case Broken => Broken
      case Listing(rest) =>
        Listing((if Four(b, 0) != 0 && b[6] != 0 then [Record(b[8..8 + b[6] as nat], Four(b, 0), b[7] as nat)] else []) + rest)
  }
}
