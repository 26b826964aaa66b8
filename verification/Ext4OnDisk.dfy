/** The extent trees of ext4-fs/src/vfs.rs and the on-disk format: what is written reads back by the format alone, and
    whatever tree the format describes is read so by the source. */
module Ext4OnDisk {
  import opened Common
  import opened Ext4Types
  import opened Ext4Extents
  import opened Ext4Layout
  import opened Ext4Tree
  import opened Ext4TreeLayout
  import F = Ext4Format

  // Bytes

  lemma Numbers(b: seq<byte>, at: nat)
    ensures at + 2 <= |b| ==> From16(b[at..at + 2]) == F.Two(b, at)
    ensures at + 4 <= |b| ==> From32(b[at..at + 4]) == F.Four(b, at)
  {
  }

  /** What the source makes of the header of a node. */
  lemma HeaderByFormat(node: seq<byte>)
    requires |node| >= 12
    ensures HeaderOf(node).IsValid() <==> node[0] == 0x0A && node[1] == 0xF3
    ensures HeaderOf(node).ehEntries == F.Two(node, 2) && HeaderOf(node).ehDepth == F.Two(node, 6)
    ensures HeaderOf(node).ehMax == F.Two(node, 4)
  {
    hide From32;
    var h := node[..12];
    assert h[..2] == node[0..2] && h[2..4] == node[2..4] && h[4..6] == node[4..6] && h[6..8] == node[6..8];
    Numbers(node, 0);
    Numbers(node, 2);
    Numbers(node, 4);
    Numbers(node, 6);
  }

  function Plain(e: Extent): F.Stretch {
    F.Stretch(e.eeBlock, e.eeLen, 0x1_0000_0000 * e.eeStartHi + e.eeStartLo)
  }

  function AllPlain(extents: seq<Extent>): (s: seq<F.Stretch>)
    ensures |s| == |extents| && forall i :: 0 <= i < |s| ==> s[i] == Plain(extents[i])
  {
    seq(|extents|, i requires 0 <= i < |extents| => Plain(extents[i]))
  }

  /** What it makes of an entry. */
  lemma EntryByFormat(node: seq<byte>, i: nat)
    requires 24 + 12 * i <= |node|
    ensures Plain(ExtentAt(node, i)) == F.StretchAt(node, i) && ChildAt(node, i) == F.ChildOf(node, i)
  {
    hide From16, From32, F.Two, F.Four;
    var at := 12 + 12 * i;
    EntryParts(node, at);
    Numbers(node, at);
    Numbers(node, at + 4);
    Numbers(node, at + 6);
    Numbers(node, at + 8);
    WordSize();
  }

  lemma EntryParts(node: seq<byte>, at: nat)
    requires at + 12 <= |node|
    ensures var e := node[at..at + 12];
            && e[..4] == node[at..at + 4] && e[4..6] == node[at + 4..at + 6] && e[6..8] == node[at + 6..at + 8]
            && e[4..8] == node[at + 4..at + 8] && e[8..10] == node[at + 8..at + 10] && e[8..12] == node[at + 8..at + 12]
  {
    PartOf(node, at, 0, 4);
    PartOf(node, at, 4, 6);
    PartOf(node, at, 6, 8);
    PartOf(node, at, 4, 8);
    PartOf(node, at, 8, 10);
    PartOf(node, at, 8, 12);
  }

  lemma PartOf(node: seq<byte>, at: nat, from: nat, to: nat)
    requires at + 12 <= |node| && from <= to <= 12
    ensures node[at..at + 12][from..to] == node[at + from..at + to]
  {
    var e := node[at..at + 12];
    var part, same := e[from..to], node[at + from..at + to];
    assert |part| == |same|;
    forall k | 0 <= k < |part| ensures part[k] == same[k] {
      assert e[from + k] == node[at + (from + k)];
    }
  }

  lemma WordSize()
    ensures U32 == 0x1_0000_0000
  {
  }

  // What the format describes, the source reads

  ghost predicate Fresh(visited: seq<nat>, nodes: seq<nat>) {
    && (forall i :: 0 <= i < |nodes| ==> nodes[i] != 0 && nodes[i] !in visited)
    && forall i, j :: 0 <= i < j < |nodes| ==> nodes[i] != nodes[j]
  }

  lemma FreshParts(visited: seq<nat>, a: seq<nat>, b: nat, c: seq<nat>)
    requires Fresh(visited, a + [b] + c)
    ensures Fresh(visited, a) && b != 0 && b !in visited + a && Fresh(visited + a + [b], c)
  {
    var all := a + [b] + c;
    assert forall i :: 0 <= i < |a| ==> all[i] == a[i];
    assert all[|a|] == b;
    assert forall i :: 0 <= i < |c| ==> all[|a| + 1 + i] == c[i];
  }

  lemma {:induction false} NodeParsed(disk: Disk, node: seq<byte>, max: nat, depth: nat, visited: seq<nat>)
    requires |node| < 24 + 12 * max && 12 + 12 * max <= |node| && depth <= EXTENT_TREE_MAX_DEPTH
    requires var t := F.ReadNode(disk, node, depth); t.Tree? && Fresh(visited, t.nodes)
    ensures HeaderOf(node).IsValid() && HeaderOf(node).ehDepth == depth
    ensures var t, p := F.ReadNode(disk, node, depth), ParseNode(disk, node, max, depth, visited);
            AllPlain(p.0) == t.stretches && p.1 == visited + t.nodes
    decreases depth, 1, 0
  {
    hide HeaderOf, Fresh, ParseChildren, F.ReadChildren, ExtentAt, F.StretchAt;
    HeaderByFormat(node);
    var n := F.Two(node, 2);
    if depth == 0 {
      forall i: nat | i < n ensures Plain(ExtentAt(node, i)) == F.StretchAt(node, i) {
        EntryByFormat(node, i);
      }
    } else {
      ChildrenParsed(disk, node, n, depth, visited);
    }
  }

  lemma {:induction false} ChildrenParsed(disk: Disk, node: seq<byte>, n: nat, depth: nat, visited: seq<nat>)
    requires 12 + 12 * n <= |node| && 0 < depth <= EXTENT_TREE_MAX_DEPTH
    requires var t := F.ReadChildren(disk, node, n, depth); t.Tree? && Fresh(visited, t.nodes)
    ensures var t, p := F.ReadChildren(disk, node, n, depth), ParseChildren(disk, node, n, depth, visited);
            AllPlain(p.0) == t.stretches && p.1 == visited + t.nodes
    decreases depth, 0, n
  {
    hide HeaderOf, Fresh, ParseNode, F.ReadNode, ChildAt, F.ChildOf;
    if n > 0 {
      var child := F.ChildOf(node, n - 1);
      EntryByFormat(node, n - 1);
      var before, below := F.ReadChildren(disk, node, n - 1, depth), F.ReadNode(disk, disk[child], depth - 1);
      FreshParts(visited, before.nodes, child, below.nodes);
      ChildrenParsed(disk, node, n - 1, depth, visited);
      NodeParsed(disk, disk[child], EXTENTS_PER_NODE, depth - 1, visited + before.nodes + [child]);
      assert Block(disk, child) == disk[child];
      assert visited + before.nodes + [child] + below.nodes == visited + (before.nodes + [child] + below.nodes);
    }
  }

  /** A tree by the format, of no more levels than the source follows and with no node twice, is read as it is. */
  lemma FormatParsed(disk: Disk, root: seq<byte>)
    requires var t := F.ReadTree(disk, root); t.Tree? && Fresh([], t.nodes) && F.Two(root, 6) <= 5
    ensures |root| == I_BLOCK_SZ && AllPlain(Parse(disk, root)) == F.ReadTree(disk, root).stretches
    ensures forall b :: b in TreeBlocks(disk, root) <==> b in F.ReadTree(disk, root).nodes
  {
    hide HeaderOf, ParseNode, F.ReadNode, Fresh, Collect, CollectChildren;
    HeaderByFormat(root);
    NodeParsed(disk, root, EXTENTS_IN_INODE, F.Two(root, 6), []);
    NodesFreed(disk, root);
  }

  lemma NodesFreed(disk: Disk, root: seq<byte>)
    requires var t := F.ReadTree(disk, root); t.Tree? && Fresh([], t.nodes) && F.Two(root, 6) <= 5
    ensures forall b :: b in TreeBlocks(disk, root) <==> b in F.ReadTree(disk, root).nodes
  {
    hide HeaderOf, F.ReadChildren, Fresh, CollectChildren, ParseChildren, TreeBlocks;
    var depth, n := F.Two(root, 6), F.Two(root, 2);
    HeaderByFormat(root);
    VisitedAreTree(disk, root);
    if depth > 0 {
      ChildrenParsed(disk, root, n, depth, []);
      SameVisits(disk, root, n, depth, Walk([], [], []));
      assert [] + F.ReadChildren(disk, root, n, depth).nodes == F.ReadChildren(disk, root, n, depth).nodes;
    }
  }

  // What the source writes, the format describes

  /** Whoever reads the tree by the format gets these extents, from the nodes of the tree, each met once. */
  ghost predicate Stored(disk: Disk, root: seq<byte>, extents: seq<Extent>) {
    && |root| == 60 && F.Two(root, 6) <= 5 && F.Keyed(disk, root, F.Two(root, 6))
    && var t := F.ReadTree(disk, root); t.Tree? && t.stretches == AllPlain(extents) && Fresh([], t.nodes)
  }

  lemma LeafByFormat(disk: Disk, size: nat, max: nat, extents: seq<Extent>)
    requires 12 + 12 * |extents| <= size && |extents| <= max < U16 && AllStorable(extents)
    ensures F.ReadNode(disk, LeafNode(size, max, extents), 0) == F.Tree(AllPlain(extents), [])
    ensures F.Two(LeafNode(size, max, extents), 6) == 0 && F.Two(LeafNode(size, max, extents), 4) == max
  {
    hide HeaderOf, ExtentAt, LeafNode, F.StretchAt, F.Two;
    var node := LeafNode(size, max, extents);
    LeafNodeRoundTrip(size, max, extents);
    HeaderByFormat(node);
    forall i: nat | i < |extents| ensures F.StretchAt(node, i) == Plain(extents[i]) {
      EntryByFormat(node, i);
    }
  }

  lemma IndexByFormat(size: nat, max: nat, depth: nat, children: seq<nat>, extents: seq<Extent>, stride: nat, from: nat)
    requires 12 + 12 * |children| <= size && |children| <= max < U16 && depth < U16
    requires NodeBlocks(children) && AllStorable(extents)
    ensures var node := IndexNode(size, max, depth, IdxsTo(children, extents, stride, from));
            && F.IsNode(node, depth) && F.Two(node, 2) == |children| && F.Two(node, 6) == depth && F.Two(node, 4) == max
            && (forall i :: 0 <= i < |children| ==> F.ChildOf(node, i) == children[i])
            && forall i :: 0 <= i < |children| ==> F.Four(node, 12 + 12 * i) == FirstBlock(extents, from + i * stride)
  {
    hide HeaderOf, ChildAt, IndexNode, IdxsTo, F.Two, F.Four, F.ChildOf;
    var node := IndexNode(size, max, depth, IdxsTo(children, extents, stride, from));
    IndexNodeReads(size, max, depth, children, extents, stride, from);
    HeaderByFormat(node);
    forall i: nat | i < |children|
      ensures F.ChildOf(node, i) == children[i] && F.Four(node, 12 + 12 * i) == FirstBlock(extents, from + i * stride)
    {
      EntryByFormat(node, i);
      KeyByFormat(size, max, depth, children, extents, stride, from, i);
    }
  }

  lemma KeyByFormat(size: nat, max: nat, depth: nat, children: seq<nat>, extents: seq<Extent>, stride: nat, from: nat, i: nat)
    requires 12 + 12 * |children| <= size && |children| <= max < U16 && depth < U16 && i < |children| && AllStorable(extents)
    ensures var node := IndexNode(size, max, depth, IdxsTo(children, extents, stride, from));
            F.Four(node, 12 + 12 * i) == FirstBlock(extents, from + i * stride)
  {
    hide Packed, EncodeHeader, From32, Le32, F.Four;
    var idxs := IdxsTo(children, extents, stride, from);
    var node := IndexNode(size, max, depth, idxs);
    NodeRoundTrip(size, max, depth, IdxEntries(idxs));
    assert node[12 + 12 * i..12 + 12 * i + 4] == Entry(node, i)[..4] == Le32(idxs[i].eiBlock);
    Le32From32(idxs[i].eiBlock);
    Numbers(node, 12 + 12 * i);
  }

  /** A block with a node's bytes is on the disk. */
  lemma NodeThere(disk: Disk, b: nat)
    requires Block(disk, b)[0] == 0x0A
    ensures b in disk && |disk[b]| == 4096 && Block(disk, b) == disk[b]
  {
  }

  lemma LeafThere(disk: Disk, leaves: seq<nat>, extents: seq<Extent>, i: nat)
    requires LeavesHold(disk, leaves, extents) && i < |leaves|
    ensures leaves[i] in disk && |disk[leaves[i]]| == 4096 && F.Two(disk[leaves[i]], 4) == 340
    ensures F.ReadNode(disk, disk[leaves[i]], 0) == F.Tree(AllPlain(Chunk(extents, i)), [])
  {
    hide LeafNode, Chunk, F.Two, Block, Storable;
    LeafByFormat(disk, BLOCK_SZ, EXTENTS_PER_NODE, Chunk(extents, i));
    NodeThere(disk, leaves[i]);
  }

  lemma {:induction false} LeavesByFormat(disk: Disk, node: seq<byte>, n: nat, from: nat, leaves: seq<nat>, extents: seq<Extent>)
    requires LeavesHold(disk, leaves, extents) && |node| >= 12 + 12 * n && from + n <= |leaves|
    requires forall i :: 0 <= i < n ==> F.ChildOf(node, i) == leaves[from + i]
    ensures F.ReadChildren(disk, node, n, 1) == F.Tree(AllPlain(Share(extents, from, from + n)), leaves[from..from + n])
    decreases n
  {
    hide LeavesHold, F.ReadNode, F.ChildOf, Share, Chunk, AllPlain;
    if n == 0 {
      ShareNone(extents, from);
      NonePlain();
    } else {
      var i := from + n - 1;
      LeavesByFormat(disk, node, n - 1, from, leaves, extents);
      LeafThere(disk, leaves, extents, i);
      LeafRange(disk, leaves, extents);
      ShareNext(extents, from, i);
      BothPlain(Share(extents, from, i), Chunk(extents, i));
      assert leaves[from..i] + [leaves[i]] + [] == leaves[from..i + 1];
    }
  }

  lemma NonePlain()
    ensures AllPlain([]) == []
  {
  }

  lemma BothPlain(a: seq<Extent>, b: seq<Extent>)
    ensures AllPlain(a + b) == AllPlain(a) + AllPlain(b)
  {
  }

  /** The leaves below a node are found under the blocks they begin with. */
  lemma LeavesKeyed(disk: Disk, node: seq<byte>, from: nat, leaves: seq<nat>, extents: seq<Extent>)
    requires LeavesHold(disk, leaves, extents) && F.IsNode(node, 1) && from + F.Two(node, 2) <= |leaves|
    requires 12 + 12 * F.Two(node, 4) <= |node| < 24 + 12 * F.Two(node, 4)
    requires forall i :: 0 <= i < F.Two(node, 2) ==> F.ChildOf(node, i) == leaves[from + i]
    requires forall i :: 0 <= i < F.Two(node, 2) ==> F.Four(node, 12 + 12 * i) == FirstBlock(extents, 340 * (from + i))
    ensures F.Keyed(disk, node, 1)
  {
    hide LeavesHold, F.ReadNode, F.ChildOf, F.Four, F.Two, Chunk;
    LeafRange(disk, leaves, extents);
    forall i: nat | i < F.Two(node, 2) ensures F.KeyedChild(disk, node, i, 1) {
      LeafThere(disk, leaves, extents, from + i);
      LeafIsNode(disk, leaves[from + i]);
    }
  }

  lemma LeafIsNode(disk: Disk, b: nat)
    requires b in disk && |disk[b]| == 4096 && F.ReadNode(disk, disk[b], 0).Tree? && F.Two(disk[b], 4) == 340
    ensures F.Keyed(disk, disk[b], 0)
  {
  }

  /** A root whose header says that it is an empty leaf, whatever its other bytes are. */
  lemma EmptyStored(disk: Disk, root: seq<byte>)
    requires |root| == I_BLOCK_SZ && root[..12] == EncodeHeader(Header(MAGIC, 0, EXTENTS_IN_INODE, 0, 0))
    ensures Stored(disk, root, [])
  {
    hide EncodeHeader, DecodeHeader, F.Two;
    var h := Header(MAGIC, 0, EXTENTS_IN_INODE, 0, 0);
    HeaderRoundTrip(h);
    assert HeaderOf(root) == h;
    HeaderByFormat(root);
  }

  /** Depth 0, 1 and 2, as the three cases of `write_extents_to_inode`. */
  lemma StoredZero(disk: Disk, extents: seq<Extent>)
    requires |extents| <= EXTENTS_IN_INODE && AllStorable(extents)
    ensures Stored(disk, LeafNode(I_BLOCK_SZ, EXTENTS_IN_INODE, extents), extents)
  {
    hide LeafNode, F.StretchAt;
    LeafByFormat(disk, I_BLOCK_SZ, EXTENTS_IN_INODE, extents);
  }

  lemma StoredOne(disk: Disk, leaves: seq<nat>, extents: seq<Extent>)
    requires LeavesHold(disk, leaves, extents) && |leaves| <= EXTENTS_IN_INODE
    ensures Stored(disk, Root(leaves, extents, 1, EXTENTS_PER_NODE), extents)
  {
    hide *;
    Sizes();
    var root := Root(leaves, extents, 1, EXTENTS_PER_NODE);
    LeafRange(disk, leaves, extents);
    RootByFormat(leaves, extents);
    AllLeaves(leaves);
    LeavesByFormat(disk, root, |leaves|, 0, leaves, extents);
    LeavesKeyed(disk, root, 0, leaves, extents);
    ShareAll(extents, |leaves|);
    OneLevel(disk, root, |leaves|, 1);
    LeavesFresh(leaves);
    StoredJoin(disk, root, extents, leaves, 1);
  }

  lemma AllLeaves(leaves: seq<nat>)
    ensures leaves[0..0 + |leaves|] == leaves
  {
  }

  lemma RootByFormat(leaves: seq<nat>, extents: seq<Extent>)
    requires |leaves| <= EXTENTS_IN_INODE && NodeBlocks(leaves) && AllStorable(extents)
    ensures var root := Root(leaves, extents, 1, EXTENTS_PER_NODE);
            && |root| == 60 && F.IsNode(root, 1) && F.Two(root, 2) == |leaves| && F.Two(root, 6) == 1 && F.Two(root, 4) == 4
            && (forall i :: 0 <= i < |leaves| ==> F.ChildOf(root, i) == leaves[0 + i])
            && forall i :: 0 <= i < |leaves| ==> F.Four(root, 12 + 12 * i) == FirstBlock(extents, 340 * (0 + i))
  {
    hide *;
    Sizes();
    RootIs(leaves, extents, 1, EXTENTS_PER_NODE);
    IndexByFormat(I_BLOCK_SZ, EXTENTS_IN_INODE, 1, leaves, extents, EXTENTS_PER_NODE, 0);
    FromStart(Root(leaves, extents, 1, EXTENTS_PER_NODE), leaves, extents);
  }

  lemma FromStart(node: seq<byte>, leaves: seq<nat>, extents: seq<Extent>)
    requires 12 + 12 * |leaves| <= |node|
    requires forall i :: 0 <= i < |leaves| ==> F.ChildOf(node, i) == leaves[i]
    requires forall i :: 0 <= i < |leaves| ==> F.Four(node, 12 + 12 * i) == FirstBlock(extents, 0 + i * EXTENTS_PER_NODE)
    ensures forall i :: 0 <= i < |leaves| ==> F.ChildOf(node, i) == leaves[0 + i]
    ensures forall i :: 0 <= i < |leaves| ==> F.Four(node, 12 + 12 * i) == FirstBlock(extents, 340 * (0 + i))
  {
    hide F.ChildOf, F.Four, FirstBlock;
    forall i | 0 <= i < |leaves| ensures F.Four(node, 12 + 12 * i) == FirstBlock(extents, 340 * (0 + i)) {
      assert 0 + i * EXTENTS_PER_NODE == 340 * (0 + i);
    }
  }

  lemma LeavesFresh(leaves: seq<nat>)
    requires NodeBlocks(leaves)
    ensures Fresh([], leaves)
  {
  }

  lemma OneLevel(disk: Disk, root: seq<byte>, n: nat, depth: nat)
    requires |root| == 60 && F.IsNode(root, depth) && F.Two(root, 2) == n && F.Two(root, 6) == depth > 0
    ensures 12 + 12 * n <= |root| && F.ReadTree(disk, root) == F.ReadChildren(disk, root, n, depth)
  {
    hide F.Two, F.ReadChildren;
  }

  // Two levels

  /** The nodes below the first n index blocks, in the order in which a reader meets them. */
  ghost function Met(indexes: seq<nat>, leaves: seq<nat>, n: nat): seq<nat>
    requires n <= |indexes| && |indexes| == NodesFor(|leaves|)
  {
    if n == 0 then [] else Met(indexes, leaves, n - 1) + ([indexes[n - 1]] + Chunk(leaves, n - 1))
  }

  lemma {:induction false} MetBelow(indexes: seq<nat>, leaves: seq<nat>, n: nat)
    requires n <= |indexes| && |indexes| == NodesFor(|leaves|) && NodeBlocks(indexes) && NodeBlocks(leaves)
    requires forall b :: b in indexes ==> b !in leaves
    ensures Below(Met(indexes, leaves, n), n, indexes, leaves) && Fresh([], Met(indexes, leaves, n))
  {
    hide Below, Fresh, NodeBlocks, Chunk;
    if n == 0 {
      BelowNothing(indexes, leaves);
      NothingFresh();
    } else {
      var met, k := Met(indexes, leaves, n - 1), n - 1;
      MetBelow(indexes, leaves, k);
      BelowUnseen(met, k, indexes, leaves);
      BelowNext(met, k, indexes, leaves);
      assert met + [indexes[k]] + Chunk(leaves, k) == met + ([indexes[k]] + Chunk(leaves, k));
      FreshMore(met, indexes[k], leaves, k, indexes);
    }
  }

  lemma NothingFresh()
    ensures Fresh([], [])
  {
  }

  lemma FreshMore(met: seq<nat>, index: nat, leaves: seq<nat>, k: nat, indexes: seq<nat>)
    requires Fresh([], met) && index !in met && 340 * k <= |leaves| && Unseen(met, leaves[340 * k..]) && NodeBlocks(leaves)
    requires index in indexes && NodeBlocks(indexes) && index !in leaves
    ensures Fresh([], met + ([index] + Chunk(leaves, k)))
  {
    var c := Chunk(leaves, k);
    forall i | 0 <= i < |c| ensures c[i] !in met && c[i] != index && c[i] != 0 {
      assert c[i] == leaves[340 * k..][i] == leaves[340 * k + i];
      assert c[i] in leaves[340 * k..] && c[i] in leaves;
    }
    forall i, j | 0 <= i < j < |c| ensures c[i] != c[j] {
      assert c[i] == leaves[340 * k + i] && c[j] == leaves[340 * k + j];
    }
    hide Chunk, NodeBlocks, Unseen;
    Longer(met, [index] + c);
  }

  lemma Longer(a: seq<nat>, b: seq<nat>)
    requires Fresh([], a) && Fresh([], b) && forall i :: 0 <= i < |b| ==> b[i] !in a
    ensures Fresh([], a + b)
  {
    forall i, j | 0 <= i < j < |a + b| ensures (a + b)[i] != (a + b)[j] {
      if i < |a| <= j {
        assert a[i] in a && (a + b)[j] == b[j - |a|];
      }
    }
  }

  /** One index block, and the leaves below it. */
  lemma IndexThere(disk: Disk, indexes: seq<nat>, leaves: seq<nat>, extents: seq<Extent>, j: nat)
    requires LeavesHold(disk, leaves, extents) && IndexesHold(disk, indexes, leaves, extents) && j < |indexes|
    ensures 340 * j < |leaves| && indexes[j] in disk && |disk[indexes[j]]| == 4096
    ensures F.ReadNode(disk, disk[indexes[j]], 1)
         == F.Tree(AllPlain(Share(extents, 340 * j, 340 * j + |Chunk(leaves, j)|)), Chunk(leaves, j))
    ensures F.Keyed(disk, disk[indexes[j]], 1)
  {
    hide *;
    Sizes();
    IndexBlock(disk, j, indexes, leaves, extents);
    var b, c := indexes[j], Chunk(leaves, j);
    ChunkIsPart(leaves, j);
    IndexByFormat(BLOCK_SZ, EXTENTS_PER_NODE, 1, c, extents, EXTENTS_PER_NODE, 340 * 340 * j);
    var node := Block(disk, b);
    NodeStart(node, 1);
    NodeThere(disk, b);
    LeavesFrom(node, c, leaves, extents, j);
    LeavesByFormat(disk, node, |c|, 340 * j, leaves, extents);
    LeavesKeyed(disk, node, 340 * j, leaves, extents);
    OneNode(disk, node, |c|);
  }

  lemma NodeStart(node: seq<byte>, depth: nat)
    requires F.IsNode(node, depth)
    ensures |node| >= 12 && node[0] == 0x0A && 12 + 12 * F.Two(node, 2) <= |node|
  {
  }

  lemma LeavesFrom(node: seq<byte>, c: seq<nat>, leaves: seq<nat>, extents: seq<Extent>, j: nat)
    requires 340 * j <= |leaves| && c == Chunk(leaves, j) && 12 + 12 * |c| <= |node| && EXTENTS_PER_NODE == 340
    requires forall i :: 0 <= i < |c| ==> F.ChildOf(node, i) == c[i]
    requires forall i :: 0 <= i < |c| ==> F.Four(node, 12 + 12 * i) == FirstBlock(extents, 340 * 340 * j + i * EXTENTS_PER_NODE)
    ensures 340 * j + |c| <= |leaves| && forall i :: 0 <= i < |c| ==> F.ChildOf(node, i) == leaves[340 * j + i]
    ensures forall i :: 0 <= i < |c| ==> F.Four(node, 12 + 12 * i) == FirstBlock(extents, 340 * (340 * j + i))
  {
    hide F.Two, F.Four, F.ChildOf, FirstBlock;
    forall i | 0 <= i < |c| ensures F.Four(node, 12 + 12 * i) == FirstBlock(extents, 340 * (340 * j + i)) {
      assert 340 * 340 * j + i * EXTENTS_PER_NODE == 340 * (340 * j + i);
    }
  }

  lemma OneNode(disk: Disk, node: seq<byte>, n: nat)
    requires F.IsNode(node, 1) && F.Two(node, 2) == n
    ensures 12 + 12 * n <= |node| && F.ReadNode(disk, node, 1) == F.ReadChildren(disk, node, n, 1)
  {
    hide F.Two, F.ReadChildren;
  }

  lemma {:induction false} IndexesByFormat(disk: Disk, node: seq<byte>, n: nat, indexes: seq<nat>, leaves: seq<nat>, extents: seq<Extent>)
    requires LeavesHold(disk, leaves, extents) && IndexesHold(disk, indexes, leaves, extents)
    requires |node| >= 12 + 12 * n && n <= |indexes| == NodesFor(|leaves|)
    requires forall i :: 0 <= i < n ==> F.ChildOf(node, i) == indexes[i]
    ensures F.ReadChildren(disk, node, n, 2) == F.Tree(AllPlain(Share(extents, 0, 340 * n)), Met(indexes, leaves, n))
    decreases n
  {
    hide *;
    if n == 0 {
      ShareNone(extents, 0);
      NothingMet(disk, node, indexes, leaves);
    } else {
      IndexesByFormat(disk, node, n - 1, indexes, leaves, extents);
      IndexThere(disk, indexes, leaves, extents, n - 1);
      LeafRange(disk, leaves, extents);
      ShareBelow(extents, leaves, n - 1);
      OneMoreIndex(disk, node, n, indexes, leaves, extents);
    }
  }

  lemma NothingMet(disk: Disk, node: seq<byte>, indexes: seq<nat>, leaves: seq<nat>)
    requires |node| >= 12 && |indexes| == NodesFor(|leaves|)
    ensures F.ReadChildren(disk, node, 0, 2) == F.Tree(AllPlain([]), Met(indexes, leaves, 0))
  {
  }

  lemma OneMoreIndex(disk: Disk, node: seq<byte>, n: nat, indexes: seq<nat>, leaves: seq<nat>, extents: seq<Extent>)
    requires |node| >= 12 + 12 * n && 0 < n <= |indexes| == NodesFor(|leaves|) && F.ChildOf(node, n - 1) == indexes[n - 1]
    requires indexes[n - 1] in disk && |disk[indexes[n - 1]]| == 4096
    requires var part := Share(extents, 340 * (n - 1), 340 * (n - 1) + |Chunk(leaves, n - 1)|);
             && F.ReadNode(disk, disk[indexes[n - 1]], 1) == F.Tree(AllPlain(part), Chunk(leaves, n - 1))
             && Share(extents, 0, 340 * (n - 1)) + part == Share(extents, 0, 340 * n)
    requires F.ReadChildren(disk, node, n - 1, 2)
          == F.Tree(AllPlain(Share(extents, 0, 340 * (n - 1))), Met(indexes, leaves, n - 1))
    ensures F.ReadChildren(disk, node, n, 2) == F.Tree(AllPlain(Share(extents, 0, 340 * n)), Met(indexes, leaves, n))
  {
    hide F.ReadNode, F.ChildOf, Share, Chunk;
    var a, b := Share(extents, 0, 340 * (n - 1)), Share(extents, 340 * (n - 1), 340 * (n - 1) + |Chunk(leaves, n - 1)|);
    BothPlain(a, b);
    assert Met(indexes, leaves, n - 1) + [indexes[n - 1]] + Chunk(leaves, n - 1) == Met(indexes, leaves, n);
  }

  /** The index blocks below the root are found under the blocks they begin with. */
  lemma IndexesKeyed(disk: Disk, root: seq<byte>, indexes: seq<nat>, leaves: seq<nat>, extents: seq<Extent>)
    requires LeavesHold(disk, leaves, extents) && IndexesHold(disk, indexes, leaves, extents)
    requires F.IsNode(root, 2) && F.Two(root, 2) == |indexes| && |root| == 60 && F.Two(root, 4) == 4
    requires forall i :: 0 <= i < |indexes| ==> F.ChildOf(root, i) == indexes[i]
    requires forall i :: 0 <= i < |indexes| ==> F.Four(root, 12 + 12 * i) == FirstBlock(extents, i * (340 * 340))
    ensures F.Keyed(disk, root, 2)
  {
    hide LeavesHold, IndexesHold, F.ReadNode, F.ChildOf, F.Four, F.Two;
    LeafRange(disk, leaves, extents);
    forall i: nat | i < |indexes| ensures F.KeyedChild(disk, root, i, 2) {
      IndexThere(disk, indexes, leaves, extents, i);
      var part := Share(extents, 340 * i, 340 * i + |Chunk(leaves, i)|);
      assert part != [] && part[0] == extents[340 * (340 * i)];
      assert F.Four(root, 12 + 12 * i) == FirstBlock(extents, i * (340 * 340)) && i * (340 * 340) == 340 * (340 * i);
      ChildKeyed(disk, root, i, part, Chunk(leaves, i));
    }
  }

  lemma ChildKeyed(disk: Disk, node: seq<byte>, i: nat, part: seq<Extent>, nodes: seq<nat>)
    requires 24 + 12 * i <= |node| && F.ChildOf(node, i) in disk && F.Keyed(disk, disk[F.ChildOf(node, i)], 1)
    requires F.ReadNode(disk, disk[F.ChildOf(node, i)], 1) == F.Tree(AllPlain(part), nodes)
    requires part != [] && F.Four(node, 12 + 12 * i) == part[0].eeBlock
    ensures F.KeyedChild(disk, node, i, 2)
  {
    hide F.ReadNode, F.ChildOf, F.Four, F.Two;
  }

  lemma StoredTwo(disk: Disk, indexes: seq<nat>, leaves: seq<nat>, extents: seq<Extent>)
    requires LeavesHold(disk, leaves, extents) && IndexesHold(disk, indexes, leaves, extents) && |indexes| <= EXTENTS_IN_INODE
    ensures Stored(disk, Root(indexes, extents, 2, EXTENTS_PER_NODE * EXTENTS_PER_NODE), extents)
  {
    hide *;
    Sizes();
    var root := Root(indexes, extents, 2, EXTENTS_PER_NODE * EXTENTS_PER_NODE);
    LeafRange(disk, leaves, extents);
    IndexRange(disk, indexes, leaves, extents);
    IndexCount(disk, indexes, leaves, extents);
    RootIs(indexes, extents, 2, EXTENTS_PER_NODE * EXTENTS_PER_NODE);
    IndexByFormat(I_BLOCK_SZ, EXTENTS_IN_INODE, 2, indexes, extents, EXTENTS_PER_NODE * EXTENTS_PER_NODE, 0);
    IndexesByFormat(disk, root, |indexes|, indexes, leaves, extents);
    IndexesKeyed(disk, root, indexes, leaves, extents);
    MetBelow(indexes, leaves, |indexes|);
    ShareAll(extents, 340 * |indexes|);
    OneLevel(disk, root, |indexes|, 2);
    StoredJoin(disk, root, extents, Met(indexes, leaves, |indexes|), 2);
  }

  lemma IndexCount(disk: Disk, indexes: seq<nat>, leaves: seq<nat>, extents: seq<Extent>)
    requires IndexesHold(disk, indexes, leaves, extents)
    ensures |indexes| == NodesFor(|leaves|)
  {
  }

  lemma RootIs(children: seq<nat>, extents: seq<Extent>, depth: nat, stride: nat)
    requires |children| <= EXTENTS_IN_INODE
    ensures 12 + 12 * |children| <= I_BLOCK_SZ == 60 && U16 > 340 && EXTENTS_IN_INODE == 4
    ensures Root(children, extents, depth, stride) == IndexNode(I_BLOCK_SZ, EXTENTS_IN_INODE, depth, IdxsTo(children, extents, stride, 0))
  {
  }

  lemma StoredJoin(disk: Disk, root: seq<byte>, extents: seq<Extent>, nodes: seq<nat>, depth: nat)
    requires |root| == 60 && F.Two(root, 6) == depth <= 5 && F.Keyed(disk, root, depth)
    requires F.ReadTree(disk, root) == F.Tree(AllPlain(extents), nodes) && Fresh([], nodes)
    ensures Stored(disk, root, extents)
  {
    hide F.Keyed, F.Two, F.ReadTree, Fresh;
  }
}
