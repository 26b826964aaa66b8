/** What `write_extents_to_inode` of ext4-fs/src/vfs.rs lays out, and that parsing such a tree gives the
    list back: at depth 0 in the inode, at depth 1 and at depth 2 over node blocks. */
module Ext4TreeLayout {
  import opened Common
  import opened Ext4Types
  import opened Ext4Extents
  import opened Ext4Layout
  import opened Ext4Tree

  lemma Sizes()
    ensures BLOCK_SZ == 4096 && EXTENTS_PER_NODE == 340 && EXTENTS_IN_INODE == 4 && EXTENT_TREE_MAX_DEPTH == 5
    ensures U16 == 0x1_0000 && U32 == 0x1_0000_0000
  {
  }

  /** `(n + EXTENTS_PER_NODE - 1) / EXTENTS_PER_NODE`. */
  function NodesFor(n: nat): (count: nat)
    ensures 340 * count < n + 340 && n <= 340 * count
  {
    (n + EXTENTS_PER_NODE - 1) / EXTENTS_PER_NODE
  }

  /** The i-th node's share of a list: 340 elements, or what is left. */
  function Chunk<T>(list: seq<T>, i: nat): (chunk: seq<T>)
    requires 340 * i <= |list|
    ensures |chunk| == Min(340, |list| - 340 * i)
    ensures forall k :: 0 <= k < |chunk| ==> chunk[k] == list[340 * i + k]
  {
    list[340 * i..Min(|list|, 340 * i + 340)]
  }

  function UpTo<T>(list: seq<T>, n: nat): (prefix: seq<T>)
    ensures |prefix| == Min(n, |list|)
  {
    list[..Min(n, |list|)]
  }

  lemma UpToNext<T>(list: seq<T>, i: nat)
    requires 340 * i <= |list|
    ensures UpTo(list, 340 * i) + Chunk(list, i) == UpTo(list, 340 * i + 340)
  {
  }

  /** The part of the list that the leaves from one number up to another hold. */
  function Share<T>(list: seq<T>, from: nat, to: nat): seq<T>
    requires from <= to
  {
    list[Min(|list|, 340 * from)..Min(|list|, 340 * to)]
  }

  lemma ShareNext<T>(list: seq<T>, from: nat, i: nat)
    requires from <= i && 340 * i <= |list|
    ensures Share(list, from, i) + Chunk(list, i) == Share(list, from, i + 1)
  {
  }

  lemma ShareJoin<T>(list: seq<T>, from: nat, mid: nat, to: nat)
    requires from <= mid <= to
    ensures Share(list, from, mid) + Share(list, mid, to) == Share(list, from, to)
  {
  }

  lemma ShareAll<T>(list: seq<T>, to: nat)
    requires |list| <= 340 * to
    ensures Share(list, 0, to) == list
  {
  }

  lemma ShareNone<T>(list: seq<T>, from: nat)
    ensures Share(list, from, from) == []
  {
  }

  /** `ei_block`: the first logical block below an index entry. */
  function FirstBlock(extents: seq<Extent>, start: nat): nat {
    if start < |extents| then extents[start].eeBlock else 0
  }

  /** Index entries for children that each stand for `stride` extents, the first from extent `from`. */
  function IdxsTo(children: seq<nat>, extents: seq<Extent>, stride: nat, from: nat): (idxs: seq<Idx>)
    ensures |idxs| == |children|
    ensures forall i :: 0 <= i < |idxs| ==> idxs[i] == IdxTo(FirstBlock(extents, from + i * stride), children[i])
  {
    seq(|children|, i requires 0 <= i < |children| => IdxTo(FirstBlock(extents, from + i * stride), children[i]))
  }

  /** Usable as node blocks: not the null block, small enough for an index entry, no block twice. */
  ghost predicate NodeBlocks(blocks: seq<nat>) {
    && (forall i :: 0 <= i < |blocks| ==> 0 < blocks[i] < U48)
    && forall i, j :: 0 <= i < j < |blocks| ==> blocks[i] != blocks[j]
  }

  ghost predicate AllStorable(extents: seq<Extent>) {
    forall i :: 0 <= i < |extents| ==> Storable(extents[i])
  }

  /** The leaf blocks hold the list, 340 extents each. */
  ghost predicate LeavesHold(disk: Disk, leaves: seq<nat>, extents: seq<Extent>) {
    && AllStorable(extents) && NodeBlocks(leaves) && |leaves| == NodesFor(|extents|)
    && forall i :: 0 <= i < |leaves| ==> Block(disk, leaves[i]) == LeafNode(BLOCK_SZ, EXTENTS_PER_NODE, Chunk(extents, i))
  }

  /** The index blocks point to the leaf blocks, 340 each. */
  ghost predicate IndexesHold(disk: Disk, indexes: seq<nat>, leaves: seq<nat>, extents: seq<Extent>) {
    && NodeBlocks(indexes) && |indexes| == NodesFor(|leaves|)
    && (forall b :: b in indexes ==> b !in leaves)
    && forall j :: 0 <= j < |indexes| ==>
         Block(disk, indexes[j])
         == IndexNode(BLOCK_SZ, EXTENTS_PER_NODE, 1, IdxsTo(Chunk(leaves, j), extents, EXTENTS_PER_NODE, 340 * 340 * j))
  }

  // Reading nodes back

  /** The first n children of the node are these. */
  ghost predicate Children(node: seq<byte>, children: seq<nat>) {
    && |node| >= 12 + 12 * |children|
    && forall i :: 0 <= i < |children| ==> ChildAt(node, i) == children[i]
  }

  lemma IndexNodeReads(size: nat, max: nat, depth: nat, children: seq<nat>, extents: seq<Extent>, stride: nat, from: nat)
    requires 12 + 12 * |children| <= size && |children| <= max < U16 && depth < U16
    requires NodeBlocks(children) && AllStorable(extents)
    ensures var node := IndexNode(size, max, depth, IdxsTo(children, extents, stride, from));
            && HeaderOf(node).IsValid() && HeaderOf(node).ehDepth == depth
            && HeaderOf(node).ehEntries == |children| && HeaderOf(node).ehMax == max && Children(node, children)
  {
    hide IdxTo, HeaderOf, ChildAt, IndexNode;
    var idxs := IdxsTo(children, extents, stride, from);
    forall i | 0 <= i < |idxs| ensures idxs[i].eiBlock < U32 && idxs[i] == IdxTo(idxs[i].eiBlock, children[i]) {
      IdxToField(FirstBlock(extents, from + i * stride), children[i]);
    }
    IndexNodeRoundTrip(size, max, depth, idxs, children);
  }

  lemma IdxToField(eiBlock: nat, child: nat)
    ensures IdxTo(eiBlock, child).eiBlock == eiBlock
  {
  }

  lemma LeafNodeReads(size: nat, max: nat, extents: seq<Extent>)
    requires 12 + 12 * |extents| <= size && |extents| <= max < U16 && AllStorable(extents)
    ensures var node := LeafNode(size, max, extents);
            && HeaderOf(node).IsValid() && HeaderOf(node).ehDepth == 0
            && EntryCount(node, max) == |extents| && Extents(node, |extents|) == extents
  {
    hide HeaderOf, ExtentAt, LeafNode;
    LeafNodeRoundTrip(size, max, extents);
  }

  /** One leaf block gives its share of the list. */
  lemma LeafParsed(disk: Disk, leaves: seq<nat>, extents: seq<Extent>, i: nat, visited: seq<nat>)
    requires LeavesHold(disk, leaves, extents) && i < |leaves| && leaves[i] !in visited
    ensures ParseChild(disk, leaves[i], 0, visited) == (Chunk(extents, i), visited + [leaves[i]])
  {
    hide HeaderOf, LeafNode, Extents, EntryCount, Block;
    LeafNodeReads(BLOCK_SZ, EXTENTS_PER_NODE, Chunk(extents, i));
  }

  /** No block of the second list has been visited. */
  ghost predicate Unseen(visited: seq<nat>, blocks: seq<nat>) {
    forall b :: b in blocks ==> b !in visited
  }

  /** The first n children of the node are the leaves from the one at `from` on. */
  ghost predicate PointsAt(node: seq<byte>, n: nat, from: nat, leaves: seq<nat>) {
    && |node| >= 12 + 12 * n && from + n <= |leaves|
    && forall i :: 0 <= i < n ==> ChildAt(node, i) == leaves[from + i]
  }

  lemma PointsAtFewer(node: seq<byte>, n: nat, from: nat, leaves: seq<nat>)
    requires PointsAt(node, n, from, leaves) && n > 0
    ensures PointsAt(node, n - 1, from, leaves)
    ensures |node| >= 12 + 12 * n && from + n <= |leaves| && ChildAt(node, n - 1) == leaves[from + n - 1]
  {
  }

  lemma PointsAtSize(node: seq<byte>, n: nat, from: nat, leaves: seq<nat>)
    requires PointsAt(node, n, from, leaves)
    ensures |node| >= 12 + 12 * n && from + n <= |leaves|
  {
  }

  /** The list has been read up to leaf `from`; the node's children continue it. */
  lemma {:induction false} LeavesParsed(disk: Disk, node: seq<byte>, n: nat, from: nat, leaves: seq<nat>, extents: seq<Extent>, w: Walk)
    requires LeavesHold(disk, leaves, extents) && PointsAt(node, n, from, leaves)
    requires Unseen(w.visited, leaves[from..])
    ensures ParseChildren(disk, node, n, 1, w.visited).0 == Share(extents, from, from + n)
    ensures CollectChildren(disk, node, n, 1, w)
            == Walk(w.leaves + leaves[from..from + n], w.indexes, w.visited + leaves[from..from + n])
    decreases n
  {
    hide *;
    if n == 0 {
      NoLeaves(disk, node, from, leaves, extents, w);
    } else {
      PointsAtFewer(node, n, from, leaves);
      LeavesParsed(disk, node, n - 1, from, leaves, extents, w);
      LeavesStep(disk, node, n, from, leaves, extents, w);
    }
  }

  lemma NoLeaves(disk: Disk, node: seq<byte>, from: nat, leaves: seq<nat>, extents: seq<Extent>, w: Walk)
    requires PointsAt(node, 0, from, leaves)
    ensures ParseChildren(disk, node, 0, 1, w.visited).0 == Share(extents, from, from)
    ensures CollectChildren(disk, node, 0, 1, w) == Walk(w.leaves + leaves[from..from], w.indexes, w.visited + leaves[from..from])
  {
    ShareNone(extents, from);
  }

  lemma LeavesStep(disk: Disk, node: seq<byte>, n: nat, from: nat, leaves: seq<nat>, extents: seq<Extent>, w: Walk)
    requires n > 0 && LeavesHold(disk, leaves, extents) && PointsAt(node, n, from, leaves)
    requires Unseen(w.visited, leaves[from..])
    requires ParseChildren(disk, node, n - 1, 1, w.visited).0 == Share(extents, from, from + n - 1)
    requires CollectChildren(disk, node, n - 1, 1, w)
             == Walk(w.leaves + leaves[from..from + n - 1], w.indexes, w.visited + leaves[from..from + n - 1])
    ensures ParseChildren(disk, node, n, 1, w.visited).0 == Share(extents, from, from + n)
    ensures CollectChildren(disk, node, n, 1, w)
            == Walk(w.leaves + leaves[from..from + n], w.indexes, w.visited + leaves[from..from + n])
  {
    hide LeavesHold, PointsAt, Unseen, ParseChild, ChildAt, Share, Chunk;
    PointsAtFewer(node, n, from, leaves);
    var before := CollectChildren(disk, node, n - 1, 1, w);
    var i := from + n - 1;
    SameVisits(disk, node, n - 1, 1, w);
    LeafRange(disk, leaves, extents);
    LeafUnseen(w.visited, leaves, from, i);
    LeafParsed(disk, leaves, extents, i, before.visited);
    assert leaves[from..i] + [leaves[i]] == leaves[from..i + 1];
    ShareNext(extents, from, i);
  }

  lemma LeafRange(disk: Disk, leaves: seq<nat>, extents: seq<Extent>)
    requires LeavesHold(disk, leaves, extents)
    ensures NodeBlocks(leaves) && AllStorable(extents) && 340 * |leaves| < |extents| + 340 && |extents| <= 340 * |leaves|
  {
  }

  lemma LeafUnseen(visited: seq<nat>, leaves: seq<nat>, from: nat, i: nat)
    requires NodeBlocks(leaves) && from <= i < |leaves| && Unseen(visited, leaves[from..])
    ensures leaves[i] !in visited + leaves[from..i] && leaves[i] != 0
  {
    assert leaves[i] == leaves[from..][i - from];
  }

  // The three depths

  /** Depth 0: the list in the inode. */
  lemma DepthZero(disk: Disk, extents: seq<Extent>)
    requires |extents| <= EXTENTS_IN_INODE && AllStorable(extents)
    ensures var root := LeafNode(I_BLOCK_SZ, EXTENTS_IN_INODE, extents);
            Parse(disk, root) == extents && Collect(disk, root) == Walk([], [], [])
  {
    hide HeaderOf, LeafNode, Extents, EntryCount;
    LeafNodeReads(I_BLOCK_SZ, EXTENTS_IN_INODE, extents);
  }

  function Root(children: seq<nat>, extents: seq<Extent>, depth: nat, stride: nat): (root: seq<byte>)
    requires |children| <= EXTENTS_IN_INODE
    ensures |root| == I_BLOCK_SZ
  {
    IndexNode(I_BLOCK_SZ, EXTENTS_IN_INODE, depth, IdxsTo(children, extents, stride, 0))
  }

  lemma RootReads(disk: Disk, children: seq<nat>, extents: seq<Extent>, depth: nat, stride: nat)
    requires |children| <= EXTENTS_IN_INODE && NodeBlocks(children) && AllStorable(extents)
    requires 0 < depth <= EXTENT_TREE_MAX_DEPTH
    ensures var root := Root(children, extents, depth, stride);
            && Children(root, children) && |root| >= 12 + 12 * |children|
            && Parse(disk, root) == ParseChildren(disk, root, |children|, depth, []).0
            && Collect(disk, root) == CollectChildren(disk, root, |children|, depth, Walk([], [], []))
  {
    hide HeaderOf, IndexNode, ParseChildren, CollectChildren, Children;
    IndexNodeReads(I_BLOCK_SZ, EXTENTS_IN_INODE, depth, children, extents, stride, 0);
  }

  /** Depth 1: the root points to the leaves. */
  lemma DepthOne(disk: Disk, leaves: seq<nat>, extents: seq<Extent>)
    requires LeavesHold(disk, leaves, extents) && |leaves| <= EXTENTS_IN_INODE
    ensures var root := Root(leaves, extents, 1, EXTENTS_PER_NODE);
            Parse(disk, root) == extents && Collect(disk, root) == Walk(leaves, [], leaves)
  {
    hide *;
    Sizes();
    LeafRange(disk, leaves, extents);
    RootReads(disk, leaves, extents, 1, EXTENTS_PER_NODE);
    LeavesBelow(disk, Root(leaves, extents, 1, EXTENTS_PER_NODE), leaves, extents);
  }

  lemma LeavesBelow(disk: Disk, node: seq<byte>, leaves: seq<nat>, extents: seq<Extent>)
    requires LeavesHold(disk, leaves, extents) && Children(node, leaves) && |node| >= 12 + 12 * |leaves|
    ensures ParseChildren(disk, node, |leaves|, 1, []).0 == extents
    ensures CollectChildren(disk, node, |leaves|, 1, Walk([], [], [])) == Walk(leaves, [], leaves)
  {
    assert leaves[0..0 + |leaves|] == leaves;
    hide *;
    Sizes();
    LeafRange(disk, leaves, extents);
    PointsAtAll(node, leaves);
    UnseenNothing(leaves[0..]);
    LeavesParsed(disk, node, |leaves|, 0, leaves, extents, Walk([], [], []));
    ShareAll(extents, |leaves|);
  }

  lemma PointsAtAll(node: seq<byte>, leaves: seq<nat>)
    requires Children(node, leaves)
    ensures PointsAt(node, |leaves|, 0, leaves)
  {
  }

  lemma PointsAtChunk(node: seq<byte>, leaves: seq<nat>, j: nat)
    requires 340 * j <= |leaves| && Children(node, Chunk(leaves, j))
    ensures PointsAt(node, |Chunk(leaves, j)|, 340 * j, leaves)
  {
    hide ChildAt;
  }

  lemma UnseenNothing(blocks: seq<nat>)
    ensures Unseen([], blocks)
  {
  }

  /** What an index block and the list below it are. */
  lemma IndexBlock(disk: Disk, j: nat, indexes: seq<nat>, leaves: seq<nat>, extents: seq<Extent>)
    requires LeavesHold(disk, leaves, extents) && IndexesHold(disk, indexes, leaves, extents) && j < |indexes|
    ensures 340 * j < |leaves| && indexes[j] !in leaves && indexes[j] != 0
    ensures Block(disk, indexes[j])
            == IndexNode(BLOCK_SZ, EXTENTS_PER_NODE, 1, IdxsTo(Chunk(leaves, j), extents, EXTENTS_PER_NODE, 340 * 340 * j))
    ensures NodeBlocks(Chunk(leaves, j)) && AllStorable(extents)
  {
    hide Block, IndexNode, LeafNode, Chunk, AllStorable;
    assert indexes[j] in indexes;
    ChunkUsable(leaves, j);
  }

  lemma UnseenAlso(visited: seq<nat>, blocks: seq<nat>, b: nat)
    requires Unseen(visited, blocks) && b !in blocks
    ensures Unseen(visited + [b], blocks)
  {
  }

  /** An index block gives the share of the list below its leaves. */
  lemma IndexParsed(disk: Disk, j: nat, indexes: seq<nat>, leaves: seq<nat>, extents: seq<Extent>, w: Walk)
    requires LeavesHold(disk, leaves, extents) && IndexesHold(disk, indexes, leaves, extents) && j < |indexes|
    requires 340 * j <= |leaves| && indexes[j] !in w.visited && Unseen(w.visited, leaves[340 * j..])
    ensures ParseChild(disk, indexes[j], 1, w.visited).0 == Share(extents, 340 * j, 340 * j + |Chunk(leaves, j)|)
    ensures CollectBlock(disk, indexes[j], 1, w)
            == Walk(w.leaves + Chunk(leaves, j), w.indexes + [indexes[j]], w.visited + [indexes[j]] + Chunk(leaves, j))
  {
    hide *;
    Sizes();
    var here := Walk(w.leaves, w.indexes + [indexes[j]], w.visited + [indexes[j]]);
    IndexRead(disk, j, indexes, leaves, extents);
    LeavesStillUnseen(disk, j, indexes, leaves, extents, w.visited);
    ChunkIsPart(leaves, j);
    LeavesParsed(disk, Block(disk, indexes[j]), |Chunk(leaves, j)|, 340 * j, leaves, extents, here);
    NodeEntered(disk, indexes[j], 1, |Chunk(leaves, j)|, w);
  }

  lemma IndexRead(disk: Disk, j: nat, indexes: seq<nat>, leaves: seq<nat>, extents: seq<Extent>)
    requires LeavesHold(disk, leaves, extents) && IndexesHold(disk, indexes, leaves, extents) && j < |indexes|
    requires 340 * j <= |leaves|
    ensures PointsAt(Block(disk, indexes[j]), |Chunk(leaves, j)|, 340 * j, leaves) && indexes[j] != 0
    ensures var h := HeaderOf(Block(disk, indexes[j])); h.IsValid() && h.ehDepth == 1 && h.ehEntries == |Chunk(leaves, j)|
  {
    hide *;
    Sizes();
    IndexBlock(disk, j, indexes, leaves, extents);
    ChunkIsPart(leaves, j);
    IndexNodeReads(BLOCK_SZ, EXTENTS_PER_NODE, 1, Chunk(leaves, j), extents, EXTENTS_PER_NODE, 340 * 340 * j);
    PointsAtChunk(Block(disk, indexes[j]), leaves, j);
  }

  lemma LeavesStillUnseen(disk: Disk, j: nat, indexes: seq<nat>, leaves: seq<nat>, extents: seq<Extent>, visited: seq<nat>)
    requires LeavesHold(disk, leaves, extents) && IndexesHold(disk, indexes, leaves, extents) && j < |indexes|
    requires 340 * j <= |leaves| && Unseen(visited, leaves[340 * j..])
    ensures Unseen(visited + [indexes[j]], leaves[340 * j..])
  {
    hide *;
    IndexBlock(disk, j, indexes, leaves, extents);
    NotInPart(leaves, 340 * j, indexes[j]);
    UnseenAlso(visited, leaves[340 * j..], indexes[j]);
  }

  lemma ChunkIsPart(leaves: seq<nat>, j: nat)
    requires 340 * j <= |leaves|
    ensures |Chunk(leaves, j)| <= 340 && 340 * j + |Chunk(leaves, j)| <= |leaves|
    ensures leaves[340 * j..340 * j + |Chunk(leaves, j)|] == Chunk(leaves, j)
  {
  }

  lemma NotInPart(blocks: seq<nat>, from: nat, b: nat)
    requires from <= |blocks| && b !in blocks
    ensures b !in blocks[from..]
  {
  }

  /** Both walks go on to the children of a node that is valid and at its depth. */
  lemma NodeEntered(disk: Disk, child: nat, depth: nat, n: nat, w: Walk)
    requires child != 0 && child !in w.visited && 0 < depth < EXTENT_TREE_MAX_DEPTH && n <= EXTENTS_PER_NODE
    requires var h := HeaderOf(Block(disk, child)); h.IsValid() && h.ehDepth == depth && h.ehEntries == n
    ensures ParseChild(disk, child, depth, w.visited) == ParseChildren(disk, Block(disk, child), n, depth, w.visited + [child])
    ensures CollectBlock(disk, child, depth, w)
            == CollectChildren(disk, Block(disk, child), n, depth, Walk(w.leaves, w.indexes + [child], w.visited + [child]))
  {
    hide HeaderOf, Block, ParseChildren, CollectChildren;
  }

  lemma ChunkUsable(blocks: seq<nat>, j: nat)
    requires NodeBlocks(blocks) && 340 * j <= |blocks|
    ensures NodeBlocks(Chunk(blocks, j))
  {
  }

  /** The blocks visited below the first n index blocks. */
  ghost predicate Below(visited: seq<nat>, n: nat, indexes: seq<nat>, leaves: seq<nat>)
    requires n <= |indexes|
  {
    forall b :: b in visited ==> b in indexes[..n] || b in UpTo(leaves, 340 * n)
  }

  lemma BelowUnseen(visited: seq<nat>, n: nat, indexes: seq<nat>, leaves: seq<nat>)
    requires n < |indexes| && Below(visited, n, indexes, leaves) && NodeBlocks(indexes) && NodeBlocks(leaves)
    requires forall b :: b in indexes ==> b !in leaves
    requires 340 * n <= |leaves|
    ensures indexes[n] !in visited && Unseen(visited, leaves[340 * n..])
  {
    var mine := UpTo(leaves, 340 * n);
    assert mine == leaves[..340 * n];
    assert indexes[n] in indexes && indexes[n] !in leaves;
    assert indexes[n] !in mine;
    forall b | b in leaves[340 * n..] ensures b !in visited {
      var i :| 0 <= i < |leaves| - 340 * n && leaves[340 * n..][i] == b;
      assert leaves[340 * n + i] == b && b in leaves;
      assert b !in indexes;
    }
  }

  lemma BelowNext(visited: seq<nat>, n: nat, indexes: seq<nat>, leaves: seq<nat>)
    requires n < |indexes| && Below(visited, n, indexes, leaves) && 340 * n <= |leaves|
    ensures Below(visited + [indexes[n]] + Chunk(leaves, n), n + 1, indexes, leaves)
  {
    UpToNext(leaves, n);
    forall b | b in visited + [indexes[n]] + Chunk(leaves, n)
      ensures b in indexes[..n + 1] || b in UpTo(leaves, 340 * (n + 1))
    {
      if b in visited {
        assert b in indexes[..n] ==> b in indexes[..n + 1];
        assert b in UpTo(leaves, 340 * n) ==> b in UpTo(leaves, 340 * n) + Chunk(leaves, n);
      } else if b == indexes[n] {
        assert indexes[..n + 1][n] == b;
      }
    }
  }

  /** What the first n index blocks give: the list so far, and the leaves, the indexes and the blocks visited. */
  ghost predicate SoFar(read: seq<Extent>, w: Walk, n: nat, indexes: seq<nat>, leaves: seq<nat>, extents: seq<Extent>) {
    && n <= |indexes| && read == Share(extents, 0, 340 * n)
    && w.leaves == UpTo(leaves, 340 * n) && w.indexes == indexes[..n] && Below(w.visited, n, indexes, leaves)
  }

  lemma SoFarNext(read: seq<Extent>, w: Walk, n: nat, indexes: seq<nat>, leaves: seq<nat>, extents: seq<Extent>)
    requires SoFar(read, w, n, indexes, leaves, extents) && n < |indexes|
    requires |extents| <= 340 * |leaves| && 340 * n < |leaves|
    ensures var after := Walk(w.leaves + Chunk(leaves, n), w.indexes + [indexes[n]], w.visited + [indexes[n]] + Chunk(leaves, n));
            SoFar(read + Share(extents, 340 * n, 340 * n + |Chunk(leaves, n)|), after, n + 1, indexes, leaves, extents)
  {
    hide Below, Share, Chunk, UpTo;
    UpToNext(leaves, n);
    BelowNext(w.visited, n, indexes, leaves);
    ShareBelow(extents, leaves, n);
    assert indexes[..n] + [indexes[n]] == indexes[..n + 1];
  }

  lemma {:induction false} IndexesParsed(disk: Disk, node: seq<byte>, n: nat, indexes: seq<nat>, leaves: seq<nat>, extents: seq<Extent>)
    requires LeavesHold(disk, leaves, extents) && IndexesHold(disk, indexes, leaves, extents) && n <= |indexes|
    requires |node| >= 12 + 12 * |indexes| && Children(node, indexes)
    ensures SoFar(ParseChildren(disk, node, n, 2, []).0, CollectChildren(disk, node, n, 2, Walk([], [], [])), n, indexes, leaves, extents)
    decreases n
  {
    hide *;
    if n == 0 {
      NoIndexes(disk, node, indexes, leaves, extents);
    } else {
      IndexesParsed(disk, node, n - 1, indexes, leaves, extents);
      IndexStep(disk, node, n, indexes, leaves, extents);
    }
  }

  lemma NoIndexes(disk: Disk, node: seq<byte>, indexes: seq<nat>, leaves: seq<nat>, extents: seq<Extent>)
    requires |node| >= 12
    ensures SoFar(ParseChildren(disk, node, 0, 2, []).0, CollectChildren(disk, node, 0, 2, Walk([], [], [])), 0, indexes, leaves, extents)
  {
    ShareNone(extents, 0);
    BelowNothing(indexes, leaves);
  }

  lemma BelowNothing(indexes: seq<nat>, leaves: seq<nat>)
    ensures Below([], 0, indexes, leaves)
  {
  }

  lemma IndexRange(disk: Disk, indexes: seq<nat>, leaves: seq<nat>, extents: seq<Extent>)
    requires IndexesHold(disk, indexes, leaves, extents)
    ensures NodeBlocks(indexes) && 340 * |indexes| < |leaves| + 340 && |leaves| <= 340 * |indexes|
    ensures forall b :: b in indexes ==> b !in leaves
  {
  }

  lemma IndexStep(disk: Disk, node: seq<byte>, n: nat, indexes: seq<nat>, leaves: seq<nat>, extents: seq<Extent>)
    requires LeavesHold(disk, leaves, extents) && IndexesHold(disk, indexes, leaves, extents) && 0 < n <= |indexes|
    requires |node| >= 12 + 12 * |indexes| && Children(node, indexes)
    requires SoFar(ParseChildren(disk, node, n - 1, 2, []).0, CollectChildren(disk, node, n - 1, 2, Walk([], [], [])), n - 1, indexes, leaves, extents)
    ensures SoFar(ParseChildren(disk, node, n, 2, []).0, CollectChildren(disk, node, n, 2, Walk([], [], [])), n, indexes, leaves, extents)
  {
    hide *;
    var w := CollectChildren(disk, node, n - 1, 2, Walk([], [], []));
    LeafRange(disk, leaves, extents);
    IndexRange(disk, indexes, leaves, extents);
    ReadBelow(disk, node, n - 1, indexes, leaves, extents);
    BelowUnseen(w.visited, n - 1, indexes, leaves);
    IndexParsed(disk, n - 1, indexes, leaves, extents, w);
    IndexAdded(disk, node, n, indexes, leaves, extents, w);
  }

  lemma ReadBelow(disk: Disk, node: seq<byte>, n: nat, indexes: seq<nat>, leaves: seq<nat>, extents: seq<Extent>)
    requires |node| >= 12 + 12 * n && SoFar(ParseChildren(disk, node, n, 2, []).0, CollectChildren(disk, node, n, 2, Walk([], [], [])), n, indexes, leaves, extents)
    ensures n <= |indexes| && Below(CollectChildren(disk, node, n, 2, Walk([], [], [])).visited, n, indexes, leaves)
  {
    hide Below, ParseChildren, CollectChildren;
  }

  lemma ChildIs(node: seq<byte>, children: seq<nat>, i: nat)
    requires Children(node, children) && i < |children|
    ensures |node| >= 24 + 12 * i && ChildAt(node, i) == children[i]
  {
    hide ChildAt;
  }

  lemma IndexAdded(disk: Disk, node: seq<byte>, n: nat, indexes: seq<nat>, leaves: seq<nat>, extents: seq<Extent>, w: Walk)
    requires 0 < n <= |indexes| && |node| >= 12 + 12 * |indexes| && Children(node, indexes)
    requires |extents| <= 340 * |leaves| && 340 * (n - 1) < |leaves|
    requires SoFar(ParseChildren(disk, node, n - 1, 2, []).0, CollectChildren(disk, node, n - 1, 2, Walk([], [], [])), n - 1, indexes, leaves, extents)
    requires w == CollectChildren(disk, node, n - 1, 2, Walk([], [], []))
    requires ParseChild(disk, indexes[n - 1], 1, w.visited).0
             == Share(extents, 340 * (n - 1), 340 * (n - 1) + |Chunk(leaves, n - 1)|)
    requires CollectBlock(disk, indexes[n - 1], 1, w)
             == Walk(w.leaves + Chunk(leaves, n - 1), w.indexes + [indexes[n - 1]], w.visited + [indexes[n - 1]] + Chunk(leaves, n - 1))
    ensures SoFar(ParseChildren(disk, node, n, 2, []).0, CollectChildren(disk, node, n, 2, Walk([], [], [])), n, indexes, leaves, extents)
  {
    hide *;
    Sizes();
    ChildIs(node, indexes, n - 1);
    LastChild(disk, node, n, 2);
    SoFarNext(ParseChildren(disk, node, n - 1, 2, []).0, w, n - 1, indexes, leaves, extents);
  }

  /** The last child of a node comes after the others. */
  lemma LastChild(disk: Disk, node: seq<byte>, n: nat, depth: nat)
    requires |node| >= 12 + 12 * n && 0 < n && 0 < depth <= EXTENT_TREE_MAX_DEPTH
    ensures var w := CollectChildren(disk, node, n - 1, depth, Walk([], [], []));
            && CollectChildren(disk, node, n, depth, Walk([], [], [])) == CollectBlock(disk, ChildAt(node, n - 1), depth - 1, w)
            && ParseChildren(disk, node, n, depth, []).0
               == ParseChildren(disk, node, n - 1, depth, []).0 + ParseChild(disk, ChildAt(node, n - 1), depth - 1, w.visited).0
  {
    hide ParseChild, CollectBlock, ChildAt;
    SameVisits(disk, node, n - 1, depth, Walk([], [], []));
  }

  lemma ShareBelow(extents: seq<Extent>, leaves: seq<nat>, j: nat)
    requires |extents| <= 340 * |leaves| && 340 * j < |leaves|
    ensures Share(extents, 0, 340 * j) + Share(extents, 340 * j, 340 * j + |Chunk(leaves, j)|) == Share(extents, 0, 340 * (j + 1))
  {
    ShareJoin(extents, 0, 340 * j, 340 * j + |Chunk(leaves, j)|);
  }

  /** Depth 2: the root points to index blocks, which point to the leaves. */
  lemma DepthTwo(disk: Disk, indexes: seq<nat>, leaves: seq<nat>, extents: seq<Extent>)
    requires LeavesHold(disk, leaves, extents) && IndexesHold(disk, indexes, leaves, extents)
    requires |indexes| <= EXTENTS_IN_INODE
    ensures var root := Root(indexes, extents, 2, EXTENTS_PER_NODE * EXTENTS_PER_NODE);
            Parse(disk, root) == extents && Collect(disk, root).leaves == leaves && Collect(disk, root).indexes == indexes
  {
    LeafRange(disk, leaves, extents);
    IndexRange(disk, indexes, leaves, extents);
    hide *;
    var root := Root(indexes, extents, 2, EXTENTS_PER_NODE * EXTENTS_PER_NODE);
    RootReads(disk, indexes, extents, 2, EXTENTS_PER_NODE * EXTENTS_PER_NODE);
    PointsAtAll(root, indexes);
    PointsAtSize(root, |indexes|, 0, indexes);
    IndexesParsed(disk, root, |indexes|, indexes, leaves, extents);
    AllRead(disk, root, indexes, leaves, extents);
  }

  lemma AllRead(disk: Disk, node: seq<byte>, indexes: seq<nat>, leaves: seq<nat>, extents: seq<Extent>)
    requires |node| >= 12 + 12 * |indexes| && |leaves| <= 340 * |indexes| && |extents| <= 340 * |leaves|
    requires SoFar(ParseChildren(disk, node, |indexes|, 2, []).0, CollectChildren(disk, node, |indexes|, 2, Walk([], [], [])), |indexes|, indexes, leaves, extents)
    ensures var w := CollectChildren(disk, node, |indexes|, 2, Walk([], [], []));
            && ParseChildren(disk, node, |indexes|, 2, []).0 == extents
            && w.leaves == leaves && w.indexes == indexes
  {
    hide ParseChildren, CollectChildren, Below;
    ShareAll(extents, 340 * |indexes|);
    assert UpTo(leaves, 340 * |indexes|) == leaves;
  }
}
