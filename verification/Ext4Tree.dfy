/** Extent trees on disk: how ext4-fs/src/vfs.rs parses them (`parse_extent_tree`), collects their blocks
    (`extent_tree_blocks`), and that both find what `write_extents_to_inode` lays out. */
module Ext4Tree {
  import opened Common
  import opened Ext4Types
  import opened Ext4Extents
  import opened Ext4Layout

  const EXTENT_TREE_MAX_DEPTH: nat := 5

  /** Contents of the device as the block cache shows them. */
  type Disk = map<nat, seq<byte>>

  /** A block of 4096 bytes; a block that the device lacks reads as zeros. */
  function Block(disk: Disk, b: nat): (bytes: seq<byte>)
    ensures |bytes| == BLOCK_SZ
  {
    if b in disk && |disk[b]| == BLOCK_SZ then disk[b] else Zeros(BLOCK_SZ)
  }

  // Parsing

  /** `min(eh_entries, max_entries)`. */
  function EntryCount(node: seq<byte>, maxEntries: nat): (n: nat)
    requires |node| >= 12
    ensures n <= maxEntries
  {
    Min(HeaderOf(node).ehEntries, maxEntries)
  }

  function Extents(node: seq<byte>, n: nat): (extents: seq<Extent>)
    requires 12 + 12 * n <= |node|
    ensures |extents| == n
  {
    seq(n, i requires 0 <= i < n => ExtentAt(node, i))
  }

  /** `parse_extent_tree_recursive`: the extents below a node and the visited list afterwards. */
  function ParseNode(disk: Disk, node: seq<byte>, maxEntries: nat, depth: nat, visited: seq<nat>): (seq<Extent>, seq<nat>)
    requires 12 + 12 * maxEntries <= |node|
    decreases depth, 1, 0
  {
    if HeaderOf(node).ehDepth != depth || depth > EXTENT_TREE_MAX_DEPTH then ([], visited)
    else if depth == 0 then (Extents(node, EntryCount(node, maxEntries)), visited)
    else ParseChildren(disk, node, EntryCount(node, maxEntries), depth, visited)
  }

  /** One step of the loop over index entries: the node that an entry points to. */
  function ParseChild(disk: Disk, child: nat, depth: nat, visited: seq<nat>): (seq<Extent>, seq<nat>)
    decreases depth, 2, 0
  {
    if child == 0 || child in visited then ([], visited)
    else
      var buf := Block(disk, child);
      if HeaderOf(buf).IsValid() && HeaderOf(buf).ehDepth == depth
      then ParseNode(disk, buf, EXTENTS_PER_NODE, depth, visited + [child])
      else ([], visited + [child])
  }

  /** The loop over the first n index entries of a node. */
  function ParseChildren(disk: Disk, node: seq<byte>, n: nat, depth: nat, visited: seq<nat>): (seq<Extent>, seq<nat>)
    requires 12 + 12 * n <= |node| && depth > 0
    decreases depth, 0, n
  {
    if n == 0 then ([], visited)
    else
      var before := ParseChildren(disk, node, n - 1, depth, visited);
      var child := ParseChild(disk, ChildAt(node, n - 1), depth - 1, before.1);
      (before.0 + child.0, child.1)
  }

  /** `parse_extent_tree`. */
  function Parse(disk: Disk, iBlock: seq<byte>): seq<Extent>
    requires |iBlock| == I_BLOCK_SZ
  {
    var header := HeaderOf(iBlock);
    if !header.IsValid() || header.ehDepth > EXTENT_TREE_MAX_DEPTH then []
    else ParseNode(disk, iBlock, EXTENTS_IN_INODE, header.ehDepth, []).0
  }

  // Collecting

  datatype Walk = Walk(leaves: seq<nat>, indexes: seq<nat>, visited: seq<nat>)

  /** `collect_extent_tree_block`. */
  function CollectBlock(disk: Disk, pblock: nat, depth: nat, w: Walk): Walk
    decreases depth, 1, 0
  {
    if pblock == 0 || depth > EXTENT_TREE_MAX_DEPTH || pblock in w.visited then w
    else
      var seen := w.visited + [pblock];
      if depth == 0 then Walk(w.leaves + [pblock], w.indexes, seen)
      else
        var data := Block(disk, pblock);
        var here := Walk(w.leaves, w.indexes + [pblock], seen);
        if !HeaderOf(data).IsValid() || HeaderOf(data).ehDepth != depth then here
        else CollectChildren(disk, data, EntryCount(data, EXTENTS_PER_NODE), depth, here)
  }

  /** The children behind the first n index entries of a node at `depth`. */
  function CollectChildren(disk: Disk, node: seq<byte>, n: nat, depth: nat, w: Walk): Walk
    requires 12 + 12 * n <= |node| && depth > 0
    decreases depth, 0, n
  {
    if n == 0 then w
    else CollectBlock(disk, ChildAt(node, n - 1), depth - 1, CollectChildren(disk, node, n - 1, depth, w))
  }

  /** `extent_tree_blocks`. */
  function Collect(disk: Disk, iBlock: seq<byte>): Walk
    requires |iBlock| == I_BLOCK_SZ
  {
    var header := HeaderOf(iBlock);
    if !header.IsValid() || header.ehDepth == 0 || header.ehDepth > EXTENT_TREE_MAX_DEPTH then Walk([], [], [])
    else CollectChildren(disk, iBlock, EntryCount(iBlock, EXTENTS_IN_INODE), header.ehDepth, Walk([], [], []))
  }

  /** The blocks that hold the tree outside the inode. */
  function TreeBlocks(disk: Disk, iBlock: seq<byte>): set<nat>
    requires |iBlock| == I_BLOCK_SZ
  {
    var w := Collect(disk, iBlock);
    (set b | b in w.leaves) + (set b | b in w.indexes)
  }

  // Both walks visit the same blocks, once each

  /** The visited blocks are, without repetition, the leaves and the indexes. */
  ghost predicate Tidy(w: Walk) {
    && (forall i, j :: 0 <= i < j < |w.visited| ==> w.visited[i] != w.visited[j])
    && multiset(w.visited) == multiset(w.leaves) + multiset(w.indexes)
  }

  lemma TidyStep(w: Walk, b: nat)
    requires Tidy(w) && b !in w.visited
    ensures Tidy(Walk(w.leaves + [b], w.indexes, w.visited + [b]))
    ensures Tidy(Walk(w.leaves, w.indexes + [b], w.visited + [b]))
  {
  }

  lemma {:induction false} CollectBlockTidy(disk: Disk, pblock: nat, depth: nat, w: Walk)
    requires Tidy(w)
    ensures Tidy(CollectBlock(disk, pblock, depth, w)) && w.visited <= CollectBlock(disk, pblock, depth, w).visited
    decreases depth, 1, 0
  {
    hide Tidy;
    if !(pblock == 0 || depth > EXTENT_TREE_MAX_DEPTH || pblock in w.visited) {
      TidyStep(w, pblock);
      if depth > 0 {
        var data := Block(disk, pblock);
        CollectChildrenTidy(disk, data, EntryCount(data, EXTENTS_PER_NODE), depth,
                            Walk(w.leaves, w.indexes + [pblock], w.visited + [pblock]));
      }
    }
  }

  lemma {:induction false} CollectChildrenTidy(disk: Disk, node: seq<byte>, n: nat, depth: nat, w: Walk)
    requires 12 + 12 * n <= |node| && depth > 0 && Tidy(w)
    ensures Tidy(CollectChildren(disk, node, n, depth, w)) && w.visited <= CollectChildren(disk, node, n, depth, w).visited
    decreases depth, 0, n
  {
    hide Tidy;
    if n > 0 {
      CollectChildrenTidy(disk, node, n - 1, depth, w);
      CollectBlockTidy(disk, ChildAt(node, n - 1), depth - 1, CollectChildren(disk, node, n - 1, depth, w));
    }
  }

  /** Parsing visits exactly the blocks that the collecting walk will free, in the same order. */
  lemma {:induction false} SameVisits(disk: Disk, node: seq<byte>, n: nat, depth: nat, w: Walk)
    requires 12 + 12 * n <= |node| && 0 < depth <= EXTENT_TREE_MAX_DEPTH
    ensures ParseChildren(disk, node, n, depth, w.visited).1 == CollectChildren(disk, node, n, depth, w).visited
    decreases depth, 0, n
  {
    hide ParseChild, CollectBlock, ChildAt;
    if n > 0 {
      SameVisits(disk, node, n - 1, depth, w);
      SameVisit(disk, ChildAt(node, n - 1), depth - 1, CollectChildren(disk, node, n - 1, depth, w));
    }
  }

  lemma {:induction false} SameVisit(disk: Disk, child: nat, depth: nat, w: Walk)
    requires depth < EXTENT_TREE_MAX_DEPTH
    ensures ParseChild(disk, child, depth, w.visited).1 == CollectBlock(disk, child, depth, w).visited
    decreases depth, 1, 0
  {
    hide ParseChildren, CollectChildren, Block, HeaderOf, EntryCount;
    if child != 0 && child !in w.visited && depth > 0 {
      var buf := Block(disk, child);
      SameVisits(disk, buf, EntryCount(buf, EXTENTS_PER_NODE), depth,
                 Walk(w.leaves, w.indexes + [child], w.visited + [child]));
    }
  }

  // Both walks depend on the blocks they visit, and on no other

  ghost predicate Agree(disk: Disk, other: Disk, blocks: seq<nat>) {
    forall b :: b in blocks ==> Block(disk, b) == Block(other, b)
  }

  lemma AgreePrefix(disk: Disk, other: Disk, blocks: seq<nat>, longer: seq<nat>)
    requires blocks <= longer && Agree(disk, other, longer)
    ensures Agree(disk, other, blocks)
  {
    assert forall b :: b in blocks ==> b in longer;
  }

  lemma AgreeAt(disk: Disk, other: Disk, blocks: seq<nat>, prefix: seq<nat>, b: nat)
    requires Agree(disk, other, blocks) && prefix <= blocks && b in prefix
    ensures Block(disk, b) == Block(other, b)
  {
    assert b in blocks;
  }

  lemma {:induction false} CollectBlockAgrees(disk: Disk, other: Disk, pblock: nat, depth: nat, w: Walk)
    requires Tidy(w) && depth < EXTENT_TREE_MAX_DEPTH
    requires Agree(disk, other, CollectBlock(disk, pblock, depth, w).visited)
    ensures CollectBlock(other, pblock, depth, w) == CollectBlock(disk, pblock, depth, w)
    ensures ParseChild(other, pblock, depth, w.visited) == ParseChild(disk, pblock, depth, w.visited)
    decreases depth, 1, 0
  {
    hide Tidy, Agree, Block, HeaderOf, EntryCount, Extents, CollectChildren, ParseChildren;
    if pblock != 0 && pblock !in w.visited {
      var after := CollectBlock(disk, pblock, depth, w);
      var data := Block(disk, pblock);
      TidyStep(w, pblock);
      if depth > 0 {
        var here := Walk(w.leaves, w.indexes + [pblock], w.visited + [pblock]);
        var n := EntryCount(data, EXTENTS_PER_NODE);
        CollectChildrenTidy(disk, data, n, depth, here);
        AgreeAt(disk, other, after.visited, here.visited, pblock);
        if HeaderOf(data).IsValid() && HeaderOf(data).ehDepth == depth {
          CollectChildrenAgree(disk, other, data, n, depth, here);
        }
      } else {
        AgreeAt(disk, other, after.visited, w.visited + [pblock], pblock);
      }
    }
  }

  lemma {:induction false} CollectChildrenAgree(disk: Disk, other: Disk, node: seq<byte>, n: nat, depth: nat, w: Walk)
    requires 12 + 12 * n <= |node| && 0 < depth <= EXTENT_TREE_MAX_DEPTH && Tidy(w)
    requires Agree(disk, other, CollectChildren(disk, node, n, depth, w).visited)
    ensures CollectChildren(other, node, n, depth, w) == CollectChildren(disk, node, n, depth, w)
    ensures ParseChildren(other, node, n, depth, w.visited) == ParseChildren(disk, node, n, depth, w.visited)
    decreases depth, 0, n
  {
    hide Tidy, Agree, ChildAt, CollectBlock, ParseChild;
    if n > 0 {
      var before := CollectChildren(disk, node, n - 1, depth, w);
      var child := ChildAt(node, n - 1);
      CollectChildrenTidy(disk, node, n - 1, depth, w);
      CollectBlockTidy(disk, child, depth - 1, before);
      AgreePrefix(disk, other, before.visited, CollectBlock(disk, child, depth - 1, before).visited);
      CollectChildrenAgree(disk, other, node, n - 1, depth, w);
      SameVisits(disk, node, n - 1, depth, w);
      CollectBlockAgrees(disk, other, child, depth - 1, before);
    }
  }

  /** A tree whose own blocks keep their contents keeps its extents and its blocks. */
  lemma TreeKept(disk: Disk, other: Disk, iBlock: seq<byte>)
    requires |iBlock| == I_BLOCK_SZ && forall b :: b in TreeBlocks(disk, iBlock) ==> Block(disk, b) == Block(other, b)
    ensures Parse(other, iBlock) == Parse(disk, iBlock) && Collect(other, iBlock) == Collect(disk, iBlock)
  {
    var header := HeaderOf(iBlock);
    if header.IsValid() && header.ehDepth <= EXTENT_TREE_MAX_DEPTH {
      if header.ehDepth > 0 {
        var n := EntryCount(iBlock, EXTENTS_IN_INODE);
        var w := Walk([], [], []);
        CollectChildrenTidy(disk, iBlock, n, header.ehDepth, w);
        VisitedAreTree(disk, iBlock);
        assert Agree(disk, other, Collect(disk, iBlock).visited);
        CollectChildrenAgree(disk, other, iBlock, n, header.ehDepth, w);
      }
    }
  }

  lemma VisitedAreTree(disk: Disk, iBlock: seq<byte>)
    requires |iBlock| == I_BLOCK_SZ
    ensures Tidy(Collect(disk, iBlock))
    ensures forall b :: b in Collect(disk, iBlock).visited <==> b in TreeBlocks(disk, iBlock)
  {
    var w := Collect(disk, iBlock);
    var header := HeaderOf(iBlock);
    if header.IsValid() && 0 < header.ehDepth <= EXTENT_TREE_MAX_DEPTH {
      CollectChildrenTidy(disk, iBlock, EntryCount(iBlock, EXTENTS_IN_INODE), header.ehDepth, Walk([], [], []));
    }
    forall b ensures b in w.visited <==> b in TreeBlocks(disk, iBlock) {
      assert b in w.visited <==> b in multiset(w.visited);
      assert b in w.leaves <==> b in multiset(w.leaves);
      assert b in w.indexes <==> b in multiset(w.indexes);
    }
  }
}
