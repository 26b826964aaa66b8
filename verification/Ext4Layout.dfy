/** On-disk shapes of the extent tree (ext4-fs/src/layout.rs): little-endian headers, extents and index
    entries of 12 bytes each, and the nodes made of them. */
module Ext4Layout {
  import opened Common
  import opened Ext4Types
  import opened Ext4Extents

  const BLOCK_SZ: nat := 4096
  const MAGIC: nat := 0xF30A
  const I_BLOCK_SZ: nat := 60
  const EXTENTS_IN_INODE: nat := 4
  const EXTENTS_PER_NODE: nat := 340

  // Entries

  /** `Ext4Extent`. */
  function EncodeExtent(e: Extent): (b: seq<byte>)
    ensures |b| == 12
  {
    Le32(e.eeBlock) + Le16(e.eeLen) + Le16(e.eeStartHi) + Le32(e.eeStartLo)
  }

  function DecodeExtent(b: seq<byte>): Extent
    requires |b| == 12
  {
    Extent(From32(b[..4]), From16(b[4..6]), From16(b[6..8]), From32(b[8..12]))
  }

  /** The fields of an extent are machine words. */
  predicate Storable(e: Extent) {
    e.eeBlock < U32 && e.eeLen < U16 && e.eeStartHi < U16 && e.eeStartLo < U32
  }

  lemma ExtentRoundTrip(e: Extent)
    requires Storable(e)
    ensures DecodeExtent(EncodeExtent(e)) == e
  {
    hide Le16, Le32, From16, From32;
    var b := EncodeExtent(e);
    assert b[..4] == Le32(e.eeBlock) && b[4..6] == Le16(e.eeLen) && b[6..8] == Le16(e.eeStartHi) && b[8..12] == Le32(e.eeStartLo);
    Le32From32(e.eeBlock);
    Le16From16(e.eeLen);
    Le16From16(e.eeStartHi);
    Le32From32(e.eeStartLo);
  }

  /** `Ext4ExtentIdx`. */
  datatype Idx = Idx(eiBlock: nat, eiLeafLo: nat, eiLeafHi: nat, eiUnused: nat) {
    function LeafBlock(): nat {
      eiLeafHi * U32 + eiLeafLo
    }
  }

  function IdxTo(eiBlock: nat, child: nat): Idx {
    Idx(eiBlock, child % U32, child / U32 % U16, 0)
  }

  function EncodeIdx(i: Idx): (b: seq<byte>)
    ensures |b| == 12
  {
    Le32(i.eiBlock) + Le32(i.eiLeafLo) + Le16(i.eiLeafHi) + Le16(i.eiUnused)
  }

  function DecodeIdx(b: seq<byte>): Idx
    requires |b| == 12
  {
    Idx(From32(b[..4]), From32(b[4..8]), From16(b[8..10]), From16(b[10..12]))
  }

  lemma IdxRoundTrip(eiBlock: nat, child: nat)
    requires eiBlock < U32 && child < U48
    ensures DecodeIdx(EncodeIdx(IdxTo(eiBlock, child))) == IdxTo(eiBlock, child)
    ensures IdxTo(eiBlock, child).LeafBlock() == child
  {
    hide Le16, Le32, From16, From32;
    var i := IdxTo(eiBlock, child);
    var b := EncodeIdx(i);
    assert b[..4] == Le32(i.eiBlock) && b[4..8] == Le32(i.eiLeafLo) && b[8..10] == Le16(i.eiLeafHi) && b[10..12] == Le16(i.eiUnused);
    Le32From32(i.eiBlock);
    Le32From32(i.eiLeafLo);
    Le16From16(i.eiLeafHi);
    Le16From16(i.eiUnused);
  }

  // Headers

  /** `Ext4ExtentHeader`. */
  datatype Header = Header(ehMagic: nat, ehEntries: nat, ehMax: nat, ehDepth: nat, ehGeneration: nat) {
    predicate IsValid() {
      ehMagic == MAGIC
    }
  }

  function EncodeHeader(h: Header): (b: seq<byte>)
    ensures |b| == 12
  {
    Le16(h.ehMagic) + Le16(h.ehEntries) + Le16(h.ehMax) + Le16(h.ehDepth) + Le32(h.ehGeneration)
  }

  function DecodeHeader(b: seq<byte>): Header
    requires |b| == 12
  {
    Header(From16(b[..2]), From16(b[2..4]), From16(b[4..6]), From16(b[6..8]), From32(b[8..12]))
  }

  lemma HeaderRoundTrip(h: Header)
    requires h.ehMagic < U16 && h.ehEntries < U16 && h.ehMax < U16 && h.ehDepth < U16 && h.ehGeneration < U32
    ensures DecodeHeader(EncodeHeader(h)) == h
  {
    hide Le16, Le32, From16, From32;
    var b := EncodeHeader(h);
    assert b[..2] == Le16(h.ehMagic) && b[2..4] == Le16(h.ehEntries) && b[4..6] == Le16(h.ehMax);
    assert b[6..8] == Le16(h.ehDepth) && b[8..12] == Le32(h.ehGeneration);
    Le16From16(h.ehMagic);
    Le16From16(h.ehEntries);
    Le16From16(h.ehMax);
    Le16From16(h.ehDepth);
    Le32From32(h.ehGeneration);
  }

  // Nodes

  /** Entries of 12 bytes, one after the other. */
  function Packed(entries: seq<seq<byte>>): (b: seq<byte>)
    requires forall i :: 0 <= i < |entries| ==> |entries[i]| == 12
    ensures |b| == 12 * |entries|
  {
    if entries == [] then [] else Packed(entries[..|entries| - 1]) + entries[|entries| - 1]
  }

  lemma {:induction false} PackedAt(entries: seq<seq<byte>>, i: nat)
    requires forall j :: 0 <= j < |entries| ==> |entries[j]| == 12
    requires i < |entries|
    ensures Packed(entries)[12 * i..12 * i + 12] == entries[i]
    decreases |entries|
  {
    var before := entries[..|entries| - 1];
    if i == |entries| - 1 {
      assert Packed(entries)[12 * i..12 * i + 12] == entries[i];
    } else {
      PackedAt(before, i);
      assert Packed(entries)[12 * i..12 * i + 12] == Packed(before)[12 * i..12 * i + 12];
    }
  }

  /** A node of an inode (60 bytes) or of a block: header, entries, and zeros in the rest. */
  function Node(size: nat, max: nat, depth: nat, entries: seq<seq<byte>>): (node: seq<byte>)
    requires forall i :: 0 <= i < |entries| ==> |entries[i]| == 12
    requires 12 + 12 * |entries| <= size
    ensures |node| == size
  {
    EncodeHeader(Header(MAGIC, |entries|, max, depth, 0)) + Packed(entries) + Zeros(size - 12 - 12 * |entries|)
  }

  function HeaderOf(node: seq<byte>): Header
    requires |node| >= 12
  {
    DecodeHeader(node[..12])
  }

  /** The 12 bytes of the i-th entry. */
  function Entry(node: seq<byte>, i: nat): (b: seq<byte>)
    requires 24 + 12 * i <= |node|
    ensures |b| == 12
  {
    node[12 + 12 * i..24 + 12 * i]
  }

  lemma NodeRoundTrip(size: nat, max: nat, depth: nat, entries: seq<seq<byte>>)
    requires forall i :: 0 <= i < |entries| ==> |entries[i]| == 12
    requires 12 + 12 * |entries| <= size && |entries| < U16 && max < U16 && depth < U16
    ensures var node := Node(size, max, depth, entries);
            && HeaderOf(node) == Header(MAGIC, |entries|, max, depth, 0)
            && forall i :: 0 <= i < |entries| ==> Entry(node, i) == entries[i]
  {
    hide EncodeHeader, DecodeHeader, Packed, Zeros;
    var node := Node(size, max, depth, entries);
    var h := Header(MAGIC, |entries|, max, depth, 0);
    assert node[..12] == EncodeHeader(h);
    HeaderRoundTrip(h);
    forall i | 0 <= i < |entries| ensures Entry(node, i) == entries[i] {
      PackedAt(entries, i);
      assert node[12..12 + 12 * |entries|] == Packed(entries);
      assert Entry(node, i) == Packed(entries)[12 * i..12 * i + 12];
    }
  }

  /** What the header and the entries of a node say depends on those bytes only. */
  function ExtentAt(node: seq<byte>, i: nat): Extent
    requires 24 + 12 * i <= |node|
  {
    DecodeExtent(Entry(node, i))
  }

  function ChildAt(node: seq<byte>, i: nat): nat
    requires 24 + 12 * i <= |node|
  {
    DecodeIdx(Entry(node, i)).LeafBlock()
  }

  function ExtentEntries(extents: seq<Extent>): (entries: seq<seq<byte>>)
    ensures |entries| == |extents| && forall i :: 0 <= i < |entries| ==> entries[i] == EncodeExtent(extents[i])
    ensures forall i :: 0 <= i < |entries| ==> |entries[i]| == 12
  {
    seq(|extents|, i requires 0 <= i < |extents| => EncodeExtent(extents[i]))
  }

  function IdxEntries(idxs: seq<Idx>): (entries: seq<seq<byte>>)
    ensures |entries| == |idxs| && forall i :: 0 <= i < |entries| ==> entries[i] == EncodeIdx(idxs[i])
    ensures forall i :: 0 <= i < |entries| ==> |entries[i]| == 12
  {
    seq(|idxs|, i requires 0 <= i < |idxs| => EncodeIdx(idxs[i]))
  }

  function LeafNode(size: nat, max: nat, extents: seq<Extent>): (node: seq<byte>)
    requires 12 + 12 * |extents| <= size
    ensures |node| == size
  {
    Node(size, max, 0, ExtentEntries(extents))
  }

  function IndexNode(size: nat, max: nat, depth: nat, idxs: seq<Idx>): (node: seq<byte>)
    requires 12 + 12 * |idxs| <= size
    ensures |node| == size
  {
    Node(size, max, depth, IdxEntries(idxs))
  }

  lemma LeafNodeRoundTrip(size: nat, max: nat, extents: seq<Extent>)
    requires 12 + 12 * |extents| <= size && |extents| < U16 && max < U16
    requires forall i :: 0 <= i < |extents| ==> Storable(extents[i])
    ensures var node := LeafNode(size, max, extents);
            && HeaderOf(node) == Header(MAGIC, |extents|, max, 0, 0)
            && forall i :: 0 <= i < |extents| ==> ExtentAt(node, i) == extents[i]
  {
    hide Node, EncodeExtent, DecodeExtent, HeaderOf, Entry, ExtentEntries, Storable;
    NodeRoundTrip(size, max, 0, ExtentEntries(extents));
    forall i | 0 <= i < |extents| ensures ExtentAt(LeafNode(size, max, extents), i) == extents[i] {
      ExtentRoundTrip(extents[i]);
    }
  }

  /** Index entries point to their children. */
  ghost predicate PointTo(idxs: seq<Idx>, children: seq<nat>) {
    && |idxs| == |children|
    && forall i :: 0 <= i < |idxs| ==> idxs[i].eiBlock < U32 && children[i] < U48 && idxs[i] == IdxTo(idxs[i].eiBlock, children[i])
  }

  lemma IndexNodeRoundTrip(size: nat, max: nat, depth: nat, idxs: seq<Idx>, children: seq<nat>)
    requires 12 + 12 * |idxs| <= size && |idxs| < U16 && max < U16 && depth < U16 && PointTo(idxs, children)
    ensures var node := IndexNode(size, max, depth, idxs);
            && HeaderOf(node) == Header(MAGIC, |idxs|, max, depth, 0)
            && forall i :: 0 <= i < |idxs| ==> ChildAt(node, i) == children[i]
  {
    hide Node, EncodeIdx, DecodeIdx, HeaderOf, Entry, IdxEntries, IdxTo, Idx.LeafBlock;
    NodeRoundTrip(size, max, depth, IdxEntries(idxs));
    forall i | 0 <= i < |idxs| ensures ChildAt(IndexNode(size, max, depth, idxs), i) == children[i] {
      IdxRoundTrip(idxs[i].eiBlock, children[i]);
    }
  }
}
