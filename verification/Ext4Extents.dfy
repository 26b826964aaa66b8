/** Extent lists: `map_logical_block`, `insert_block_mapping` and `push_block_to_extents`
    of ext4-fs/src/vfs.rs, on the extents of ext4-fs/src/layout.rs. */
module Ext4Extents {

  import opened Common
  import opened Ext4Types

  const MAX_EXTENT_LEN: nat := 0x7FFF

  /** `Ext4Extent`: `Len` and `StartBlock` are its accessors `len` and `start_block`. */
  datatype Extent = Extent(eeBlock: nat, eeLen: nat, eeStartHi: nat, eeStartLo: nat) {
    function Len(): nat {
      eeLen % 0x8000
    }

    function StartBlock(): nat {
      eeStartHi * U32 + eeStartLo
    }

    /** Fields in range, not "uninitialized", within 32-bit logical and 48-bit physical block numbers. */
    predicate Valid() {
      && eeBlock < U32 && 1 <= eeLen <= MAX_EXTENT_LEN && eeStartHi < U16 && eeStartLo < U32
      && eeBlock + eeLen < U32 && StartBlock() + eeLen <= U48
    }

    predicate Covers(lblock: nat) {
      eeBlock <= lblock < eeBlock + Len()
    }
  }

  /** An extent of one block, with the physical number split over its two fields. */
  function SingleBlock(lblock: nat, pblock: nat): (e: Extent)
    ensures lblock + 1 < U32 && pblock < U48 ==> e.Valid() && e.StartBlock() == pblock && e.Len() == 1
  {
    Extent(lblock, 1, pblock / U32 % U16, pblock % U32)
  }

  /** Extents are in order of logical blocks and do not overlap. */
  ghost predicate WellFormed(extents: seq<Extent>) {
    && (forall i :: 0 <= i < |extents| ==> extents[i].Valid())
    && forall i, j :: 0 <= i < j < |extents| ==> extents[i].eeBlock + extents[i].Len() <= extents[j].eeBlock
  }

  /** The second extent continues the first one, logically and physically. */
  predicate Continues(a: Extent, b: Extent) {
    a.eeBlock + a.Len() == b.eeBlock && a.StartBlock() + a.Len() == b.StartBlock()
  }

  /** Extents that could be one extent are one, unless that would be too long. */
  ghost predicate Coalesced(extents: seq<Extent>) {
    forall i :: 0 <= i < |extents| - 1 && Continues(extents[i], extents[i + 1]) ==>
      extents[i].Len() + extents[i + 1].Len() > MAX_EXTENT_LEN
  }

  /** `map_logical_block`: the first extent that covers the block decides. */
  function MapLogicalBlock(extents: seq<Extent>, lblock: nat): Option<nat> {
    if extents == [] then None
    else
      var e := extents[0];
      if e.eeBlock <= lblock < Saturating32(e.eeBlock + e.Len())
      then Some(Saturating64(e.StartBlock() + (lblock - e.eeBlock)))
      else MapLogicalBlock(extents[1..], lblock)
  }

  lemma {:induction false} MapAt(extents: seq<Extent>, i: nat, lblock: nat)
    requires WellFormed(extents) && i < |extents| && extents[i].Covers(lblock)
    ensures MapLogicalBlock(extents, lblock) == Some(extents[i].StartBlock() + (lblock - extents[i].eeBlock))
    decreases i
  {
    if i > 0 {
      assert extents[0].eeBlock + extents[0].Len() <= extents[i].eeBlock;
      MapAt(extents[1..], i - 1, lblock);
    }
  }

  lemma {:induction false} MapNone(extents: seq<Extent>, lblock: nat)
    requires forall i :: 0 <= i < |extents| ==> extents[i].Valid() && !extents[i].Covers(lblock)
    ensures MapLogicalBlock(extents, lblock) == None
    decreases |extents|
  {
    if extents != [] {
      MapNone(extents[1..], lblock);
    }
  }

  /** Index of the extent that maps a block. */
  lemma {:induction false} MapIndex(extents: seq<Extent>, lblock: nat) returns (i: nat)
    requires forall i :: 0 <= i < |extents| ==> extents[i].Valid()
    requires MapLogicalBlock(extents, lblock).Some?
    ensures i < |extents| && extents[i].Covers(lblock)
    decreases |extents|
  {
    if extents[0].Covers(lblock) {
      i := 0;
    } else {
      i := MapIndex(extents[1..], lblock);
      i := i + 1;
    }
  }

  /** `after` maps lblock to pblock and every other block as `before` does. */
  ghost predicate PointUpdate(before: seq<Extent>, after: seq<Extent>, lblock: nat, pblock: nat) {
    forall k: nat :: MapLogicalBlock(after, k) == if k == lblock then Some(pblock) else MapLogicalBlock(before, k)
  }

  /** Where block `lblock`, covered by no extent, belongs. */
  ghost predicate Gap(extents: seq<Extent>, pos: nat, lblock: nat) {
    && pos <= |extents|
    && (forall i :: 0 <= i < pos ==> extents[i].eeBlock + extents[i].Len() <= lblock)
    && (forall i :: pos <= i < |extents| ==> lblock < extents[i].eeBlock)
  }

  lemma NoneCovers(extents: seq<Extent>, lblock: nat)
    requires WellFormed(extents) && MapLogicalBlock(extents, lblock) == None
    ensures forall i :: 0 <= i < |extents| ==> !extents[i].Covers(lblock)
  {
    forall i | 0 <= i < |extents| ensures !extents[i].Covers(lblock) {
      if extents[i].Covers(lblock) {
        MapAt(extents, i, lblock);
      }
    }
  }

  /** The blocks of `a`, all of them, lie in `b` with the same physical numbers. */
  ghost predicate Within(a: Extent, b: Extent) {
    && b.eeBlock <= a.eeBlock && a.eeBlock + a.Len() <= b.eeBlock + b.Len()
    && a.StartBlock() - a.eeBlock == b.StartBlock() - b.eeBlock
  }

  /** The extent `e` maps lblock to pblock. */
  ghost predicate Maps(e: Extent, lblock: nat, pblock: nat) {
    e.Covers(lblock) && e.StartBlock() + (lblock - e.eeBlock) == pblock
  }

  /** All but `lblock` that `b` covers is covered by the i-th extent of the list, or by the one after it. */
  ghost predicate Sources(before: seq<Extent>, i: nat, b: Extent, lblock: nat) {
    forall k :: b.Covers(k) && k != lblock ==>
      (i < |before| && before[i].Covers(k)) || (i + 1 < |before| && before[i + 1].Covers(k))
  }

  /** Old extents move to new places (`to`), new ones cover nothing but `lblock` and what their sources
      (from `from` on) cover: then the list has changed at `lblock` only. */
  lemma Moved(before: seq<Extent>, after: seq<Extent>, lblock: nat, pblock: nat, at: nat, to: seq<nat>, from: seq<nat>)
    requires WellFormed(before) && WellFormed(after)
    requires forall i :: 0 <= i < |before| ==> !before[i].Covers(lblock)
    requires at < |after| && Maps(after[at], lblock, pblock)
    requires |to| == |before| && forall i :: 0 <= i < |to| ==> to[i] < |after| && Within(before[i], after[to[i]])
    requires |from| == |after| && forall j :: 0 <= j < |from| ==> Sources(before, from[j], after[j], lblock)
    ensures PointUpdate(before, after, lblock, pblock)
  {
    forall k: nat ensures MapLogicalBlock(after, k) == if k == lblock then Some(pblock) else MapLogicalBlock(before, k) {
      hide *;
      if k == lblock {
        MapsThere(after, at, lblock, pblock);
      } else if MapLogicalBlock(before, k).Some? {
        MovedWith(before, after, to, k);
      } else {
        NotMoved(before, after, lblock, from, k);
      }
    }
  }

  lemma MapsThere(after: seq<Extent>, at: nat, lblock: nat, pblock: nat)
    requires WellFormed(after) && at < |after| && Maps(after[at], lblock, pblock)
    ensures MapLogicalBlock(after, lblock) == Some(pblock)
  {
    hide WellFormed, Extent.Len, Extent.StartBlock, MapLogicalBlock;
    MapAt(after, at, lblock);
  }

  /** A block that was mapped is mapped by the extent that its own was moved into. */
  lemma MovedWith(before: seq<Extent>, after: seq<Extent>, to: seq<nat>, k: nat)
    requires WellFormed(before) && WellFormed(after) && MapLogicalBlock(before, k).Some?
    requires |to| == |before| && forall i :: 0 <= i < |to| ==> to[i] < |after| && Within(before[i], after[to[i]])
    ensures MapLogicalBlock(after, k) == MapLogicalBlock(before, k)
  {
    hide WellFormed, Extent.Len, Extent.StartBlock, MapLogicalBlock;
    AllValid(before);
    var i := MapIndex(before, k);
    MapAt(before, i, k);
    assert Within(before[i], after[to[i]]);
    MapAt(after, to[i], k);
  }

  lemma NotMoved(before: seq<Extent>, after: seq<Extent>, lblock: nat, from: seq<nat>, k: nat)
    requires WellFormed(before) && WellFormed(after)
    requires |from| == |after| && forall j :: 0 <= j < |from| ==> Sources(before, from[j], after[j], lblock)
    requires k != lblock && MapLogicalBlock(before, k) == None
    ensures MapLogicalBlock(after, k) == None
  {
    NoneCovers(before, k);
    AllValid(after);
    hide WellFormed, Extent.Len, Extent.StartBlock, Extent.Valid, Extent.Covers, MapLogicalBlock;
    forall j | 0 <= j < |after| ensures !after[j].Covers(k) {
      assert Sources(before, from[j], after[j], lblock);
    }
    MapNone(after, k);
  }

  lemma WithinItself(e: Extent)
    ensures Within(e, e)
  {
  }

  lemma SourcesItself(before: seq<Extent>, i: nat, lblock: nat)
    requires i < |before|
    ensures Sources(before, i, before[i], lblock)
  {
  }

  lemma SourcesSingle(before: seq<Extent>, i: nat, e: Extent)
    requires e.Len() == 1
    ensures Sources(before, i, e, e.eeBlock)
  {
  }

  lemma AllValid(extents: seq<Extent>)
    requires WellFormed(extents)
    ensures forall i :: 0 <= i < |extents| ==> extents[i].Valid()
  {
  }

  lemma NotCovered(extents: seq<Extent>, pos: nat, lblock: nat)
    requires Gap(extents, pos, lblock)
    ensures forall i :: 0 <= i < |extents| ==> !extents[i].Covers(lblock)
  {
    forall i | 0 <= i < |extents| ensures !extents[i].Covers(lblock) {
      if i < pos {
        assert extents[i].eeBlock + extents[i].Len() <= lblock;
      } else {
        assert lblock < extents[i].eeBlock;
      }
    }
  }

  /** What an insertion of lblock -> pblock into a list that does not map lblock achieves. */
  ghost predicate Inserted(extents: seq<Extent>, result: seq<Extent>, lblock: nat, pblock: nat) {
    && WellFormed(result)
    && PointUpdate(extents, result, lblock, pblock)
    && (Coalesced(extents) ==> Coalesced(result))
  }

  /** The place for lblock, and the block numbers, are as `insert_block_mapping` needs them. */
  ghost predicate Insertable(extents: seq<Extent>, pos: nat, lblock: nat, pblock: nat) {
    WellFormed(extents) && Gap(extents, pos, lblock) && lblock + 1 < U32 && pblock < U48
  }

  /** The extent before `pos` ends where the new block begins, on both sides, and has room. */
  predicate MergesPrevious(extents: seq<Extent>, pos: nat, lblock: nat, pblock: nat)
    requires pos <= |extents|
  {
    pos > 0 && (
      var prev := extents[pos - 1];
      && lblock == Saturating32(prev.eeBlock + prev.Len())
      && pblock == Saturating64(prev.StartBlock() + prev.Len()) && prev.eeLen < MAX_EXTENT_LEN)
  }

  /** The extent at `pos` begins where the new block ends, on both sides, and has room. */
  predicate MergesNext(extents: seq<Extent>, pos: nat, lblock: nat, pblock: nat)
    requires pos <= |extents|
  {
    pos < |extents| && (
      var next := extents[pos];
      && Saturating32(lblock + 1) == next.eeBlock
      && Saturating64(pblock + 1) == next.StartBlock() && next.eeLen < MAX_EXTENT_LEN)
  }

  function Longer(e: Extent, more: nat): Extent {
    e.(eeLen := e.eeLen + more)
  }

  lemma LongerExtent(e: Extent, more: nat)
    requires e.Valid() && e.eeLen + more <= MAX_EXTENT_LEN && e.eeBlock + e.eeLen + more < U32
    requires e.StartBlock() + e.eeLen + more <= U48
    ensures var r := Longer(e, more); r.Valid() && r.Len() == e.Len() + more && r.StartBlock() == e.StartBlock()
    ensures e.Len() == e.eeLen
  {
  }

  lemma ExtentRanges(e: Extent)
    requires e.Valid()
    ensures Saturating32(e.eeBlock + e.Len()) == e.eeBlock + e.Len()
    ensures Saturating64(e.StartBlock() + e.Len()) == e.StartBlock() + e.Len()
    ensures e.Len() == e.eeLen
  {
  }

  /** The next extent, starting one block earlier. */
  function Earlier(e: Extent, lblock: nat, pblock: nat): Extent {
    Extent(lblock, e.eeLen + 1, pblock / U32 % U16, pblock % U32)
  }

  lemma EarlierExtent(e: Extent, lblock: nat, pblock: nat)
    requires e.Valid() && lblock + 1 == e.eeBlock && pblock + 1 == e.StartBlock() && e.eeLen < MAX_EXTENT_LEN
    ensures var r := Earlier(e, lblock, pblock); r.Valid() && r.Len() == e.Len() + 1 && r.StartBlock() == pblock
    ensures e.Len() == e.eeLen
  {
  }

  lemma SingleExtent(lblock: nat, pblock: nat)
    requires lblock + 1 < U32 && pblock < U48
    ensures Maps(SingleBlock(lblock, pblock), lblock, pblock)
    ensures Saturating32(lblock + 1) == lblock + 1 && Saturating64(pblock + 1) == pblock + 1
  {
  }

  // Case 1: a new extent between its neighbours.

  function WithNew(extents: seq<Extent>, pos: nat, e: Extent): (r: seq<Extent>)
    requires pos <= |extents|
    ensures |r| == |extents| + 1 && r[pos] == e
    ensures forall j :: 0 <= j < pos ==> r[j] == extents[j]
    ensures forall j :: pos < j < |r| ==> r[j] == extents[j - 1]
  {
    extents[..pos] + [e] + extents[pos..]
  }

  lemma NewInOrder(extents: seq<Extent>, pos: nat, e: Extent)
    requires WellFormed(extents) && Gap(extents, pos, e.eeBlock) && e.Valid() && e.Len() == 1
    ensures WellFormed(WithNew(extents, pos, e))
  {
    hide Extent.Len, Extent.StartBlock, Extent.Valid, WithNew;
    var r := WithNew(extents, pos, e);
    forall i, j | 0 <= i < j < |r| ensures r[i].eeBlock + r[i].Len() <= r[j].eeBlock {
      if i == pos {
        assert e.eeBlock < extents[j - 1].eeBlock;
      } else if j == pos {
        assert extents[i].eeBlock + extents[i].Len() <= e.eeBlock;
      } else {
        var i', j' := if i < pos then i else i - 1, if j < pos then j else j - 1;
        assert extents[i'].eeBlock + extents[i'].Len() <= extents[j'].eeBlock;
      }
    }
    forall i | 0 <= i < |r| ensures r[i].Valid() {
    }
  }

  function NewTo(n: nat, pos: nat): (to: seq<nat>)
    ensures |to| == n && forall i :: 0 <= i < n ==> to[i] == if i < pos then i else i + 1
  {
    seq(n, i requires 0 <= i < n => if i < pos then i else i + 1)
  }

  function NewFrom(n: nat, pos: nat): (from: seq<nat>)
    ensures |from| == n && forall j :: 0 <= j < n ==> from[j] == if j <= pos then j else j - 1
  {
    seq(n, j requires 0 <= j < n => if j <= pos then j else j - 1)
  }

  lemma NewWithin(extents: seq<Extent>, pos: nat, e: Extent, i: nat)
    requires pos <= |extents| && i < |extents|
    ensures NewTo(|extents|, pos)[i] < |WithNew(extents, pos, e)|
    ensures Within(extents[i], WithNew(extents, pos, e)[NewTo(|extents|, pos)[i]])
  {
    WithinItself(extents[i]);
    hide WithNew, NewTo, Within;
  }

  lemma NewSources(extents: seq<Extent>, pos: nat, e: Extent, j: nat)
    requires pos <= |extents| && j <= |extents| && e.Len() == 1
    ensures Sources(extents, NewFrom(|extents| + 1, pos)[j], WithNew(extents, pos, e)[j], e.eeBlock)
  {
    hide WithNew, NewFrom, Sources, Extent.Len;
    if j == pos {
      SourcesSingle(extents, j, e);
    } else {
      SourcesItself(extents, if j < pos then j else j - 1, e.eeBlock);
    }
  }

  lemma NewMaps(extents: seq<Extent>, pos: nat, e: Extent, pblock: nat)
    requires WellFormed(extents) && Gap(extents, pos, e.eeBlock) && e.Len() == 1 && e.StartBlock() == pblock
    requires WellFormed(WithNew(extents, pos, e))
    ensures PointUpdate(extents, WithNew(extents, pos, e), e.eeBlock, pblock)
  {
    GapBound(extents, pos, e.eeBlock);
    assert Maps(e, e.eeBlock, pblock);
    NotCovered(extents, pos, e.eeBlock);
    hide *;
    var r := WithNew(extents, pos, e);
    var to := NewTo(|extents|, pos);
    var from := NewFrom(|r|, pos);
    forall i | 0 <= i < |to| ensures to[i] < |r| && Within(extents[i], r[to[i]]) {
      NewWithin(extents, pos, e, i);
    }
    forall j | 0 <= j < |from| ensures Sources(extents, from[j], r[j], e.eeBlock) {
      NewSources(extents, pos, e, j);
    }
    Moved(extents, r, e.eeBlock, pblock, pos, to, from);
  }

  lemma NewCoalesced(extents: seq<Extent>, pos: nat, lblock: nat, pblock: nat)
    requires Insertable(extents, pos, lblock, pblock) && Coalesced(extents)
    requires !MergesPrevious(extents, pos, lblock, pblock) && !MergesNext(extents, pos, lblock, pblock)
    ensures Coalesced(WithNew(extents, pos, SingleBlock(lblock, pblock)))
  {
    var e := SingleBlock(lblock, pblock);
    var r := WithNew(extents, pos, e);
    SingleExtent(lblock, pblock);
    if pos > 0 { ExtentRanges(extents[pos - 1]); }
    if pos < |extents| { ExtentRanges(extents[pos]); }
    hide Extent.Len, Extent.StartBlock, WellFormed, Gap;
    forall i | 0 <= i < |r| - 1 && Continues(r[i], r[i + 1]) ensures r[i].Len() + r[i + 1].Len() > MAX_EXTENT_LEN {
      if i + 1 < pos {
        assert Continues(extents[i], extents[i + 1]);
      } else if i > pos {
        assert Continues(extents[i - 1], extents[i]);
      }
    }
  }

  lemma InsertNew(extents: seq<Extent>, pos: nat, lblock: nat, pblock: nat)
    requires Insertable(extents, pos, lblock, pblock)
    requires !MergesPrevious(extents, pos, lblock, pblock) && !MergesNext(extents, pos, lblock, pblock)
    ensures Inserted(extents, WithNew(extents, pos, SingleBlock(lblock, pblock)), lblock, pblock)
  {
    var e := SingleBlock(lblock, pblock);
    NewInOrder(extents, pos, e);
    NewMaps(extents, pos, e, pblock);
    if Coalesced(extents) {
      NewCoalesced(extents, pos, lblock, pblock);
    }
  }

  // Cases 2 and 3: an extent grows by one block, at its end or at its start.

  /** `e` takes the place of the extent at `at`: it covers that extent's blocks and lblock. */
  ghost predicate Grows(extents: seq<Extent>, at: nat, e: Extent, lblock: nat, pblock: nat) {
    && at < |extents| && e.Valid() && e.Len() == extents[at].Len() + 1
    && Within(extents[at], e) && Maps(e, lblock, pblock)
    && if e.eeBlock == lblock then lblock + 1 == extents[at].eeBlock else e.eeBlock == extents[at].eeBlock
  }

  lemma GrownInOrder(extents: seq<Extent>, pos: nat, at: nat, e: Extent, lblock: nat, pblock: nat)
    requires WellFormed(extents) && Gap(extents, pos, lblock) && (at == pos || at + 1 == pos)
    requires Grows(extents, at, e, lblock, pblock)
    ensures WellFormed(extents[at := e])
  {
    hide Extent.Len, Extent.StartBlock, Extent.Valid;
  }

  lemma GrownMaps(extents: seq<Extent>, pos: nat, at: nat, e: Extent, lblock: nat, pblock: nat)
    requires WellFormed(extents) && Gap(extents, pos, lblock)
    requires Grows(extents, at, e, lblock, pblock) && WellFormed(extents[at := e])
    ensures PointUpdate(extents, extents[at := e], lblock, pblock)
  {
    hide Extent.Len, Extent.StartBlock, WellFormed, PointUpdate, Extent.Valid;
    var r := extents[at := e];
    var same := seq(|extents|, i requires 0 <= i < |extents| => i);
    NotCovered(extents, pos, lblock);
    Moved(extents, r, lblock, pblock, at, same, same);
  }

  lemma GrownCoalesced(extents: seq<Extent>, at: nat, e: Extent, lblock: nat, pblock: nat)
    requires Coalesced(extents) && Grows(extents, at, e, lblock, pblock)
    requires at > 0 && e.eeBlock == lblock && Continues(extents[at - 1], e) ==>
      extents[at - 1].Len() + e.Len() > MAX_EXTENT_LEN
    requires at + 1 < |extents| && e.eeBlock != lblock && Continues(e, extents[at + 1]) ==>
      e.Len() + extents[at + 1].Len() > MAX_EXTENT_LEN
    ensures Coalesced(extents[at := e])
  {
    hide Extent.Len, Extent.StartBlock, Extent.Valid;
    var r := extents[at := e];
    forall i | 0 <= i < |r| - 1 && Continues(r[i], r[i + 1]) ensures r[i].Len() + r[i + 1].Len() > MAX_EXTENT_LEN {
      if i == at && e.eeBlock != lblock {
      } else if i + 1 == at && e.eeBlock == lblock {
      } else {
        assert Continues(extents[i], extents[i + 1]);
      }
    }
  }

  lemma GrowPrevious(extents: seq<Extent>, pos: nat, lblock: nat, pblock: nat)
    requires Insertable(extents, pos, lblock, pblock) && MergesPrevious(extents, pos, lblock, pblock)
    requires MergesNext(extents, pos, lblock, pblock) ==>
      extents[pos - 1].eeLen + 1 + extents[pos].eeLen > MAX_EXTENT_LEN
    ensures Inserted(extents, extents[pos - 1 := Longer(extents[pos - 1], 1)], lblock, pblock)
  {
    var e := Longer(extents[pos - 1], 1);
    ExtentRanges(extents[pos - 1]);
    LongerExtent(extents[pos - 1], 1);
    if pos < |extents| { ExtentRanges(extents[pos]); }
    SingleExtent(lblock, pblock);
    hide Extent.Len, Extent.StartBlock, WellFormed, PointUpdate, Gap, Extent.Valid, Coalesced;
    assert Grows(extents, pos - 1, e, lblock, pblock);
    GrownInOrder(extents, pos, pos - 1, e, lblock, pblock);
    GrownMaps(extents, pos, pos - 1, e, lblock, pblock);
    if Coalesced(extents) {
      GrownCoalesced(extents, pos - 1, e, lblock, pblock);
    }
  }

  lemma GrowNext(extents: seq<Extent>, pos: nat, lblock: nat, pblock: nat)
    requires Insertable(extents, pos, lblock, pblock) && MergesNext(extents, pos, lblock, pblock)
    requires !MergesPrevious(extents, pos, lblock, pblock)
    ensures Inserted(extents, extents[pos := Earlier(extents[pos], lblock, pblock)], lblock, pblock)
  {
    var e := Earlier(extents[pos], lblock, pblock);
    SingleExtent(lblock, pblock);
    EarlierExtent(extents[pos], lblock, pblock);
    if pos > 0 { ExtentRanges(extents[pos - 1]); }
    hide Extent.Len, Extent.StartBlock, WellFormed, PointUpdate, Gap, Extent.Valid, Coalesced;
    assert Grows(extents, pos, e, lblock, pblock);
    GrownInOrder(extents, pos, pos, e, lblock, pblock);
    GrownMaps(extents, pos, pos, e, lblock, pblock);
    if Coalesced(extents) {
      GrownCoalesced(extents, pos, e, lblock, pblock);
    }
  }

  // Case 4: the block closes the gap between two extents, which become one.

  function Closed(extents: seq<Extent>, pos: nat, e: Extent): (r: seq<Extent>)
    requires 1 <= pos < |extents|
    ensures |r| == |extents| - 1 && r[pos - 1] == e
    ensures forall i :: 0 <= i < pos - 1 ==> r[i] == extents[i]
    ensures forall i :: pos <= i < |r| ==> r[i] == extents[i + 1]
  {
    extents[..pos - 1] + [e] + extents[pos + 1..]
  }

  /** `e` covers what the two extents around `pos` cover, and lblock between them. */
  ghost predicate Joins(extents: seq<Extent>, pos: nat, e: Extent, lblock: nat, pblock: nat) {
    && 1 <= pos < |extents| && e.Valid() && e.eeBlock == extents[pos - 1].eeBlock
    && e.Len() == extents[pos - 1].Len() + 1 + extents[pos].Len()
    && extents[pos - 1].eeBlock + extents[pos - 1].Len() == lblock && lblock + 1 == extents[pos].eeBlock
    && Within(extents[pos - 1], e) && Within(extents[pos], e) && Maps(e, lblock, pblock)
  }

  lemma ClosedInOrder(extents: seq<Extent>, pos: nat, e: Extent, lblock: nat, pblock: nat)
    requires WellFormed(extents) && Joins(extents, pos, e, lblock, pblock)
    ensures WellFormed(Closed(extents, pos, e))
  {
    hide Extent.Len, Extent.StartBlock, Extent.Valid;
  }

  lemma SourcesJoined(extents: seq<Extent>, pos: nat, e: Extent, lblock: nat, pblock: nat)
    requires Joins(extents, pos, e, lblock, pblock)
    ensures Sources(extents, pos - 1, e, lblock)
  {
    hide Extent.Len, Extent.StartBlock, Extent.Valid;
  }

  lemma JoinsMaps(extents: seq<Extent>, pos: nat, e: Extent, lblock: nat, pblock: nat)
    requires Joins(extents, pos, e, lblock, pblock)
    ensures 1 <= pos < |extents| && Maps(e, lblock, pblock)
  {
  }

  function ClosedTo(n: nat, pos: nat): (to: seq<nat>)
    requires 1 <= pos < n
    ensures |to| == n && forall i :: 0 <= i < n ==> to[i] == if i < pos then i else i - 1
  {
    seq(n, i requires 0 <= i < n => if i < pos then i else i - 1)
  }

  function ClosedFrom(n: nat, pos: nat): (from: seq<nat>)
    ensures |from| == n && forall j :: 0 <= j < n ==> from[j] == if j < pos then j else j + 1
  {
    seq(n, j requires 0 <= j < n => if j < pos then j else j + 1)
  }

  lemma ClosedWithin(extents: seq<Extent>, pos: nat, e: Extent, lblock: nat, pblock: nat, i: nat)
    requires Joins(extents, pos, e, lblock, pblock) && i < |extents|
    ensures ClosedTo(|extents|, pos)[i] < |Closed(extents, pos, e)|
    ensures Within(extents[i], Closed(extents, pos, e)[ClosedTo(|extents|, pos)[i]])
  {
    WithinItself(extents[i]);
    hide Closed, ClosedTo, Within, Extent.Len, Extent.StartBlock, Extent.Valid;
  }

  lemma ClosedSources(extents: seq<Extent>, pos: nat, e: Extent, lblock: nat, pblock: nat, j: nat)
    requires Joins(extents, pos, e, lblock, pblock) && j < |extents| - 1
    ensures Sources(extents, ClosedFrom(|extents| - 1, pos)[j], Closed(extents, pos, e)[j], lblock)
  {
    hide Closed, ClosedFrom, Sources, Extent.Len, Extent.StartBlock, Extent.Valid;
    if j == pos - 1 {
      SourcesJoined(extents, pos, e, lblock, pblock);
    } else {
      SourcesItself(extents, if j < pos then j else j + 1, lblock);
    }
  }

  lemma ClosedMaps(extents: seq<Extent>, pos: nat, e: Extent, lblock: nat, pblock: nat)
    requires WellFormed(extents) && Gap(extents, pos, lblock) && Joins(extents, pos, e, lblock, pblock)
    requires WellFormed(Closed(extents, pos, e))
    ensures PointUpdate(extents, Closed(extents, pos, e), lblock, pblock)
  {
    NotCovered(extents, pos, lblock);
    JoinsMaps(extents, pos, e, lblock, pblock);
    hide *;
    var r := Closed(extents, pos, e);
    var to := ClosedTo(|extents|, pos);
    var from := ClosedFrom(|r|, pos);
    forall i | 0 <= i < |to| ensures to[i] < |r| && Within(extents[i], r[to[i]]) {
      ClosedWithin(extents, pos, e, lblock, pblock, i);
    }
    forall j | 0 <= j < |from| ensures Sources(extents, from[j], r[j], lblock) {
      ClosedSources(extents, pos, e, lblock, pblock, j);
    }
    Moved(extents, r, lblock, pblock, pos - 1, to, from);
  }

  lemma ClosedCoalesced(extents: seq<Extent>, pos: nat, e: Extent, lblock: nat, pblock: nat)
    requires Coalesced(extents) && Joins(extents, pos, e, lblock, pblock)
    ensures Coalesced(Closed(extents, pos, e))
  {
    hide Extent.Len, Extent.StartBlock, Extent.Valid;
    var r := Closed(extents, pos, e);
    forall i | 0 <= i < |r| - 1 && Continues(r[i], r[i + 1]) ensures r[i].Len() + r[i + 1].Len() > MAX_EXTENT_LEN {
      if i < pos - 1 {
        assert Continues(extents[i], extents[i + 1]);
      } else {
        assert Continues(extents[i + 1], extents[i + 2]);
      }
    }
  }

  lemma CloseGap(extents: seq<Extent>, pos: nat, lblock: nat, pblock: nat)
    requires Insertable(extents, pos, lblock, pblock)
    requires MergesPrevious(extents, pos, lblock, pblock) && MergesNext(extents, pos, lblock, pblock)
    requires extents[pos - 1].eeLen + 1 + extents[pos].eeLen <= MAX_EXTENT_LEN
    ensures Inserted(extents, Closed(extents, pos, Longer(extents[pos - 1], 1 + extents[pos].eeLen)), lblock, pblock)
  {
    var e := Longer(extents[pos - 1], 1 + extents[pos].eeLen);
    ExtentRanges(extents[pos - 1]);
    ExtentRanges(extents[pos]);
    SingleExtent(lblock, pblock);
    LongerExtent(extents[pos - 1], 1 + extents[pos].eeLen);
    hide Extent.Len, Extent.StartBlock, WellFormed, PointUpdate, Gap, Extent.Valid, Coalesced;
    assert Joins(extents, pos, e, lblock, pblock);
    ClosedInOrder(extents, pos, e, lblock, pblock);
    ClosedMaps(extents, pos, e, lblock, pblock);
    if Coalesced(extents) {
      ClosedCoalesced(extents, pos, e, lblock, pblock);
    }
  }

  /** `insert_block_mapping`: blocks that are mapped keep their mapping; any other block is mapped to
      `pblock` and nothing else changes. Order, ranges and coalescing are kept. */
  method InsertBlockMapping(extents: seq<Extent>, lblock: nat, pblock: nat) returns (result: seq<Extent>)
    requires WellFormed(extents) && lblock + 1 < U32 && pblock < U48
    ensures MapLogicalBlock(extents, lblock).Some? ==> result == extents
    ensures MapLogicalBlock(extents, lblock) == None ==> Inserted(extents, result, lblock, pblock)
  {
    hide WellFormed, Gap, Inserted, MapLogicalBlock, Extent.Len, Extent.StartBlock;
    var found, insertPos := FindPosition(extents, lblock);
    if found {
      return extents;
    }
    GapBound(extents, insertPos, lblock);
    var mergePrev := MergesPrevious(extents, insertPos, lblock, pblock);
    var mergeNext := MergesNext(extents, insertPos, lblock, pblock);
    if mergePrev && mergeNext {
      var mergedLen := extents[insertPos - 1].eeLen + 1 + extents[insertPos].eeLen;
      if mergedLen <= MAX_EXTENT_LEN {
        CloseGap(extents, insertPos, lblock, pblock);
        return extents[..insertPos - 1] + [extents[insertPos - 1].(eeLen := mergedLen)] + extents[insertPos + 1..];
      }
      mergeNext := false;
    }
    if mergePrev {
      GrowPrevious(extents, insertPos, lblock, pblock);
      return extents[insertPos - 1 := extents[insertPos - 1].(eeLen := extents[insertPos - 1].eeLen + 1)];
    }
    if mergeNext {
      GrowNext(extents, insertPos, lblock, pblock);
      return extents[insertPos := Extent(lblock, extents[insertPos].eeLen + 1, pblock / U32 % U16, pblock % U32)];
    }
    InsertNew(extents, insertPos, lblock, pblock);
    return extents[..insertPos] + [SingleBlock(lblock, pblock)] + extents[insertPos..];
  }

  lemma GapBound(extents: seq<Extent>, pos: nat, lblock: nat)
    requires Gap(extents, pos, lblock)
    ensures pos <= |extents|
  {
  }

  /** The scan at the head of `insert_block_mapping`. */
  method FindPosition(extents: seq<Extent>, lblock: nat) returns (found: bool, insertPos: nat)
    requires WellFormed(extents)
    ensures found <==> MapLogicalBlock(extents, lblock).Some?
    ensures !found ==> Gap(extents, insertPos, lblock)
  {
    found, insertPos := false, |extents|;
    for idx := 0 to |extents|
      invariant insertPos == |extents|
      invariant forall i :: 0 <= i < idx ==> extents[i].eeBlock + extents[i].Len() <= lblock
    {
      var start := extents[idx].eeBlock;
      var end := Saturating32(start + extents[idx].Len());
      if lblock < start {
        insertPos := idx;
        forall i | idx <= i < |extents| ensures lblock < extents[i].eeBlock {
        }
        MapNone(extents, lblock);
        return;
      }
      if start <= lblock && lblock < end {
        MapAt(extents, idx, lblock);
        found := true;
        return;
      }
    }
    MapNone(extents, lblock);
  }

  /** `push_block_to_extents`: the block after all mapped ones is added at the end of the list. */
  method PushBlock(extents: seq<Extent>, lblock: nat, pblock: nat) returns (result: seq<Extent>)
    requires WellFormed(extents) && lblock + 1 < U32 && pblock < U48
    requires forall i :: 0 <= i < |extents| ==> extents[i].eeBlock + extents[i].Len() <= lblock
    ensures Inserted(extents, result, lblock, pblock)
  {
    assert Gap(extents, |extents|, lblock);
    hide WellFormed, Gap, Inserted, Extent.Len, Extent.StartBlock;
    if extents != [] {
      var last := extents[|extents| - 1];
      var lastLend := Saturating32(last.eeBlock + last.Len());
      var lastPend := Saturating64(last.StartBlock() + last.Len());
      if lblock == lastLend && pblock == lastPend && last.eeLen < MAX_EXTENT_LEN {
        GrowPrevious(extents, |extents|, lblock, pblock);
        return extents[|extents| - 1 := last.(eeLen := last.eeLen + 1)];
      }
    }
    InsertNew(extents, |extents|, lblock, pblock);
    assert WithNew(extents, |extents|, SingleBlock(lblock, pblock)) == extents + [SingleBlock(lblock, pblock)];
    return extents + [Extent(lblock, 1, pblock / U32 % U16, pblock % U32)];
  }

  /** `cur_blocks` in `ensure_blocks`: one past the last mapped block. */
  function MappedEnd(extents: seq<Extent>): (end: nat)
    ensures (forall i :: 0 <= i < |extents| ==> extents[i].Valid()) ==>
              forall i :: 0 <= i < |extents| ==> extents[i].eeBlock + extents[i].Len() <= end
  {
    if extents == [] then 0
    else
      var end := Saturating32(Last(extents).eeBlock + Last(extents).Len());
      var before := MappedEnd(extents[..|extents| - 1]);
      if before < end then end else before
  }

  function Last(extents: seq<Extent>): Extent
    requires extents != []
  {
    extents[|extents| - 1]
  }
}
