/** The blocks that an easy-fs inode owns and the bytes that they hold (easy-fs/src/layout.rs). */
module EfsBytes {
  import opened Common
  import opened EfsLayout

  const MAX_SIZE: nat := INDIRECT2_BOUND * BLOCK_SZ

  lemma Bounds(size: nat)
    requires size <= MAX_SIZE
    ensures DataBlocks(size) <= INDIRECT2_BOUND && TotalBlocks(size) <= Total(INDIRECT2_BOUND)
  {
    TotalGrows(DataBlocks(size), INDIRECT2_BOUND);
  }

  /** The blocks an inode owns. */
  ghost function Owned(n: Node, blocks: Blocks): (ids: seq<nat>)
    requires NodeOk(n) && n.size <= MAX_SIZE
    ensures |ids| == TotalBlocks(n.size)
  {
    Bounds(n.size);
    Flat(n, blocks, TotalBlocks(n.size))
  }

  /** The list of the blocks that an inode with `n` data blocks owns. */
  ghost predicate OwnedBy(n0: Node, blocks: Blocks, n: nat, own: seq<nat>) {
    && n <= INDIRECT2_BOUND && |own| == Total(n) && Filled(n0, blocks, own, |own|)
  }

  lemma OwnedWhole(n0: Node, blocks: Blocks)
    requires NodeOk(n0) && n0.size <= MAX_SIZE
    ensures OwnedBy(n0, blocks, DataBlocks(n0.size), Owned(n0, blocks))
  {
    hide Flat, Filled, Total;
    Bounds(n0.size);
    FilledIsFlat(n0, blocks, Owned(n0, blocks));
  }

  lemma OwnedSlot(n0: Node, blocks: Blocks, n: nat, own: seq<nat>, s: Slot)
    requires OwnedBy(n0, blocks, n, own) && Inside(s) && Has(s, n)
    ensures NodeOk(n0) && Pos(s) < |own| && own[Pos(s)] == Value(n0, blocks, s)
  {
    hide Value, Total;
    TotalCounts(s, n);
  }

  /** Writes that leave the index blocks alone leave every slot as it was. */
  lemma {:induction false} SlotUntouched(n: Node, blocks: Blocks, blocks': Blocks, own: seq<nat>, changed: set<nat>, s: Slot)
    requires Filled(n, blocks, own, |own|) && SameBut(blocks, blocks', changed) && changed !! Indexes(own)
    requires Inside(s) && Pos(s) < |own|
    ensures Value(n, blocks', s) == own[Pos(s)]
    decreases Pos(s)
  {
    hide Entry, At, Value, Pos, EntryNo, Parent, Indexes, SameBut;
    FilledAt(n, blocks, own, |own|, s);
    if Rooted(s) {
      RootedNeverWritten(n, blocks, blocks', s);
    } else {
      ByParent(n, blocks, s);
      ByParent(n, blocks', s);
      ParentIsIndex(own, s);
      FilledAt(n, blocks, own, |own|, Parent(s));
      SlotUntouched(n, blocks, blocks', own, changed, Parent(s));
      SameAt(blocks, blocks', changed, own[Pos(Parent(s))]);
    }
  }

  lemma SameAt(blocks: Blocks, blocks': Blocks, changed: set<nat>, b: nat)
    requires SameBut(blocks, blocks', changed) && b !in changed
    ensures At(blocks', b) == At(blocks, b)
  {
  }

  lemma FilledUntouched(n: Node, blocks: Blocks, blocks': Blocks, own: seq<nat>, changed: set<nat>)
    requires Filled(n, blocks, own, |own|) && SameBut(blocks, blocks', changed) && changed !! Indexes(own)
    ensures Filled(n, blocks', own, |own|)
  {
    hide Value, Pos, Indexes, SameBut;
    forall s | Inside(s) && Pos(s) < |own| ensures Value(n, blocks', s) == own[Pos(s)] {
      SlotUntouched(n, blocks, blocks', own, changed, s);
    }
  }

  // Bytes

  function ByteAt(n: Node, blocks: Blocks, j: nat): byte
    requires NodeOk(n) && j < MAX_SIZE
  {
    At(blocks, Value(n, blocks, Data(j / BLOCK_SZ)))[j % BLOCK_SZ]
  }

  /** The bytes of a file. */
  function Content(n: Node, blocks: Blocks): (bytes: seq<byte>)
    requires NodeOk(n) && n.size <= MAX_SIZE
    ensures |bytes| == n.size
  {
    seq(n.size, j requires 0 <= j < n.size => ByteAt(n, blocks, j))
  }

  /** The data block of a byte that the blocks of the file cover. */
  function DataOf(own: seq<nat>, j: nat): nat
    requires Pos(Data(j / BLOCK_SZ)) < |own|
  {
    own[Pos(Data(j / BLOCK_SZ))]
  }

  predicate Covered(n: nat, j: nat) {
    j / BLOCK_SZ < n
  }

  lemma CoveredByte(n: Node, blocks: Blocks, count: nat, own: seq<nat>, j: nat)
    requires OwnedBy(n, blocks, count, own) && Covered(count, j)
    ensures NodeOk(n) && j < MAX_SIZE && Pos(Data(j / BLOCK_SZ)) < |own|
    ensures ByteAt(n, blocks, j) == At(blocks, DataOf(own, j))[j % BLOCK_SZ]
  {
    hide Value, At, Pos, OwnedBy;
    InsideByte(n, blocks, count, own, j);
    OwnedSlot(n, blocks, count, own, Data(j / BLOCK_SZ));
  }

  lemma InsideByte(n: Node, blocks: Blocks, count: nat, own: seq<nat>, j: nat)
    requires OwnedBy(n, blocks, count, own) && Covered(count, j)
    ensures j < MAX_SIZE && Inside(Data(j / BLOCK_SZ))
  {
    hide Filled;
  }

  lemma SizeCovered(size: nat, j: nat)
    requires j < size
    ensures Covered(DataBlocks(size), j)
  {
  }

  /** No data block serves as an index block. */
  lemma DataNoIndex(own: seq<nat>, k: nat)
    requires NoDup(own) && Pos(Data(k)) < |own|
    ensures own[Pos(Data(k))] !in Indexes(own)
  {
    hide Pos, SlotAt;
    forall q | 0 <= q < |own| && !SlotAt(q).Data? ensures own[q] != own[Pos(Data(k))] {
      AtPos(Data(k));
    }
  }

  /** Bytes written at `off`, up to byte `start`, with everything else as it was. */
  ghost predicate WrittenTo(n: Node, blocks0: Blocks, blocks: Blocks, count: nat, off: nat, start: nat, buf: seq<byte>) {
    && NodeOk(n) && count <= INDIRECT2_BOUND && off <= start <= off + |buf|
    && forall j: nat :: j < MAX_SIZE && Covered(count, j) ==>
         ByteAt(n, blocks, j) == if off <= j < start then buf[j - off] else ByteAt(n, blocks0, j)
  }

  ghost function DataIds(own: seq<nat>): set<nat> {
    set q | 0 <= q < |own| && SlotAt(q).Data? :: own[q]
  }

  function WithBytes(blocks: Blocks, b: nat, at: nat, bytes: seq<byte>): Blocks
    requires at + |bytes| <= BLOCK_SZ
  {
    blocks[b := Splice(At(blocks, b), at, bytes)]
  }

  lemma ByteWritten(blocks: Blocks, b: nat, at: nat, bytes: seq<byte>, c: nat, i: nat)
    requires at + |bytes| <= BLOCK_SZ && i < BLOCK_SZ
    ensures At(WithBytes(blocks, b, at, bytes), c)[i]
         == if c == b && at <= i < at + |bytes| then bytes[i - at] else At(blocks, c)[i]
  {
  }

  lemma OneBlockChanged(blocks: Blocks, b: nat, at: nat, bytes: seq<byte>)
    requires at + |bytes| <= BLOCK_SZ
    ensures SameBut(blocks, WithBytes(blocks, b, at, bytes), {b})
  {
    hide Splice;
  }

  /** One turn of the loop of `write_at`, from byte `start` of the file on. */
  lemma WrittenNext(n: Node, blocks0: Blocks, blocks: Blocks, count: nat, own: seq<nat>, off: nat, start: nat,
                    buf: seq<byte>, len: nat)
    requires OwnedBy(n, blocks, count, own) && NoDup(own) && WrittenTo(n, blocks0, blocks, count, off, start, buf)
    requires Covered(count, start) && start % BLOCK_SZ + len <= BLOCK_SZ && start + len <= off + |buf|
    ensures Pos(Data(start / BLOCK_SZ)) < |own| && DataOf(own, start) in DataIds(own)
    ensures var blocks' := WithBytes(blocks, DataOf(own, start), start % BLOCK_SZ, buf[start - off..start - off + len]);
            && OwnedBy(n, blocks', count, own) && WrittenTo(n, blocks0, blocks', count, off, start + len, buf)
  {
    hide Value, At, Pos, Total, WithBytes, ByteAt, DataOf, SlotAt, SameBut, Filled, Indexes, NoDup;
    CoveredByte(n, blocks, count, own, start);
    var b, chunk := DataOf(own, start), buf[start - off..start - off + len];
    var blocks' := WithBytes(blocks, b, start % BLOCK_SZ, chunk);
    OneBlockChanged(blocks, b, start % BLOCK_SZ, chunk);
    DataPlace(own, start);
    FilledUntouched(n, blocks, blocks', own, {b});
    forall j: nat | j < MAX_SIZE && Covered(count, j)
      ensures ByteAt(n, blocks', j) == if off <= j < start + len then buf[j - off] else ByteAt(n, blocks0, j)
    {
      CoveredByte(n, blocks, count, own, j);
      CoveredByte(n, blocks', count, own, j);
      ByteWritten(blocks, b, start % BLOCK_SZ, chunk, DataOf(own, j), j % BLOCK_SZ);
      SameData(own, start, j);
    }
  }

  lemma DataPlace(own: seq<nat>, j: nat)
    requires NoDup(own) && Pos(Data(j / BLOCK_SZ)) < |own|
    ensures DataOf(own, j) in DataIds(own) && DataOf(own, j) !in Indexes(own)
  {
    DataNoIndex(own, j / BLOCK_SZ);
    AtPos(Data(j / BLOCK_SZ));
  }

  lemma SameData(own: seq<nat>, i: nat, j: nat)
    requires NoDup(own) && Pos(Data(i / BLOCK_SZ)) < |own| && Pos(Data(j / BLOCK_SZ)) < |own|
    ensures DataOf(own, i) == DataOf(own, j) <==> i / BLOCK_SZ == j / BLOCK_SZ
  {
    hide Pos;
    if DataOf(own, i) == DataOf(own, j) {
      DupFree(own, Pos(Data(i / BLOCK_SZ)), Pos(Data(j / BLOCK_SZ)));
      OneAtPos(Data(i / BLOCK_SZ), Data(j / BLOCK_SZ));
    }
  }

  /** What growing an inode means for the blocks that it owns. */
  ghost predicate Grown(n: Node, blocks: Blocks, newSize: nat, newBlocks: seq<nat>, n': Node, blocks': Blocks) {
    && NodeOk(n) && NodeOk(n') && n.size <= MAX_SIZE && newSize <= MAX_SIZE
    && n'.size == newSize && n'.dir == n.dir && Owned(n', blocks') == Owned(n, blocks) + newBlocks
    && SameBut(blocks, blocks', Indexes(Owned(n', blocks')))
  }

  lemma GrownJoin(n: Node, blocks: Blocks, newSize: nat, newBlocks: seq<nat>, n': Node, blocks': Blocks)
    requires NodeOk(n) && NodeOk(n') && n.size <= MAX_SIZE && newSize <= MAX_SIZE
    requires n'.size == newSize && n'.dir == n.dir && Owned(n', blocks') == Owned(n, blocks) + newBlocks
    requires SameBut(blocks, blocks', Indexes(Owned(n', blocks')))
    ensures Grown(n, blocks, newSize, newBlocks, n', blocks')
  {
  }

  lemma DataInOrder(k: nat)
    ensures forall j: nat :: j < k ==> Pos(Data(j)) < Pos(Data(k))
  {
  }

  /** After growing, the old data blocks are where they were, and the new ones are new blocks in their order,
      whichever of the index levels the growth crosses. */
  lemma GrowthKeepsIds(n: Node, blocks: Blocks, newSize: nat, newBlocks: seq<nat>, n': Node, blocks': Blocks, k: nat)
    requires Grown(n, blocks, newSize, newBlocks, n', blocks') && n.size <= newSize && k < DataBlocks(newSize)
    ensures Inside(Data(k)) && TotalBlocks(n.size) + |newBlocks| == TotalBlocks(newSize)
    ensures k < DataBlocks(n.size) ==> Value(n', blocks', Data(k)) == Value(n, blocks, Data(k))
    ensures k >= DataBlocks(n.size) ==>
              TotalBlocks(n.size) <= Pos(Data(k)) < TotalBlocks(newSize)
              && Value(n', blocks', Data(k)) == newBlocks[Pos(Data(k)) - TotalBlocks(n.size)]
    ensures forall j: nat :: j < k ==> Pos(Data(j)) < Pos(Data(k))
  {
    DataInOrder(k);
    hide Value, Pos, Total, SameBut, Indexes, Owned, OwnedBy;
    Bounds(newSize);
    OwnedWhole(n, blocks);
    OwnedWhole(n', blocks');
    OwnedSlot(n', blocks', DataBlocks(newSize), Owned(n', blocks'), Data(k));
    TotalCounts(Data(k), DataBlocks(n.size));
    TotalCounts(Data(k), DataBlocks(newSize));
    if k < DataBlocks(n.size) {
      OwnedSlot(n, blocks, DataBlocks(n.size), Owned(n, blocks), Data(k));
    }
  }
}
