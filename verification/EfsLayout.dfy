/** The three-level index of an easy-fs inode (easy-fs/src/layout.rs): which blocks exist for a size, in which
    order they are handed out, where each is recorded, and how `increase_size` and `clear_size` walk them. */
module EfsLayout {
  import opened Common

  const BLOCK_SZ: nat := 512
  const INODE_DIRECT_COUNT: nat := 28
  const INODE_INDIRECT1_COUNT: nat := 128
  const INDIRECT1_BOUND: nat := 156
  const INDIRECT2_BOUND: nat := 16540

  // Blocks of bytes, and index blocks as 128 little-endian numbers

  type Block = b: seq<byte> | |b| == BLOCK_SZ witness Zeros(BLOCK_SZ)
  type Blocks = map<nat, Block>

  function At(blocks: Blocks, b: nat): Block {
    if b in blocks then blocks[b] else Zeros(BLOCK_SZ)
  }

  function Entry(b: Block, k: nat): (id: nat)
    requires k < INODE_INDIRECT1_COUNT
    ensures id < U32
  {
    From32(b[4 * k..4 * k + 4])
  }

  function WithEntry(b: Block, k: nat, id: nat): Block
    requires k < INODE_INDIRECT1_COUNT
  {
    Splice(b, 4 * k, Le32(id))
  }

  lemma EntryWritten(b: Block, k: nat, id: nat, j: nat)
    requires k < INODE_INDIRECT1_COUNT && j < INODE_INDIRECT1_COUNT && id < U32
    ensures Entry(WithEntry(b, k, id), j) == if j == k then id else Entry(b, j)
  {
    hide From32, Le32, Splice;
    var b' := WithEntry(b, k, id);
    if j == k {
      assert b'[4 * j..4 * j + 4] == Le32(id);
      Le32From32(id);
    } else {
      assert b'[4 * j..4 * j + 4] == b[4 * j..4 * j + 4];
    }
  }

  // The places where an inode records the blocks that it owns

  /** The fields of an inode, as a value. */
  datatype Node = Node(size: nat, direct: seq<nat>, indirect1: nat, indirect2: nat, dir: bool)

  /** Data block number `k`, the indirect1 block, the indirect2 block, and indirect block `a` below indirect2. */
  datatype Slot = Data(k: nat) | Ind1 | Ind2 | Sub(a: nat)

  predicate Inside(s: Slot) {
    match s
    case Data(k) => k < INDIRECT2_BOUND
    case Sub(a) => a < INODE_INDIRECT1_COUNT
    case _ => true
  }

  /** The slots in the order in which growing files fill them: an index block comes right before the first block
      that it records. */
  function SlotAt(q: nat): (s: Slot) {
    if q < 28 then Data(q)
    else if q == 28 then Ind1
    else if q < 157 then Data(q - 1)
    else if q == 157 then Ind2
    else if (q - 158) % 129 == 0 then Sub((q - 158) / 129)
    else Data(155 + (q - 158) / 129 * 128 + (q - 158) % 129)
  }

  function Pos(s: Slot): nat {
    match s
    case Data(k) => if k < 28 then k else if k < 156 then k + 1 else k + 3 + (k - 156) / 128
    case Ind1 => 28
    case Ind2 => 157
    case Sub(a) => 158 + 129 * a
  }

  lemma PosAt(q: nat)
    ensures Pos(SlotAt(q)) == q
  {
    if q >= 158 && (q - 158) % 129 != 0 {
      var a, b := (q - 158) / 129, (q - 158) % 129;
      assert (155 + a * 128 + b - 156) / 128 == a;
    }
  }

  lemma AtPos(s: Slot)
    ensures SlotAt(Pos(s)) == s
  {
    match s
    case Data(k) =>
      if k >= 156 {
        var a, b := (k - 156) / 128, (k - 156) % 128;
        assert Pos(s) - 158 == 129 * a + b + 1;
        assert (129 * a + b + 1) / 129 == a && (129 * a + b + 1) % 129 == b + 1;
      }
    case Sub(a) => assert 129 * a / 129 == a && 129 * a % 129 == 0;
    case _ =>
  }

  /** Which slots exist when a file has `n` data blocks. */
  predicate Has(s: Slot, n: nat) {
    match s
    case Data(k) => k < n
    case Ind1 => n > INODE_DIRECT_COUNT
    case Ind2 => n > INDIRECT1_BOUND
    case Sub(a) => n > INDIRECT1_BOUND + 128 * a
  }

  /** `_data_blocks`. */
  function DataBlocks(size: nat): nat {
    (size + BLOCK_SZ - 1) / BLOCK_SZ
  }

  function Total(n: nat): nat {
    n + (if n > INODE_DIRECT_COUNT then 1 else 0)
    + (if n > INDIRECT1_BOUND then
         1 + (n - INDIRECT1_BOUND + INODE_INDIRECT1_COUNT - 1) / INODE_INDIRECT1_COUNT
       else 0)
  }

  /** `total_blocks`. */
  function TotalBlocks(size: nat): nat {
    Total(DataBlocks(size))
  }

  /** `total_blocks` counts the slots that exist: they are the first so many in filling order. */
  lemma TotalCounts(s: Slot, n: nat)
    ensures Has(s, n) <==> Pos(s) < Total(n)
  {
    match s
    case Data(k) => if k >= 156 && n > 156 { Rounded(k - 156, n - 156); }
    case Sub(a) => if n > 156 { Ceiling(a, n - 156); }
    case _ =>
  }

  lemma Ceiling(a: nat, m: nat)
    requires m > 0
    ensures 128 * a < m <==> a < (m + 127) / 128
    ensures 128 * a < m <==> 129 * a < m + (m + 127) / 128
  {
  }

  lemma Rounded(k: nat, m: nat)
    requires m > 0
    ensures k < m <==> k + 1 + k / 128 < m + (m + 127) / 128
  {
  }

  lemma TotalGrows(n: nat, m: nat)
    requires n <= m
    ensures Total(n) <= Total(m)
  {
  }

  predicate NodeOk(n: Node) {
    |n.direct| == INODE_DIRECT_COUNT
  }

  /** The block recorded in a slot. */
  function Value(n: Node, blocks: Blocks, s: Slot): nat
    requires NodeOk(n) && Inside(s)
    decreases s.Data?
  {
    match s
    case Ind1 => n.indirect1
    case Ind2 => n.indirect2
    case Sub(a) => Entry(At(blocks, n.indirect2), a)
    case Data(k) =>
      if k < INODE_DIRECT_COUNT then n.direct[k]
      else if k < INDIRECT1_BOUND then Entry(At(blocks, n.indirect1), k - INODE_DIRECT_COUNT)
      else Entry(At(blocks, Value(n, blocks, Sub((k - INDIRECT1_BOUND) / INODE_INDIRECT1_COUNT))),
                 (k - INDIRECT1_BOUND) % INODE_INDIRECT1_COUNT)
  }

  /** Four bytes as a number, the low byte first. */
  function NumberAt(b: seq<byte>, at: nat): nat
    requires at + 4 <= |b|
  {
    b[at] as nat + 0x100 * b[at + 1] as nat + 0x1_0000 * b[at + 2] as nat + 0x100_0000 * b[at + 3] as nat
  }

  /** Where the numbers of data blocks are, byte by byte: 28 in the inode, 128 in the block indirect1, and 128 in each of
      the 128 blocks whose numbers are in the block indirect2. */
  lemma IdsInBytes(n: Node, blocks: Blocks, k: nat)
    requires NodeOk(n) && k < 16540
    ensures k < 28 ==> |n.direct| == 28 && Value(n, blocks, Data(k)) == n.direct[k]
    ensures 28 <= k < 156 ==> Value(n, blocks, Data(k)) == NumberAt(At(blocks, n.indirect1), 4 * (k - 28))
    ensures 156 <= k ==>
              Value(n, blocks, Data(k))
              == NumberAt(At(blocks, NumberAt(At(blocks, n.indirect2), 4 * ((k - 156) / 128))), 4 * ((k - 156) % 128))
  {
    hide NumberAt;
    if 28 <= k < 156 {
      EntryBytes(At(blocks, n.indirect1), k - 28);
    } else if 156 <= k {
      EntryBytes(At(blocks, n.indirect2), (k - 156) / 128);
      EntryBytes(At(blocks, Entry(At(blocks, n.indirect2), (k - 156) / 128)), (k - 156) % 128);
    }
  }

  lemma EntryBytes(b: Block, k: nat)
    requires k < 128
    ensures Entry(b, k) == NumberAt(b, 4 * k)
  {
  }

  /** A slot filled in: in the inode, or in the index block that its parent slot records. */
  predicate Rooted(s: Slot) {
    s.Ind1? || s.Ind2? || (s.Data? && s.k < INODE_DIRECT_COUNT)
  }

  function Parent(s: Slot): Slot
    requires !Rooted(s)
  {
    if s.Sub? then Ind2
    else if s.k < INDIRECT1_BOUND then Ind1
    else Sub((s.k - INDIRECT1_BOUND) / INODE_INDIRECT1_COUNT)
  }

  function EntryNo(s: Slot): (e: nat)
    requires !Rooted(s) && Inside(s)
    ensures e < INODE_INDIRECT1_COUNT
  {
    if s.Sub? then s.a
    else if s.k < INDIRECT1_BOUND then s.k - INODE_DIRECT_COUNT
    else (s.k - INDIRECT1_BOUND) % INODE_INDIRECT1_COUNT
  }

  lemma ByParent(n: Node, blocks: Blocks, s: Slot)
    requires NodeOk(n) && Inside(s) && !Rooted(s)
    ensures Inside(Parent(s)) && Pos(Parent(s)) < Pos(s)
    ensures Value(n, blocks, s) == Entry(At(blocks, Value(n, blocks, Parent(s))), EntryNo(s))
  {
    hide Entry, At;
    ParentInside(s);
  }

  lemma ParentInside(s: Slot)
    requires Inside(s) && !Rooted(s)
    ensures Inside(Parent(s)) && Pos(Parent(s)) < Pos(s)
  {
  }

  lemma ParentAndEntry(s: Slot, t: Slot)
    requires !Rooted(s) && !Rooted(t) && Inside(s) && Inside(t) && Parent(s) == Parent(t) && EntryNo(s) == EntryNo(t)
    ensures s == t
  {
  }

  // Filling the slots in order

  ghost predicate NoDup(ids: seq<nat>) {
    forall i, j :: 0 <= i < j < |ids| ==> ids[i] != ids[j]
  }

  ghost predicate Numbers(ids: seq<nat>) {
    forall i :: 0 <= i < |ids| ==> ids[i] < U32
  }

  /** The first `p` slots hold the first `p` of the wanted blocks. */
  ghost predicate Filled(n: Node, blocks: Blocks, want: seq<nat>, p: nat) {
    && NodeOk(n) && p <= |want|
    && forall s :: Inside(s) && Pos(s) < p ==> Value(n, blocks, s) == want[Pos(s)]
  }

  lemma FilledAt(n: Node, blocks: Blocks, want: seq<nat>, p: nat, s: Slot)
    requires Filled(n, blocks, want, p) && Inside(s) && Pos(s) < p
    ensures Value(n, blocks, s) == want[Pos(s)]
  {
  }

  lemma DupFree(ids: seq<nat>, i: nat, j: nat)
    requires NoDup(ids) && i < |ids| && j < |ids| && ids[i] == ids[j]
    ensures i == j
  {
  }

  function WithRoot(n: Node, s: Slot, id: nat): (n': Node)
    requires NodeOk(n) && Rooted(s)
    ensures NodeOk(n')
  {
    match s
    case Ind1 => n.(indirect1 := id)
    case Ind2 => n.(indirect2 := id)
    case Data(k) => n.(direct := n.direct[k := id])
  }

  function WithSlotEntry(blocks: Blocks, b: nat, s: Slot, id: nat): Blocks
    requires !Rooted(s) && Inside(s)
  {
    blocks[b := WithEntry(At(blocks, b), EntryNo(s), id)]
  }

  lemma RootKeeps(n: Node, blocks: Blocks, s: Slot, id: nat, t: Slot)
    requires NodeOk(n) && Rooted(s) && Inside(t) && Pos(t) <= Pos(s)
    ensures Value(WithRoot(n, s, id), blocks, t) == if t == s then id else Value(n, blocks, t)
  {
    hide Entry, At;
    RootBefore(s, t);
  }

  lemma RootBefore(s: Slot, t: Slot)
    requires Rooted(s) && Inside(t) && Pos(t) <= Pos(s)
    ensures s.Data? ==> t.Data? && t.k <= s.k
    ensures s.Ind1? ==> t == s || (t.Data? && t.k < INODE_DIRECT_COUNT)
    ensures s.Ind2? ==> t == s || t.Ind1? || (t.Data? && t.k < INDIRECT1_BOUND)
  {
  }

  lemma RootFilled(n: Node, blocks: Blocks, want: seq<nat>, s: Slot)
    requires Rooted(s) && Pos(s) < |want| && Filled(n, blocks, want, Pos(s))
    ensures Filled(WithRoot(n, s, want[Pos(s)]), blocks, want, Pos(s) + 1)
  {
    hide Value, WithRoot, Pos;
    var n' := WithRoot(n, s, want[Pos(s)]);
    forall t | Inside(t) && Pos(t) < Pos(s) + 1 ensures Value(n', blocks, t) == want[Pos(t)] {
      OneAtPos(s, t);
      RootKeeps(n, blocks, s, want[Pos(s)], t);
    }
  }

  lemma {:induction false} EntryKeeps(n: Node, blocks: Blocks, want: seq<nat>, s: Slot, t: Slot)
    requires !Rooted(s) && Inside(s) && Pos(s) < |want| && Filled(n, blocks, want, Pos(s)) && NoDup(want)
    requires want[Pos(s)] < U32 && Inside(t) && Pos(t) <= Pos(s) && Pos(Parent(s)) < Pos(s)
    ensures Value(n, WithSlotEntry(blocks, want[Pos(Parent(s))], s, want[Pos(s)]), t) == want[Pos(t)]
    decreases Pos(t)
  {
    hide Entry, At, WithEntry, Value, Pos, EntryNo, Parent, NoDup;
    var b := want[Pos(Parent(s))];
    var blocks' := WithSlotEntry(blocks, b, s, want[Pos(s)]);
    if Rooted(t) {
      RootedNeverWritten(n, blocks, blocks', t);
      OneAtPos(s, t);
    } else {
      ByParent(n, blocks, t);
      ByParent(n, blocks', t);
      EntryKeeps(n, blocks, want, s, Parent(t));
      FilledAt(n, blocks, want, Pos(s), Parent(t));
      BlockWritten(blocks, b, s, want[Pos(s)], want[Pos(Parent(t))], EntryNo(t));
      if Pos(t) < Pos(s) {
        FilledAt(n, blocks, want, Pos(s), t);
      }
      if want[Pos(Parent(t))] == b {
        DupFree(want, Pos(Parent(t)), Pos(Parent(s)));
        ParentInside(s);
        OneAtPos(Parent(t), Parent(s));
        if EntryNo(t) == EntryNo(s) {
          ParentAndEntry(s, t);
        }
      }
      if Pos(t) == Pos(s) {
        OneAtPos(s, t);
      }
    }
  }

  lemma OneAtPos(s: Slot, t: Slot)
    ensures Pos(s) == Pos(t) ==> s == t
  {
    AtPos(s);
    AtPos(t);
  }

  lemma RootedNeverWritten(n: Node, blocks: Blocks, blocks': Blocks, t: Slot)
    requires NodeOk(n) && Rooted(t) && Inside(t)
    ensures Value(n, blocks', t) == Value(n, blocks, t)
  {
  }

  lemma BlockWritten(blocks: Blocks, b: nat, s: Slot, id: nat, c: nat, e: nat)
    requires !Rooted(s) && Inside(s) && id < U32 && e < INODE_INDIRECT1_COUNT
    ensures Entry(At(WithSlotEntry(blocks, b, s, id), c), e)
         == if c == b && e == EntryNo(s) then id else Entry(At(blocks, c), e)
  {
    hide Entry, WithEntry;
    EntryWritten(At(blocks, b), EntryNo(s), id, e);
  }

  lemma EntryFilled(n: Node, blocks: Blocks, want: seq<nat>, s: Slot)
    requires !Rooted(s) && Inside(s) && Pos(s) < |want| && Filled(n, blocks, want, Pos(s)) && NoDup(want)
    requires want[Pos(s)] < U32
    ensures Pos(Parent(s)) < Pos(s)
    ensures Filled(n, WithSlotEntry(blocks, want[Pos(Parent(s))], s, want[Pos(s)]), want, Pos(s) + 1)
  {
    hide Value, Pos, WithSlotEntry, EntryNo, Parent, NoDup;
    ParentInside(s);
    var blocks' := WithSlotEntry(blocks, want[Pos(Parent(s))], s, want[Pos(s)]);
    forall t | Inside(t) && Pos(t) < Pos(s) + 1 ensures Value(n, blocks', t) == want[Pos(t)] {
      EntryKeeps(n, blocks, want, s, t);
    }
  }

  /** The blocks that an inode with `total` of them owns, in filling order. */
  ghost function Flat(n: Node, blocks: Blocks, total: nat): (ids: seq<nat>)
    requires NodeOk(n) && total <= Total(INDIRECT2_BOUND)
    ensures |ids| == total
  {
    seq(total, q requires 0 <= q < total => InsideAt(q); Value(n, blocks, SlotAt(q)))
  }

  lemma InsideAt(q: nat)
    requires q < Total(INDIRECT2_BOUND)
    ensures Inside(SlotAt(q)) && Pos(SlotAt(q)) == q
  {
    PosAt(q);
  }

  lemma FilledIsFlat(n: Node, blocks: Blocks, want: seq<nat>)
    requires NodeOk(n) && |want| <= Total(INDIRECT2_BOUND)
    ensures Filled(n, blocks, want, |want|) <==> Flat(n, blocks, |want|) == want
  {
    hide Value, Pos, SlotAt, Total, Inside;
    if Filled(n, blocks, want, |want|) {
      forall q | 0 <= q < |want| ensures Flat(n, blocks, |want|)[q] == want[q] {
        InsideAt(q);
      }
    }
    if Flat(n, blocks, |want|) == want {
      forall s | Inside(s) && Pos(s) < |want| ensures Value(n, blocks, s) == want[Pos(s)] {
        AtPos(s);
        assert Flat(n, blocks, |want|)[Pos(s)] == Value(n, blocks, s);
      }
    }
  }

  /** The blocks among the wanted ones that serve as index blocks. */
  ghost function Indexes(ids: seq<nat>): set<nat> {
    set q | 0 <= q < |ids| && !SlotAt(q).Data? :: ids[q]
  }

  lemma IsIndex(ids: seq<nat>, s: Slot)
    requires Pos(s) < |ids| && !s.Data?
    ensures ids[Pos(s)] in Indexes(ids)
  {
    AtPos(s);
  }

  lemma ParentIsIndex(ids: seq<nat>, s: Slot)
    requires Inside(s) && !Rooted(s) && Pos(s) < |ids|
    ensures Pos(Parent(s)) < Pos(s) && ids[Pos(Parent(s))] in Indexes(ids)
  {
    ParentInside(s);
    IsIndex(ids, Parent(s));
  }

  /** Two disks that agree but for the given blocks. */
  ghost predicate SameBut(blocks: Blocks, blocks': Blocks, changed: set<nat>) {
    forall b :: b !in changed ==> At(blocks', b) == At(blocks, b)
  }

  lemma OneMoreEntry(blocks0: Blocks, blocks: Blocks, changed: set<nat>, b: nat, s: Slot, id: nat)
    requires SameBut(blocks0, blocks, changed) && b in changed && !Rooted(s) && Inside(s)
    ensures SameBut(blocks0, WithSlotEntry(blocks, b, s, id), changed)
  {
    hide WithEntry, EntryNo;
  }
}
