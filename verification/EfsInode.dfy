/** The inodes of easy-fs and the disk below them: growing, clearing, reading and writing (easy-fs/src/layout.rs). */
module EfsInode {
  import opened Common
  import opened EfsLayout
  import opened EfsBytes

  /** The block device as the block cache shows it. */
  class Disk {
    var blocks: Blocks

    constructor ()
      ensures blocks == map[]
    {
      blocks := map[];
    }
  }

  // Where the walk of `increase_size` stands

  lemma DirectPos(c: nat)
    ensures c < INODE_DIRECT_COUNT ==> Total(c) == Pos(Data(c)) == c && Total(c + 1) == c + 1
  {
  }

  lemma Indirect1Pos(c: nat)
    ensures Total(INODE_DIRECT_COUNT) == Pos(Ind1) && Pos(Ind1) + 1 == Pos(Data(INODE_DIRECT_COUNT))
    ensures INODE_DIRECT_COUNT <= c < INDIRECT1_BOUND ==> Pos(Data(c)) == c + 1 && Total(c + 1) == c + 2
  {
  }

  /** The position of the walk once the indirect1 block, or the indirect2 block, is there. */
  function Past1(c: nat): nat {
    if c == INODE_DIRECT_COUNT then Pos(Ind1) + 1 else Total(c)
  }

  function Past2(c: nat): nat {
    if c == INDIRECT1_BOUND then Pos(Ind2) + 1 else Total(c)
  }

  lemma Indirect2Pos(a: nat, b: nat)
    requires b < INODE_INDIRECT1_COUNT
    ensures var c := INDIRECT1_BOUND + INODE_INDIRECT1_COUNT * a + b;
            && (b == 0 ==> Past2(c) == Pos(Sub(a)) && Pos(Data(c)) == Pos(Sub(a)) + 1)
            && (b > 0 ==> Past2(c) == Pos(Data(c)))
            && Past2(c + 1) == Pos(Data(c)) + 1
  {
    assert (128 * a + 127) / 128 == a;
    assert (128 * a + b) / 128 == a;
    assert b > 0 ==> (128 * a + b + 127) / 128 == a + 1;
  }

  lemma SubOf(a: nat, b: nat)
    requires b < INODE_INDIRECT1_COUNT
    ensures var s := Data(INDIRECT1_BOUND + INODE_INDIRECT1_COUNT * a + b);
            !Rooted(s) && Parent(s) == Sub(a) && (a < INODE_INDIRECT1_COUNT ==> Inside(s) && EntryNo(s) == b)
  {
    assert (128 * a + b) / 128 == a && (128 * a + b) % 128 == b;
  }

  lemma Indirect2At()
    ensures Total(INDIRECT1_BOUND) == Pos(Ind2)
  {
  }

  /** The progress of a walk: so many of the wanted blocks are in place, and only index blocks were written. */
  ghost predicate Placed(n: Node, blocks0: Blocks, blocks: Blocks, want: seq<nat>, p: nat) {
    Filled(n, blocks, want, p) && SameBut(blocks0, blocks, Indexes(want))
  }

  /** The iterator over the new blocks stands where the walk does. */
  ghost predicate Rest(newBlocks: seq<nat>, used: nat, want: seq<nat>, p: nat) {
    used <= |newBlocks| && p <= |want| && newBlocks[used..] == want[p..]
  }

  lemma RestNext(newBlocks: seq<nat>, used: nat, want: seq<nat>, p: nat)
    requires Rest(newBlocks, used, want, p) && p < |want|
    ensures used < |newBlocks| && newBlocks[used] == want[p] && Rest(newBlocks, used + 1, want, p + 1)
  {
    assert |newBlocks[used..]| == |want[p..]|;
    assert newBlocks[used..][0] == want[p..][0];
    assert newBlocks[used..][1..] == want[p..][1..];
    assert newBlocks[used..][1..] == newBlocks[used + 1..] && want[p..][1..] == want[p + 1..];
  }

  lemma PlacedNode(n: Node, blocks0: Blocks, blocks: Blocks, want: seq<nat>, p: nat)
    requires Placed(n, blocks0, blocks, want, p)
    ensures NodeOk(n)
  {
  }

  lemma PlacedRoot(n: Node, blocks0: Blocks, blocks: Blocks, want: seq<nat>, s: Slot)
    requires Rooted(s) && Pos(s) < |want| && Placed(n, blocks0, blocks, want, Pos(s))
    ensures NodeOk(n) && Placed(WithRoot(n, s, want[Pos(s)]), blocks0, blocks, want, Pos(s) + 1)
  {
    hide WithRoot, Pos, Indexes;
    RootFilled(n, blocks, want, s);
  }

  ghost predicate Wanted(want: seq<nat>) {
    NoDup(want) && Numbers(want)
  }

  lemma PlacedEntry(n: Node, blocks0: Blocks, blocks: Blocks, want: seq<nat>, s: Slot)
    requires !Rooted(s) && Inside(s) && Pos(s) < |want| && Placed(n, blocks0, blocks, want, Pos(s)) && Wanted(want)
    ensures NodeOk(n) && Inside(Parent(s)) && Pos(Parent(s)) < Pos(s)
    ensures Value(n, blocks, Parent(s)) == want[Pos(Parent(s))]
    ensures Placed(n, blocks0, WithSlotEntry(blocks, want[Pos(Parent(s))], s, want[Pos(s)]), want, Pos(s) + 1)
  {
    hide WithSlotEntry, Pos, Indexes, NoDup;
    ParentInside(s);
    FilledAt(n, blocks, want, Pos(s), Parent(s));
    EntryFilled(n, blocks, want, s);
    ParentIsIndex(want, s);
    OneMoreEntry(blocks0, blocks, Indexes(want), want[Pos(Parent(s))], s, want[Pos(s)]);
  }

  class DiskInode {
    var size: nat
    var direct: seq<nat>
    var indirect1: nat
    var indirect2: nat
    var dir: bool

    /** `initialize`. */
    constructor (dir: bool)
      ensures Shape() == Node(0, seq(INODE_DIRECT_COUNT, k => 0), 0, 0, dir) && NodeOk(Shape())
    {
      size, direct, indirect1, indirect2 := 0, seq(INODE_DIRECT_COUNT, k => 0), 0, 0;
      this.dir := dir;
    }

    ghost function Shape(): Node
      reads this
    {
      Node(size, direct, indirect1, indirect2, dir)
    }

    lemma Fields()
      ensures Shape() == Node(size, direct, indirect1, indirect2, dir)
    {
    }

    /** `increase_size`, the loop over the direct pointers. */
    method FillDirect(start: nat, total: nat, newBlocks: seq<nat>, disk: Disk, ghost blocks0: Blocks, ghost want: seq<nat>)
      returns (current: nat, used: nat)
      requires start <= total <= INDIRECT2_BOUND && Wanted(want) && |want| == Total(total)
      requires Rest(newBlocks, 0, want, Total(start)) && Placed(Shape(), blocks0, disk.blocks, want, Total(start))
      modifies this`direct
      ensures current == Max(start, Min(total, INODE_DIRECT_COUNT)) && Rest(newBlocks, used, want, Total(current))
      ensures Placed(Shape(), blocks0, disk.blocks, want, Total(current))
    {
      hide Placed, Total, Pos, Wanted, Rest;
      current, used := start, 0;
      while current < Min(total, INODE_DIRECT_COUNT)
        invariant start <= current <= Max(start, Min(total, INODE_DIRECT_COUNT)) && 0 <= used
        invariant Rest(newBlocks, used, want, Total(current))
        invariant Placed(Shape(), blocks0, disk.blocks, want, Total(current))
      {
        DirectPos(current);
        DirectRoom(current, total);
        RestNext(newBlocks, used, want, Total(current));
        PlacedRoot(Shape(), blocks0, disk.blocks, want, Data(current));
        direct := direct[current := newBlocks[used]];
        used, current := used + 1, current + 1;
      }
    }

    /** "alloc indirect1": only when no entry of the indirect1 block is in use yet. */
    method TakeIndirect1(current: nat, total: nat, newBlocks: seq<nat>, used: nat, disk: Disk,
                         ghost blocks0: Blocks, ghost want: seq<nat>) returns (used': nat)
      requires INODE_DIRECT_COUNT <= current <= total && INODE_DIRECT_COUNT < total && |want| == Total(total)
      requires Rest(newBlocks, used, want, Total(current)) && Placed(Shape(), blocks0, disk.blocks, want, Total(current))
      modifies this`indirect1
      ensures Rest(newBlocks, used', want, Past1(current))
      ensures Placed(Shape(), blocks0, disk.blocks, want, Past1(current))
    {
      hide Placed, Total, Pos, Rest;
      used' := used;
      if current == INODE_DIRECT_COUNT {
        Indirect1Pos(current);
        DirectRoom(current, total);
        RestNext(newBlocks, used, want, Total(current));
        PlacedRoot(Shape(), blocks0, disk.blocks, want, Ind1);
        indirect1 := newBlocks[used];
        used' := used + 1;
      }
    }

    /** "alloc indirect2", likewise. */
    method TakeIndirect2(current: nat, total: nat, newBlocks: seq<nat>, used: nat, disk: Disk,
                         ghost blocks0: Blocks, ghost want: seq<nat>) returns (used': nat)
      requires INDIRECT1_BOUND <= current <= total && INDIRECT1_BOUND < total && |want| == Total(total)
      requires Rest(newBlocks, used, want, Total(current)) && Placed(Shape(), blocks0, disk.blocks, want, Total(current))
      modifies this`indirect2
      ensures Rest(newBlocks, used', want, Past2(current))
      ensures Placed(Shape(), blocks0, disk.blocks, want, Past2(current))
    {
      hide Placed, Total, Pos, Rest;
      used' := used;
      if current == INDIRECT1_BOUND {
        Indirect2At();
        DirectRoom(current, total);
        RestNext(newBlocks, used, want, Total(current));
        PlacedRoot(Shape(), blocks0, disk.blocks, want, Ind2);
        indirect2 := newBlocks[used];
        used' := used + 1;
      }
    }

    /** The loop over the entries of the indirect1 block; the counts are taken from the first of them. */
    method FillIndirect1(start: nat, total: nat, newBlocks: seq<nat>, from: nat, disk: Disk,
                         ghost blocks0: Blocks, ghost want: seq<nat>) returns (current: nat, used: nat)
      requires start <= total && INODE_DIRECT_COUNT < INODE_DIRECT_COUNT + total <= INDIRECT2_BOUND && Wanted(want)
      requires |want| == Total(INODE_DIRECT_COUNT + total)
      requires Rest(newBlocks, from, want, Past1(INODE_DIRECT_COUNT + start))
      requires Placed(Shape(), blocks0, disk.blocks, want, Past1(INODE_DIRECT_COUNT + start))
      modifies disk
      ensures current == Max(start, Min(total, INODE_INDIRECT1_COUNT))
      ensures Rest(newBlocks, used, want, Total(INODE_DIRECT_COUNT + current))
      ensures Placed(Shape(), blocks0, disk.blocks, want, Total(INODE_DIRECT_COUNT + current))
    {
      hide Placed, Total, Pos, Wanted, Past1, WithEntry, Value, Inside, Rooted, Parent, Rest;
      current, used := start, from;
      while current < Min(total, INODE_INDIRECT1_COUNT)
        invariant start <= current <= Max(start, Min(total, INODE_INDIRECT1_COUNT)) && 0 <= used
        invariant Rest(newBlocks, used, want, Past1(INODE_DIRECT_COUNT + current))
        invariant Placed(Shape(), blocks0, disk.blocks, want, Past1(INODE_DIRECT_COUNT + current))
      {
        ghost var s := Data(INODE_DIRECT_COUNT + current);
        Indirect1Next(current, total);
        RestNext(newBlocks, used, want, Pos(s));
        PlacedEntry(Shape(), blocks0, disk.blocks, want, s);
        Indirect1Value(Shape(), disk.blocks, s);
        disk.blocks := disk.blocks[indirect1 := WithEntry(At(disk.blocks, indirect1), current, newBlocks[used])];
        used, current := used + 1, current + 1;
      }
      PastOne(current);
    }

    /** An entry of the indirect2 block. */
    method PutSub(a: nat, id: nat, disk: Disk, ghost blocks0: Blocks, ghost want: seq<nat>)
      requires a < INODE_INDIRECT1_COUNT && Wanted(want) && Pos(Sub(a)) < |want| && id == want[Pos(Sub(a))]
      requires Placed(Shape(), blocks0, disk.blocks, want, Pos(Sub(a)))
      modifies disk
      ensures Placed(Shape(), blocks0, disk.blocks, want, Pos(Sub(a)) + 1)
    {
      hide *;
      Fields();
      PlacedNode(Shape(), blocks0, disk.blocks, want, Pos(Sub(a)));
      SubValue(Shape(), disk.blocks, a);
      PlacedEntry(Shape(), blocks0, disk.blocks, want, Sub(a));
      SlotEntry(disk.blocks, Shape().indirect2, Sub(a), id);
      disk.blocks := disk.blocks[indirect2 := WithEntry(At(disk.blocks, indirect2), a, id)];
    }

    /** An entry of a block that the indirect2 block records. */
    method PutBelow(a: nat, b: nat, id: nat, disk: Disk, ghost blocks0: Blocks, ghost want: seq<nat>)
      requires a < INODE_INDIRECT1_COUNT && b < INODE_INDIRECT1_COUNT && Wanted(want)
      requires var s := Data(INDIRECT1_BOUND + INODE_INDIRECT1_COUNT * a + b);
               Pos(s) < |want| && id == want[Pos(s)] && Placed(Shape(), blocks0, disk.blocks, want, Pos(s))
      modifies disk
      ensures Placed(Shape(), blocks0, disk.blocks, want,
                     Pos(Data(INDIRECT1_BOUND + INODE_INDIRECT1_COUNT * a + b)) + 1)
    {
      hide *;
      ghost var s := Data(INDIRECT1_BOUND + INODE_INDIRECT1_COUNT * a + b);
      Fields();
      PlacedNode(Shape(), blocks0, disk.blocks, want, Pos(s));
      Indirect2Value(Shape(), disk.blocks, a, b);
      PlacedEntry(Shape(), blocks0, disk.blocks, want, s);
      var indirect := Entry(At(disk.blocks, indirect2), a);
      SlotEntry(disk.blocks, indirect, s, id);
      disk.blocks := disk.blocks[indirect := WithEntry(At(disk.blocks, indirect), b, id)];
    }

    /** The loop over the entries of the indirect2 block and of the blocks that they record. */
    method FillIndirect2(start: nat, total: nat, newBlocks: seq<nat>, from: nat, disk: Disk,
                         ghost blocks0: Blocks, ghost want: seq<nat>) returns (used: nat)
      requires start <= total && INDIRECT1_BOUND < INDIRECT1_BOUND + total <= INDIRECT2_BOUND && Wanted(want)
      requires |want| == Total(INDIRECT1_BOUND + total)
      requires Rest(newBlocks, from, want, Past2(INDIRECT1_BOUND + start))
      requires Placed(Shape(), blocks0, disk.blocks, want, Past2(INDIRECT1_BOUND + start))
      modifies disk
      ensures Rest(newBlocks, used, want, |want|) && Placed(Shape(), blocks0, disk.blocks, want, |want|)
    {
      hide Placed, Total, Pos, Wanted, Past2, WithEntry, Value, Inside, Rooted, Parent, Rest;
      var a0, b0 := start / INODE_INDIRECT1_COUNT, start % INODE_INDIRECT1_COUNT;
      var a1, b1 := total / INODE_INDIRECT1_COUNT, total % INODE_INDIRECT1_COUNT;
      used := from;
      ghost var c := start;
      while a0 < a1 || (a0 == a1 && b0 < b1)
        invariant 0 <= a0 && 0 <= b0 < INODE_INDIRECT1_COUNT && 0 <= b1 < INODE_INDIRECT1_COUNT && 0 <= used
        invariant c == INODE_INDIRECT1_COUNT * a0 + b0 <= total == INODE_INDIRECT1_COUNT * a1 + b1
        invariant Rest(newBlocks, used, want, Past2(INDIRECT1_BOUND + c))
        invariant Placed(Shape(), blocks0, disk.blocks, want, Past2(INDIRECT1_BOUND + c))
        decreases total - c
      {
        Indirect2Next(a0, b0, c, total);
        if b0 == 0 {
          RestNext(newBlocks, used, want, Pos(Sub(a0)));
          PutSub(a0, newBlocks[used], disk, blocks0, want);
          used := used + 1;
        }
        RestNext(newBlocks, used, want, Pos(Data(INDIRECT1_BOUND + c)));
        PutBelow(a0, b0, newBlocks[used], disk, blocks0, want);
        used := used + 1;
        b0, c := b0 + 1, c + 1;
        if b0 == INODE_INDIRECT1_COUNT {
          a0, b0 := a0 + 1, 0;
        }
      }
      assert c == total;
      PastTwo(INDIRECT1_BOUND + total);
    }

    /** `increase_size` from "alloc indirect1" on. */
    method FillIndirects(start: nat, all: nat, newBlocks: seq<nat>, from: nat, disk: Disk,
                         ghost blocks0: Blocks, ghost want: seq<nat>) returns (used: nat)
      requires INODE_DIRECT_COUNT <= start <= all <= INDIRECT2_BOUND && INODE_DIRECT_COUNT < all
      requires Wanted(want) && |want| == Total(all) && Rest(newBlocks, from, want, Total(start))
      requires Placed(Shape(), blocks0, disk.blocks, want, Total(start))
      modifies this`indirect1, this`indirect2, disk
      ensures Rest(newBlocks, used, want, |want|) && Placed(Shape(), blocks0, disk.blocks, want, |want|)
    {
      hide Placed, Total, Pos, Wanted, Past1, Past2, Rest;
      used := TakeIndirect1(start, all, newBlocks, from, disk, blocks0, want);
      var current, total := start - INODE_DIRECT_COUNT, all - INODE_DIRECT_COUNT;
      current, used := FillIndirect1(current, total, newBlocks, used, disk, blocks0, want);
      if total > INODE_INDIRECT1_COUNT {
        used := TakeIndirect2(INODE_DIRECT_COUNT + current, all, newBlocks, used, disk, blocks0, want);
        current, total := current - INODE_INDIRECT1_COUNT, total - INODE_INDIRECT1_COUNT;
        used := FillIndirect2(current, total, newBlocks, used, disk, blocks0, want);
      }
    }

    /** `increase_size` fed exactly the blocks that `blocks_num_needed` asks for uses each of them once, in filling
        order, leaves what was recorded before in place, and writes no block but the index blocks of this inode. */
    method IncreaseSize(newSize: nat, newBlocks: seq<nat>, disk: Disk)
      requires NodeOk(Shape()) && size <= newSize <= MAX_SIZE
      requires |newBlocks| == TotalBlocks(newSize) - TotalBlocks(size)
      requires Wanted(Owned(Shape(), disk.blocks) + newBlocks)
      modifies this, disk
      ensures Grown(old(Shape()), old(disk.blocks), newSize, newBlocks, Shape(), disk.blocks)
    {
      hide Placed, Total, Wanted, Rest, Grown, Owned, DataBlocks, SameBut, Indexes;
      ghost var n0, blocks0 := Shape(), disk.blocks;
      ghost var want := Owned(Shape(), disk.blocks) + newBlocks;
      StartsPlaced(Shape(), disk.blocks, newSize, newBlocks);
      var current := DataBlocks(size);
      size := newSize;
      var total := DataBlocks(size);
      var used;
      current, used := FillDirect(current, total, newBlocks, disk, blocks0, want);
      if total > INODE_DIRECT_COUNT {
        used := FillIndirects(current, total, newBlocks, used, disk, blocks0, want);
      }
      EndsOwned(Shape(), blocks0, disk.blocks, want);
      GrownJoin(n0, blocks0, newSize, newBlocks, Shape(), disk.blocks);
    }

    /** `get_block_id` of a data block. */
    method GetBlockId(innerId: nat, disk: Disk) returns (id: nat)
      requires NodeOk(Shape()) && innerId < INDIRECT2_BOUND
      ensures id == Value(Shape(), disk.blocks, Data(innerId))
    {
      hide Entry, At;
      if innerId < INODE_DIRECT_COUNT {
        id := direct[innerId];
      } else if innerId < INDIRECT1_BOUND {
        id := Entry(At(disk.blocks, indirect1), innerId - INODE_DIRECT_COUNT);
      } else {
        var last := innerId - INDIRECT1_BOUND;
        var indirect := Entry(At(disk.blocks, indirect2), last / INODE_INDIRECT1_COUNT);
        id := Entry(At(disk.blocks, indirect), last % INODE_INDIRECT1_COUNT);
      }
    }

    /** `clear_size`, the loop over the direct pointers, which are reset. */
    method TakeDirect(n: nat, ghost own: seq<nat>) returns (v: seq<nat>)
      requires NodeOk(Shape()) && Total(n) <= |own|
      requires forall k :: 0 <= k < Min(n, INODE_DIRECT_COUNT) ==> own[k] == direct[k]
      modifies this`direct
      ensures NodeOk(Shape()) && Took(v, own, Min(n, INODE_DIRECT_COUNT))
      ensures forall k :: 0 <= k < INODE_DIRECT_COUNT ==>
                direct[k] == if k < n then 0 else old(direct[k])
    {
      v := [];
      var current := 0;
      while current < Min(n, INODE_DIRECT_COUNT)
        invariant current <= Min(n, INODE_DIRECT_COUNT) && NodeOk(Shape()) && Took(v, own, current)
        invariant forall k :: 0 <= k < INODE_DIRECT_COUNT ==> direct[k] == if k < current then 0 else old(direct[k])
      {
        TookNext(v, own, current);
        v := v + [direct[current]];
        direct := direct[current := 0];
        current := current + 1;
      }
    }

    /** The loop over the entries of the indirect1 block. */
    method TakeEntries1(n: nat, disk: Disk, v: seq<nat>, ghost n0: Node, ghost own: seq<nat>) returns (v': seq<nat>)
      requires OwnedBy(n0, disk.blocks, INODE_DIRECT_COUNT + n, own) && n0.indirect1 == indirect1 && n > 0
      requires Took(v, own, Pos(Ind1) + 1)
      ensures n <= INODE_INDIRECT1_COUNT ==> v' == own
      ensures n > INODE_INDIRECT1_COUNT ==> Took(v', own, Pos(Ind2))
    {
      hide Took, Entry, At, OwnedBy;
      v' := v;
      var current := 0;
      while current < Min(n, INODE_INDIRECT1_COUNT)
        invariant 0 <= current <= Min(n, INODE_INDIRECT1_COUNT) && Took(v', own, Pos(Ind1) + 1 + current)
      {
        OwnedEntry1(n0, disk.blocks, n, own, current);
        TookNext(v', own, Pos(Ind1) + 1 + current);
        v' := v' + [Entry(At(disk.blocks, indirect1), current)];
        current := current + 1;
      }
      TookEnough1(n0, disk.blocks, n, own, v');
    }

    /** An entry of the indirect2 block, and then the first `count` entries of the block that it records. */
    method TakeBelow(a: nat, count: nat, disk: Disk, v: seq<nat>, ghost n: nat, ghost n0: Node, ghost own: seq<nat>)
      returns (v': seq<nat>)
      requires OwnedBy(n0, disk.blocks, n, own) && n0.indirect2 == indirect2 && 0 < count <= INODE_INDIRECT1_COUNT
      requires INDIRECT1_BOUND + INODE_INDIRECT1_COUNT * a + count <= n && Took(v, own, Pos(Sub(a)))
      ensures Took(v', own, Pos(Sub(a)) + 1 + count)
    {
      hide Took, Entry, At, OwnedBy, Pos;
      OwnedSub(n0, disk.blocks, n, own, a);
      TookNext(v, own, Pos(Sub(a)));
      v' := v + [Entry(At(disk.blocks, indirect2), a)];
      var indirect := Entry(At(disk.blocks, indirect2), a);
      var b := 0;
      while b < count
        invariant 0 <= b <= count && Took(v', own, Pos(Sub(a)) + 1 + b)
      {
        OwnedBelow(n0, disk.blocks, n, own, a, b);
        TookNext(v', own, Pos(Sub(a)) + 1 + b);
        v' := v' + [Entry(At(disk.blocks, indirect), b)];
        b := b + 1;
      }
    }

    /** The loops over the entries of the indirect2 block. */
    method TakeEntries2(n: nat, disk: Disk, v: seq<nat>, ghost n0: Node, ghost own: seq<nat>) returns (v': seq<nat>)
      requires OwnedBy(n0, disk.blocks, INDIRECT1_BOUND + n, own) && n0.indirect2 == indirect2 && n > 0
      requires Took(v, own, Pos(Ind2) + 1)
      ensures v' == own
    {
      hide Took, Entry, At, OwnedBy, Pos;
      var a1, b1 := n / INODE_INDIRECT1_COUNT, n % INODE_INDIRECT1_COUNT;
      FirstSub();
      v' := v;
      for a := 0 to a1
        invariant Took(v', own, Pos(Sub(a)))
      {
        v' := TakeBelow(a, INODE_INDIRECT1_COUNT, disk, v', INDIRECT1_BOUND + n, n0, own);
        NextSub(a);
      }
      if b1 > 0 {
        v' := TakeBelow(a1, b1, disk, v', INDIRECT1_BOUND + n, n0, own);
      }
      TookAll(n0, disk.blocks, a1, b1, own, v');
    }

    /** `clear_size` returns the blocks that the inode owned, each once and in filling order. */
    method ClearSize(disk: Disk) returns (v: seq<nat>)
      requires NodeOk(Shape()) && size <= MAX_SIZE
      modifies this
      ensures NodeOk(Shape()) && size == 0 && dir == old(dir)
      ensures v == old(Owned(Shape(), disk.blocks))
    {
      hide Took, Owned, OwnedBy, Pos, Total, DataBlocks;
      ghost var n0 := Shape();
      ghost var own := Owned(n0, disk.blocks);
      OwnedWhole(n0, disk.blocks);
      var dataBlocks := DataBlocks(size);
      size := 0;
      OwnedDirect(n0, disk.blocks, dataBlocks, own);
      v := TakeDirect(dataBlocks, own);
      if dataBlocks <= INODE_DIRECT_COUNT {
        TookDirect(n0, disk.blocks, dataBlocks, own, v);
        return;
      }
      OwnedInd(n0, disk.blocks, dataBlocks, own);
      TookNext(v, own, Pos(Ind1));
      v := v + [indirect1];
      dataBlocks := dataBlocks - INODE_DIRECT_COUNT;
      v := TakeEntries1(dataBlocks, disk, v, n0, own);
      indirect1 := 0;
      if dataBlocks <= INODE_INDIRECT1_COUNT {
        return;
      }
      TookNext(v, own, Pos(Ind2));
      v := v + [indirect2];
      dataBlocks := dataBlocks - INODE_INDIRECT1_COUNT;
      v := TakeEntries2(dataBlocks, disk, v, n0, own);
      indirect2 := 0;
    }

    /** `write_at`: the bytes from `offset` on, up to the size of the file, take the values of `buf`. */
    method WriteAt(offset: nat, buf: seq<byte>, disk: Disk) returns (n: nat)
      requires NodeOk(Shape()) && size <= MAX_SIZE && NoDup(Owned(Shape(), disk.blocks))
      requires offset <= size && Covered(DataBlocks(size), offset)
      modifies disk
      ensures n == Min(offset + |buf|, size) - offset
      ensures OwnedBy(Shape(), disk.blocks, DataBlocks(size), old(Owned(Shape(), disk.blocks)))
      ensures WrittenTo(Shape(), old(disk.blocks), disk.blocks, DataBlocks(size), offset, offset + n, buf)
      ensures SameBut(old(disk.blocks), disk.blocks, DataIds(old(Owned(Shape(), disk.blocks))))
    {
      hide Owned, OwnedBy, WrittenTo, SameBut, DataIds, NoDup, Value, At, Pos, DataOf, Total, WithBytes, NodeOk;
      ghost var blocks0, own := disk.blocks, Owned(Shape(), disk.blocks);
      ghost var count := DataBlocks(size);
      WriteStarts(Shape(), disk.blocks, offset, buf);
      var start, end := offset, Min(offset + |buf|, size);
      var startBlock := start / BLOCK_SZ;
      n := 0;
      while true
        invariant n == start - offset && offset <= start <= end && startBlock == start / BLOCK_SZ
        invariant Covered(count, start) && count == DataBlocks(size) && OwnedBy(Shape(), disk.blocks, count, own)
        invariant WrittenTo(Shape(), blocks0, disk.blocks, count, offset, start, buf)
        invariant SameBut(blocks0, disk.blocks, DataIds(own))
        decreases end - start
      {
        var endCurrentBlock := Min((start / BLOCK_SZ + 1) * BLOCK_SZ, end);
        var len := endCurrentBlock - start;
        InsideByte(Shape(), disk.blocks, count, own, start);
        OwnedNode(Shape(), disk.blocks, count, own);
        var id := GetBlockId(startBlock, disk);
        StartBlock(Shape(), disk.blocks, count, own, start);
        WrittenNext(Shape(), blocks0, disk.blocks, count, own, offset, start, buf, len);
        OneMoreBlock(blocks0, disk.blocks, DataIds(own), id, start % BLOCK_SZ, buf[n..n + len]);
        disk.blocks := WithBytes(disk.blocks, id, start % BLOCK_SZ, buf[n..n + len]);
        n := n + len;
        if endCurrentBlock == end {
          break;
        }
        startBlock := startBlock + 1;
        start := endCurrentBlock;
        SizeCovered(size, start);
      }
    }

    /** `read_at`: the requested slice, cut at the size of the file. */
    method ReadAt(offset: nat, buf: array<byte>, disk: Disk) returns (n: nat)
      requires NodeOk(Shape()) && size <= MAX_SIZE
      modifies buf
      ensures n == if offset < size then Min(offset + buf.Length, size) - offset else 0
      ensures n <= buf.Length && buf[n..] == old(buf[n..])
      ensures n > 0 ==> buf[..n] == Content(Shape(), disk.blocks)[offset..offset + n]
    {
      hide Owned, OwnedBy, Value, At, Pos, DataOf, Total, ByteAt;
      var start, end := offset, Min(offset + buf.Length, size);
      if start >= end {
        return 0;
      }
      ghost var own, count := Owned(Shape(), disk.blocks), DataBlocks(size);
      OwnedWhole(Shape(), disk.blocks);
      var startBlock := start / BLOCK_SZ;
      n := 0;
      while true
        invariant n == start - offset && offset <= start < end && startBlock == start / BLOCK_SZ
        invariant forall i :: 0 <= i < n ==> buf[i] == ByteAt(Shape(), disk.blocks, offset + i)
        invariant forall i :: n <= i < buf.Length ==> buf[i] == old(buf[i])
        decreases end - start
      {
        var endCurrentBlock := Min((start / BLOCK_SZ + 1) * BLOCK_SZ, end);
        var len := endCurrentBlock - start;
        SizeCovered(size, start);
        InsideByte(Shape(), disk.blocks, count, own, start);
        var id := GetBlockId(startBlock, disk);
        var block := At(disk.blocks, id);
        StartBlock(Shape(), disk.blocks, count, own, start);
        SameBlockBytes(Shape(), disk.blocks, start, len);
        forall i | n <= i < n + len {
          buf[i] := block[start % BLOCK_SZ + i - n];
        }
        n := n + len;
        if endCurrentBlock == end {
          break;
        }
        startBlock := startBlock + 1;
        start := endCurrentBlock;
      }
    }
  }

  lemma OwnedNode(n: Node, blocks: Blocks, count: nat, own: seq<nat>)
    requires OwnedBy(n, blocks, count, own)
    ensures NodeOk(n)
  {
  }

  lemma WriteStarts(n: Node, blocks: Blocks, offset: nat, buf: seq<byte>)
    requires NodeOk(n) && n.size <= MAX_SIZE
    ensures OwnedBy(n, blocks, DataBlocks(n.size), Owned(n, blocks))
    ensures WrittenTo(n, blocks, blocks, DataBlocks(n.size), offset, offset, buf)
    ensures SameBut(blocks, blocks, DataIds(Owned(n, blocks)))
  {
    hide Owned, OwnedBy, DataIds, ByteAt;
    Bounds(n.size);
    OwnedWhole(n, blocks);
  }

  lemma StartBlock(n: Node, blocks: Blocks, count: nat, own: seq<nat>, start: nat)
    requires OwnedBy(n, blocks, count, own) && Covered(count, start)
    ensures Inside(Data(start / BLOCK_SZ)) && NodeOk(n) && Pos(Data(start / BLOCK_SZ)) < |own|
    ensures Value(n, blocks, Data(start / BLOCK_SZ)) == DataOf(own, start)
  {
    hide OwnedBy, Value, Pos;
    InsideByte(n, blocks, count, own, start);
    OwnedSlot(n, blocks, count, own, Data(start / BLOCK_SZ));
  }

  lemma OneMoreBlock(blocks0: Blocks, blocks: Blocks, changed: set<nat>, b: nat, at: nat, bytes: seq<byte>)
    requires SameBut(blocks0, blocks, changed) && b in changed && at + |bytes| <= BLOCK_SZ
    ensures SameBut(blocks0, WithBytes(blocks, b, at, bytes), changed)
  {
    hide Splice;
  }

  lemma SameBlockBytes(n: Node, blocks: Blocks, start: nat, len: nat)
    requires NodeOk(n) && start % BLOCK_SZ + len <= BLOCK_SZ && start + len <= MAX_SIZE && start < MAX_SIZE
    ensures forall j :: start <= j < start + len ==>
              ByteAt(n, blocks, j)
              == At(blocks, Value(n, blocks, Data(start / BLOCK_SZ)))[start % BLOCK_SZ + j - start]
  {
    hide Value, At;
    forall j | start <= j < start + len
      ensures j / BLOCK_SZ == start / BLOCK_SZ && j % BLOCK_SZ == start % BLOCK_SZ + j - start
    {
    }
  }

  lemma OwnedDirect(n0: Node, blocks: Blocks, n: nat, own: seq<nat>)
    requires OwnedBy(n0, blocks, n, own)
    ensures NodeOk(n0) && Total(n) <= |own| && Min(n, INODE_DIRECT_COUNT) <= |own|
    ensures forall k :: 0 <= k < Min(n, INODE_DIRECT_COUNT) ==> own[k] == n0.direct[k]
  {
    forall k | 0 <= k < Min(n, INODE_DIRECT_COUNT) ensures own[k] == n0.direct[k] {
      OwnedSlot(n0, blocks, n, own, Data(k));
    }
  }

  lemma OwnedInd(n0: Node, blocks: Blocks, n: nat, own: seq<nat>)
    requires OwnedBy(n0, blocks, n, own) && n > INODE_DIRECT_COUNT
    ensures Pos(Ind1) == INODE_DIRECT_COUNT < |own| && own[Pos(Ind1)] == n0.indirect1
    ensures n > INDIRECT1_BOUND ==> Pos(Ind2) < |own| && own[Pos(Ind2)] == n0.indirect2
  {
    hide OwnedBy, Total;
    OwnedSlot(n0, blocks, n, own, Ind1);
    if n > INDIRECT1_BOUND {
      OwnedSlot(n0, blocks, n, own, Ind2);
    }
  }

  lemma OwnedEntry1(n0: Node, blocks: Blocks, n: nat, own: seq<nat>, c: nat)
    requires OwnedBy(n0, blocks, INODE_DIRECT_COUNT + n, own) && c < Min(n, INODE_INDIRECT1_COUNT)
    ensures Pos(Ind1) + 1 + c < |own| && own[Pos(Ind1) + 1 + c] == Entry(At(blocks, n0.indirect1), c)
  {
    hide OwnedBy, Total, Entry, At;
    OwnedSlot(n0, blocks, INODE_DIRECT_COUNT + n, own, Data(INODE_DIRECT_COUNT + c));
  }

  lemma OwnedSub(n0: Node, blocks: Blocks, n: nat, own: seq<nat>, a: nat)
    requires OwnedBy(n0, blocks, n, own) && INDIRECT1_BOUND + INODE_INDIRECT1_COUNT * a < n
    ensures a < INODE_INDIRECT1_COUNT && Pos(Sub(a)) < |own|
    ensures own[Pos(Sub(a))] == Entry(At(blocks, n0.indirect2), a)
  {
    hide Total, Entry, At, Filled;
    OwnedSlot(n0, blocks, n, own, Sub(a));
  }

  lemma OwnedBelow(n0: Node, blocks: Blocks, n: nat, own: seq<nat>, a: nat, b: nat)
    requires OwnedBy(n0, blocks, n, own) && INDIRECT1_BOUND + INODE_INDIRECT1_COUNT * a + b < n
    requires b < INODE_INDIRECT1_COUNT
    ensures a < INODE_INDIRECT1_COUNT && Pos(Sub(a)) + 1 + b < |own|
    ensures own[Pos(Sub(a)) + 1 + b] == Entry(At(blocks, Entry(At(blocks, n0.indirect2), a)), b)
  {
    hide Total, Entry, At, Filled, Value, Pos, Rooted, Parent;
    var s := Data(INDIRECT1_BOUND + INODE_INDIRECT1_COUNT * a + b);
    OwnedSlot(n0, blocks, n, own, s);
    SubPos(a, b);
    Indirect2Value(n0, blocks, a, b);
    ByParent(n0, blocks, s);
  }

  lemma SubPos(a: nat, b: nat)
    requires b < INODE_INDIRECT1_COUNT
    ensures Pos(Data(INDIRECT1_BOUND + INODE_INDIRECT1_COUNT * a + b)) == Pos(Sub(a)) + 1 + b
  {
    assert (128 * a + b) / 128 == a;
  }

  lemma FirstSub()
    ensures Pos(Sub(0)) == Pos(Ind2) + 1
  {
  }

  lemma NextSub(a: nat)
    ensures Pos(Sub(a + 1)) == Pos(Sub(a)) + 1 + INODE_INDIRECT1_COUNT
  {
  }

  /** A prefix of the owned blocks has been returned. */
  ghost predicate Took(v: seq<nat>, own: seq<nat>, p: nat) {
    p <= |own| && v == own[..p]
  }

  lemma TookNext(v: seq<nat>, own: seq<nat>, p: nat)
    requires Took(v, own, p) && p < |own|
    ensures Took(v + [own[p]], own, p + 1)
  {
  }

  lemma TookDirect(n0: Node, blocks: Blocks, n: nat, own: seq<nat>, v: seq<nat>)
    requires OwnedBy(n0, blocks, n, own) && n <= INODE_DIRECT_COUNT && Took(v, own, Min(n, INODE_DIRECT_COUNT))
    ensures v == own
  {
    hide Filled;
  }

  lemma TookEnough1(n0: Node, blocks: Blocks, n: nat, own: seq<nat>, v: seq<nat>)
    requires OwnedBy(n0, blocks, INODE_DIRECT_COUNT + n, own) && n > 0
    requires Took(v, own, Pos(Ind1) + 1 + Min(n, INODE_INDIRECT1_COUNT))
    ensures n <= INODE_INDIRECT1_COUNT ==> v == own
    ensures n > INODE_INDIRECT1_COUNT ==> Took(v, own, Pos(Ind2))
  {
    hide Filled;
  }

  lemma TookAll(n0: Node, blocks: Blocks, a: nat, b: nat, own: seq<nat>, v: seq<nat>)
    requires b < INODE_INDIRECT1_COUNT && 128 * a + b > 0
    requires OwnedBy(n0, blocks, INDIRECT1_BOUND + INODE_INDIRECT1_COUNT * a + b, own)
    requires Took(v, own, Pos(Sub(a)) + if b > 0 then 1 + b else 0)
    ensures v == own
  {
    hide Filled;
    assert (128 * a + 127) / 128 == a;
    assert b > 0 ==> (128 * a + b + 127) / 128 == a + 1;
  }

  lemma StartsPlaced(n: Node, blocks: Blocks, newSize: nat, newBlocks: seq<nat>)
    requires NodeOk(n) && n.size <= newSize <= MAX_SIZE && |newBlocks| == TotalBlocks(newSize) - TotalBlocks(n.size)
    ensures var want := Owned(n, blocks) + newBlocks;
            && DataBlocks(n.size) <= DataBlocks(newSize) <= INDIRECT2_BOUND
            && |want| == Total(DataBlocks(newSize)) == Total(DataBlocks(n.size)) + |newBlocks|
            && Rest(newBlocks, 0, want, Total(DataBlocks(n.size)))
            && Placed(n.(size := newSize), blocks, blocks, want, Total(DataBlocks(n.size)))
  {
    hide Flat, Indexes, Total;
    Bounds(n.size);
    Bounds(newSize);
    var own := Owned(n, blocks);
    FilledIsFlat(n, blocks, own);
    FilledPrefix(n, n.(size := newSize), blocks, own, own + newBlocks);
  }

  lemma FilledPrefix(n: Node, n': Node, blocks: Blocks, own: seq<nat>, want: seq<nat>)
    requires Filled(n, blocks, own, |own|) && own <= want && n' == n.(size := n'.size)
    ensures Filled(n', blocks, want, |own|)
  {
    hide Pos;
    forall s | Inside(s) && Pos(s) < |own| ensures Value(n', blocks, s) == want[Pos(s)] {
      SizeAside(n, n', blocks, s);
    }
  }

  lemma SizeAside(n: Node, n': Node, blocks: Blocks, s: Slot)
    requires NodeOk(n) && Inside(s) && n' == n.(size := n'.size)
    ensures Value(n', blocks, s) == Value(n, blocks, s)
  {
  }

  lemma EndsOwned(n: Node, blocks0: Blocks, blocks: Blocks, want: seq<nat>)
    requires n.size <= MAX_SIZE && |want| == TotalBlocks(n.size) && Placed(n, blocks0, blocks, want, |want|)
    ensures NodeOk(n) && Owned(n, blocks) == want && SameBut(blocks0, blocks, Indexes(want))
  {
    hide Flat, Indexes, Total, Filled, SameBut;
    Bounds(n.size);
    NodeFilled(n, blocks, want);
    FilledIsFlat(n, blocks, want);
  }

  lemma NodeFilled(n: Node, blocks: Blocks, want: seq<nat>)
    requires Filled(n, blocks, want, |want|)
    ensures NodeOk(n)
  {
  }

  lemma SlotEntry(blocks: Blocks, b: nat, s: Slot, id: nat)
    requires !Rooted(s) && Inside(s)
    ensures WithSlotEntry(blocks, b, s, id) == blocks[b := WithEntry(At(blocks, b), EntryNo(s), id)]
  {
  }

  lemma PastOne(c: nat)
    requires c > 0
    ensures Past1(INODE_DIRECT_COUNT + c) == Total(INODE_DIRECT_COUNT + c)
  {
  }

  lemma PastTwo(c: nat)
    requires c > INDIRECT1_BOUND
    ensures Past2(c) == Total(c)
  {
  }

  lemma Indirect1Next(c: nat, total: nat)
    requires c < Min(total, INODE_INDIRECT1_COUNT)
    ensures var s := Data(INODE_DIRECT_COUNT + c);
            Inside(s) && !Rooted(s) && Past1(INODE_DIRECT_COUNT + c) == Pos(s) < Total(INODE_DIRECT_COUNT + total)
            && Past1(INODE_DIRECT_COUNT + c + 1) == Pos(s) + 1
  {
    Indirect1Pos(INODE_DIRECT_COUNT + c);
  }

  lemma Indirect1Value(n: Node, blocks: Blocks, s: Slot)
    requires NodeOk(n) && s.Data? && INODE_DIRECT_COUNT <= s.k < INDIRECT1_BOUND
    ensures Inside(s) && !Rooted(s) && Parent(s) == Ind1 && Value(n, blocks, Ind1) == n.indirect1
    ensures EntryNo(s) == s.k - INODE_DIRECT_COUNT
  {
  }

  lemma Indirect2Next(a: nat, b: nat, c: nat, total: nat)
    requires b < INODE_INDIRECT1_COUNT && c == INODE_INDIRECT1_COUNT * a + b < total
    requires INDIRECT1_BOUND + total <= INDIRECT2_BOUND
    ensures var s := Data(INDIRECT1_BOUND + c);
            && a < INODE_INDIRECT1_COUNT && Inside(s) && !Rooted(s) && Pos(s) < Total(INDIRECT1_BOUND + total)
            && Inside(Sub(a)) && !Rooted(Sub(a))
            && (b == 0 ==> Past2(INDIRECT1_BOUND + c) == Pos(Sub(a)) && Pos(s) == Pos(Sub(a)) + 1)
            && (b > 0 ==> Past2(INDIRECT1_BOUND + c) == Pos(s))
            && Past2(INDIRECT1_BOUND + c + 1) == Pos(s) + 1
  {
    hide Total, Pos, Past2;
    Indirect2Pos(a, b);
    TotalCounts(Data(INDIRECT1_BOUND + c), INDIRECT1_BOUND + total);
  }

  lemma SubValue(n: Node, blocks: Blocks, a: nat)
    requires NodeOk(n) && a < INODE_INDIRECT1_COUNT
    ensures Inside(Sub(a)) && !Rooted(Sub(a)) && Parent(Sub(a)) == Ind2 && EntryNo(Sub(a)) == a
    ensures Value(n, blocks, Ind2) == n.indirect2 && Value(n, blocks, Sub(a)) == Entry(At(blocks, n.indirect2), a)
  {
  }

  lemma Indirect2Value(n: Node, blocks: Blocks, a: nat, b: nat)
    requires NodeOk(n) && a < INODE_INDIRECT1_COUNT && b < INODE_INDIRECT1_COUNT
    ensures var s := Data(INDIRECT1_BOUND + INODE_INDIRECT1_COUNT * a + b);
            Inside(s) && !Rooted(s) && Parent(s) == Sub(a) && EntryNo(s) == b
            && Value(n, blocks, Parent(s)) == Entry(At(blocks, n.indirect2), a)
  {
    SubOf(a, b);
    SubValue(n, blocks, a);
  }

  lemma DirectRoom(c: nat, total: nat)
    requires c < total
    ensures Total(c) < Total(total)
  {
  }
}
