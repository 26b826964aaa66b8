/** The cursor-driven allocators of ext4-fs/src/ext4.rs: `alloc_block`, `dealloc_block`, `alloc_inode`
    and `dealloc_inode`, over one bitmap block per group. */
module Ext4Alloc {
  import opened Common
  import opened Ext4Types
  import opened Ext4Bitmap

  const BLOCK_SZ: nat := 4096

  // Numbers and bits

  /** Numbers first, first + 1, ... below `total` are dealt out to groups of `perGroup` bits each. */
  datatype Geometry = Geometry(first: nat, perGroup: nat, total: nat, groups: nat) {
    ghost predicate Valid() {
      0 < perGroup <= 8 * BLOCK_SZ
    }

    function GroupOf(n: nat): nat
      requires perGroup > 0 && first <= n
    {
      (n - first) / perGroup
    }

    function LocalOf(n: nat): (local: nat)
      requires perGroup > 0 && first <= n
      ensures local < perGroup
    {
      (n - first) % perGroup
    }

    /** The number is one of the disk's, and its group has a bitmap. */
    ghost predicate InRange(n: nat) {
      perGroup > 0 && first <= n < total && GroupOf(n) < groups
    }

    function GroupStart(group: nat): nat {
      first + group * perGroup
    }

    /** `bits_in_group`. */
    function InGroup(group: nat): nat {
      if GroupStart(group) >= total then 0 else Min(total - GroupStart(group), perGroup)
    }
  }

  /** One sequence of bits for each group. */
  ghost predicate Fits(geo: Geometry, bits: seq<seq<bool>>) {
    && geo.Valid() && |bits| == geo.groups
    && forall g :: 0 <= g < |bits| ==> |bits[g]| == 8 * BLOCK_SZ
  }

  ghost predicate IsUsed(geo: Geometry, bits: seq<seq<bool>>, n: nat)
    requires Fits(geo, bits) && geo.InRange(n)
  {
    bits[geo.GroupOf(n)][geo.LocalOf(n)]
  }

  /** The numbers whose bits are set. */
  ghost function Used(geo: Geometry, bits: seq<seq<bool>>): set<nat>
    requires Fits(geo, bits)
  {
    set n: nat | geo.first <= n < geo.total && geo.InRange(n) && IsUsed(geo, bits, n)
  }

  /** The bitmaps with the bit of one number changed. */
  ghost function WithNumber(geo: Geometry, bits: seq<seq<bool>>, n: nat, value: bool): (r: seq<seq<bool>>)
    requires Fits(geo, bits) && n >= geo.first && geo.GroupOf(n) < geo.groups
    ensures Fits(geo, r)
  {
    var g, local := geo.GroupOf(n), geo.LocalOf(n);
    bits[g := bits[g][local := value]]
  }

  lemma DivisionUnique(n: nat, per: nat, g: nat, local: nat)
    requires per > 0 && local < per && n == g * per + local
    ensures n / per == g && n % per == local
  {
    if n / per < g {
      Times(n / per + 1, g, per);
    } else if n / per > g {
      Times(g + 1, n / per, per);
    }
  }

  lemma Times(a: nat, b: nat, per: nat)
    requires a <= b
    ensures a * per <= b * per && (a + 1) * per == a * per + per
  {
    assert (b - a) * per == b * per - a * per;
  }

  lemma BitChangesOneNumber(geo: Geometry, bits: seq<seq<bool>>, n: nat, value: bool, m: nat)
    requires Fits(geo, bits) && geo.InRange(m)
    requires n >= geo.first && geo.GroupOf(n) < geo.groups
    ensures IsUsed(geo, WithNumber(geo, bits, n, value), m) == if m == n then value else IsUsed(geo, bits, m)
  {
    var g, local := geo.GroupOf(n), geo.LocalOf(n);
    var g', local' := geo.GroupOf(m), geo.LocalOf(m);
    if g == g' && local == local' {
      SameQuotient(n - geo.first, m - geo.first, geo.perGroup);
    }
  }

  lemma SameQuotient(n: nat, m: nat, per: nat)
    requires per > 0 && n / per == m / per && n % per == m % per
    ensures n == m
  {
    assert n == per * (n / per) + n % per;
  }

  /** Setting a bit adds its number to the used ones, clearing it takes it away. */
  lemma UsedChanges(geo: Geometry, bits: seq<seq<bool>>, n: nat)
    requires Fits(geo, bits) && n >= geo.first && geo.GroupOf(n) < geo.groups
    ensures n < geo.total ==> Used(geo, WithNumber(geo, bits, n, true)) == Used(geo, bits) + {n}
    ensures Used(geo, WithNumber(geo, bits, n, false)) == Used(geo, bits) - {n}
  {
    hide IsUsed, WithNumber;
    forall m | geo.InRange(m)
      ensures IsUsed(geo, WithNumber(geo, bits, n, true), m) == if m == n then true else IsUsed(geo, bits, m)
      ensures IsUsed(geo, WithNumber(geo, bits, n, false), m) == if m == n then false else IsUsed(geo, bits, m)
    {
      BitChangesOneNumber(geo, bits, n, true, m);
      BitChangesOneNumber(geo, bits, n, false, m);
    }
  }

  /** Allocating a number and giving it back leaves every bit of every group as it was. */
  lemma GivenBack(geo: Geometry, bits: seq<seq<bool>>, n: nat)
    requires Fits(geo, bits) && geo.InRange(n) && !IsUsed(geo, bits, n)
    ensures WithNumber(geo, WithNumber(geo, bits, n, true), n, false) == bits
  {
    var g, local := geo.GroupOf(n), geo.LocalOf(n);
    assert bits[g][local := true][local := false] == bits[g];
    hide Geometry.GroupOf, Geometry.LocalOf;
  }

  // Groups

  /** Every number of the group is used. */
  ghost predicate GroupFull(geo: Geometry, bits: seq<seq<bool>>, group: nat)
    requires Fits(geo, bits) && group < geo.groups
  {
    AllSet(bits[group], geo.InGroup(group))
  }

  lemma FullMeansUsed(geo: Geometry, bits: seq<seq<bool>>)
    requires Fits(geo, bits) && forall g :: 0 <= g < geo.groups ==> GroupFull(geo, bits, g)
    ensures forall n :: geo.InRange(n) ==> IsUsed(geo, bits, n)
  {
    forall n: nat | geo.InRange(n) ensures IsUsed(geo, bits, n) {
      NumberInGroup(geo, n);
      assert GroupFull(geo, bits, geo.GroupOf(n));
      hide Geometry.GroupOf, Geometry.LocalOf, Geometry.GroupStart;
    }
  }

  lemma NumberInGroup(geo: Geometry, n: nat)
    requires geo.Valid() && geo.InRange(n)
    ensures geo.LocalOf(n) < geo.InGroup(geo.GroupOf(n))
  {
    assert n - geo.first == geo.GroupOf(n) * geo.perGroup + geo.LocalOf(n);
  }

  /** The number of a bit. */
  lemma NumberOfBit(geo: Geometry, group: nat, local: nat)
    requires geo.Valid() && group < geo.groups && local < geo.InGroup(group)
    ensures var n := geo.GroupStart(group) + local;
            && geo.InRange(n) && geo.GroupOf(n) == group && geo.LocalOf(n) == local
  {
    DivisionUnique(group * geo.perGroup + local, geo.perGroup, group, local);
  }

  /** No group after one that starts beyond the end has any numbers. */
  lemma EmptyGroups(geo: Geometry, bits: seq<seq<bool>>, group: nat, later: nat)
    requires Fits(geo, bits) && group <= later < geo.groups && geo.GroupStart(group) >= geo.total
    ensures GroupFull(geo, bits, later)
  {
    Times(group, later, geo.perGroup);
  }

  // Bitmap blocks in memory

  ghost predicate Separate(maps: seq<array<bv8>>) {
    && (forall g :: 0 <= g < |maps| ==> maps[g].Length == BLOCK_SZ)
    && forall g, h :: 0 <= g < h < |maps| ==> maps[g] != maps[h]
  }

  ghost function AllBits(maps: seq<array<bv8>>): (bits: seq<seq<bool>>)
    reads maps
    ensures |bits| == |maps| && forall g :: 0 <= g < |maps| ==> bits[g] == Bits(maps[g][..])
  {
    seq(|maps|, g requires 0 <= g < |maps| reads maps => Bits(maps[g][..]))
  }

  /** What the search of one group did: nothing but see it full, or set its first clear bit. */
  ghost predicate Searched(geo: Geometry, before: seq<seq<bool>>, after: seq<seq<bool>>, group: nat,
                           start: nat, found: Option<nat>) {
    && Fits(geo, before) && group < geo.groups
    && if found.None? then after == before && GroupFull(geo, before, group)
       else
         && FirstClearFrom(before[group], Min(start, geo.InGroup(group)), geo.InGroup(group), found.value)
         && after == before[group := before[group][found.value := true]]
  }

  method SearchGroup(geo: Geometry, maps: seq<array<bv8>>, group: nat, start: nat) returns (found: Option<nat>)
    requires Separate(maps) && geo.Valid() && geo.groups == |maps| && group < |maps|
    modifies maps[group]
    ensures Searched(geo, old(AllBits(maps)), AllBits(maps), group, start, found)
  {
    hide Bits;
    ghost var before := AllBits(maps);
    found := FindAndAllocBitFrom(maps[group], start, geo.InGroup(group));
    forall g | 0 <= g < |maps| && g != group ensures maps[g][..] == old(maps[g][..]) {
    }
  }

  /** `n` was free, its bit is set now and the search stopped at the first free number it met;
      or there was none, and nothing has changed. */
  ghost predicate Allocated(geo: Geometry, before: seq<seq<bool>>, after: seq<seq<bool>>, n: Option<nat>) {
    && Fits(geo, before)
    && if n.None? then after == before && forall m :: geo.InRange(m) ==> IsUsed(geo, before, m)
       else
         && geo.InRange(n.value) && !IsUsed(geo, before, n.value)
         && after == WithNumber(geo, before, n.value, true)
  }

  /** The number's bit, if some group has it, is cleared, and no other bit changes. */
  ghost predicate Deallocated(geo: Geometry, before: seq<seq<bool>>, after: seq<seq<bool>>, n: nat) {
    && Fits(geo, before)
    && after == if n >= geo.first && geo.GroupOf(n) < geo.groups then WithNumber(geo, before, n, false) else before
  }

  lemma FoundInGroup(geo: Geometry, before: seq<seq<bool>>, after: seq<seq<bool>>, group: nat, start: nat, found: Option<nat>)
    requires Searched(geo, before, after, group, start, found) && found.Some?
    ensures var n := geo.GroupStart(group) + found.value;
            Allocated(geo, before, after, Some(n)) && geo.GroupOf(n) == group && FirstInGroup(geo, before, start, n)
  {
    NumberOfBit(geo, group, found.value);
  }

  /** The number is the first free one of its group from the given place on, around the end. */
  ghost predicate FirstInGroup(geo: Geometry, bits: seq<seq<bool>>, start: nat, n: nat) {
    && Fits(geo, bits) && geo.InRange(n)
    && var size := geo.InGroup(geo.GroupOf(n)); FirstClearFrom(bits[geo.GroupOf(n)], Min(start, size), size, geo.LocalOf(n))
  }

  /** The groups from `begin` up to `end` are searched, one pass of the two: the first group from the given place on,
      if it is this pass's turn, the others from their beginning. */
  ghost predicate PassDone(geo: Geometry, before: seq<seq<bool>>, after: seq<seq<bool>>, begin: nat, end: nat,
                           pass: nat, startGroup: nat, startLocal: nat, n: Option<nat>) {
    && Fits(geo, before) && end <= geo.groups
    && if n.None? then after == before && forall g :: begin <= g < end ==> GroupFull(geo, before, g)
       else
         && Allocated(geo, before, after, n)
         && var group := geo.GroupOf(n.value);
            && begin <= group < end && FirstInGroup(geo, before, if pass == 0 && group == startGroup then startLocal else 0, n.value)
            && forall g :: begin <= g < group ==> GroupFull(geo, before, g)
  }

  // Next fit

  /** The group and the place in it where a search from the cursor begins. */
  function SearchStart(cursor: nat, first: nat, perGroup: nat): (nat, nat)
    requires perGroup > 0
  {
    var rel := Max(cursor, first) - first;
    (rel / perGroup, rel % perGroup)
  }

  ghost predicate SetAt(bits: seq<seq<bool>>, group: int, local: int) {
    0 <= group < |bits| && 0 <= local < |bits[group]| && bits[group][local]
  }

  /** When a group has its turn in a search that begins in group `from`. */
  ghost function Turn(group: int, from: int, groups: int): int {
    if group >= from then group - from else groups + group
  }

  /** A search from the cursor meets m before n: in the group of the cursor the numbers from the cursor on come first,
      then those before it; then come the groups behind, and then those in front. */
  ghost predicate MetBefore(first: nat, perGroup: nat, groups: nat, cursor: nat, m: nat, n: nat)
    requires perGroup > 0 && first <= m && first <= n
  {
    var s := if cursor < first then first else cursor;
    var gm, gn, gs := (m - first) / perGroup, (n - first) / perGroup, (s - first) / perGroup;
    if gm != gn then Turn(gm, gs, groups) < Turn(gn, gs, groups)
    else if gm != gs then m < n
    else if n >= s then s <= m < n
    else m < n || s <= m
  }

  /** Numbers first, first + 1, ... below `total` have their bits in groups of `perGroup`: all those that a search from
      the cursor meets before n are used, and n is not. */
  ghost predicate NextFit(bits: seq<seq<bool>>, first: nat, perGroup: nat, total: nat, cursor: nat, n: nat)
    requires perGroup > 0
  {
    && first <= n < total && (n - first) / perGroup < |bits| && !SetAt(bits, (n - first) / perGroup, (n - first) % perGroup)
    && forall m: nat :: first <= m < total && (m - first) / perGroup < |bits| && MetBefore(first, perGroup, |bits|, cursor, m, n) ==>
         SetAt(bits, (m - first) / perGroup, (m - first) % perGroup)
  }

  /** If the number at the cursor is free, it is the one. */
  lemma CursorFirst(bits: seq<seq<bool>>, first: nat, perGroup: nat, total: nat, cursor: nat, n: nat)
    requires perGroup > 0 && NextFit(bits, first, perGroup, total, cursor, n)
    requires first <= cursor < total && (cursor - first) / perGroup < |bits|
    requires !SetAt(bits, (cursor - first) / perGroup, (cursor - first) % perGroup)
    ensures n == cursor
  {
    hide SetAt;
    assert n != cursor ==> MetBefore(first, perGroup, |bits|, cursor, cursor, n);
  }

  lemma MeetsUsed(geo: Geometry, bits: seq<seq<bool>>, cursor: nat, n: nat, m: nat)
    requires Fits(geo, bits) && geo.InRange(n) && geo.InRange(m) && MetBefore(geo.first, geo.perGroup, geo.groups, cursor, m, n)
    requires var start := SearchStart(cursor, geo.first, geo.perGroup);
             && FirstInGroup(geo, bits, if geo.GroupOf(n) == start.0 then start.1 else 0, n)
             && forall g: nat :: g < geo.groups && Turn(g, start.0, geo.groups) < Turn(geo.GroupOf(n), start.0, geo.groups) ==> GroupFull(geo, bits, g)
    ensures IsUsed(geo, bits, m)
  {
    NumberInGroup(geo, m);
    var start := SearchStart(cursor, geo.first, geo.perGroup);
    var gm, gn := geo.GroupOf(m), geo.GroupOf(n);
    if gm != gn {
      assert GroupFull(geo, bits, gm);
    } else {
      SameGroup(geo, m, n);
      if gm == start.0 {
        var s := Max(cursor, geo.first);
        SplitNumber(s - geo.first, geo.perGroup);
        SplitNumber(m - geo.first, geo.perGroup);
        SplitNumber(n - geo.first, geo.perGroup);
      }
    }
  }

  lemma SplitNumber(n: nat, per: nat)
    requires per > 0
    ensures n == per * (n / per) + n % per
  {
  }

  lemma SameGroup(geo: Geometry, m: nat, n: nat)
    requires geo.Valid() && geo.first <= m && geo.first <= n && geo.GroupOf(m) == geo.GroupOf(n)
    ensures m < n <==> geo.LocalOf(m) < geo.LocalOf(n)
  {
    SplitNumber(m - geo.first, geo.perGroup);
    SplitNumber(n - geo.first, geo.perGroup);
  }

  /** What the two passes find is the next fit. */
  lemma PassesMeet(geo: Geometry, before: seq<seq<bool>>, after: seq<seq<bool>>, cursor: nat, pass: nat, n: nat)
    requires geo.Valid() && pass < 2
    requires var start := SearchStart(cursor, geo.first, geo.perGroup);
             && (if pass == 0 then PassDone(geo, before, after, start.0, geo.groups, pass, start.0, start.1, Some(n))
                 else PassDone(geo, before, after, 0, Min(start.0, geo.groups), pass, start.0, start.1, Some(n)))
             && (pass == 1 ==> PassDone(geo, before, before, start.0, geo.groups, 0, start.0, start.1, None))
    ensures Allocated(geo, before, after, Some(n)) && NextFit(before, geo.first, geo.perGroup, geo.total, cursor, n)
  {
    hide FirstInGroup, GroupFull, MetBefore, SearchStart;
    var start := SearchStart(cursor, geo.first, geo.perGroup);
    forall m: nat | geo.InRange(m) && MetBefore(geo.first, geo.perGroup, geo.groups, cursor, m, n)
      ensures IsUsed(geo, before, m)
    {
      MeetsUsed(geo, before, cursor, n, m);
    }
  }

  lemma NothingFound(geo: Geometry, before: seq<seq<bool>>, after: seq<seq<bool>>, begin: nat, end: nat, pass: nat,
                     startGroup: nat, startLocal: nat)
    requires PassDone(geo, before, after, begin, end, pass, startGroup, startLocal, None)
    ensures after == before
  {
  }

  lemma TwoPasses(geo: Geometry, before: seq<seq<bool>>, startGroup: nat, startLocal: nat)
    requires PassDone(geo, before, before, startGroup, geo.groups, 0, startGroup, startLocal, None)
    requires PassDone(geo, before, before, 0, Min(startGroup, geo.groups), 1, startGroup, startLocal, None)
    ensures Allocated(geo, before, before, None)
  {
    FullMeansUsed(geo, before);
  }

  /** Clears one bit of one group. */
  method ClearBit(maps: seq<array<bv8>>, group: nat, local: nat)
    requires Separate(maps) && group < |maps| && local < 8 * BLOCK_SZ
    modifies maps[group]
    ensures AllBits(maps) == old(AllBits(maps))[group := old(AllBits(maps))[group][local := false]]
  {
    hide Bits;
    SetBitmapBit(maps[group], local, false);
    forall g | 0 <= g < |maps| && g != group ensures maps[g][..] == old(maps[g][..]) {
    }
  }

  /** The allocation state of `Ext4FileSystem`. */
  class Ext4FileSystem {
    const firstDataBlock: nat
    const blocksPerGroup: nat
    const totalBlocks: nat
    const inodesPerGroup: nat
    const blockBitmaps: seq<array<bv8>>
    const inodeBitmaps: seq<array<bv8>>
    var nextAllocBlock: nat
    var nextAllocInode: nat

    ghost predicate Valid() {
      && 0 < blocksPerGroup <= 8 * BLOCK_SZ && totalBlocks < U64
      && 0 < inodesPerGroup <= 8 * BLOCK_SZ && |inodeBitmaps| * inodesPerGroup < U32
      && |inodeBitmaps| == |blockBitmaps| && Separate(blockBitmaps + inodeBitmaps)
    }

    /** The state of a file system that has just been opened. */
    constructor (firstDataBlock: nat, blocksPerGroup: nat, totalBlocks: nat, inodesPerGroup: nat, firstInode: nat,
                 blockBitmaps: seq<array<bv8>>, inodeBitmaps: seq<array<bv8>>)
      requires 0 < blocksPerGroup <= 8 * BLOCK_SZ && totalBlocks < U64
      requires 0 < inodesPerGroup <= 8 * BLOCK_SZ && |inodeBitmaps| * inodesPerGroup < U32
      requires |inodeBitmaps| == |blockBitmaps| && Separate(blockBitmaps + inodeBitmaps)
      ensures Valid() && this.blockBitmaps == blockBitmaps && this.inodeBitmaps == inodeBitmaps
      ensures this.firstDataBlock == firstDataBlock && this.blocksPerGroup == blocksPerGroup && this.totalBlocks == totalBlocks
      ensures this.inodesPerGroup == inodesPerGroup && nextAllocBlock == firstDataBlock && nextAllocInode == firstInode
    {
      this.firstDataBlock := firstDataBlock;
      this.blocksPerGroup := blocksPerGroup;
      this.totalBlocks := totalBlocks;
      this.inodesPerGroup := inodesPerGroup;
      this.blockBitmaps := blockBitmaps;
      this.inodeBitmaps := inodeBitmaps;
      nextAllocBlock := firstDataBlock;
      nextAllocInode := firstInode;
    }

    lemma TwoBitmaps()
      requires Valid()
      ensures Separate(blockBitmaps) && Separate(inodeBitmaps)
      ensures forall g, h :: 0 <= g < |blockBitmaps| && 0 <= h < |inodeBitmaps| ==> blockBitmaps[g] != inodeBitmaps[h]
    {
      var maps := blockBitmaps + inodeBitmaps;
      forall g | 0 <= g < |blockBitmaps| ensures blockBitmaps[g] == maps[g] {
      }
      forall h | 0 <= h < |inodeBitmaps| ensures inodeBitmaps[h] == maps[|blockBitmaps| + h] {
      }
    }

    function Blocks(): Geometry {
      Geometry(firstDataBlock, blocksPerGroup, totalBlocks, |blockBitmaps|)
    }

    /** Inode numbers start at 1, and every group has its full number of them. */
    function Inodes(): Geometry {
      Geometry(1, inodesPerGroup, 1 + |inodeBitmaps| * inodesPerGroup, |inodeBitmaps|)
    }

    /** One step of the loop over groups in `alloc_block`. */
    method TryBlockGroup(group: nat, start: nat) returns (found: Option<nat>)
      requires Valid() && group < |blockBitmaps|
      requires Blocks().GroupStart(group) < totalBlocks
      modifies blockBitmaps[group], this`nextAllocBlock
      ensures found.None? ==>
                && nextAllocBlock == old(nextAllocBlock)
                && AllBits(blockBitmaps) == old(AllBits(blockBitmaps))
                && Fits(Blocks(), AllBits(blockBitmaps)) && GroupFull(Blocks(), AllBits(blockBitmaps), group)
      ensures found.Some? ==>
                && nextAllocBlock == Saturating64(found.value + 1)
                && Allocated(Blocks(), old(AllBits(blockBitmaps)), AllBits(blockBitmaps), found)
                && Blocks().GroupOf(found.value) == group && FirstInGroup(Blocks(), old(AllBits(blockBitmaps)), start, found.value)
    {
      hide Bits, AllSet, Allocated, GroupFull, FirstInGroup;
      TwoBitmaps();
      var groupStart := firstDataBlock + group * blocksPerGroup;
      ghost var before := AllBits(blockBitmaps);
      var bit := SearchGroup(Blocks(), blockBitmaps, group, start);
      if bit.Some? {
        FoundInGroup(Blocks(), before, AllBits(blockBitmaps), group, start, bit);
        var blk := groupStart + bit.value;
        nextAllocBlock := Saturating64(blk + 1);
        return Some(blk);
      }
      return None;
    }

    /** One pass of `alloc_block`. */
    method BlockPass(pass: nat, begin: nat, end: nat, startGroup: nat, startLocal: nat) returns (found: Option<nat>)
      requires Valid() && end <= |blockBitmaps|
      modifies blockBitmaps, this`nextAllocBlock
      ensures PassDone(Blocks(), old(AllBits(blockBitmaps)), AllBits(blockBitmaps), begin, end, pass, startGroup, startLocal, found)
      ensures nextAllocBlock == if found.None? then old(nextAllocBlock) else Saturating64(found.value + 1)
    {
      hide Bits, AllSet, Allocated, GroupFull, FirstInGroup;
      TwoBitmaps();
      var group := begin;
      assert Fits(Blocks(), AllBits(blockBitmaps));
      while group < end
        invariant begin <= group && nextAllocBlock == old(nextAllocBlock)
        invariant AllBits(blockBitmaps) == old(AllBits(blockBitmaps))
        invariant forall g :: begin <= g < group && g < end ==> GroupFull(Blocks(), AllBits(blockBitmaps), g)
      {
        var groupStart := firstDataBlock + group * blocksPerGroup;
        if groupStart >= totalBlocks {
          forall g | group <= g < end ensures GroupFull(Blocks(), AllBits(blockBitmaps), g) {
            EmptyGroups(Blocks(), AllBits(blockBitmaps), group, g);
          }
          return None;
        }
        found := TryBlockGroup(group, if pass == 0 && group == startGroup then startLocal else 0);
        if found.Some? {
          return;
        }
        group := group + 1;
      }
      return None;
    }

    /** `alloc_block`: the next fit from any cursor, a free block of the disk if there is one; only its bit changes. */
    method AllocBlock() returns (block: Option<nat>)
      requires Valid()
      modifies blockBitmaps, this`nextAllocBlock
      ensures Allocated(Blocks(), old(AllBits(blockBitmaps)), AllBits(blockBitmaps), block)
      ensures block.Some? ==>
                NextFit(old(AllBits(blockBitmaps)), firstDataBlock, blocksPerGroup, totalBlocks, old(nextAllocBlock), block.value)
      ensures nextAllocBlock == if block.None? then old(nextAllocBlock) else Saturating64(block.value + 1)
    {
      hide Bits, AllBits, Allocated, GroupFull, SearchStart, Fits, FirstInGroup, NextFit, PassDone;
      var start := SearchStart(nextAllocBlock, firstDataBlock, blocksPerGroup);
      var startGroup, startLocal := start.0, start.1;
      for pass := 0 to 2
        invariant nextAllocBlock == old(nextAllocBlock) && AllBits(blockBitmaps) == old(AllBits(blockBitmaps))
        invariant pass >= 1 ==> PassDone(Blocks(), old(AllBits(blockBitmaps)), AllBits(blockBitmaps), startGroup, |blockBitmaps|, 0, startGroup, startLocal, None)
        invariant pass >= 2 ==>
                    PassDone(Blocks(), old(AllBits(blockBitmaps)), AllBits(blockBitmaps), 0, Min(startGroup, |blockBitmaps|), 1, startGroup, startLocal, None)
      {
        var groups := |blockBitmaps|;
        var begin := if pass == 0 then startGroup else 0;
        var end := if pass == 0 then groups else Min(startGroup, groups);
        block := BlockPass(pass, begin, end, startGroup, startLocal);
        if block.Some? {
          PassesMeet(Blocks(), old(AllBits(blockBitmaps)), AllBits(blockBitmaps), old(nextAllocBlock), pass, block.value);
          return;
        }
        NothingFound(Blocks(), old(AllBits(blockBitmaps)), AllBits(blockBitmaps), begin, end, pass, startGroup, startLocal);
      }
      TwoPasses(Blocks(), AllBits(blockBitmaps), startGroup, startLocal);
      return None;
    }

    /** `dealloc_block`: only that block's bit is cleared; a block that no group has is ignored. */
    method DeallocBlock(block: nat)
      requires Valid()
      modifies blockBitmaps
      ensures Deallocated(Blocks(), old(AllBits(blockBitmaps)), AllBits(blockBitmaps), block)
    {
      hide Bits, Geometry.GroupOf, Geometry.LocalOf;
      TwoBitmaps();
      if block < firstDataBlock {
        return;
      }
      var group, local := Blocks().GroupOf(block), Blocks().LocalOf(block);
      if group >= |blockBitmaps| {
        return;
      }
      ClearBit(blockBitmaps, group, local);
    }

    /** `alloc_inode` searches all bits of each group. */
    lemma AllInodesInGroup(group: nat)
      requires Valid() && group < |inodeBitmaps|
      ensures Inodes().InGroup(group) == inodesPerGroup
    {
      Times(group + 1, |inodeBitmaps|, inodesPerGroup);
      Times(group, group + 1, inodesPerGroup);
    }

    /** One step of the loop over groups in `alloc_inode`. */
    method TryInodeGroup(group: nat, start: nat) returns (found: Option<nat>)
      requires Valid() && group < |inodeBitmaps|
      modifies inodeBitmaps[group], this`nextAllocInode
      ensures found.None? ==>
                && nextAllocInode == old(nextAllocInode)
                && AllBits(inodeBitmaps) == old(AllBits(inodeBitmaps))
                && Fits(Inodes(), AllBits(inodeBitmaps)) && GroupFull(Inodes(), AllBits(inodeBitmaps), group)
      ensures found.Some? ==>
                && nextAllocInode == Saturating32(found.value + 1)
                && Allocated(Inodes(), old(AllBits(inodeBitmaps)), AllBits(inodeBitmaps), found)
                && Inodes().GroupOf(found.value) == group && FirstInGroup(Inodes(), old(AllBits(inodeBitmaps)), start, found.value)
    {
      hide Bits, AllSet, Allocated, GroupFull, FirstInGroup;
      TwoBitmaps();
      ghost var before := AllBits(inodeBitmaps);
      AllInodesInGroup(group);
      var bit := SearchGroup(Inodes(), inodeBitmaps, group, start);
      if bit.Some? {
        FoundInGroup(Inodes(), before, AllBits(inodeBitmaps), group, start, bit);
        var inodeNum := group * inodesPerGroup + bit.value + 1;
        nextAllocInode := Saturating32(inodeNum + 1);
        return Some(inodeNum);
      }
      return None;
    }

    method InodePass(pass: nat, begin: nat, end: nat, startGroup: nat, startLocal: nat) returns (found: Option<nat>)
      requires Valid() && end <= |inodeBitmaps|
      modifies inodeBitmaps, this`nextAllocInode
      ensures PassDone(Inodes(), old(AllBits(inodeBitmaps)), AllBits(inodeBitmaps), begin, end, pass, startGroup, startLocal, found)
      ensures nextAllocInode == if found.None? then old(nextAllocInode) else Saturating32(found.value + 1)
    {
      hide Bits, AllSet, Allocated, GroupFull, FirstInGroup;
      TwoBitmaps();
      var group := begin;
      assert Fits(Inodes(), AllBits(inodeBitmaps));
      while group < end
        invariant begin <= group && nextAllocInode == old(nextAllocInode)
        invariant AllBits(inodeBitmaps) == old(AllBits(inodeBitmaps))
        invariant forall g :: begin <= g < group && g < end ==> GroupFull(Inodes(), AllBits(inodeBitmaps), g)
      {
        found := TryInodeGroup(group, if pass == 0 && group == startGroup then startLocal else 0);
        if found.Some? {
          return;
        }
        group := group + 1;
      }
      return None;
    }

    /** `alloc_inode`. */
    method AllocInode() returns (inodeNum: Option<nat>)
      requires Valid()
      modifies inodeBitmaps, this`nextAllocInode
      ensures Allocated(Inodes(), old(AllBits(inodeBitmaps)), AllBits(inodeBitmaps), inodeNum)
      ensures inodeNum.Some? ==>
                NextFit(old(AllBits(inodeBitmaps)), 1, inodesPerGroup, 1 + |inodeBitmaps| * inodesPerGroup, old(nextAllocInode), inodeNum.value)
      ensures nextAllocInode == if inodeNum.None? then old(nextAllocInode) else Saturating32(inodeNum.value + 1)
    {
      hide Bits, AllBits, Allocated, GroupFull, SearchStart, Fits, FirstInGroup, NextFit, PassDone;
      var start := SearchStart(nextAllocInode, 1, inodesPerGroup);
      var startGroup, startLocal := start.0, start.1;
      for pass := 0 to 2
        invariant nextAllocInode == old(nextAllocInode) && AllBits(inodeBitmaps) == old(AllBits(inodeBitmaps))
        invariant pass >= 1 ==> PassDone(Inodes(), old(AllBits(inodeBitmaps)), AllBits(inodeBitmaps), startGroup, |inodeBitmaps|, 0, startGroup, startLocal, None)
        invariant pass >= 2 ==>
                    PassDone(Inodes(), old(AllBits(inodeBitmaps)), AllBits(inodeBitmaps), 0, Min(startGroup, |inodeBitmaps|), 1, startGroup, startLocal, None)
      {
        var groups := |inodeBitmaps|;
        var begin := if pass == 0 then startGroup else 0;
        var end := if pass == 0 then groups else Min(startGroup, groups);
        inodeNum := InodePass(pass, begin, end, startGroup, startLocal);
        if inodeNum.Some? {
          PassesMeet(Inodes(), old(AllBits(inodeBitmaps)), AllBits(inodeBitmaps), old(nextAllocInode), pass, inodeNum.value);
          return;
        }
        NothingFound(Inodes(), old(AllBits(inodeBitmaps)), AllBits(inodeBitmaps), begin, end, pass, startGroup, startLocal);
      }
      TwoPasses(Inodes(), AllBits(inodeBitmaps), startGroup, startLocal);
      return None;
    }

    /** `dealloc_inode`. */
    method DeallocInode(inodeNum: nat)
      requires Valid()
      modifies inodeBitmaps
      ensures Deallocated(Inodes(), old(AllBits(inodeBitmaps)), AllBits(inodeBitmaps), inodeNum)
    {
      hide Bits, Geometry.GroupOf, Geometry.LocalOf;
      TwoBitmaps();
      if inodeNum == 0 {
        return;
      }
      var group, localIdx := Inodes().GroupOf(inodeNum), Inodes().LocalOf(inodeNum);
      if group >= |inodeBitmaps| {
        return;
      }
      ClearBit(inodeBitmaps, group, localIdx);
    }
  }
}
