/** Two runs of the block cache of ext4-fs/src/block_cache.rs, call by call: one after which the block used last is
    evicted, and one that ends in the panic although a block that nobody holds is resident. */
module Ext4CacheRuns {
  import opened Common
  import opened Ext4Layout
  import opened Ext4Tree
  import opened Ext4Volume
  import opened Ext4BlockCache

  /** Blocks 1 to n are resident and have been used once each, in this order. */
  ghost predicate UsedInTurn(m: BlockCacheManager, n: nat)
    reads m
  {
    && m.Valid() && m.stamp == n == |m.queue| == |m.entries| && n <= BLOCK_CACHE_SIZE
    && (forall b :: b in m.entries <==> 1 <= b <= n)
    && (forall b :: b in m.entries ==> m.entries[b].stamp == b)
    && forall k :: 0 <= k < n ==> m.queue[k] == (k + 1, k + 1)
  }

  ghost predicate AllHeldOnce(entries: Entries) {
    forall b :: b in entries ==> entries[b].handles == 1
  }

  /** `get_block_cache` of an absent block while there is room. */
  lemma GotNew(entries: Entries, queue: Queue, device: Disk, b: nat, stamp: nat, entries': Entries, queue': Queue, device': Disk)
    requires Got(entries, queue, device, b, stamp, entries', queue', device') && b !in entries
    requires |entries| < BLOCK_CACHE_SIZE && |queue| < 4096
    ensures entries' == entries[b := Entry(Block(device', b), false, stamp, 1)] && queue' == queue + [(b, stamp)]
    ensures |entries'| == |entries| + 1
  {
    OneMore(entries, b, Entry(Block(device', b), false, stamp, 1));
  }

  lemma GotOld(entries: Entries, queue: Queue, device: Disk, b: nat, stamp: nat, entries': Entries, queue': Queue, device': Disk)
    requires Got(entries, queue, device, b, stamp, entries', queue', device') && b in entries
    ensures entries' == entries[b := entries[b].(stamp := stamp, handles := entries[b].handles + 1)]
    ensures if |queue| < 4096 then queue' == queue + [(b, stamp)] else Rebuilt(entries', queue')
    ensures |entries'| == |entries|
  {
    SameSize(entries, b, entries[b].(stamp := stamp, handles := entries[b].handles + 1));
  }

  lemma GotEvicting(entries: Entries, queue: Queue, device: Disk, b: nat, stamp: nat, entries': Entries, queue': Queue, device': Disk)
    requires Got(entries, queue, device, b, stamp, entries', queue', device') && b !in entries
    requires |entries| >= BLOCK_CACHE_SIZE
    ensures var i := VictimAt(entries, queue);
            && i < |queue| && queue[i].0 in entries
            && entries' == (entries - {queue[i].0})[b := Entry(Block(device', b), false, stamp, 1)]
            && (|queue| < 4096 ==> queue' == queue[i + 1..] + [(b, stamp)])
  {
  }

  /** Blocks 1 to 512 are asked for, one after the other; the handles are kept, or dropped at once. */
  method FillCache(keep: bool) returns (m: BlockCacheManager)
    ensures fresh(m) && UsedInTurn(m, BLOCK_CACHE_SIZE)
    ensures if keep then AllHeldOnce(m.entries) else NoHandles(m.entries)
  {
    hide *;
    m := new BlockCacheManager(map[]);
    Sizes();
    EmptyInTurn(m, keep);
    var b := 1;
    while b <= BLOCK_CACHE_SIZE
      invariant 1 <= b <= BLOCK_CACHE_SIZE + 1 && UsedInTurn(m, b - 1) && fresh(m)
      invariant if keep then AllHeldOnce(m.entries) else NoHandles(m.entries)
    {
      b := FillNext(m, b, keep);
    }
  }

  lemma Sizes()
    ensures BLOCK_CACHE_SIZE == 512 && U64 == 0x1_0000_0000_0000_0000
  {
  }

  lemma EmptyInTurn(m: BlockCacheManager, keep: bool)
    requires m.Valid() && m.entries == map[] && m.queue == [] && m.stamp == 0
    ensures UsedInTurn(m, 0) && AllHeldOnce(m.entries) && NoHandles(m.entries)
  {
  }

  method FillNext(m: BlockCacheManager, b: nat, keep: bool) returns (next: nat)
    requires 1 <= b <= BLOCK_CACHE_SIZE && UsedInTurn(m, b - 1)
    requires if keep then AllHeldOnce(m.entries) else NoHandles(m.entries)
    modifies m
    ensures next == b + 1 && UsedInTurn(m, b)
    ensures if keep then AllHeldOnce(m.entries) else NoHandles(m.entries)
  {
    hide *;
    Sizes();
    ghost var entries, queue, device, stamp := m.entries, m.queue, m.device, m.stamp;
    InTurnParts(m, b);
    var ok := m.GetBlockCache(b);
    GotNew(entries, queue, device, b, m.stamp, m.entries, m.queue, m.device);
    if !keep {
      m.Release(b);
    }
    InTurnNext(m, entries, queue, b, keep);
    return b + 1;
  }

  lemma InTurnParts(m: BlockCacheManager, b: nat)
    requires 1 <= b <= BLOCK_CACHE_SIZE && UsedInTurn(m, b - 1)
    ensures m.Valid() && b !in m.entries && |m.entries| < BLOCK_CACHE_SIZE && |m.queue| < 4096 && m.stamp == b - 1
    ensures Roomy(m.entries, m.queue) && UsedBefore(m.entries, m.queue, b)
  {
  }

  ghost predicate UsedBefore(entries: Entries, queue: Queue, b: nat) {
    && |queue| == |entries| == b - 1
    && (forall k :: k in entries <==> 1 <= k < b) && (forall k :: k in entries ==> entries[k].stamp == k)
    && forall k :: 0 <= k < b - 1 ==> queue[k] == (k + 1, k + 1)
  }

  lemma InTurnNext(m: BlockCacheManager, entries: Entries, queue: Queue, b: nat, keep: bool)
    requires 1 <= b <= BLOCK_CACHE_SIZE && UsedBefore(entries, queue, b) && m.Valid() && m.stamp == b
    requires b in m.entries && m.entries == entries[b := m.entries[b]] && m.entries[b].stamp == b
    requires m.entries[b].handles == (if keep then 1 else 0) && m.queue == queue + [(b, b)]
    requires if keep then AllHeldOnce(entries) else NoHandles(entries)
    ensures UsedInTurn(m, b) && if keep then AllHeldOnce(m.entries) else NoHandles(m.entries)
  {
    OneMore(entries, b, m.entries[b]);
  }

  // Least recently used

  /** Block 1 was used last, and the others once, before. */
  ghost predicate OneUsedLast(m: BlockCacheManager, n: nat)
    reads m
  {
    && m.Valid() && |m.entries| == BLOCK_CACHE_SIZE && m.stamp == n >= BLOCK_CACHE_SIZE
    && (forall b :: b in m.entries <==> 1 <= b <= BLOCK_CACHE_SIZE) && NoHandles(m.entries)
    && forall b :: b in m.entries && b != 1 ==> m.entries[b].stamp <= BLOCK_CACHE_SIZE
  }

  /** A use of block 1. */
  method UseOne(m: BlockCacheManager, n: nat)
    requires OneUsedLast(m, n) && n <= 4096
    modifies m
    ensures OneUsedLast(m, n + 1) && 1 in m.entries && m.entries[1].stamp == n + 1
    ensures if |old(m.queue)| < 4096 then |m.queue| == |old(m.queue)| + 1 else Rebuilt(m.entries, m.queue)
  {
    hide *;
    Sizes();
    ghost var entries, queue, device := m.entries, m.queue, m.device;
    OneParts(m, n);
    var ok := m.GetBlockCache(1);
    GotOld(entries, queue, device, 1, m.stamp, m.entries, m.queue, m.device);
    m.Release(1);
    RebuiltStill(m, entries, queue, n);
    OneAgain(m, entries, n);
  }

  lemma OneParts(m: BlockCacheManager, n: nat)
    requires OneUsedLast(m, n)
    ensures m.Valid() && 1 in m.entries && m.entries[1].handles == 0 && m.stamp == n >= 512 && |m.entries| == 512
    ensures OthersEarlier(m.entries)
  {
  }

  ghost predicate OthersEarlier(entries: Entries) {
    && (forall b :: b in entries <==> 1 <= b <= BLOCK_CACHE_SIZE) && NoHandles(entries)
    && forall b :: b in entries && b != 1 ==> entries[b].stamp <= BLOCK_CACHE_SIZE
  }

  lemma RebuiltStill(m: BlockCacheManager, entries: Entries, queue: Queue, n: nat)
    requires 1 in entries && 1 in m.entries && m.entries == entries[1 := m.entries[1]] && m.entries[1].stamp == n + 1
    requires if |queue| < 4096 then m.queue == queue + [(1, n + 1)]
             else Rebuilt(entries[1 := entries[1].(stamp := n + 1, handles := entries[1].handles + 1)], m.queue)
    ensures if |queue| < 4096 then |m.queue| == |queue| + 1 else Rebuilt(m.entries, m.queue)
  {
    if |queue| >= 4096 {
      var held := entries[1 := entries[1].(stamp := n + 1, handles := entries[1].handles + 1)];
      SameSize(entries, 1, m.entries[1]);
      SameSize(entries, 1, held[1]);
      forall i | 0 <= i < |m.queue| ensures IsCurrent(m.entries, m.queue[i]) {
        assert IsCurrent(held, m.queue[i]);
      }
    }
  }

  lemma OneAgain(m: BlockCacheManager, entries: Entries, n: nat)
    requires m.Valid() && m.stamp == n + 1 && |m.entries| == BLOCK_CACHE_SIZE <= n
    requires OthersEarlier(entries)
    requires 1 in m.entries && m.entries == entries[1 := m.entries[1]] && m.entries[1].handles == 0
    ensures OneUsedLast(m, n + 1)
  {
  }

  /** The cache is filled; block 1 is used again and again until the queue is rebuilt; then a block is missing. Block
      1, used last, is evicted, and every block used before it stays. */
  method LastUsedGoes() returns (m: BlockCacheManager, ghost before: Entries)
    ensures 1 in before && NoHandles(before) && forall b :: b in before && b != 1 ==> before[b].stamp < before[1].stamp
    ensures |before| == BLOCK_CACHE_SIZE && m.Valid()
    ensures 1 !in m.entries && forall b :: b in before && b != 1 ==> b in m.entries
  {
    hide *;
    Sizes();
    m := FillCache(false);
    FilledOne(m);
    var n := BLOCK_CACHE_SIZE;
    while n < 4096
      invariant BLOCK_CACHE_SIZE <= n <= 4096 && OneUsedLast(m, n) && |m.queue| == n && fresh(m)
    {
      UseOne(m, n);
      n := n + 1;
    }
    UseOne(m, n);
    before := m.entries;
    ghost var queue, device := m.queue, m.device;
    OneIsLeast(m, n + 1);
    RebuiltVictim(m.entries, m.queue);
    RoomyFirst(m.entries, m.queue);
    var ok := m.GetBlockCache(513);
    GotEvicting(before, queue, device, 513, m.stamp, m.entries, m.queue, m.device);
    OneGone(before, m.entries, m.entries, queue);
  }

  lemma FilledOne(m: BlockCacheManager)
    requires UsedInTurn(m, BLOCK_CACHE_SIZE) && NoHandles(m.entries)
    ensures OneUsedLast(m, BLOCK_CACHE_SIZE) && |m.queue| == BLOCK_CACHE_SIZE
  {
  }

  lemma OneIsLeast(m: BlockCacheManager, n: nat)
    requires OneUsedLast(m, n) && 1 in m.entries && m.entries[1].stamp == n > BLOCK_CACHE_SIZE
    ensures NoHandles(m.entries) && m.entries != map[] && |m.entries| == 512 && m.Valid() && 513 !in m.entries
    ensures forall b :: b in m.entries && b != 1 ==> m.entries[b].stamp < m.entries[1].stamp
    ensures forall b :: b in m.entries ==> 1 <= b
  {
  }

  lemma RoomyFirst(entries: Entries, queue: Queue)
    requires queue != [] && VictimAt(entries, queue) == 0
    ensures Roomy(entries, queue)
  {
  }

  lemma OneGone(before: Entries, after: Entries, same: Entries, queue: Queue)
    requires queue != [] && queue[0].0 in before && 1 in before && (forall b :: b in before ==> 1 <= b)
    requires forall b :: b in before ==> queue[0].0 <= b
    requires 513 in after && after == (before - {queue[0].0})[513 := after[513]]
    ensures 1 !in after && forall b :: b in before && b != 1 ==> b in after
  {
  }

  // The panic

  /** Blocks 1 to 512 are resident, and only block 1 is held. */
  ghost predicate OnlyOneHeld(entries: Entries, n: nat) {
    && (forall b :: b in entries <==> 1 <= b <= BLOCK_CACHE_SIZE)
    && (forall b :: b in entries ==> entries[b].stamp == b)
    && forall b :: b in entries ==> entries[b].handles == if b == 1 || b > n then 1 else 0
  }

  ghost predicate RecordsInTurn(queue: Queue) {
    |queue| == BLOCK_CACHE_SIZE && forall k :: 0 <= k < BLOCK_CACHE_SIZE ==> queue[k] == (k + 1, k + 1)
  }

  /** Every handle but that of block 1 is dropped. */
  method DropOthers(m: BlockCacheManager)
    requires UsedInTurn(m, BLOCK_CACHE_SIZE) && AllHeldOnce(m.entries)
    modifies m
    ensures m.Valid() && |m.entries| == BLOCK_CACHE_SIZE == m.stamp
    ensures OnlyOneHeld(m.entries, BLOCK_CACHE_SIZE) && RecordsInTurn(m.queue)
  {
    hide *;
    Sizes();
    HeldStart(m);
    var b := 2;
    while b <= BLOCK_CACHE_SIZE
      invariant 2 <= b <= BLOCK_CACHE_SIZE + 1 && m.Valid() && |m.entries| == BLOCK_CACHE_SIZE == m.stamp
      invariant OnlyOneHeld(m.entries, b - 1) && RecordsInTurn(m.queue)
    {
      ghost var entries := m.entries;
      HeldParts(entries, b);
      m.Release(b);
      HeldNext(entries, m.entries, b);
      b := b + 1;
    }
  }

  lemma HeldStart(m: BlockCacheManager)
    requires UsedInTurn(m, BLOCK_CACHE_SIZE) && AllHeldOnce(m.entries)
    ensures m.Valid() && |m.entries| == BLOCK_CACHE_SIZE == m.stamp && OnlyOneHeld(m.entries, 1) && RecordsInTurn(m.queue)
  {
  }

  lemma HeldParts(entries: Entries, b: nat)
    requires 2 <= b <= BLOCK_CACHE_SIZE && OnlyOneHeld(entries, b - 1)
    ensures b in entries && entries[b].handles == 1
  {
  }

  lemma HeldNext(entries: Entries, entries': Entries, b: nat)
    requires 2 <= b <= BLOCK_CACHE_SIZE && OnlyOneHeld(entries, b - 1) && b in entries
    requires entries' == entries[b := entries[b].(handles := entries[b].handles - 1)]
    ensures OnlyOneHeld(entries', b) && |entries'| == |entries|
  {
    SameSize(entries, b, entries[b].(handles := entries[b].handles - 1));
  }

  /** Block 1 is free and has no record any more; of the blocks 3 to 513, those below `n` and block 513 are held. */
  ghost predicate OneWithoutRecord(entries: Entries, queue: Queue, n: nat) {
    && (forall b :: b in entries <==> b == 1 || 3 <= b <= 513)
    && (forall b :: b in entries ==> entries[b].handles == if 3 <= b < n || b == 513 then 1 else 0)
    && (forall k :: 0 <= k < |queue| ==> queue[k].0 != 1)
    && |queue| == 508 + n
  }

  /** Block 513 is missing: the record of block 1, which is held, is passed over, and block 2 is evicted. Then block 1
      is dropped. */
  method PassOver(m: BlockCacheManager)
    requires m.Valid() && |m.entries| == BLOCK_CACHE_SIZE && OnlyOneHeld(m.entries, BLOCK_CACHE_SIZE) && RecordsInTurn(m.queue)
    modifies m
    ensures m.Valid() && |m.entries| == BLOCK_CACHE_SIZE && OneWithoutRecord(m.entries, m.queue, 3)
  {
    hide *;
    Sizes();
    ghost var entries, queue, device := m.entries, m.queue, m.device;
    SecondGoes(entries, queue);
    var ok := m.GetBlockCache(513);
    GotEvicting(entries, queue, device, 513, m.stamp, m.entries, m.queue, m.device);
    ghost var got := m.entries;
    OneHeldStill(entries, got, m.queue, queue);
    m.Release(1);
    OneDropped(entries, got, m.entries, queue, m.queue, m.stamp);
  }

  lemma SecondGoes(entries: Entries, queue: Queue)
    requires OnlyOneHeld(entries, BLOCK_CACHE_SIZE) && RecordsInTurn(queue)
    ensures VictimAt(entries, queue) == 1 && queue[1].0 == 2 && 513 !in entries && Roomy(entries, queue) && |queue| == 512
  {
    assert !Evictable(entries, queue[0]) && Evictable(entries, queue[1]);
  }

  lemma OneHeldStill(entries: Entries, got: Entries, queue': Queue, queue: Queue)
    requires OnlyOneHeld(entries, BLOCK_CACHE_SIZE) && 513 in got && got == (entries - {2})[513 := got[513]]
    ensures 1 in got && got[1].handles == 1
  {
  }

  lemma OneDropped(entries: Entries, got: Entries, entries': Entries, queue: Queue, queue': Queue, stamp: nat)
    requires OnlyOneHeld(entries, BLOCK_CACHE_SIZE) && RecordsInTurn(queue) && |entries| == BLOCK_CACHE_SIZE
    requires 513 in got && got == (entries - {2})[513 := got[513]] && got[513].handles == 1
    requires 1 in got && entries' == got[1 := got[1].(handles := got[1].handles - 1)]
    requires queue' == queue[2..] + [(513, stamp)]
    ensures OneWithoutRecord(entries', queue', 3) && |entries'| == BLOCK_CACHE_SIZE
  {
    assert |entries| == |entries.Keys| && |entries'| == |entries'.Keys|;
    assert entries'.Keys == entries.Keys - {2} + {513};
  }

  /** The panic of `evict_one`, although block 1 is resident and nobody holds it: its record was passed over while
      it was held, and all other blocks are held now. */
  method PanicsBesideFreeBlock() returns (m: BlockCacheManager, ok: bool, ghost before: Entries)
    ensures !ok && |before| == BLOCK_CACHE_SIZE && 1 in before && before[1].handles == 0
  {
    hide *;
    Sizes();
    m := FillCache(true);
    DropOthers(m);
    PassOver(m);
    var b := 3;
    while b <= BLOCK_CACHE_SIZE
      invariant 3 <= b <= BLOCK_CACHE_SIZE + 1 && m.Valid() && |m.entries| == BLOCK_CACHE_SIZE && fresh(m)
      invariant OneWithoutRecord(m.entries, m.queue, b)
    {
      ghost var entries, queue, device := m.entries, m.queue, m.device;
      FreeParts(entries, queue, b);
      ok := m.GetBlockCache(b);
      GotOld(entries, queue, device, b, m.stamp, m.entries, m.queue, m.device);
      FreeNext(entries, queue, m.entries, m.queue, b, m.stamp);
      b := b + 1;
    }
    before := m.entries;
    NoVictim(m.entries, m.queue);
    ok := m.GetBlockCache(514);
  }

  lemma FreeParts(entries: Entries, queue: Queue, b: nat)
    requires OneWithoutRecord(entries, queue, b) && 3 <= b <= BLOCK_CACHE_SIZE
    ensures b in entries && entries[b].handles == 0 && |queue| < 4096
  {
  }

  lemma FreeNext(entries: Entries, queue: Queue, entries': Entries, queue': Queue, b: nat, stamp: nat)
    requires OneWithoutRecord(entries, queue, b) && 3 <= b <= BLOCK_CACHE_SIZE && b in entries
    requires entries' == entries[b := entries[b].(stamp := stamp, handles := entries[b].handles + 1)]
    requires queue' == queue + [(b, stamp)]
    ensures OneWithoutRecord(entries', queue', b + 1)
  {
  }

  lemma NoVictim(entries: Entries, queue: Queue)
    requires OneWithoutRecord(entries, queue, BLOCK_CACHE_SIZE + 1) && |entries| == BLOCK_CACHE_SIZE
    ensures !Roomy(entries, queue) && 514 !in entries && 1 in entries && entries[1].handles == 0
  {
    forall k | 0 <= k < |queue| ensures !Evictable(entries, queue[k]) {
    }
  }
}
