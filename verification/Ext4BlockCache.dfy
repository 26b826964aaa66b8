/** The write-back block cache of ext4-fs/src/block_cache.rs: a map of resident blocks and a queue of use
    records, of which only the newest for each block counts. */
module Ext4BlockCache {
  import opened Common
  import opened Ext4Types
  import opened Ext4Layout
  import opened Ext4Tree
  import opened Ext4Volume

  const BLOCK_CACHE_SIZE: nat := 512
  const QUEUE_LIMIT_MULT: nat := 8

  /** A resident block. `handles` counts the references held outside the manager, which itself holds one. */
  datatype Entry = Entry(bytes: seq<byte>, modified: bool, stamp: nat, handles: nat)

  type Entries = map<nat, Entry>
  type Queue = seq<(nat, nat)>

  // Contents

  /** What a reader of block b gets: the cached bytes if it is resident, else the device's. */
  function Logical(entries: Entries, device: Disk, b: nat): seq<byte> {
    if b in entries then entries[b].bytes else Block(device, b)
  }

  /** Every block reads the same. */
  ghost predicate SameContents(entries: Entries, device: Disk, entries': Entries, device': Disk) {
    forall b: nat :: Logical(entries', device', b) == Logical(entries, device, b)
  }

  /** Every block but one reads the same. */
  ghost predicate SameContentsBut(entries: Entries, device: Disk, entries': Entries, device': Disk, except: nat) {
    forall b: nat :: b != except ==> Logical(entries', device', b) == Logical(entries, device, b)
  }

  /** Resident blocks are whole, and those not marked modified are as on the device. */
  ghost predicate Coherent(entries: Entries, device: Disk) {
    forall b :: b in entries ==>
      |entries[b].bytes| == BLOCK_SZ && (!entries[b].modified ==> entries[b].bytes == Block(device, b))
  }

  /** `BlockCache::sync`, and what dropping a cached block does to the device. */
  function Synced(device: Disk, b: nat, e: Entry): Disk {
    if e.modified then device[b := e.bytes] else device
  }

  lemma DroppedSame(entries: Entries, device: Disk, b: nat)
    requires Coherent(entries, device) && b in entries
    ensures var device' := Synced(device, b, entries[b]);
            Coherent(entries - {b}, device') && SameContents(entries, device, entries - {b}, device')
  {
  }

  lemma SyncedSame(entries: Entries, device: Disk, b: nat)
    requires Coherent(entries, device) && b in entries
    ensures var device', entries' := Synced(device, b, entries[b]), entries[b := entries[b].(modified := false)];
            Coherent(entries', device') && SameContents(entries, device, entries', device')
  {
  }

  /** A block comes into the cache: as the device has it, or zeroed and marked. */
  lemma InsertedBlock(entries: Entries, device: Disk, b: nat, e: Entry)
    requires Coherent(entries, device) && b !in entries && |e.bytes| == BLOCK_SZ
    requires !e.modified ==> e.bytes == Block(device, b)
    ensures Coherent(entries[b := e], device)
    ensures SameContentsBut(entries, device, entries[b := e], device, b)
    ensures e.bytes == Block(device, b) ==> SameContents(entries, device, entries[b := e], device)
  {
    hide Block;
  }

  /** Entries that differ in stamps and handles only. */
  ghost predicate SameBlocks(entries: Entries, entries': Entries) {
    && entries'.Keys == entries.Keys
    && forall b :: b in entries ==> entries'[b].bytes == entries[b].bytes && entries'[b].modified == entries[b].modified
  }

  lemma SameBlocksCoherent(entries: Entries, entries': Entries, device: Disk)
    requires SameBlocks(entries, entries') && Coherent(entries, device)
    ensures Coherent(entries', device) && SameContents(entries, device, entries', device)
  {
    hide Block;
    forall b: nat ensures b in entries' <==> b in entries {
      assert b in entries'.Keys <==> b in entries.Keys;
    }
  }

  // Records

  /** The record is the newest for a resident block. */
  predicate IsCurrent(entries: Entries, record: (nat, nat)) {
    record.0 in entries && entries[record.0].stamp == record.1
  }

  /** The record names a block that may be evicted now. */
  predicate Evictable(entries: Entries, record: (nat, nat)) {
    IsCurrent(entries, record) && entries[record.0].handles == 0
  }

  /** Every resident block has its newest record in the queue. */
  ghost predicate Recorded(entries: Entries, queue: Queue) {
    forall b :: b in entries ==> (b, entries[b].stamp) in queue
  }

  ghost predicate NoHandles(entries: Entries) {
    forall b :: b in entries ==> entries[b].handles == 0
  }

  /** Position of the first record that names a victim; the length of the queue if none does. */
  function VictimAt(entries: Entries, queue: Queue): (i: nat)
    ensures i <= |queue|
    ensures forall j :: 0 <= j < i ==> !Evictable(entries, queue[j])
    ensures i < |queue| ==> Evictable(entries, queue[i])
  {
    if queue == [] then 0 else if Evictable(entries, queue[0]) then 0 else 1 + VictimAt(entries, queue[1..])
  }

  lemma VictimAtNext(entries: Entries, queue: Queue, scanned: nat)
    requires scanned < |queue| && !Evictable(entries, queue[scanned])
    requires VictimAt(entries, queue) == scanned + VictimAt(entries, queue[scanned..])
    ensures VictimAt(entries, queue) == scanned + 1 + VictimAt(entries, queue[scanned + 1..])
  {
    assert queue[scanned..][1..] == queue[scanned + 1..];
  }

  /** With no handles held, a full cache always has a victim. */
  lemma VictimExists(entries: Entries, queue: Queue, b: nat)
    requires Recorded(entries, queue) && NoHandles(entries) && b in entries
    ensures VictimAt(entries, queue) < |queue|
  {
    var i :| 0 <= i < |queue| && queue[i] == (b, entries[b].stamp);
    assert Evictable(entries, queue[i]);
  }

  /** Eviction keeps the records of the blocks that stay. */
  lemma StillRecorded(entries: Entries, queue: Queue)
    requires Recorded(entries, queue) && NoHandles(entries) && VictimAt(entries, queue) < |queue|
    ensures var i := VictimAt(entries, queue);
            Recorded(entries - {queue[i].0}, queue[i + 1..]) && NoHandles(entries - {queue[i].0})
  {
    var i := VictimAt(entries, queue);
    var left := entries - {queue[i].0};
    forall b | b in left ensures (b, left[b].stamp) in queue[i + 1..] {
      var j :| 0 <= j < |queue| && queue[j] == (b, entries[b].stamp);
      assert Evictable(entries, queue[j]) && j != i;
      assert queue[i + 1..][j - (i + 1)] == queue[j];
    }
  }

  // Least recently used

  /** Records made since the last rebuild, at stamp `mark`, are in the order of their stamps; those that a rebuild
      left come before them, by block number. Before the first rebuild, `mark` is 0. */
  ghost predicate InOrder(entries: Entries, queue: Queue, mark: nat, stamp: nat) {
    && mark <= stamp
    && (forall i, j :: 0 <= i < j < |queue| ==> Before(queue[i], queue[j], mark))
    && (forall i :: 0 <= i < |queue| ==> queue[i].1 <= stamp)
    && forall b :: b in entries ==> entries[b].stamp <= stamp
  }

  predicate Before(r: (nat, nat), s: (nat, nat), mark: nat) {
    if s.1 <= mark then r.1 <= mark && r.0 < s.0 else r.1 < s.1
  }

  /** The block of the least number among those that were not used since the last rebuild. */
  ghost predicate LeastUnused(entries: Entries, mark: nat, b: nat) {
    && b in entries && entries[b].stamp <= mark
    && forall c :: c in entries && entries[c].stamp <= mark ==> b <= c
  }

  /** The victim is the block of the least number among those not used since the last rebuild, and a least recently
      used block when there are none. So it is a least recently used block if and only if no resident block has a
      smaller stamp than the least-numbered unused one. */
  lemma VictimInOrder(entries: Entries, queue: Queue, mark: nat, stamp: nat)
    requires Recorded(entries, queue) && NoHandles(entries) && InOrder(entries, queue, mark, stamp) && entries != map[]
    ensures VictimAt(entries, queue) < |queue|
    ensures var victim := queue[VictimAt(entries, queue)].0;
            && (LeastUnused(entries, mark, victim)
                || (OldestBlock(entries, victim) && forall b :: b in entries ==> entries[b].stamp > mark))
            && (OldestBlock(entries, victim) <==>
                forall least :: LeastUnused(entries, mark, least) ==> OldestBlock(entries, least))
  {
    assert |entries| == |entries.Keys|;
    var b0 := AnyBlock(entries);
    VictimExists(entries, queue, b0);
    var i := VictimAt(entries, queue);
    forall b | b in entries ensures queue[i].0 == b || Before(queue[i], (b, entries[b].stamp), mark) {
      VictimFirst(entries, queue, mark, stamp, b);
    }
    assert Evictable(entries, queue[i]);
  }

  lemma VictimFirst(entries: Entries, queue: Queue, mark: nat, stamp: nat, b: nat)
    requires Recorded(entries, queue) && NoHandles(entries) && InOrder(entries, queue, mark, stamp) && b in entries
    requires VictimAt(entries, queue) < |queue|
    ensures queue[VictimAt(entries, queue)].0 == b || Before(queue[VictimAt(entries, queue)], (b, entries[b].stamp), mark)
  {
    hide Before;
    var j :| 0 <= j < |queue| && queue[j] == (b, entries[b].stamp);
    assert Evictable(entries, queue[j]);
  }

  /** A queue made by `compact_queue`: the current records by block number. */
  ghost predicate Rebuilt(entries: Entries, queue: Queue) {
    && |queue| == |entries|
    && (forall i :: 0 <= i < |queue| ==> IsCurrent(entries, queue[i]))
    && forall i, j :: 0 <= i < j < |queue| ==> queue[i].0 < queue[j].0
  }

  // Calls of the manager

  /** One more block fits, or a block can be evicted. */
  ghost predicate Roomy(entries: Entries, queue: Queue) {
    |entries| < BLOCK_CACHE_SIZE || VictimAt(entries, queue) < |queue|
  }

  /** What `ensure_capacity` leaves. */
  ghost predicate MadeRoom(entries: Entries, queue: Queue, device: Disk, entries': Entries, queue': Queue, device': Disk) {
    if |entries| < BLOCK_CACHE_SIZE then entries' == entries && queue' == queue && device' == device
    else
      var i := VictimAt(entries, queue);
      && i < |queue| && queue[i].0 in entries
      && entries' == entries - {queue[i].0} && queue' == queue[i + 1..]
      && device' == Synced(device, queue[i].0, entries[queue[i].0])
  }

  /** The records after a use: one more, or a rebuilt queue. */
  ghost predicate Noted(queue: Queue, b: nat, stamp: nat, entries': Entries, queue': Queue) {
    if |queue| < BLOCK_CACHE_SIZE * QUEUE_LIMIT_MULT then queue' == queue + [(b, stamp)] else Rebuilt(entries', queue')
  }

  /** What a successful `get_block_cache` leaves, `stamp` being the new one. */
  ghost predicate Got(entries: Entries, queue: Queue, device: Disk, b: nat, stamp: nat,
                      entries': Entries, queue': Queue, device': Disk) {
    if b in entries then
      && device' == device && Noted(queue, b, stamp, entries', queue')
      && entries' == entries[b := entries[b].(stamp := stamp, handles := entries[b].handles + 1)]
    else exists between, queueBetween ::
      GotMissing(entries, queue, device, b, stamp, between, queueBetween, entries', queue', device')
  }

  ghost predicate GotMissing(entries: Entries, queue: Queue, device: Disk, b: nat, stamp: nat,
                             between: Entries, queueBetween: Queue, entries': Entries, queue': Queue, device': Disk) {
    && MadeRoom(entries, queue, device, between, queueBetween, device')
    && Noted(queueBetween, b, stamp, entries', queue')
    && entries' == between[b := Entry(Block(device', b), false, stamp, 1)]
  }

  /** The last record is the current one of its block. */
  ghost predicate LastIsCurrent(entries: Entries, queue: Queue) {
    entries == map[] || (queue != [] && IsCurrent(entries, queue[|queue| - 1]))
  }

  lemma NotedLast(queue: Queue, b: nat, stamp: nat, entries': Entries, queue': Queue)
    requires Noted(queue, b, stamp, entries', queue') && b in entries' && entries'[b].stamp == stamp
    ensures LastIsCurrent(entries', queue')
  {
    if |queue| >= BLOCK_CACHE_SIZE * QUEUE_LIMIT_MULT {
      assert |entries'| == |entries'.Keys| && b in entries'.Keys;
      assert IsCurrent(entries', queue'[|queue'| - 1]);
    }
  }

  /** With no handles held there is room or a victim: `get_block_cache` cannot panic, whatever was held across
      earlier calls. */
  lemma NoPanic(entries: Entries, queue: Queue)
    requires LastIsCurrent(entries, queue) && NoHandles(entries)
    ensures Roomy(entries, queue)
  {
    if |entries| >= BLOCK_CACHE_SIZE {
      assert entries != map[];
      assert Evictable(entries, queue[|queue| - 1]);
    }
  }

  /** Of a rebuilt queue the victim is the resident block of the least number, so that it is a least recently used
      one if and only if no resident block has a smaller stamp than that block. */
  lemma RebuiltVictim(entries: Entries, queue: Queue)
    requires Rebuilt(entries, queue) && NoHandles(entries) && entries != map[]
    ensures queue != [] && VictimAt(entries, queue) == 0 && queue[0].0 in entries
    ensures forall b :: b in entries ==> queue[0].0 <= b
    ensures forall least :: IsLeast(entries, least) ==>
              (OldestBlock(entries, queue[VictimAt(entries, queue)].0) <==> OldestBlock(entries, least))
  {
    assert |entries| == |entries.Keys|;
    RebuiltRecorded(entries, queue);
    if queue == [] {
      var b := AnyBlock(entries);
    }
    assert IsCurrent(entries, queue[0]) && Evictable(entries, queue[0]);
    forall b | b in entries ensures queue[0].0 <= b {
      var i :| 0 <= i < |queue| && queue[i] == (b, entries[b].stamp);
    }
  }

  ghost predicate IsLeast(entries: Entries, least: nat) {
    least in entries && forall b :: b in entries ==> least <= b
  }

  /** No resident block was used longer ago. */
  ghost predicate OldestBlock(entries: Entries, b: nat) {
    b in entries && forall c :: c in entries ==> entries[b].stamp <= entries[c].stamp
  }

  /** Block cache manager over one device. */
  class BlockCacheManager {
    var entries: Entries
    var queue: Queue
    var stamp: nat
    var device: Disk

    constructor (device: Disk)
      ensures entries == map[] && queue == [] && stamp == 0 && this.device == device
      ensures Valid() && Idle(entries, queue) && Recorded(entries, queue) && InOrder(entries, queue, 0, stamp)
    {
      entries := map[];
      queue := [];
      stamp := 0;
      this.device := device;
    }

    ghost predicate Valid()
      reads this
    {
      && Coherent(entries, device)
      && |entries| <= BLOCK_CACHE_SIZE && |queue| <= BLOCK_CACHE_SIZE * QUEUE_LIMIT_MULT
    }

    /** `compact_queue`. */
    method CompactQueue()
      modifies this`queue
      ensures queue == old(queue) || Rebuilt(entries, queue)
      ensures |old(queue)| > BLOCK_CACHE_SIZE * QUEUE_LIMIT_MULT ==> Rebuilt(entries, queue)
      ensures |entries| <= BLOCK_CACHE_SIZE ==> |queue| <= BLOCK_CACHE_SIZE * QUEUE_LIMIT_MULT
      ensures |old(queue)| <= BLOCK_CACHE_SIZE * QUEUE_LIMIT_MULT ==> queue == old(queue)
    {
      var limit := BLOCK_CACHE_SIZE * QUEUE_LIMIT_MULT;
      if |queue| <= limit {
        return;
      }
      var newQueue: Queue := [];
      var rest := entries.Keys;
      while rest != {}
        invariant rest <= entries.Keys && |newQueue| + |rest| == |entries.Keys|
        invariant forall i :: 0 <= i < |newQueue| ==> IsCurrent(entries, newQueue[i])
        invariant forall i, b :: 0 <= i < |newQueue| && b in rest ==> newQueue[i].0 < b
        invariant forall i, j :: 0 <= i < j < |newQueue| ==> newQueue[i].0 < newQueue[j].0
        decreases |rest|
      {
        ghost var least := Least(rest);
        var key :| key in rest && forall b :: b in rest ==> key <= b;
        newQueue := newQueue + [(key, entries[key].stamp)];
        rest := rest - {key};
      }
      queue := newQueue;
    }

    /** `mark_used`. */
    method MarkUsed(key: nat)
      requires key in entries && |entries| <= BLOCK_CACHE_SIZE
      modifies this`entries, this`queue, this`stamp
      ensures stamp == (old(stamp) + 1) % U64
      ensures entries == old(entries)[key := old(entries)[key].(stamp := stamp)]
      ensures queue == old(queue) + [(key, stamp)] || Rebuilt(entries, queue)
      ensures Noted(old(queue), key, stamp, entries, queue)
      ensures |queue| <= BLOCK_CACHE_SIZE * QUEUE_LIMIT_MULT
    {
      stamp := (stamp + 1) % U64;
      entries := entries[key := entries[key].(stamp := stamp)];
      assert entries.Keys == old(entries).Keys;
      assert |entries| == |entries.Keys| && |old(entries)| == |old(entries).Keys|;
      queue := queue + [(key, stamp)];
      CompactQueue();
    }

    /** `evict_one`: false stands for the panic. It drops the first block in the queue that may go, and the
        records before it; its bytes reach the device if they were modified. */
    method EvictOne() returns (ok: bool)
      requires Coherent(entries, device)
      modifies this`entries, this`queue, this`device
      ensures ok <==> VictimAt(old(entries), old(queue)) < |old(queue)|
      ensures ok ==> var i := VictimAt(old(entries), old(queue));
                     && old(queue)[i].0 in old(entries)
                     && entries == old(entries) - {old(queue)[i].0} && queue == old(queue)[i + 1..]
                     && device == Synced(old(device), old(queue)[i].0, old(entries)[old(queue)[i].0])
      ensures !ok ==> entries == old(entries) && device == old(device) && queue == []
      ensures Coherent(entries, device) && SameContents(old(entries), old(device), entries, device)
    {
      hide SameContents, Coherent, Evictable;
      SameAlways(entries, device);
      ghost var scanned := 0;
      assert queue[0..] == queue;
      while queue != []
        invariant scanned <= |old(queue)| && queue == old(queue)[scanned..] && entries == old(entries) && device == old(device)
        invariant VictimAt(entries, old(queue)) == scanned + VictimAt(entries, queue)
        decreases |queue|
      {
        var record := queue[0];
        ghost var before := queue;
        queue := queue[1..];
        assert before == old(queue)[scanned..] && record == old(queue)[scanned] && queue == old(queue)[scanned + 1..];
        if Evictable(entries, record) {
          Dropped(record);
          DroppedSame(entries, device, record.0);
          device := Synced(device, record.0, entries[record.0]);
          entries := entries - {record.0};
          return true;
        }
        VictimAtNext(entries, old(queue), scanned);
        scanned := scanned + 1;
      }
      return false;
    }

    lemma Dropped(record: (nat, nat))
      requires Evictable(entries, record)
      ensures record.0 in entries
    {
    }

    /** `ensure_capacity`: there is room for one more block, if need be by one eviction; it panics exactly when the
        cache is full and no record names a block that may go. A block that is held is never dropped, so no second
        copy of it can come into being. */
    method EnsureCapacity() returns (ok: bool)
      requires Valid()
      modifies this`entries, this`queue, this`device
      ensures ok <==> old(Roomy(entries, queue))
      ensures ok ==> MadeRoom(old(entries), old(queue), old(device), entries, queue, device)
      ensures Valid() && (ok ==> |entries| < BLOCK_CACHE_SIZE)
      ensures SameContents(old(entries), old(device), entries, device) && HeldStay(old(entries), entries)
      ensures old(Ready(entries, queue)) ==> ok && Ready(entries, queue)
      ensures forall m: nat, s: nat :: old(InOrder(entries, queue, m, s)) ==> InOrder(entries, queue, m, s)
      ensures entries.Keys <= old(entries).Keys && |queue| <= |old(queue)| && Fewer(old(entries), entries)
    {
      FewerAlways(entries);
      SameAlways(entries, device);
      HeldStayAlways(entries);
      ghost var entries0, queue0, device0 := entries, queue, device;
      RoomyIs(entries, queue);
      NoRoomMade(entries, queue, device);
      hide SameContents, Coherent, Ready, InOrder, HeldStay, Fewer, MadeRoom, Roomy, VictimAt;
      while |entries| >= BLOCK_CACHE_SIZE
        invariant Valid() && SameContents(old(entries), old(device), entries, device) && HeldStay(old(entries), entries)
        invariant old(Ready(entries, queue)) ==> Ready(entries, queue)
        invariant forall m: nat, s: nat :: old(InOrder(entries, queue, m, s)) ==> InOrder(entries, queue, m, s)
        invariant entries.Keys <= old(entries).Keys && |queue| <= |old(queue)| && Fewer(old(entries), entries)
        invariant if |entries| >= BLOCK_CACHE_SIZE then entries == entries0 && queue == queue0 && device == device0
                  else Roomy(entries0, queue0) && MadeRoom(entries0, queue0, device0, entries, queue, device)
        decreases |entries|
      {
        ghost var before, devBefore, was := entries, device, queue;
        ok := EvictOne();
        SameBoth(old(entries), old(device), before, devBefore, entries, device);
        if !ok {
          HeldStayBoth(old(entries), before, entries);
          NeverWithout(before, was);
          NothingInOrder(entries, was);
          return;
        }
        EvictedRoom(before, was, devBefore, entries, queue, device);
        OneEvicted(before, was);
        FewerStill(old(entries), before, was[VictimAt(before, was)].0);
        HeldStayBoth(old(entries), before, entries);
      }
      return true;
    }

    lemma RoomyIs(entries: Entries, queue: Queue)
      ensures Roomy(entries, queue) <==> |entries| < BLOCK_CACHE_SIZE || VictimAt(entries, queue) < |queue|
    {
    }

    lemma NoRoomMade(entries: Entries, queue: Queue, device: Disk)
      ensures |entries| < BLOCK_CACHE_SIZE ==> MadeRoom(entries, queue, device, entries, queue, device)
    {
    }

    lemma EvictedRoom(entries: Entries, queue: Queue, device: Disk, entries': Entries, queue': Queue, device': Disk)
      requires |entries| == BLOCK_CACHE_SIZE && VictimAt(entries, queue) < |queue|
      requires var i := VictimAt(entries, queue);
               && queue[i].0 in entries && entries' == entries - {queue[i].0} && queue' == queue[i + 1..]
               && device' == Synced(device, queue[i].0, entries[queue[i].0])
      ensures MadeRoom(entries, queue, device, entries', queue', device') && |entries'| == BLOCK_CACHE_SIZE - 1
    {
      hide VictimAt;
      var i := VictimAt(entries, queue);
      assert entries'.Keys == entries.Keys - {queue[i].0} && |entries'| == |entries'.Keys| && |entries| == |entries.Keys|;
    }

    /** A hit: one more handle, one more use. */
    method Hit(b: nat)
      requires Valid() && b in entries
      modifies this`entries, this`queue, this`stamp
      ensures Valid() && b in entries
      ensures entries == old(entries)[b := old(entries)[b].(stamp := stamp, handles := old(entries)[b].handles + 1)]
      ensures SameContents(old(entries), device, entries, device) && HeldStay(old(entries), entries)
      ensures Recorded(old(entries), old(queue)) ==> Recorded(entries, queue)
      ensures Noted(old(queue), b, stamp, entries, queue) && LastIsCurrent(entries, queue)
      ensures stamp == (old(stamp) + 1) % U64 && OrderKept(old(entries), old(queue), old(stamp), entries, queue, stamp)
    {
      hide *;
      ValidParts();
      HoldParts(entries, b, queue);
      entries := entries[b := entries[b].(handles := entries[b].handles + 1)];
      ghost var held := entries;
      MarkUsed(b);
      HeldBlocks(old(entries), b, stamp);
      HeldShape(old(entries), b, stamp);
      SameSize(held, b, entries[b]);
      SameBlocksCoherent(old(entries), entries, device);
      NotedLast(old(queue), b, stamp, entries, queue);
      NotedHit(old(queue), b, stamp, entries, queue);
      HeldStill(old(entries), b, stamp);
      MarkedRecorded(held, old(queue), b, stamp, queue);
      NotedInOrder(old(entries), old(queue), old(stamp), entries, b, queue);
      ValidJoin();
    }

    lemma NotedHit(queue: Queue, b: nat, stamp: nat, entries': Entries, queue': Queue)
      requires Noted(queue, b, stamp, entries', queue')
      ensures queue' == queue + [(b, stamp)] || Rebuilt(entries', queue')
      ensures |queue| < 4096 ==> queue' == queue + [(b, stamp)]
      ensures BLOCK_CACHE_SIZE * QUEUE_LIMIT_MULT == 4096
    {
    }

    lemma ValidParts()
      requires Valid()
      ensures Coherent(entries, device) && |entries| <= BLOCK_CACHE_SIZE && |queue| <= BLOCK_CACHE_SIZE * QUEUE_LIMIT_MULT
    {
    }

    lemma ValidJoin()
      requires Coherent(entries, device) && |entries| <= BLOCK_CACHE_SIZE && |queue| <= BLOCK_CACHE_SIZE * QUEUE_LIMIT_MULT
      ensures Valid()
    {
    }

    /** A block that was absent is put in and handed out. */
    method Insert(b: nat, e: Entry)
      requires Valid() && b !in entries && |entries| < BLOCK_CACHE_SIZE && |e.bytes| == BLOCK_SZ
      requires e.stamp == 0 && e.handles == 1 && (!e.modified ==> e.bytes == Block(device, b))
      modifies this`entries, this`queue, this`stamp
      ensures Valid() && entries == old(entries)[b := e.(stamp := stamp)]
      ensures SameContentsBut(old(entries), device, entries, device, b) && HeldStay(old(entries), entries)
      ensures e.bytes == Block(device, b) ==> SameContents(old(entries), device, entries, device)
      ensures Recorded(old(entries), old(queue)) ==> Recorded(entries, queue)
      ensures Noted(old(queue), b, stamp, entries, queue) && LastIsCurrent(entries, queue)
      ensures stamp == (old(stamp) + 1) % U64 && OrderKept(old(entries), old(queue), old(stamp), entries, queue, stamp)
    {
      hide *;
      ValidParts();
      InsertedBlock(entries, device, b, e);
      OneMore(entries, b, e);
      entries := entries[b := e];
      ghost var inserted := entries;
      MarkUsed(b);
      InsertShape(old(entries), b, e, stamp);
      SameSize(inserted, b, entries[b]);
      Stamped(inserted, b, stamp, device);
      SameAfterStamp(old(entries), inserted, entries, device, b);
      NotedLast(old(queue), b, stamp, entries, queue);
      NotedHit(old(queue), b, stamp, entries, queue);
      HeldInsert(old(entries), b, e.(stamp := stamp));
      InsertedRecorded(old(entries), old(queue), b, e, stamp, queue);
      NotedInOrder(old(entries), old(queue), old(stamp), entries, b, queue);
      ValidJoin();
    }

    /** `get_block_cache` (with a read-ahead of one block, as on every architecture but LoongArch): a handle to
        the block. No block's contents change, hit or miss, whatever is evicted. It panics exactly when the block
        is absent, the cache is full and no record names a block that may go; never while nobody holds a handle. */
    method GetBlockCache(b: nat) returns (ok: bool)
      requires Valid()
      modifies this
      ensures ok <==> b in old(entries) || old(Roomy(entries, queue))
      ensures ok ==> Got(old(entries), old(queue), old(device), b, stamp, entries, queue, device)
      ensures old(LastIsCurrent(entries, queue) && NoHandles(entries)) ==> ok
      ensures ok ==> LastIsCurrent(entries, queue)
      ensures Valid() && SameContents(old(entries), old(device), entries, device) && HeldStay(old(entries), entries)
      ensures ok ==> b in entries && entries[b].handles == (if b in old(entries) then old(entries)[b].handles else 0) + 1
      ensures old(Ready(entries, queue)) ==> ok && Recorded(entries, queue)
      ensures ok ==> HandlesBut(old(entries), entries, b)
      ensures ok ==> stamp == (old(stamp) + 1) % U64
      ensures ok ==> OrderKept(old(entries), old(queue), old(stamp), entries, queue, stamp)
    {
      hide Coherent, SameContents, SameContentsBut, Recorded, InOrder, HeldStay, OrderKept, VictimAt, Fewer, HandlesBut,
        NoHandles, LastIsCurrent, Roomy, MadeRoom, Noted, Got;
      ReadyParts(entries, queue);
      NoPanicNow(entries, queue);
      if b in entries {
        FewerAlways(entries);
        FewerHandles(entries, entries, b, entries[b].(stamp := (stamp + 1) % U64, handles := entries[b].handles + 1));
        Hit(b);
        GotHit(old(entries), old(queue), device, b, stamp, entries, queue);
        return true;
      }
      var buf := Block(device, b);
      ok := EnsureCapacity();
      if !ok {
        return;
      }
      ghost var between, devBetween, queueBetween := entries, device, queue;
      ReadyParts(entries, queue);
      BufferFresh(old(entries), old(device), entries, device, b);
      FewerHandles(old(entries), entries, b, Entry(buf, false, (stamp + 1) % U64, 1));
      Insert(b, Entry(buf, false, 0, 1));
      GotMiss(old(entries), old(queue), old(device), b, stamp, between, queueBetween, entries, queue, device);
      SameBoth(old(entries), old(device), between, devBetween, entries, device);
      HeldStayBoth(old(entries), between, entries);
      OrderThrough(old(entries), old(queue), between, queueBetween, old(stamp), entries, queue, stamp);
    }

    lemma NoPanicNow(entries: Entries, queue: Queue)
      ensures LastIsCurrent(entries, queue) && NoHandles(entries) ==> Roomy(entries, queue)
    {
      hide LastIsCurrent, NoHandles, Roomy;
      if LastIsCurrent(entries, queue) && NoHandles(entries) {
        NoPanic(entries, queue);
      }
    }

    lemma GotHit(entries: Entries, queue: Queue, device: Disk, b: nat, stamp: nat, entries': Entries, queue': Queue)
      requires b in entries && Noted(queue, b, stamp, entries', queue')
      requires entries' == entries[b := entries[b].(stamp := stamp, handles := entries[b].handles + 1)]
      ensures Got(entries, queue, device, b, stamp, entries', queue', device)
    {
      hide Noted, GotMissing;
    }

    lemma GotMiss(entries: Entries, queue: Queue, device: Disk, b: nat, stamp: nat,
                  between: Entries, queueBetween: Queue, entries': Entries, queue': Queue, device': Disk)
      requires b !in entries && MadeRoom(entries, queue, device, between, queueBetween, device')
      requires Noted(queueBetween, b, stamp, entries', queue')
      requires entries' == between[b := Entry(Block(device', b), false, stamp, 1)]
      ensures Got(entries, queue, device, b, stamp, entries', queue', device')
    {
      hide Noted, MadeRoom;
      assert GotMissing(entries, queue, device, b, stamp, between, queueBetween, entries', queue', device');
    }

    /** `get_block_cache_zeroed`: as before for a resident block; an absent one becomes zeros without a read, and
        no other block changes. It panics in the same cases. */
    method GetBlockCacheZeroed(b: nat) returns (ok: bool)
      requires Valid()
      modifies this
      ensures ok <==> b in old(entries) || old(Roomy(entries, queue))
      ensures old(LastIsCurrent(entries, queue) && NoHandles(entries)) ==> ok
      ensures ok ==> LastIsCurrent(entries, queue)
      ensures Valid() && HeldStay(old(entries), entries)
      ensures b in old(entries) || !ok ==> SameContents(old(entries), old(device), entries, device)
      ensures b !in old(entries) && ok ==>
                SameContentsBut(old(entries), old(device), entries, device, b) && Logical(entries, device, b) == Zeros(BLOCK_SZ)
      ensures ok ==> b in entries && entries[b].handles == (if b in old(entries) then old(entries)[b].handles else 0) + 1
      ensures ok ==> HandlesBut(old(entries), entries, b)
      ensures old(Ready(entries, queue)) ==> ok && Recorded(entries, queue)
      ensures ok ==> stamp == (old(stamp) + 1) % U64
      ensures ok ==> OrderKept(old(entries), old(queue), old(stamp), entries, queue, stamp)
    {
      hide Coherent, SameContents, SameContentsBut, Recorded, InOrder, HeldStay, OrderKept, VictimAt, Zeros, Fewer, HandlesBut,
        NoHandles, LastIsCurrent, Roomy, MadeRoom, Noted;
      ReadyParts(entries, queue);
      NoPanicNow(entries, queue);
      if b in entries {
        FewerAlways(entries);
        FewerHandles(entries, entries, b, entries[b].(stamp := (stamp + 1) % U64, handles := entries[b].handles + 1));
        Hit(b);
        return true;
      }
      ok := EnsureCapacity();
      if !ok {
        return;
      }
      ghost var between, devBetween, queueBetween := entries, device, queue;
      ReadyParts(entries, queue);
      BufferFresh(old(entries), old(device), entries, device, b);
      FewerHandles(old(entries), entries, b, Entry(Zeros(BLOCK_SZ), true, (stamp + 1) % U64, 1));
      Insert(b, Entry(Zeros(BLOCK_SZ), true, 0, 1));
      SameThenBut(old(entries), old(device), between, devBetween, entries, device, b);
      HeldStayBoth(old(entries), between, entries);
      OrderThrough(old(entries), old(queue), between, queueBetween, old(stamp), entries, queue, stamp);
    }

    /** Dropping a handle. */
    method Release(b: nat)
      requires Valid() && b in entries && entries[b].handles > 0
      modifies this`entries
      ensures Valid() && SameContents(old(entries), device, entries, device)
      ensures entries == old(entries)[b := old(entries)[b].(handles := old(entries)[b].handles - 1)]
      ensures Recorded(old(entries), queue) ==> Recorded(entries, queue)
      ensures LastIsCurrent(old(entries), queue) ==> LastIsCurrent(entries, queue)
      ensures SameStamps(old(entries), entries)
    {
      entries := entries[b := entries[b].(handles := entries[b].handles - 1)];
      assert SameBlocks(old(entries), entries) && |entries| == |entries.Keys| && |old(entries)| == |old(entries).Keys|;
      SameBlocksCoherent(old(entries), entries, device);
    }

    /** `get_bytes_mut` and `modify` through a handle: the one way in which contents change. */
    method Modify(b: nat, off: nat, bytes: seq<byte>)
      requires Valid() && b in entries && entries[b].handles > 0 && off + |bytes| <= BLOCK_SZ
      modifies this`entries
      ensures Valid() && SameContentsBut(old(entries), device, entries, device, b)
      ensures Logical(entries, device, b) == Splice(Logical(old(entries), device, b), off, bytes)
      ensures entries == old(entries)[b := old(entries)[b].(bytes := Logical(entries, device, b), modified := true)]
      ensures Recorded(old(entries), queue) ==> Recorded(entries, queue)
      ensures LastIsCurrent(old(entries), queue) ==> LastIsCurrent(entries, queue)
      ensures SameStamps(old(entries), entries)
    {
      hide Block, Splice;
      entries := entries[b := entries[b].(bytes := Splice(entries[b].bytes, off, bytes), modified := true)];
      assert entries.Keys == old(entries).Keys && |entries| == |entries.Keys| && |old(entries)| == |old(entries).Keys|;
    }

    /** How the file system edits a block: it gets a handle, writes through it and drops it. Between such edits
        the cache is a plain disk and cannot run out, whatever was held before; a cache that has a record of every
        resident block keeps one. */
    method EditBlock(b: nat, off: nat, bytes: seq<byte>)
      requires Valid() && Idle(entries, queue) && off + |bytes| <= BLOCK_SZ
      modifies this
      ensures Valid() && Idle(entries, queue)
      ensures old(Recorded(entries, queue)) ==> Recorded(entries, queue)
      ensures OrderKept(old(entries), old(queue), old(stamp), entries, queue, stamp)
      ensures SameContentsBut(old(entries), old(device), entries, device, b)
      ensures Logical(entries, device, b) == Splice(Logical(old(entries), old(device), b), off, bytes)
    {
      hide *;
      ValidParts();
      IdleParts(entries, queue, b);
      var ok := GetBlockCache(b);
      ghost var got, devGot, queueGot := entries, device, queue;
      LogicalSame(old(entries), old(device), entries, device, b);
      WholeBlock(entries, device, b);
      Modify(b, off, bytes);
      SameThenBut(old(entries), old(device), got, devGot, entries, device, b);
      ghost var edited := entries;
      ModifiedHandles(old(entries), got, edited, b);
      SameKeys(got, edited, b);
      OrderAfter(old(entries), old(queue), got, queue, old(stamp), edited, stamp);
      Release(b);
      ButThenSame(old(entries), old(device), edited, device, entries, b);
      ReleasedHandles(old(entries), edited, entries, b);
      SameKeys(edited, entries, b);
      OrderAfter(old(entries), old(queue), edited, queue, old(stamp), entries, stamp);
      IdleAgain(old(entries), old(queue), entries, queue, b);
    }

    lemma SameKeys(entries: Entries, entries': Entries, b: nat)
      requires b in entries && b in entries' && entries' == entries[b := entries'[b]]
      ensures entries'.Keys == entries.Keys
    {
    }

    lemma IdleParts(entries: Entries, queue: Queue, b: nat)
      requires Idle(entries, queue)
      ensures LastIsCurrent(entries, queue) && NoHandles(entries) && (b in entries ==> entries[b].handles == 0)
      ensures Recorded(entries, queue) ==> Ready(entries, queue)
    {
      hide LastIsCurrent, Recorded;
    }

    lemma IdleAgain(entries: Entries, queue: Queue, entries': Entries, queue': Queue, b: nat)
      requires Idle(entries, queue) && LastIsCurrent(entries', queue') && HandlesBut(entries, entries', b)
      requires b in entries' && entries'[b].handles == 0
      ensures Idle(entries', queue')
    {
      hide LastIsCurrent;
    }

    lemma WholeBlock(entries: Entries, device: Disk, b: nat)
      ensures Coherent(entries, device) ==> |Logical(entries, device, b)| == BLOCK_SZ
    {
    }

    /** `block_cache_sync_all`: the device holds what every reader sees. */
    method SyncAll()
      requires Valid()
      modifies this`entries, this`device
      ensures Valid() && SameContents(old(entries), old(device), entries, device)
      ensures forall b: nat :: Block(device, b) == Logical(entries, device, b)
      ensures forall b :: b in entries ==> !entries[b].modified
      ensures Recorded(old(entries), queue) ==> Recorded(entries, queue)
      ensures LastIsCurrent(old(entries), queue) ==> LastIsCurrent(entries, queue)
      ensures SameStamps(old(entries), entries)
    {
      hide *;
      ValidParts();
      SameAlways(entries, device);
      var rest := entries.Keys;
      NothingSynced(entries, queue);
      while rest != {}
        invariant SyncedBut(old(entries), entries, rest) && Coherent(entries, device)
        invariant SameContents(old(entries), old(device), entries, device)
        decreases |rest|
      {
        var b :| b in rest;
        ghost var before, devBefore := entries, device;
        SyncedKey(old(entries), entries, rest, b);
        SyncedSame(entries, device, b);
        device := Synced(device, b, entries[b]);
        entries := entries[b := entries[b].(modified := false)];
        SyncedNext(old(entries), before, rest, b);
        SameBoth(old(entries), old(device), before, devBefore, entries, device);
        rest := rest - {b};
      }
      AllSynced(old(entries), entries, queue);
      AllOnDevice(entries, device);
      ValidJoin();
    }
  }

  /** All entries but these have been written back; nothing else has changed. */
  ghost predicate SyncedBut(before: Entries, entries: Entries, rest: set<nat>) {
    && entries.Keys == before.Keys && rest <= entries.Keys
    && (forall b :: b in entries && b !in rest ==> !entries[b].modified)
    && forall b :: b in entries ==> entries[b].stamp == before[b].stamp
  }

  lemma NothingSynced(entries: Entries, queue: Queue)
    ensures SyncedBut(entries, entries, entries.Keys)
  {
  }

  lemma SyncedKey(before: Entries, entries: Entries, rest: set<nat>, b: nat)
    requires SyncedBut(before, entries, rest) && b in rest
    ensures b in entries
  {
    assert b in entries.Keys;
  }

  lemma SyncedNext(before: Entries, entries: Entries, rest: set<nat>, b: nat)
    requires SyncedBut(before, entries, rest) && b in entries
    ensures SyncedBut(before, entries[b := entries[b].(modified := false)], rest - {b})
  {
    var after := entries[b := entries[b].(modified := false)];
    assert after.Keys == entries.Keys;
  }

  lemma AllSynced(before: Entries, entries: Entries, queue: Queue)
    requires SyncedBut(before, entries, {})
    ensures |entries| == |before| && forall b :: b in entries ==> !entries[b].modified
    ensures SameStamps(before, entries)
    ensures Recorded(before, queue) ==> Recorded(entries, queue)
    ensures LastIsCurrent(before, queue) ==> LastIsCurrent(entries, queue)
  {
    assert |entries| == |entries.Keys| && |before| == |before.Keys|;
    forall b ensures b in entries <==> b in before {
      assert b in entries.Keys <==> b in before.Keys;
    }
  }

  lemma OneMore(entries: Entries, b: nat, e: Entry)
    requires b !in entries
    ensures |entries[b := e]| == |entries| + 1
  {
    assert entries[b := e].Keys == entries.Keys + {b};
    assert |entries[b := e]| == |entries[b := e].Keys| && |entries| == |entries.Keys|;
  }

  lemma InsertShape(entries: Entries, b: nat, e: Entry, stamp: nat)
    requires b !in entries
    ensures entries[b := e][b := e.(stamp := stamp)] == entries[b := e.(stamp := stamp)]
  {
  }

  /** Taking a handle changes no record. */
  lemma HoldParts(entries: Entries, b: nat, queue: Queue)
    requires b in entries
    ensures var held := entries[b := entries[b].(handles := entries[b].handles + 1)];
            |held| == |entries| && (Recorded(entries, queue) ==> Recorded(held, queue))
  {
    SameSize(entries, b, entries[b].(handles := entries[b].handles + 1));
  }

  lemma AllOnDevice(entries: Entries, device: Disk)
    requires Coherent(entries, device) && forall b :: b in entries ==> !entries[b].modified
    ensures forall b: nat :: Block(device, b) == Logical(entries, device, b)
  {
    hide Block;
  }

  /** Entries may have gone; those that stay have not changed. */
  ghost predicate Fewer(entries: Entries, entries': Entries) {
    forall b :: b in entries' ==> b in entries && entries'[b] == entries[b]
  }

  lemma FewerAlways(entries: Entries)
    ensures Fewer(entries, entries)
  {
  }

  lemma FewerStill(entries: Entries, some: Entries, b: nat)
    requires Fewer(entries, some)
    ensures Fewer(entries, some - {b})
  {
  }

  /** Every resident block but one was resident before, with the same handles. */
  ghost predicate HandlesBut(entries: Entries, entries': Entries, b: nat) {
    forall k :: k in entries' && k != b ==> k in entries && entries'[k].handles == entries[k].handles
  }

  lemma FewerHandles(entries: Entries, some: Entries, b: nat, e: Entry)
    requires Fewer(entries, some)
    ensures HandlesBut(entries, some[b := e], b)
  {
  }

  lemma LogicalSame(entries: Entries, device: Disk, entries': Entries, device': Disk, b: nat)
    requires SameContents(entries, device, entries', device')
    ensures Logical(entries', device', b) == Logical(entries, device, b)
  {
    hide Logical;
  }

  lemma ModifiedHandles(entries: Entries, got: Entries, edited: Entries, b: nat)
    requires HandlesBut(entries, got, b) && b in got && b in edited && edited == got[b := edited[b]]
    ensures HandlesBut(entries, edited, b)
  {
  }

  lemma ReleasedHandles(entries: Entries, edited: Entries, left: Entries, b: nat)
    requires HandlesBut(entries, edited, b) && b in edited && b in left && left == edited[b := left[b]]
    ensures HandlesBut(entries, left, b)
  {
  }

  lemma ButThenSame(e0: Entries, d0: Disk, e1: Entries, d: Disk, e2: Entries, b: nat)
    requires SameContentsBut(e0, d0, e1, d, b) && SameContents(e1, d, e2, d)
    ensures SameContentsBut(e0, d0, e2, d, b) && Logical(e2, d, b) == Logical(e1, d, b)
  {
    hide Logical;
  }

  /** No block has been dropped while someone held it, nor has its contents changed. */
  ghost predicate HeldStay(entries: Entries, entries': Entries) {
    forall b :: b in entries && entries[b].handles > 0 ==>
      && b in entries' && entries'[b].handles >= entries[b].handles
      && entries'[b].bytes == entries[b].bytes && entries'[b].modified == entries[b].modified
  }

  lemma HeldStayAlways(entries: Entries)
    ensures HeldStay(entries, entries)
  {
  }

  lemma HeldStayBoth(a: Entries, b: Entries, c: Entries)
    requires HeldStay(a, b) && HeldStay(b, c)
    ensures HeldStay(a, c)
  {
  }

  lemma SameSize(entries: Entries, b: nat, e: Entry)
    requires b in entries
    ensures |entries[b := e]| == |entries|
  {
    assert entries[b := e].Keys == entries.Keys;
    assert |entries[b := e]| == |entries[b := e].Keys| && |entries| == |entries.Keys|;
  }

  lemma HeldBlocks(entries: Entries, b: nat, stamp: nat)
    requires b in entries
    ensures var held := entries[b := entries[b].(handles := entries[b].handles + 1)];
            SameBlocks(entries, held[b := held[b].(stamp := stamp)])
    ensures entries[b := entries[b].(stamp := stamp, handles := entries[b].handles + 1)]
            == entries[b := entries[b].(handles := entries[b].handles + 1)][b := entries[b].(stamp := stamp, handles := entries[b].handles + 1)]
  {
  }

  lemma HeldShape(entries: Entries, b: nat, stamp: nat)
    requires b in entries
    ensures var held := entries[b := entries[b].(handles := entries[b].handles + 1)];
            held[b := held[b].(stamp := stamp)] == entries[b := entries[b].(stamp := stamp, handles := entries[b].handles + 1)]
  {
  }

  lemma HeldStill(entries: Entries, b: nat, stamp: nat)
    requires b in entries
    ensures HeldStay(entries, entries[b := entries[b].(stamp := stamp, handles := entries[b].handles + 1)])
  {
  }

  lemma HeldInsert(entries: Entries, b: nat, e: Entry)
    requires b !in entries
    ensures HeldStay(entries, entries[b := e])
  {
  }

  /** A cache between calls of its manager, when nobody holds a handle. */
  ghost predicate Idle(entries: Entries, queue: Queue) {
    LastIsCurrent(entries, queue) && NoHandles(entries)
  }

  /** The same, with a record of every resident block: no block was passed over while it was held. */
  ghost predicate Ready(entries: Entries, queue: Queue) {
    Recorded(entries, queue) && NoHandles(entries)
  }

  lemma ReadyParts(entries: Entries, queue: Queue)
    ensures Ready(entries, queue) ==> Recorded(entries, queue)
  {
  }

  lemma SameBoth(e0: Entries, d0: Disk, e1: Entries, d1: Disk, e2: Entries, d2: Disk)
    requires SameContents(e0, d0, e1, d1) && SameContents(e1, d1, e2, d2)
    ensures SameContents(e0, d0, e2, d2)
  {
    hide Logical;
  }

  lemma SameThenBut(e0: Entries, d0: Disk, e1: Entries, d1: Disk, e2: Entries, d2: Disk, b: nat)
    requires SameContents(e0, d0, e1, d1) && SameContentsBut(e1, d1, e2, d2, b)
    ensures SameContentsBut(e0, d0, e2, d2, b)
  {
    hide Logical;
  }

  /** What eviction leaves, in terms of the three promises about queue and handles. */
  lemma OneEvicted(entries: Entries, queue: Queue)
    requires VictimAt(entries, queue) < |queue|
    ensures var i := VictimAt(entries, queue);
            var left, queue' := entries - {queue[i].0}, queue[i + 1..];
            && |left| < |entries| && HeldStay(entries, left)
            && (Ready(entries, queue) ==> Ready(left, queue'))
            && forall m: nat, s: nat :: InOrder(entries, queue, m, s) ==> InOrder(left, queue', m, s)
  {
    hide *;
    var i := VictimAt(entries, queue);
    EvictedOne(entries, queue, i);
    EvictedReady(entries, queue);
    forall m: nat, s: nat | InOrder(entries, queue, m, s) ensures InOrder(entries - {queue[i].0}, queue[i + 1..], m, s) {
      OrderSuffix(entries, queue, m, s, i, queue[i].0);
    }
  }

  lemma EvictedOne(entries: Entries, queue: Queue, i: nat)
    requires i == VictimAt(entries, queue) < |queue|
    ensures var left := entries - {queue[i].0}; |left| < |entries| && HeldStay(entries, left)
  {
    assert Evictable(entries, queue[i]);
    var left := entries - {queue[i].0};
    assert left.Keys == entries.Keys - {queue[i].0} && |left| == |left.Keys| && |entries| == |entries.Keys|;
  }

  lemma EvictedReady(entries: Entries, queue: Queue)
    requires VictimAt(entries, queue) < |queue|
    ensures Ready(entries, queue) ==> Ready(entries - {queue[VictimAt(entries, queue)].0}, queue[VictimAt(entries, queue) + 1..])
  {
    hide VictimAt;
    if Ready(entries, queue) {
      StillRecorded(entries, queue);
    }
  }

  lemma OrderSuffix(entries: Entries, queue: Queue, m: nat, s: nat, i: nat, b: nat)
    requires InOrder(entries, queue, m, s) && i < |queue|
    ensures InOrder(entries - {b}, queue[i + 1..], m, s)
  {
    hide Before;
  }

  lemma NeverWithout(entries: Entries, queue: Queue)
    requires |entries| >= BLOCK_CACHE_SIZE && VictimAt(entries, queue) >= |queue|
    ensures !Ready(entries, queue)
  {
    var b := AnyBlock(entries);
    if Ready(entries, queue) {
      VictimExists(entries, queue, b);
    }
  }

  lemma AnyBlock(entries: Entries) returns (b: nat)
    requires |entries| > 0
    ensures b in entries
  {
    assert |entries| == |entries.Keys|;
    assert entries.Keys != {};
    b :| b in entries.Keys;
  }

  lemma NothingInOrder(entries: Entries, queue: Queue)
    ensures forall m: nat, s: nat :: InOrder(entries, queue, m, s) ==> InOrder(entries, [], m, s)
  {
  }

  /** Until the stamp wraps, a use keeps the queue in order: one record more, or a rebuild that begins a new order. */
  ghost predicate OrderKept(entries: Entries, queue: Queue, stamp: nat, entries': Entries, queue': Queue, stamp': nat) {
    stamp + 1 < U64 ==> forall mark: nat :: InOrder(entries, queue, mark, stamp) ==>
      || InOrder(entries', queue', mark, stamp')
      || (|queue| >= BLOCK_CACHE_SIZE * QUEUE_LIMIT_MULT && Rebuilt(entries', queue') && InOrder(entries', queue', stamp', stamp'))
  }

  lemma NotedInOrder(entries: Entries, queue: Queue, stamp: nat, entries': Entries, b: nat, queue': Queue)
    requires forall k :: k in entries' && k != b ==> k in entries && entries'[k].stamp == entries[k].stamp
    requires b in entries' && entries'[b].stamp == (stamp + 1) % U64 && Noted(queue, b, (stamp + 1) % U64, entries', queue')
    ensures OrderKept(entries, queue, stamp, entries', queue', (stamp + 1) % U64)
  {
    hide *;
    if stamp + 1 < U64 {
      NextStamp(stamp);
      forall mark: nat | InOrder(entries, queue, mark, stamp)
        ensures InOrder(entries', queue', mark, stamp + 1)
                || (|queue| >= BLOCK_CACHE_SIZE * QUEUE_LIMIT_MULT && Rebuilt(entries', queue') && InOrder(entries', queue', stamp + 1, stamp + 1))
      {
        NotedParts(queue, b, stamp + 1, entries', queue');
        if |queue| < BLOCK_CACHE_SIZE * QUEUE_LIMIT_MULT {
          OneMoreInOrder(entries, queue, mark, stamp, entries', b, queue');
        } else {
          RebuiltInOrder(entries, queue, mark, stamp, entries', b, queue');
        }
      }
    }
    OrderKeptIs(entries, queue, stamp, entries', queue', entries'[b].stamp);
  }

  lemma NextStamp(stamp: nat)
    requires stamp + 1 < U64
    ensures (stamp + 1) % U64 == stamp + 1
  {
  }

  lemma NotedParts(queue: Queue, b: nat, stamp: nat, entries': Entries, queue': Queue)
    requires Noted(queue, b, stamp, entries', queue')
    ensures if |queue| < BLOCK_CACHE_SIZE * QUEUE_LIMIT_MULT then queue' == queue + [(b, stamp)] else Rebuilt(entries', queue')
  {
    hide Rebuilt;
  }

  lemma OrderKeptIs(entries: Entries, queue: Queue, stamp: nat, entries': Entries, queue': Queue, stamp': nat)
    requires stamp + 1 < U64 ==> forall mark: nat :: InOrder(entries, queue, mark, stamp) ==>
      || InOrder(entries', queue', mark, stamp')
      || (|queue| >= BLOCK_CACHE_SIZE * QUEUE_LIMIT_MULT && Rebuilt(entries', queue') && InOrder(entries', queue', stamp', stamp'))
    ensures OrderKept(entries, queue, stamp, entries', queue', stamp')
  {
    hide InOrder, Rebuilt;
  }

  lemma OneMoreInOrder(entries: Entries, queue: Queue, mark: nat, stamp: nat, entries': Entries, b: nat, queue': Queue)
    requires InOrder(entries, queue, mark, stamp) && queue' == queue + [(b, stamp + 1)] && b in entries'
    requires forall k :: k in entries' && k != b ==> k in entries && entries'[k].stamp == entries[k].stamp
    requires entries'[b].stamp == stamp + 1
    ensures InOrder(entries', queue', mark, stamp + 1)
  {
  }

  lemma RebuiltInOrder(entries: Entries, queue: Queue, mark: nat, stamp: nat, entries': Entries, b: nat, queue': Queue)
    requires InOrder(entries, queue, mark, stamp) && Rebuilt(entries', queue') && b in entries'
    requires forall k :: k in entries' && k != b ==> k in entries && entries'[k].stamp == entries[k].stamp
    requires entries'[b].stamp == stamp + 1
    ensures InOrder(entries', queue', stamp + 1, stamp + 1)
  {
    forall i | 0 <= i < |queue'| ensures queue'[i].1 <= stamp + 1 {
      assert IsCurrent(entries', queue'[i]);
    }
  }

  /** The stamps are as before. */
  ghost predicate SameStamps(entries: Entries, entries': Entries) {
    forall b :: b in entries' ==> b in entries && entries'[b].stamp == entries[b].stamp
  }

  lemma SameStampsOrder(entries: Entries, entries': Entries, queue: Queue)
    requires SameStamps(entries, entries')
    ensures forall m: nat, s: nat :: InOrder(entries, queue, m, s) ==> InOrder(entries', queue, m, s)
  {
    hide Before;
  }

  lemma OrderThrough(e0: Entries, q0: Queue, e1: Entries, q1: Queue, stamp: nat, e2: Entries, q2: Queue, stamp': nat)
    requires forall mark: nat :: InOrder(e0, q0, mark, stamp) ==> InOrder(e1, q1, mark, stamp)
    requires |q1| <= |q0| && OrderKept(e1, q1, stamp, e2, q2, stamp')
    ensures OrderKept(e0, q0, stamp, e2, q2, stamp')
  {
    hide InOrder, Rebuilt;
  }

  lemma OrderAfter(e0: Entries, q0: Queue, e1: Entries, q1: Queue, stamp: nat, e2: Entries, stamp': nat)
    requires OrderKept(e0, q0, stamp, e1, q1, stamp') && SameStamps(e1, e2) && e1.Keys == e2.Keys
    ensures OrderKept(e0, q0, stamp, e2, q1, stamp')
  {
    hide InOrder, Rebuilt;
    SameStampsOrder(e1, e2, q1);
    SameStampsRebuilt(e1, e2, q1);
  }

  lemma SameStampsRebuilt(entries: Entries, entries': Entries, queue: Queue)
    requires SameStamps(entries, entries') && entries.Keys == entries'.Keys
    ensures Rebuilt(entries, queue) ==> Rebuilt(entries', queue)
  {
    assert |entries| == |entries.Keys| && |entries'| == |entries'.Keys|;
    if Rebuilt(entries, queue) {
      forall i | 0 <= i < |queue| ensures IsCurrent(entries', queue[i]) {
        assert IsCurrent(entries, queue[i]) && queue[i].0 in entries'.Keys;
      }
    }
  }

  /** A rebuilt queue has the newest record of every block: as many records as blocks, no block twice. */
  lemma RebuiltRecorded(entries: Entries, queue: Queue)
    requires Rebuilt(entries, queue)
    ensures Recorded(entries, queue)
  {
    var keys := KeysOf(queue);
    KeysCounted(queue);
    assert keys <= entries.Keys;
    assert |entries| == |entries.Keys|;
    SubsetEqual(keys, entries.Keys);
    forall b | b in entries ensures (b, entries[b].stamp) in queue {
      assert b in keys;
      var i :| 0 <= i < |queue| && queue[i].0 == b;
      assert IsCurrent(entries, queue[i]);
    }
  }

  ghost function KeysOf(queue: Queue): set<nat> {
    set i | 0 <= i < |queue| :: queue[i].0
  }

  lemma {:induction false} KeysCounted(queue: Queue)
    requires forall i, j :: 0 <= i < j < |queue| ==> queue[i].0 < queue[j].0
    ensures |KeysOf(queue)| == |queue|
  {
    if queue != [] {
      var last := |queue| - 1;
      var before := queue[..last];
      KeysCounted(before);
      assert forall i :: 0 <= i < last ==> before[i] == queue[i];
      assert KeysOf(queue) == KeysOf(before) + {queue[last].0};
      assert queue[last].0 !in KeysOf(before);
    }
  }

  lemma SubsetEqual(a: set<nat>, b: set<nat>)
    requires a <= b && |a| == |b|
    ensures a == b
  {
    assert b == a + (b - a);
  }

  lemma MarkedRecorded(entries: Entries, queue: Queue, b: nat, stamp: nat, queue': Queue)
    requires b in entries
    requires var entries' := entries[b := entries[b].(stamp := stamp)]; queue' == queue + [(b, stamp)] || Rebuilt(entries', queue')
    ensures Recorded(entries, queue) ==> Recorded(entries[b := entries[b].(stamp := stamp)], queue')
  {
    var entries' := entries[b := entries[b].(stamp := stamp)];
    if queue' == queue + [(b, stamp)] {
      hide Rebuilt;
      assert queue'[|queue|] == (b, stamp);
      if Recorded(entries, queue) {
        forall k | k in entries' ensures (k, entries'[k].stamp) in queue' {
          if k != b {
            assert (k, entries[k].stamp) in queue;
          }
        }
      }
    } else {
      RebuiltRecorded(entries', queue');
    }
  }

  lemma InsertedRecorded(entries: Entries, queue: Queue, b: nat, e: Entry, stamp: nat, queue': Queue)
    requires b !in entries
    requires var entries' := entries[b := e.(stamp := stamp)]; queue' == queue + [(b, stamp)] || Rebuilt(entries', queue')
    ensures Recorded(entries, queue) ==> Recorded(entries[b := e.(stamp := stamp)], queue')
  {
    var entries' := entries[b := e.(stamp := stamp)];
    if queue' == queue + [(b, stamp)] {
      hide Rebuilt;
      assert queue'[|queue|] == (b, stamp);
      if Recorded(entries, queue) {
        forall k | k in entries' ensures (k, entries'[k].stamp) in queue' {
          if k != b {
            assert (k, entries[k].stamp) in queue;
          }
        }
      }
    } else {
      RebuiltRecorded(entries', queue');
    }
  }

  /** A new stamp changes no contents. */
  lemma Stamped(entries: Entries, b: nat, stamp: nat, device: Disk)
    requires b in entries && Coherent(entries, device)
    ensures Coherent(entries[b := entries[b].(stamp := stamp)], device)
    ensures SameContents(entries, device, entries[b := entries[b].(stamp := stamp)], device)
  {
    assert SameBlocks(entries, entries[b := entries[b].(stamp := stamp)]);
    SameBlocksCoherent(entries, entries[b := entries[b].(stamp := stamp)], device);
  }

  lemma SameAfterStamp(e0: Entries, e1: Entries, e2: Entries, device: Disk, b: nat)
    requires SameContentsBut(e0, device, e1, device, b) && SameContents(e1, device, e2, device)
    ensures SameContentsBut(e0, device, e2, device, b)
    ensures SameContents(e0, device, e1, device) ==> SameContents(e0, device, e2, device)
  {
    hide Logical;
  }

  /** The bytes read before an eviction are still those of the block afterwards. */
  lemma BufferFresh(entries: Entries, device: Disk, entries': Entries, device': Disk, b: nat)
    requires SameContents(entries, device, entries', device') && b !in entries && entries'.Keys <= entries.Keys
    ensures Block(device', b) == Block(device, b) && b !in entries'
  {
    hide Block;
    assert b !in entries'.Keys;
    assert Logical(entries', device', b) == Logical(entries, device, b);
  }

  lemma SameAlways(entries: Entries, device: Disk)
    ensures SameContents(entries, device, entries, device)
  {
  }

  lemma Least(s: set<nat>) returns (m: nat)
    requires s != {}
    ensures m in s && forall x :: x in s ==> m <= x
    decreases |s|
  {
    var x :| x in s;
    if s == {x} {
      m := x;
    } else {
      var r := Least(s - {x});
      m := if x < r then x else r;
      assert forall y :: y in s ==> y == x || y in s - {x};
    }
  }
}
