/** The block cache of easy-fs (easy-fs/src/block_cache.rs): sixteen blocks, replaced first in first out among
    those that nobody holds, and written back when dropped. */
module EfsBlockCache {
  import opened Common
  import opened EfsLayout

  const BLOCK_CACHE_SIZE: nat := 16

  /** An entry of the queue; `handles` counts the references besides the queue's own. */
  datatype Entry = Entry(id: nat, data: Block, modified: bool, handles: nat)

  type Queue = seq<Entry>

  ghost predicate Resident(queue: Queue, b: nat) {
    exists k :: 0 <= k < |queue| && queue[k].id == b
  }

  /** At most one entry for a block, and entries that were not modified agree with the device. */
  ghost predicate QueueOk(queue: Queue, device: Blocks) {
    && |queue| <= BLOCK_CACHE_SIZE
    && (forall j, k :: 0 <= j < k < |queue| ==> queue[j].id != queue[k].id)
    && forall k :: 0 <= k < |queue| && !queue[k].modified ==> At(device, queue[k].id) == queue[k].data
  }

  /** The bytes that a reader of block `b` gets: those of its entry, else the device's. */
  ghost function Seen(queue: Queue, device: Blocks, b: nat): Block {
    if Resident(queue, b) then
      var k :| 0 <= k < |queue| && queue[k].id == b;
      queue[k].data
    else At(device, b)
  }

  ghost predicate SameView(queue: Queue, device: Blocks, queue': Queue, device': Blocks) {
    forall b :: Seen(queue', device', b) == Seen(queue, device, b)
  }

  lemma SeenAt(queue: Queue, device: Blocks, k: nat)
    requires QueueOk(queue, device) && k < |queue|
    ensures Resident(queue, queue[k].id) && Seen(queue, device, queue[k].id) == queue[k].data
  {
    hide At;
  }

  /** `sync`. */
  function Synced(device: Blocks, e: Entry): Blocks {
    if e.modified then device[e.id := e.data] else device
  }

  lemma SyncedOne(device: Blocks, e: Entry)
    requires !e.modified ==> At(device, e.id) == e.data
    ensures forall b :: At(Synced(device, e), b) == if b == e.id then e.data else At(device, b)
  {
  }

  function Without(queue: Queue, i: nat): (r: Queue)
    requires i < |queue|
    ensures |r| == |queue| - 1
    ensures forall k :: 0 <= k < |r| ==> r[k] == queue[if k < i then k else k + 1]
  {
    queue[..i] + queue[i + 1..]
  }

  lemma StillIn(queue: Queue, i: nat, k: nat)
    requires i < |queue| && k < |queue| && k != i
    ensures queue[k] in Without(queue, i)
  {
    assert queue[k] == Without(queue, i)[if k < i then k else k - 1];
  }

  lemma OkWithout(queue: Queue, device: Blocks, i: nat)
    requires QueueOk(queue, device) && i < |queue|
    ensures QueueOk(Without(queue, i), Synced(device, queue[i])) && !Resident(Without(queue, i), queue[i].id)
  {
    hide At, Synced;
    SyncedOne(device, queue[i]);
  }

  /** Dropping an entry writes it back first: nothing that anybody sees changes. */
  lemma DroppedSame(queue: Queue, device: Blocks, i: nat)
    requires QueueOk(queue, device) && i < |queue|
    ensures QueueOk(Without(queue, i), Synced(device, queue[i]))
    ensures SameView(queue, device, Without(queue, i), Synced(device, queue[i]))
  {
    hide At, Synced, Seen;
    var queue', device' := Without(queue, i), Synced(device, queue[i]);
    OkWithout(queue, device, i);
    SyncedOne(device, queue[i]);
    forall b ensures Seen(queue', device', b) == Seen(queue, device, b) {
      if Resident(queue', b) {
        var k :| 0 <= k < |queue'| && queue'[k].id == b;
        SeenAt(queue', device', k);
        SeenAt(queue, device, if k < i then k else k + 1);
      } else {
        SeenOutside(queue', device', b);
        if Resident(queue, b) {
          OnlyMissing(queue, i, b);
          SeenAt(queue, device, i);
        } else {
          SeenOutside(queue, device, b);
          assert b != queue[i].id;
        }
      }
    }
  }

  lemma OnlyMissing(queue: Queue, i: nat, b: nat)
    requires i < |queue| && Resident(queue, b) && !Resident(Without(queue, i), b)
    ensures b == queue[i].id
  {
    var k :| 0 <= k < |queue| && queue[k].id == b;
    if k != i {
      StillIn(queue, i, k);
    }
  }

  lemma SeenOutside(queue: Queue, device: Blocks, b: nat)
    requires !Resident(queue, b)
    ensures Seen(queue, device, b) == At(device, b)
  {
  }

  /** Loading a block shows what the device holds. */
  lemma LoadedSame(queue: Queue, device: Blocks, e: Entry)
    requires QueueOk(queue, device) && !Resident(queue, e.id) && |queue| < BLOCK_CACHE_SIZE
    requires e.data == At(device, e.id)
    ensures QueueOk(queue + [e], device) && SameView(queue, device, queue + [e], device)
  {
    hide At, Seen;
    var queue' := queue + [e];
    assert QueueOk(queue', device);
    forall b ensures Seen(queue', device, b) == Seen(queue, device, b) {
      if b == e.id {
        SeenAt(queue', device, |queue|);
        SeenOutside(queue, device, b);
      } else if Resident(queue, b) {
        var k :| 0 <= k < |queue| && queue[k].id == b;
        SeenAt(queue, device, k);
        SeenAt(queue', device, k);
      } else {
        SeenOutside(queue, device, b);
        SeenOutside(queue', device, b);
      }
    }
  }

  /** Putting another entry for the same block in place changes what is seen of that block only. */
  lemma ReplacedSame(queue: Queue, device: Blocks, k: nat, e: Entry)
    requires QueueOk(queue, device) && k < |queue| && e.id == queue[k].id
    requires !e.modified ==> At(device, e.id) == e.data
    ensures QueueOk(queue[k := e], device) && Seen(queue[k := e], device, e.id) == e.data
    ensures forall b :: b != e.id ==> Seen(queue[k := e], device, b) == Seen(queue, device, b)
  {
    hide At, Seen;
    var queue' := queue[k := e];
    SeenAt(queue', device, k);
    forall b | b != e.id ensures Seen(queue', device, b) == Seen(queue, device, b) {
      if Resident(queue, b) {
        var j :| 0 <= j < |queue| && queue[j].id == b;
        SeenAt(queue, device, j);
        SeenAt(queue', device, j);
      } else {
        SeenOutside(queue, device, b);
        SeenOutside(queue', device, b);
      }
    }
  }

  // Replacement

  /** The first entry, in order of arrival, that nobody holds. */
  ghost predicate IsVictim(queue: Queue, i: nat) {
    && i < |queue| && queue[i].handles == 0
    && forall j :: 0 <= j < i ==> queue[j].handles > 0
  }

  ghost predicate AllHeld(queue: Queue) {
    forall j :: 0 <= j < |queue| ==> queue[j].handles > 0
  }

  function HeldCount(queue: Queue): nat {
    if queue == [] then 0 else HeldCount(queue[..|queue| - 1]) + if queue[|queue| - 1].handles > 0 then 1 else 0
  }

  /** With fewer entries held than there are, one can be replaced: the panic needs sixteen blocks held at once. */
  lemma {:induction false} HeldAll(queue: Queue)
    ensures HeldCount(queue) <= |queue| && (HeldCount(queue) == |queue| <==> AllHeld(queue))
  {
    if queue != [] {
      var rest := queue[..|queue| - 1];
      HeldAll(rest);
      assert forall j :: 0 <= j < |rest| ==> rest[j] == queue[j];
    }
  }

  ghost predicate Hit(queue: Queue, k: nat, b: nat, queue': Queue) {
    && k < |queue| && queue[k].id == b
    && queue' == queue[k := queue[k].(handles := queue[k].handles + 1)]
  }

  ghost predicate Replaced(queue: Queue, device: Blocks, i: nat, b: nat, queue': Queue, device': Blocks) {
    && IsVictim(queue, i) && device' == Synced(device, queue[i])
    && queue' == Without(queue, i) + [Entry(b, At(device', b), false, 1)]
  }

  /** The queue and the device when block `b` is asked for: a hit changes a count of handles only, a miss may drop
      the victim and adds the block at the end. */
  ghost predicate Got(queue: Queue, device: Blocks, b: nat, queue': Queue, device': Blocks) {
    if Resident(queue, b) then device' == device && exists k: nat :: Hit(queue, k, b, queue')
    else if |queue| < BLOCK_CACHE_SIZE then
      device' == device && queue' == queue + [Entry(b, At(device, b), false, 1)]
    else exists i: nat :: Replaced(queue, device, i, b, queue', device')
  }

  /** Hits, misses and evictions show every reader the same bytes. */
  lemma GotSame(queue: Queue, device: Blocks, b: nat, queue': Queue, device': Blocks)
    requires QueueOk(queue, device) && Got(queue, device, b, queue', device')
    ensures QueueOk(queue', device') && SameView(queue, device, queue', device') && Resident(queue', b)
  {
    hide At, Seen, Synced, QueueOk;
    if Resident(queue, b) {
      var k: nat :| Hit(queue, k, b, queue');
      HeldOnce(queue, device, k, queue'[k]);
    } else if |queue| < BLOCK_CACHE_SIZE {
      LoadedSame(queue, device, Entry(b, At(device, b), false, 1));
      assert queue'[|queue|].id == b;
    } else {
      var i: nat :| Replaced(queue, device, i, b, queue', device');
      OkSize(queue, device);
      DroppedSame(queue, device, i);
      NotBack(queue, i, b);
      LoadedSame(Without(queue, i), device', Entry(b, At(device', b), false, 1));
      assert queue'[|queue| - 1].id == b;
    }
  }

  lemma OkSize(queue: Queue, device: Blocks)
    requires QueueOk(queue, device)
    ensures |queue| <= BLOCK_CACHE_SIZE
  {
  }

  lemma NotBack(queue: Queue, i: nat, b: nat)
    requires i < |queue| && !Resident(queue, b)
    ensures !Resident(Without(queue, i), b)
  {
  }

  /** Only the count of handles differs. */
  lemma HeldOnce(queue: Queue, device: Blocks, k: nat, e: Entry)
    requires QueueOk(queue, device) && k < |queue| && e == queue[k].(handles := e.handles)
    ensures QueueOk(queue[k := e], device) && SameView(queue, device, queue[k := e], device)
    ensures Resident(queue[k := e], e.id)
  {
    hide At, Seen;
    ReplacedSame(queue, device, k, e);
    SeenAt(queue, device, k);
    assert queue[k := e][k].id == e.id;
    forall b ensures Seen(queue[k := e], device, b) == Seen(queue, device, b) {
      assert b == e.id || b != e.id;
    }
  }

  class BlockCacheManager {
    var queue: Queue
    var device: Blocks

    ghost predicate Valid()
      reads this
    {
      QueueOk(queue, device)
    }

    constructor (device: Blocks)
      ensures Valid() && queue == [] && this.device == device
    {
      queue, this.device := [], device;
    }

    method Find(b: nat) returns (k: nat)
      ensures k <= |queue| && (k < |queue| ==> queue[k].id == b) && (k == |queue| <==> !Resident(queue, b))
    {
      k := 0;
      while k < |queue| && queue[k].id != b
        invariant 0 <= k <= |queue| && forall j :: 0 <= j < k ==> queue[j].id != b
      {
        k := k + 1;
      }
    }

    method FindVictim() returns (i: nat)
      ensures i <= |queue| && (i < |queue| ==> IsVictim(queue, i)) && (i == |queue| <==> AllHeld(queue))
    {
      i := 0;
      while i < |queue| && queue[i].handles > 0
        invariant 0 <= i <= |queue| && forall j :: 0 <= j < i ==> queue[j].handles > 0
      {
        i := i + 1;
      }
    }

    /** `get_block_cache`; `ok` is false where the source panics. */
    method GetBlockCache(b: nat) returns (ok: bool)
      requires Valid()
      modifies this
      ensures Valid()
      ensures ok <==> old(Resident(queue, b) || |queue| < BLOCK_CACHE_SIZE || !AllHeld(queue))
      ensures !ok ==> queue == old(queue) && device == old(device)
      ensures ok ==> Got(old(queue), old(device), b, queue, device)
    {
      hide At, Synced, QueueOk;
      ghost var queue0, device0 := queue, device;
      OkSize(queue, device);
      var k := Find(b);
      if k < |queue| {
        queue := queue[k := queue[k].(handles := queue[k].handles + 1)];
        assert Hit(queue0, k, b, queue);
      } else if |queue| == BLOCK_CACHE_SIZE {
        var i := FindVictim();
        if i == |queue| {
          return false;
        }
        device := Synced(device, queue[i]);
        queue := Without(queue, i) + [Entry(b, At(device, b), false, 1)];
        assert Replaced(queue0, device0, i, b, queue, device);
      } else {
        queue := queue + [Entry(b, At(device, b), false, 1)];
      }
      assert Got(queue0, device0, b, queue, device);
      GotSame(queue0, device0, b, queue, device);
      return true;
    }

    /** A reference dropped by its holder. */
    method Release(b: nat)
      requires Valid() && exists k :: 0 <= k < |queue| && queue[k].id == b && queue[k].handles > 0
      modifies this`queue
      ensures Valid() && SameView(old(queue), old(device), queue, device)
    {
      hide At, Seen, QueueOk;
      ghost var queue0 := queue;
      var k := Find(b);
      OneEntry(queue, device, k, b);
      var e := queue[k].(handles := queue[k].handles - 1);
      HeldOnce(queue, device, k, e);
      queue := queue[k := e];
    }

    /** `modify` through a reference: the block shows the new bytes, and no other block changes. */
    method Modify(b: nat, at: nat, bytes: seq<byte>)
      requires Valid() && Resident(queue, b) && at + |bytes| <= BLOCK_SZ
      modifies this`queue
      ensures Valid() && Seen(queue, device, b) == Splice(old(Seen(queue, device, b)), at, bytes)
      ensures forall c :: c != b ==> Seen(queue, device, c) == old(Seen(queue, device, c))
    {
      hide At, Seen, QueueOk, Splice;
      var k := Find(b);
      SeenAt(queue, device, k);
      var e := queue[k].(data := Splice(queue[k].data, at, bytes), modified := true);
      ReplacedSame(queue, device, k, e);
      queue := queue[k := e];
    }

    /** `block_cache_sync_all`: everybody sees the same bytes as before, and the device holds them. */
    method SyncAll()
      requires Valid()
      modifies this
      ensures Valid() && SameView(old(queue), old(device), queue, device)
      ensures forall b :: At(device, b) == Seen(queue, device, b)
    {
      hide At, Seen, QueueOk, Synced;
      ghost var queue0, device0 := queue, device;
      for k := 0 to |queue|
        invariant QueueOk(queue, device) && |queue| == |queue0| && SameView(queue0, device0, queue, device)
        invariant forall j :: 0 <= j < k ==> !queue[j].modified
      {
        SyncedEntry(queue, device, k);
        var e := queue[k].(modified := false);
        device := Synced(device, queue[k]);
        queue := queue[k := e];
      }
      AllSynced(queue, device);
    }
  }

  lemma OneEntry(queue: Queue, device: Blocks, k: nat, b: nat)
    requires QueueOk(queue, device) && k < |queue| && queue[k].id == b
    requires exists j :: 0 <= j < |queue| && queue[j].id == b && queue[j].handles > 0
    ensures queue[k].handles > 0
  {
    hide At;
  }

  lemma SyncedEntry(queue: Queue, device: Blocks, k: nat)
    requires QueueOk(queue, device) && k < |queue|
    ensures var queue', device' := queue[k := queue[k].(modified := false)], Synced(device, queue[k]);
            QueueOk(queue', device') && SameView(queue, device, queue', device')
  {
    hide At, Seen, Synced;
    var e := queue[k];
    var queue', device' := queue[k := e.(modified := false)], Synced(device, e);
    SyncedOne(device, e);
    forall b ensures Seen(queue', device', b) == Seen(queue, device, b) {
      if Resident(queue, b) {
        var j :| 0 <= j < |queue| && queue[j].id == b;
        SeenAt(queue, device, j);
        SeenAt(queue', device', j);
      } else {
        SeenOutside(queue, device, b);
        SeenOutside(queue', device', b);
        assert e.id != b;
      }
    }
  }

  lemma AllSynced(queue: Queue, device: Blocks)
    requires QueueOk(queue, device) && forall j :: 0 <= j < |queue| ==> !queue[j].modified
    ensures forall b :: At(device, b) == Seen(queue, device, b)
  {
    hide At, Seen;
    forall b ensures At(device, b) == Seen(queue, device, b) {
      if Resident(queue, b) {
        var k :| 0 <= k < |queue| && queue[k].id == b;
        SeenAt(queue, device, k);
      } else {
        SeenOutside(queue, device, b);
      }
    }
  }
}
