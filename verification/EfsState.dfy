/** What the inodes, the disk and the data bitmap of an easy-fs volume keep between operations, and what each
    step (growing, overwriting, clearing and creating a file) does to the bytes of every file. */
module EfsState {
  import opened Common
  import opened EfsLayout
  import opened EfsBytes

  /** Inode numbers are positions: numbers are taken first fit and never given back. `used` are the positions of
      the set bits of the data bitmap, counted from `dataStart`. */
  datatype State = State(nodes: seq<Node>, blocks: Blocks, used: set<nat>, dataStart: nat, dataBlocks: nat)

  ghost predicate InUse(st: State, b: nat) {
    st.dataStart <= b < st.dataStart + st.dataBlocks && b - st.dataStart in st.used
  }

  ghost predicate IsFree(st: State, b: nat) {
    st.dataStart <= b < st.dataStart + st.dataBlocks && b - st.dataStart !in st.used
  }

  ghost predicate Sized(n: Node) {
    NodeOk(n) && n.size <= MAX_SIZE
  }

  /** Bytes past the size, in the blocks that the file has, are zero. */
  ghost predicate ZeroTail(n: Node, blocks: Blocks)
    requires Sized(n)
  {
    forall j: nat :: n.size <= j < MAX_SIZE && Covered(DataBlocks(n.size), j) ==> ByteAt(n, blocks, j) == 0
  }

  ghost predicate AllInUse(st: State, own: seq<nat>) {
    forall q :: 0 <= q < |own| ==> InUse(st, own[q])
  }

  ghost predicate FileOk(st: State, n: Node) {
    && Sized(n) && NoDup(Owned(n, st.blocks)) && AllInUse(st, Owned(n, st.blocks)) && ZeroTail(n, st.blocks)
  }

  ghost predicate Apart(own: seq<nat>, own': seq<nat>) {
    forall q, r :: 0 <= q < |own| && 0 <= r < |own'| ==> own[q] != own'[r]
  }

  ghost predicate AllOk(st: State) {
    forall i :: 0 <= i < |st.nodes| ==> FileOk(st, st.nodes[i])
  }

  ghost predicate AllApart(st: State)
    requires AllOk(st)
  {
    forall i, k :: 0 <= i < |st.nodes| && 0 <= k < |st.nodes| && i != k ==>
      Apart(Owned(st.nodes[i], st.blocks), Owned(st.nodes[k], st.blocks))
  }

  /** The block is one of the inode's. */
  ghost predicate OwnedOf(st: State, i: nat, b: nat) {
    i < |st.nodes| && Sized(st.nodes[i]) && b in Owned(st.nodes[i], st.blocks)
  }

  ghost predicate HasOwner(st: State, b: nat) {
    exists i :: OwnedOf(st, i, b)
  }

  ghost predicate NoneLost(st: State) {
    && (forall u :: u in st.used ==> u < st.dataBlocks)
    && forall b :: InUse(st, b) ==> HasOwner(st, b)
  }

  ghost predicate FreeZero(st: State) {
    forall b :: IsFree(st, b) ==> At(st.blocks, b) == Zeros(BLOCK_SZ)
  }

  /** Every file's blocks are in use, no block has two owners, every used block has one, and free blocks as well
      as bytes past the end of a file are zero. */
  ghost predicate Sound(st: State) {
    && st.dataStart + st.dataBlocks <= U32
    && AllOk(st) && AllApart(st) && NoneLost(st) && FreeZero(st)
  }

  ghost function FilesOf(st: State): seq<seq<byte>>
    requires AllOk(st)
  {
    seq(|st.nodes|, i requires 0 <= i < |st.nodes| => Content(st.nodes[i], st.blocks))
  }

  // Files whose blocks are not written to

  lemma OwnedParts(n: Node, blocks: Blocks, own: seq<nat>)
    requires Sized(n)
    ensures own == Owned(n, blocks) <==> OwnedBy(n, blocks, DataBlocks(n.size), own)
  {
    hide Flat, Filled, Total;
    Bounds(n.size);
    FilledIsFlat(n, blocks, Owned(n, blocks));
    if OwnedBy(n, blocks, DataBlocks(n.size), own) {
      FilledIsFlat(n, blocks, own);
    }
  }

  ghost predicate Untouched(own: seq<nat>, changed: set<nat>) {
    forall q :: 0 <= q < |own| ==> own[q] !in changed
  }

  lemma FileUntouched(n: Node, blocks: Blocks, blocks': Blocks, changed: set<nat>)
    requires Sized(n) && SameBut(blocks, blocks', changed) && Untouched(Owned(n, blocks), changed)
    ensures Owned(n, blocks') == Owned(n, blocks) && Content(n, blocks') == Content(n, blocks)
    ensures ZeroTail(n, blocks) ==> ZeroTail(n, blocks')
  {
    hide Owned, OwnedBy, ByteAt, SameBut, Indexes, Untouched;
    var own := Owned(n, blocks);
    OwnedParts(n, blocks, own);
    OwnedUntouched(n, blocks, blocks', DataBlocks(n.size), own, changed);
    OwnedParts(n, blocks', own);
    forall j: nat | Covered(DataBlocks(n.size), j) ensures j < MAX_SIZE && ByteAt(n, blocks', j) == ByteAt(n, blocks, j) {
      ByteUntouched(n, blocks, blocks', DataBlocks(n.size), own, changed, j);
    }
    forall j: nat | j < n.size ensures ByteAt(n, blocks', j) == ByteAt(n, blocks, j) {
      SizeCovered(n.size, j);
    }
  }

  lemma OwnedUntouched(n: Node, blocks: Blocks, blocks': Blocks, count: nat, own: seq<nat>, changed: set<nat>)
    requires OwnedBy(n, blocks, count, own) && SameBut(blocks, blocks', changed) && Untouched(own, changed)
    ensures OwnedBy(n, blocks', count, own)
  {
    hide Filled, SameBut, Total;
    FilledUntouched(n, blocks, blocks', own, changed);
  }

  lemma ByteUntouched(n: Node, blocks: Blocks, blocks': Blocks, count: nat, own: seq<nat>, changed: set<nat>, j: nat)
    requires OwnedBy(n, blocks, count, own) && OwnedBy(n, blocks', count, own) && SameBut(blocks, blocks', changed)
    requires Covered(count, j) && Untouched(own, changed)
    ensures NodeOk(n) && j < MAX_SIZE && ByteAt(n, blocks', j) == ByteAt(n, blocks, j)
  {
    hide OwnedBy, ByteAt, SameBut, Pos;
    CoveredByte(n, blocks, count, own, j);
    CoveredByte(n, blocks', count, own, j);
    SameAt(blocks, blocks', changed, DataOf(own, j));
  }

  // A step at one file

  ghost predicate OthersSame(st: State, i: nat, st': State) {
    && i < |st.nodes| == |st'.nodes| && st'.dataStart == st.dataStart && st'.dataBlocks == st.dataBlocks
    && forall k :: 0 <= k < |st.nodes| && k != i ==> st'.nodes[k] == st.nodes[k]
  }

  /** The blocks written to and those given back belong to file `i`, or to nobody before the step. */
  ghost predicate Confined(st: State, i: nat, st': State, touched: set<nat>)
    requires AllOk(st)
  {
    && SameBut(st.blocks, st'.blocks, touched)
    && forall k :: 0 <= k < |st.nodes| && k != i ==> Untouched(Owned(st.nodes[k], st.blocks), touched)
  }

  /** What the bitmap says afterwards: `own` and `own'` are the blocks of file `i` before and after. */
  ghost predicate Exchanged(st: State, st': State, own: seq<nat>, own': seq<nat>) {
    && (forall u :: u in st'.used ==> u < st'.dataBlocks)
    && (forall b :: InUse(st, b) && b !in own ==> InUse(st', b))
    && (forall b :: InUse(st', b) ==> b in own' || (InUse(st, b) && b !in own))
    && (forall b :: b in own' ==> b in own || IsFree(st, b))
  }

  lemma OthersStay(st: State, i: nat, st': State, touched: set<nat>, own': seq<nat>, k: nat)
    requires Sound(st) && OthersSame(st, i, st') && Confined(st, i, st', touched) && k < |st.nodes| && k != i
    requires Exchanged(st, st', Owned(st.nodes[i], st.blocks), own')
    ensures FileOk(st', st'.nodes[k]) && Owned(st'.nodes[k], st'.blocks) == Owned(st.nodes[k], st.blocks)
    ensures Content(st'.nodes[k], st'.blocks) == Content(st.nodes[k], st.blocks)
  {
    hide Owned, Content, SameBut, ZeroTail, NoDup, NoneLost, FreeZero, Untouched;
    var n := st.nodes[k];
    assert FileOk(st, n);
    FileUntouched(n, st.blocks, st'.blocks, touched);
    assert Apart(Owned(n, st.blocks), Owned(st.nodes[i], st.blocks));
    forall q | 0 <= q < |Owned(n, st.blocks)| ensures InUse(st', Owned(n, st.blocks)[q]) {
      assert Owned(n, st.blocks)[q] !in Owned(st.nodes[i], st.blocks);
    }
  }

  lemma StepSound(st: State, i: nat, st': State, touched: set<nat>)
    requires Sound(st) && OthersSame(st, i, st') && Confined(st, i, st', touched)
    requires FileOk(st', st'.nodes[i])
    requires Exchanged(st, st', Owned(st.nodes[i], st.blocks), Owned(st'.nodes[i], st'.blocks)) && FreeZero(st')
    ensures Sound(st') && FilesOf(st') == FilesOf(st)[i := Content(st'.nodes[i], st'.blocks)]
  {
    hide Owned, Content, SameBut, ZeroTail, NoDup, FreeZero, Untouched, FileOk, Confined, Exchanged, NoneLost, Apart;
    OkSized(st', st'.nodes[i]);
    forall k | 0 <= k < |st.nodes| && k != i
      ensures FileOk(st', st'.nodes[k]) && FileOk(st, st.nodes[k])
      ensures Sized(st.nodes[k]) && Owned(st'.nodes[k], st'.blocks) == Owned(st.nodes[k], st.blocks)
      ensures Content(st'.nodes[k], st'.blocks) == Content(st.nodes[k], st.blocks)
    {
      OthersStay(st, i, st', touched, Owned(st'.nodes[i], st'.blocks), k);
      OkSized(st, st.nodes[k]);
    }
    OkSized(st, st.nodes[i]);
    forall k | 0 <= k < |st.nodes| && k != i
      ensures Apart(Owned(st'.nodes[i], st'.blocks), Owned(st'.nodes[k], st'.blocks))
      ensures Apart(Owned(st'.nodes[k], st'.blocks), Owned(st'.nodes[i], st'.blocks))
    {
      OkSized(st, st.nodes[k]);
      NewApart(st, st', Owned(st.nodes[i], st.blocks), Owned(st'.nodes[i], st'.blocks), Owned(st.nodes[k], st.blocks));
    }
    StepNoneLost(st, i, st');
  }

  lemma OkSized(st: State, n: Node)
    requires FileOk(st, n)
    ensures Sized(n) && AllInUse(st, Owned(n, st.blocks))
  {
  }

  lemma NewApart(st: State, st': State, own: seq<nat>, own': seq<nat>, other: seq<nat>)
    requires Exchanged(st, st', own, own') && Apart(own, other) && AllInUse(st, other)
    ensures Apart(own', other) && Apart(other, own')
  {
    forall q, r | 0 <= q < |own'| && 0 <= r < |other| ensures own'[q] != other[r] {
      assert own'[q] in own' && InUse(st, other[r]);
    }
  }

  lemma StepNoneLost(st: State, i: nat, st': State)
    requires AllOk(st) && NoneLost(st) && OthersSame(st, i, st') && Sized(st'.nodes[i])
    requires Exchanged(st, st', Owned(st.nodes[i], st.blocks), Owned(st'.nodes[i], st'.blocks))
    requires forall k :: 0 <= k < |st.nodes| && k != i ==>
               Sized(st.nodes[k]) && Owned(st'.nodes[k], st'.blocks) == Owned(st.nodes[k], st.blocks)
    ensures NoneLost(st')
  {
    hide Owned, InUse, IsFree;
    forall b | InUse(st', b) ensures HasOwner(st', b) {
      if b in Owned(st'.nodes[i], st'.blocks) {
        assert OwnedOf(st', i, b);
      } else {
        assert HasOwner(st, b);
        var k :| OwnedOf(st, k, b);
        assert OwnedOf(st', k, b);
      }
    }
  }

  // Growing

  ghost function BitsOf(ids: seq<nat>, start: nat): set<nat> {
    set q | 0 <= q < |ids| && ids[q] >= start :: ids[q] - start
  }

  /** New blocks: free, and each given once. */
  ghost predicate Fresh(st: State, ids: seq<nat>) {
    NoDup(ids) && forall q :: 0 <= q < |ids| ==> IsFree(st, ids[q])
  }

  ghost predicate GrewTo(st: State, i: nat, newSize: nat, newBlocks: seq<nat>, st': State) {
    && OthersSame(st, i, st') && st.nodes[i].size <= newSize && Fresh(st, newBlocks)
    && Grown(st.nodes[i], st.blocks, newSize, newBlocks, st'.nodes[i], st'.blocks)
    && st'.used == st.used + BitsOf(newBlocks, st.dataStart)
  }

  lemma BitTaken(st: State, ids: seq<nat>, b: nat)
    requires Fresh(st, ids)
    ensures b >= st.dataStart ==> (b - st.dataStart in BitsOf(ids, st.dataStart) <==> b in ids)
  {
    if b in ids {
      var q :| 0 <= q < |ids| && ids[q] == b;
    }
  }

  lemma GrownWanted(st: State, i: nat, newBlocks: seq<nat>)
    requires Sound(st) && i < |st.nodes| && Fresh(st, newBlocks)
    ensures Sized(st.nodes[i]) && NoDup(Owned(st.nodes[i], st.blocks) + newBlocks)
    ensures Numbers(Owned(st.nodes[i], st.blocks) + newBlocks)
  {
    hide Owned, ZeroTail, AllApart, NoneLost, FreeZero;
    assert FileOk(st, st.nodes[i]);
    var own := Owned(st.nodes[i], st.blocks);
    forall q, r | 0 <= q < |own| && 0 <= r < |newBlocks| ensures own[q] != newBlocks[r] {
      assert InUse(st, own[q]) && IsFree(st, newBlocks[r]);
    }
  }

  lemma GrewExchanged(st: State, i: nat, newSize: nat, newBlocks: seq<nat>, st': State)
    requires Sound(st) && GrewTo(st, i, newSize, newBlocks, st') && Sized(st.nodes[i]) && Sized(st'.nodes[i])
    ensures Exchanged(st, st', Owned(st.nodes[i], st.blocks), Owned(st'.nodes[i], st'.blocks))
    ensures AllInUse(st', Owned(st'.nodes[i], st'.blocks))
  {
    hide Owned, ZeroTail, AllApart, FreeZero, BitsOf, NoDup, SameBut, Indexes;
    assert FileOk(st, st.nodes[i]);
    var own := Owned(st.nodes[i], st.blocks);
    assert Owned(st'.nodes[i], st'.blocks) == own + newBlocks;
    forall b ensures InUse(st', b) <==> InUse(st, b) || b in newBlocks {
      BitTaken(st, newBlocks, b);
      if b in newBlocks {
        var q :| 0 <= q < |newBlocks| && newBlocks[q] == b;
        assert IsFree(st, newBlocks[q]);
      }
    }
    forall q | 0 <= q < |own + newBlocks| ensures InUse(st', (own + newBlocks)[q]) {
      if q < |own| {
        assert InUse(st, own[q]);
      } else {
        assert newBlocks[q - |own|] in newBlocks;
      }
    }
    forall u | u in st'.used ensures u < st'.dataBlocks {
      if u !in st.used {
        BitTaken(st, newBlocks, u + st.dataStart);
        assert u + st.dataStart in newBlocks;
      }
    }
    forall b | b in own + newBlocks ensures b in own || IsFree(st, b) {
    }
  }

  lemma IndexAmong(ids: seq<nat>, b: nat)
    requires b in Indexes(ids)
    ensures b in ids
  {
  }

  lemma GrewConfined(st: State, i: nat, newSize: nat, newBlocks: seq<nat>, st': State)
    requires Sound(st) && GrewTo(st, i, newSize, newBlocks, st') && Sized(st.nodes[i]) && Sized(st'.nodes[i])
    ensures Confined(st, i, st', Indexes(Owned(st'.nodes[i], st'.blocks)))
  {
    hide Owned, ZeroTail, NoneLost, FreeZero, BitsOf, NoDup, SameBut, Indexes;
    var own := Owned(st.nodes[i], st.blocks);
    var changed := Indexes(own + newBlocks);
    forall k | 0 <= k < |st.nodes| && k != i ensures Untouched(Owned(st.nodes[k], st.blocks), changed) {
      var other := Owned(st.nodes[k], st.blocks);
      assert FileOk(st, st.nodes[k]) && Apart(other, own);
      forall q | 0 <= q < |other| ensures other[q] !in changed {
        assert InUse(st, other[q]);
        if other[q] in changed {
          IndexAmong(own + newBlocks, other[q]);
        }
      }
    }
  }

  /** The bytes of a file that grew: the old ones, then zeros, from free blocks and from the tail of the last one. */
  lemma GrownBytes(st: State, i: nat, newSize: nat, newBlocks: seq<nat>, st': State, j: nat)
    requires Sound(st) && GrewTo(st, i, newSize, newBlocks, st') && Sized(st.nodes[i]) && Sized(st'.nodes[i])
    requires Covered(DataBlocks(newSize), j) && j < MAX_SIZE
    ensures ByteAt(st'.nodes[i], st'.blocks, j)
         == if j < st.nodes[i].size then ByteAt(st.nodes[i], st.blocks, j) else 0
  {
    hide Owned, ByteAt, Pos, SameBut, Indexes, NoDup, AllInUse, AllApart, NoneLost, OwnedBy, DataOf, BitsOf, At;
    var n, n' := st.nodes[i], st'.nodes[i];
    assert FileOk(st, n);
    var own, own' := Owned(n, st.blocks), Owned(n', st'.blocks);
    GrownWanted(st, i, newBlocks);
    OwnedParts(n, st.blocks, own);
    OwnedParts(n', st'.blocks, own');
    CoveredByte(n', st'.blocks, DataBlocks(newSize), own', j);
    DataPlace(own', j);
    SameAt(st.blocks, st'.blocks, Indexes(own'), DataOf(own', j));
    OldOrNew(own, newBlocks, j);
    CoveredIff(own, n.size, j);
    if Covered(DataBlocks(n.size), j) {
      CoveredByte(n, st.blocks, DataBlocks(n.size), own, j);
    } else {
      SizeCovers(n.size, j);
      assert IsFree(st, DataOf(own', j));
    }
  }

  lemma CoveredIff(own: seq<nat>, size: nat, j: nat)
    requires |own| == TotalBlocks(size)
    ensures Covered(DataBlocks(size), j) <==> Pos(Data(j / BLOCK_SZ)) < |own|
  {
    TotalCounts(Data(j / BLOCK_SZ), DataBlocks(size));
  }

  lemma SizeCovers(size: nat, j: nat)
    ensures j < size ==> Covered(DataBlocks(size), j)
  {
    if j < size {
      SizeCovered(size, j);
    }
  }

  lemma OldOrNew(own: seq<nat>, newBlocks: seq<nat>, j: nat)
    requires Pos(Data(j / BLOCK_SZ)) < |own + newBlocks|
    ensures Pos(Data(j / BLOCK_SZ)) < |own| ==> DataOf(own + newBlocks, j) == DataOf(own, j)
    ensures Pos(Data(j / BLOCK_SZ)) >= |own| ==> DataOf(own + newBlocks, j) in newBlocks
  {
    hide Pos;
    var p := Pos(Data(j / BLOCK_SZ));
    if p >= |own| {
      assert newBlocks[p - |own|] in newBlocks;
    }
  }

  lemma GrewSound(st: State, i: nat, newSize: nat, newBlocks: seq<nat>, st': State)
    requires Sound(st) && GrewTo(st, i, newSize, newBlocks, st')
    ensures Sound(st') && |FilesOf(st)| == |st.nodes|
    ensures FilesOf(st') == FilesOf(st)[i := FilesOf(st)[i] + Zeros(newSize - |FilesOf(st)[i]|)]
  {
    hide Owned, ByteAt, SameBut, Indexes, NoDup, AllInUse, AllApart, NoneLost, Confined, Exchanged, FreeZero, Grown, Zeros;
    var n, n' := st.nodes[i], st'.nodes[i];
    GrownSized(n, st.blocks, newSize, newBlocks, n', st'.blocks);
    GrownWanted(st, i, newBlocks);
    GrewExchanged(st, i, newSize, newBlocks, st');
    GrewConfined(st, i, newSize, newBlocks, st');
    GrewFreeZero(st, i, newSize, newBlocks, st');
    forall j: nat | Covered(DataBlocks(newSize), j) && j < MAX_SIZE
      ensures ByteAt(n', st'.blocks, j) == if j < n.size then ByteAt(n, st.blocks, j) else 0
    {
      GrownBytes(st, i, newSize, newBlocks, st', j);
    }
    assert ZeroTail(n', st'.blocks);
    assert FileOk(st', n');
    GrownContent(n, st.blocks, newSize, n', st'.blocks);
    StepSound(st, i, st', Indexes(Owned(n', st'.blocks)));
  }

  lemma GrownSized(n: Node, blocks: Blocks, newSize: nat, newBlocks: seq<nat>, n': Node, blocks': Blocks)
    requires Grown(n, blocks, newSize, newBlocks, n', blocks')
    ensures Sized(n) && Sized(n') && n'.size == newSize && Owned(n', blocks') == Owned(n, blocks) + newBlocks
  {
    hide Owned, SameBut, Indexes;
  }

  lemma GrownContent(n: Node, blocks: Blocks, newSize: nat, n': Node, blocks': Blocks)
    requires Sized(n) && Sized(n') && n.size <= newSize == n'.size
    requires forall j: nat :: Covered(DataBlocks(newSize), j) && j < MAX_SIZE ==>
               ByteAt(n', blocks', j) == if j < n.size then ByteAt(n, blocks, j) else 0
    ensures Content(n', blocks') == Content(n, blocks) + Zeros(newSize - n.size)
  {
    hide ByteAt, Covered, DataBlocks;
    forall j: nat | j < newSize ensures Content(n', blocks')[j] == (Content(n, blocks) + Zeros(newSize - n.size))[j] {
      SizeCovered(newSize, j);
    }
  }

  lemma GrewFreeZero(st: State, i: nat, newSize: nat, newBlocks: seq<nat>, st': State)
    requires Sound(st) && GrewTo(st, i, newSize, newBlocks, st') && Sized(st.nodes[i]) && Sized(st'.nodes[i])
    ensures FreeZero(st')
  {
    hide Owned, AllOk, AllApart, NoneLost, BitsOf, NoDup, SameBut, Indexes, Exchanged, At, Zeros;
    GrewExchanged(st, i, newSize, newBlocks, st');
    var own' := Owned(st'.nodes[i], st'.blocks);
    forall b | IsFree(st', b) ensures At(st'.blocks, b) == Zeros(BLOCK_SZ) {
      forall q | 0 <= q < |own'| ensures own'[q] != b {
        assert InUse(st', own'[q]);
      }
      if b in Indexes(own') {
        IndexAmong(own', b);
      }
      SameAt(st.blocks, st'.blocks, Indexes(own'), b);
      assert IsFree(st, b);
    }
  }

  // Overwriting

  ghost predicate WroteTo(st: State, i: nat, offset: nat, n: nat, buf: seq<byte>, st': State) {
    && OthersSame(st, i, st') && st'.used == st.used && st'.nodes[i] == st.nodes[i] && Sized(st.nodes[i])
    && OwnedBy(st.nodes[i], st'.blocks, DataBlocks(st.nodes[i].size), Owned(st.nodes[i], st.blocks))
    && offset + n <= st.nodes[i].size && n <= |buf|
    && WrittenTo(st.nodes[i], st.blocks, st'.blocks, DataBlocks(st.nodes[i].size), offset, offset + n, buf)
    && SameBut(st.blocks, st'.blocks, DataIds(Owned(st.nodes[i], st.blocks)))
  }

  lemma SetConfined(st: State, i: nat, st': State, touched: set<nat>)
    requires Sound(st) && OthersSame(st, i, st') && SameBut(st.blocks, st'.blocks, touched) && Sized(st.nodes[i])
    requires forall b :: b in touched ==> b in Owned(st.nodes[i], st.blocks)
    ensures Confined(st, i, st', touched)
  {
    hide Owned, ZeroTail, NoneLost, FreeZero, NoDup, SameBut;
    forall k | 0 <= k < |st.nodes| && k != i ensures Untouched(Owned(st.nodes[k], st.blocks), touched) {
      assert Apart(Owned(st.nodes[k], st.blocks), Owned(st.nodes[i], st.blocks));
    }
  }

  lemma WroteSound(st: State, i: nat, offset: nat, n: nat, buf: seq<byte>, st': State)
    requires Sound(st) && WroteTo(st, i, offset, n, buf, st')
    ensures Sound(st') && offset + n <= |FilesOf(st)[i]|
    ensures FilesOf(st') == FilesOf(st)[i := Splice(FilesOf(st)[i], offset, buf[..n])]
  {
    hide Owned, OwnedBy, ByteAt, SameBut, NoDup, AllApart, NoneLost, Confined, Exchanged, Apart, DataIds, Splice;
    var f := st.nodes[i];
    var own := Owned(f, st.blocks);
    assert FileOk(st, f);
    OwnedParts(f, st'.blocks, own);
    DataAmong(own);
    SetConfined(st, i, st', DataIds(own));
    SameExchanged(st, st', own);
    WroteFreeZero(st, i, st');
    forall j: nat | f.size <= j < MAX_SIZE && Covered(DataBlocks(f.size), j) ensures ByteAt(f, st'.blocks, j) == 0 {
    }
    assert ZeroTail(f, st'.blocks);
    WroteContent(f, st.blocks, st'.blocks, offset, n, buf);
    SameInUse(st, st', own);
    StepSound(st, i, st', DataIds(own));
  }

  lemma SameInUse(st: State, st': State, own: seq<nat>)
    requires AllInUse(st, own) && st'.used == st.used
    requires st'.dataStart == st.dataStart && st'.dataBlocks == st.dataBlocks
    ensures AllInUse(st', own)
  {
    forall q | 0 <= q < |own| ensures InUse(st', own[q]) {
      assert InUse(st, own[q]);
    }
  }

  lemma DataAmong(own: seq<nat>)
    ensures forall b :: b in DataIds(own) ==> b in own
  {
  }

  lemma SameExchanged(st: State, st': State, own: seq<nat>)
    requires AllInUse(st, own) && st'.used == st.used && NoneLost(st)
    requires st'.dataStart == st.dataStart && st'.dataBlocks == st.dataBlocks
    ensures Exchanged(st, st', own, own)
  {
  }

  lemma WroteFreeZero(st: State, i: nat, st': State)
    requires Sound(st) && OthersSame(st, i, st') && st'.used == st.used && Sized(st.nodes[i])
    requires SameBut(st.blocks, st'.blocks, DataIds(Owned(st.nodes[i], st.blocks)))
    ensures FreeZero(st')
  {
    hide Owned, AllApart, NoneLost, NoDup, SameBut, At, Zeros, DataIds, ZeroTail;
    var own := Owned(st.nodes[i], st.blocks);
    assert FileOk(st, st.nodes[i]);
    DataAmong(own);
    forall b | IsFree(st', b) ensures At(st'.blocks, b) == Zeros(BLOCK_SZ) {
      assert IsFree(st, b);
      forall q | 0 <= q < |own| ensures own[q] != b {
        assert InUse(st, own[q]);
      }
      SameAt(st.blocks, st'.blocks, DataIds(own), b);
    }
  }

  lemma WroteContent(f: Node, blocks: Blocks, blocks': Blocks, offset: nat, n: nat, buf: seq<byte>)
    requires Sized(f) && offset + n <= f.size && n <= |buf|
    requires WrittenTo(f, blocks, blocks', DataBlocks(f.size), offset, offset + n, buf)
    ensures Content(f, blocks') == Splice(Content(f, blocks), offset, buf[..n])
  {
    hide ByteAt, Covered, DataBlocks;
    forall j: nat | j < f.size ensures Content(f, blocks')[j] == Splice(Content(f, blocks), offset, buf[..n])[j] {
      SizeCovered(f.size, j);
    }
  }

  /** A write: growth when it reaches the end of the file, and then the bytes. */
  ghost predicate WriteDone(st: State, i: nat, offset: nat, buf: seq<byte>, st': State) {
    i < |st.nodes| &&
    if offset + |buf| < st.nodes[i].size then WroteTo(st, i, offset, |buf|, buf, st')
    else exists newBlocks, mid :: GrewThenWrote(st, i, newBlocks, mid, offset, buf, st')
  }

  ghost predicate GrewThenWrote(st: State, i: nat, newBlocks: seq<nat>, mid: State, offset: nat, buf: seq<byte>,
                                st': State) {
    GrewTo(st, i, offset + |buf|, newBlocks, mid) && WroteTo(mid, i, offset, |buf|, buf, st')
  }

  /** Writing to a file is overwriting its bytes, with zeros in a gap; no other file changes. */
  lemma WriteRefines(st: State, i: nat, offset: nat, buf: seq<byte>, st': State)
    requires Sound(st) && WriteDone(st, i, offset, buf, st')
    ensures Sound(st') && FilesOf(st') == FilesOf(st)[i := Overwritten(FilesOf(st)[i], offset, buf)]
  {
    hide Sound, GrewTo, WroteTo, Content, AllOk, FilesOf, Zeros, Splice, Overwritten;
    SoundFiles(st);
    var c := FilesOf(st)[i];
    assert buf[..|buf|] == buf;
    if offset + |buf| < st.nodes[i].size {
      WroteSound(st, i, offset, |buf|, buf, st');
      SpliceOverwrites(c, offset, buf);
    } else {
      var newBlocks, mid :| GrewThenWrote(st, i, newBlocks, mid, offset, buf, st');
      GrewFrom(st, i, offset + |buf|, newBlocks, mid);
      GrewSound(st, i, offset + |buf|, newBlocks, mid);
      WroteSound(mid, i, offset, |buf|, buf, st');
      PaddedOverwrites(c, offset, buf);
    }
  }

  lemma SoundFiles(st: State)
    requires Sound(st)
    ensures AllOk(st) && |FilesOf(st)| == |st.nodes|
    ensures forall k :: 0 <= k < |st.nodes| ==> Sized(st.nodes[k]) && |FilesOf(st)[k]| == st.nodes[k].size
  {
    hide Content, Owned, ZeroTail, NoDup, AllInUse, AllApart, NoneLost, FreeZero;
    forall k | 0 <= k < |st.nodes| ensures Sized(st.nodes[k]) && |FilesOf(st)[k]| == st.nodes[k].size {
      assert FileOk(st, st.nodes[k]);
    }
  }

  lemma GrewFrom(st: State, i: nat, newSize: nat, newBlocks: seq<nat>, mid: State)
    requires GrewTo(st, i, newSize, newBlocks, mid)
    ensures i < |st.nodes| && st.nodes[i].size <= newSize
  {
  }

  lemma SpliceOverwrites(c: seq<byte>, offset: nat, buf: seq<byte>)
    requires offset + |buf| <= |c|
    ensures Splice(c, offset, buf) == Overwritten(c, offset, buf)
  {
  }

  lemma PaddedOverwrites(c: seq<byte>, offset: nat, buf: seq<byte>)
    requires |c| <= offset + |buf|
    ensures Splice(c + Zeros(offset + |buf| - |c|), offset, buf) == Overwritten(c, offset, buf)
  {
  }

  // Clearing

  ghost predicate ClearedAt(st: State, i: nat, st': State) {
    && OthersSame(st, i, st') && Sized(st.nodes[i]) && NodeOk(st'.nodes[i]) && st'.nodes[i].size == 0
    && st'.nodes[i].dir == st.nodes[i].dir
    && st'.used == st.used - BitsOf(Owned(st.nodes[i], st.blocks), st.dataStart)
    && forall b :: At(st'.blocks, b) ==
         if b in Owned(st.nodes[i], st.blocks) then Zeros(BLOCK_SZ) else At(st.blocks, b)
  }

  lemma BitGiven(st: State, own: seq<nat>, b: nat)
    requires AllInUse(st, own)
    ensures b >= st.dataStart ==> (b - st.dataStart in BitsOf(own, st.dataStart) <==> b in own)
  {
    if b in own {
      var q :| 0 <= q < |own| && own[q] == b;
      assert InUse(st, own[q]);
    }
  }

  lemma EmptyFile(st: State, f: Node)
    requires NodeOk(f) && f.size == 0
    ensures FileOk(st, f) && Owned(f, st.blocks) == [] && Content(f, st.blocks) == []
  {
    hide ByteAt;
  }

  lemma ClearedSound(st: State, i: nat, st': State)
    requires Sound(st) && ClearedAt(st, i, st')
    ensures Sound(st') && FilesOf(st') == FilesOf(st)[i := []]
    ensures |st'.used| == |st.used| - TotalBlocks(|FilesOf(st)[i]|)
  {
    hide Owned, ByteAt, SameBut, NoDup, AllApart, NoneLost, Confined, Exchanged, Apart, BitsOf, At, Zeros, ZeroTail;
    var own := Owned(st.nodes[i], st.blocks);
    assert FileOk(st, st.nodes[i]);
    EmptyFile(st', st'.nodes[i]);
    ClearedOthers(st, i, st');
    SetConfined(st, i, st', set b | b in own);
    ClearedExchanged(st, st', own);
    ClearedFreeZero(st, st', own);
    BitsCounted(own, st.dataStart, st.used);
    StepSound(st, i, st', set b | b in own);
  }

  lemma ClearedOthers(st: State, i: nat, st': State)
    requires ClearedAt(st, i, st')
    ensures SameBut(st.blocks, st'.blocks, set b | b in Owned(st.nodes[i], st.blocks))
  {
    hide Owned, At, BitsOf, Zeros;
  }

  lemma ClearedExchanged(st: State, st': State, own: seq<nat>)
    requires AllInUse(st, own) && st'.used == st.used - BitsOf(own, st.dataStart) && NoneLost(st)
    requires st'.dataStart == st.dataStart && st'.dataBlocks == st.dataBlocks
    ensures Exchanged(st, st', own, [])
    ensures forall b :: IsFree(st', b) <==> IsFree(st, b) || b in own
  {
    hide BitsOf, HasOwner;
    forall b ensures InUse(st', b) <==> InUse(st, b) && b !in own {
      BitGiven(st, own, b);
    }
    forall b ensures IsFree(st', b) <==> IsFree(st, b) || b in own {
      BitGiven(st, own, b);
      if b in own {
        var q :| 0 <= q < |own| && own[q] == b;
        assert InUse(st, own[q]);
      }
    }
  }

  lemma ClearedFreeZero(st: State, st': State, own: seq<nat>)
    requires FreeZero(st) && forall b :: IsFree(st', b) <==> IsFree(st, b) || b in own
    requires forall b :: At(st'.blocks, b) == if b in own then Zeros(BLOCK_SZ) else At(st.blocks, b)
    ensures FreeZero(st')
  {
    hide At, Zeros, IsFree;
  }

  /** As many bits as blocks. */
  lemma {:induction false} BitsCounted(ids: seq<nat>, start: nat, used: set<nat>)
    requires NoDup(ids) && forall q :: 0 <= q < |ids| ==> ids[q] >= start && ids[q] - start in used
    ensures BitsOf(ids, start) <= used && |BitsOf(ids, start)| == |ids|
    ensures |used - BitsOf(ids, start)| == |used| - |ids|
    decreases |ids|
  {
    hide BitsOf;
    if ids != [] {
      var last := |ids| - 1;
      BitsCounted(ids[..last], start, used);
      BitsSplit(ids, start);
      TakeOne(used, BitsOf(ids[..last], start), ids[last] - start);
    } else {
      BitsOfNone(start);
      assert used - {} == used;
    }
  }

  lemma BitsOfNone(start: nat)
    ensures BitsOf([], start) == {}
  {
  }

  lemma BitsSplit(ids: seq<nat>, start: nat)
    requires NoDup(ids) && ids != [] && forall q :: 0 <= q < |ids| ==> ids[q] >= start
    ensures var last := |ids| - 1;
            && BitsOf(ids, start) == BitsOf(ids[..last], start) + {ids[last] - start}
            && ids[last] - start !in BitsOf(ids[..last], start)
  {
    var last := |ids| - 1;
    forall q | 0 <= q < |ids| ensures ids[q] - start in BitsOf(ids[..last], start) + {ids[last] - start} {
      if q < last {
        assert ids[..last][q] == ids[q];
      }
    }
  }

  lemma TakeOne(used: set<nat>, some: set<nat>, x: nat)
    requires some <= used && x in used && x !in some
    ensures some + {x} <= used && |some + {x}| == |some| + 1 && |used - (some + {x})| == |used - some| - 1
  {
    assert used - (some + {x}) == used - some - {x};
  }

  // A new file

  ghost predicate AddedNode(st: State, st': State) {
    && st'.dataStart == st.dataStart && st'.dataBlocks == st.dataBlocks && st'.used == st.used
    && st'.blocks == st.blocks && |st'.nodes| == |st.nodes| + 1 && st'.nodes[..|st.nodes|] == st.nodes
    && NodeOk(st'.nodes[|st.nodes|]) && st'.nodes[|st.nodes|].size == 0
  }

  lemma AddedSound(st: State, st': State)
    requires Sound(st) && AddedNode(st, st')
    ensures Sound(st') && FilesOf(st') == FilesOf(st) + [[]]
  {
    hide Owned, Content, ZeroTail, NoDup, Apart;
    var last := |st.nodes|;
    EmptyFile(st', st'.nodes[last]);
    forall i | 0 <= i < last ensures st'.nodes[i] == st.nodes[i] && FileOk(st', st'.nodes[i]) {
      assert st'.nodes[..last][i] == st.nodes[i];
      assert FileOk(st, st.nodes[i]);
      SameInUse(st, st', Owned(st.nodes[i], st.blocks));
    }
    forall i | 0 <= i < last
      ensures Apart(Owned(st'.nodes[i], st'.blocks), []) && Apart([], Owned(st'.nodes[i], st'.blocks))
    {
      NothingApart(Owned(st'.nodes[i], st'.blocks));
    }
    forall b | InUse(st', b) ensures HasOwner(st', b) {
      assert InUse(st, b) && HasOwner(st, b);
      var i :| OwnedOf(st, i, b);
      assert OwnedOf(st', i, b);
    }
    forall b | IsFree(st', b) ensures At(st'.blocks, b) == Zeros(BLOCK_SZ) {
      assert IsFree(st, b);
    }
  }

  lemma NothingApart(own: seq<nat>)
    ensures Apart(own, []) && Apart([], own)
  {
  }

  // Conservation

  function SumOfTotals(nodes: seq<Node>): nat {
    if nodes == [] then 0 else SumOfTotals(nodes[..|nodes| - 1]) + TotalBlocks(nodes[|nodes| - 1].size)
  }

  ghost predicate OwnsBit(st: State, i: nat, u: nat) {
    OwnedOf(st, i, u + st.dataStart)
  }

  ghost predicate TakenBy(st: State, k: nat, u: nat) {
    exists i: nat :: i < k && OwnsBit(st, i, u)
  }

  ghost function UsedBy(st: State, k: nat): set<nat> {
    set u | u in st.used && TakenBy(st, k, u)
  }

  lemma {:induction false} FirstFilesCounted(st: State, k: nat)
    requires Sound(st) && k <= |st.nodes|
    ensures |UsedBy(st, k)| == SumOfTotals(st.nodes[..k])
  {
    hide Sound, Owned, TakenBy, UsedBy;
    if k > 0 {
      FirstFilesCounted(st, k - 1);
      var own := OwnedBits(st, k - 1);
      UsedByNext(st, k - 1);
      assert st.nodes[..k][..k - 1] == st.nodes[..k - 1];
    } else {
      NoneBefore(st);
    }
  }

  lemma NoneBefore(st: State)
    ensures UsedBy(st, 0) == {}
  {
    hide OwnsBit;
  }

  lemma OwnedBits(st: State, i: nat) returns (bits: set<nat>)
    requires Sound(st) && i < |st.nodes|
    ensures Sized(st.nodes[i]) && bits == BitsOf(Owned(st.nodes[i], st.blocks), st.dataStart) && bits <= st.used
    ensures |bits| == TotalBlocks(st.nodes[i].size)
    ensures forall u: nat :: u in bits <==> OwnsBit(st, i, u)
  {
    hide Owned, BitsOf, NoDup, ZeroTail, AllApart, NoneLost, FreeZero;
    assert FileOk(st, st.nodes[i]);
    var own := Owned(st.nodes[i], st.blocks);
    bits := BitsOf(own, st.dataStart);
    BitsCounted(own, st.dataStart, st.used);
    forall u: nat ensures u in bits <==> OwnsBit(st, i, u) {
      BitGiven(st, own, u + st.dataStart);
    }
  }

  lemma UsedByNext(st: State, k: nat)
    requires Sound(st) && k < |st.nodes|
    ensures |UsedBy(st, k + 1)| == |UsedBy(st, k)| + TotalBlocks(st.nodes[k].size)
  {
    hide Sound, OwnsBit, Owned, BitsOf;
    var bits := OwnedBits(st, k);
    forall u | u in st.used ensures TakenBy(st, k + 1, u) <==> TakenBy(st, k, u) || u in bits {
      if TakenBy(st, k + 1, u) {
        var i: nat :| i < k + 1 && OwnsBit(st, i, u);
        assert i < k ==> TakenBy(st, k, u);
      }
      if u in bits {
        assert OwnsBit(st, k, u);
      }
    }
    forall u | u in bits ensures !TakenBy(st, k, u) {
      assert OwnsBit(st, k, u);
      if i: nat :| i < k && OwnsBit(st, i, u) {
        OneOwner(st, i, k, u);
      }
    }
    assert UsedBy(st, k + 1) == UsedBy(st, k) + bits;
    assert UsedBy(st, k) !! bits;
  }

  lemma OneOwner(st: State, i: nat, k: nat, u: nat)
    requires Sound(st) && OwnsBit(st, i, u) && i != k
    ensures !OwnsBit(st, k, u)
  {
    hide Owned;
    if k < |st.nodes| {
      assert Apart(Owned(st.nodes[i], st.blocks), Owned(st.nodes[k], st.blocks));
    }
  }

  /** The set bits of the data bitmap are exactly the blocks that the sizes of the files call for. */
  lemma Conserved(st: State)
    requires Sound(st)
    ensures |st.used| == SumOfTotals(st.nodes)
  {
    hide Owned, FreeZero, AllOk, AllApart;
    FirstFilesCounted(st, |st.nodes|);
    forall u | u in st.used ensures TakenBy(st, |st.nodes|, u) {
      assert InUse(st, u + st.dataStart) && HasOwner(st, u + st.dataStart);
      var i :| OwnedOf(st, i, u + st.dataStart);
      assert OwnsBit(st, i, u);
    }
    assert UsedBy(st, |st.nodes|) == st.used;
    assert st.nodes[..|st.nodes|] == st.nodes;
  }
}
