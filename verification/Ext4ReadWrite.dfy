/** `write_at`, `read_at` and `clear` of ext4-fs/src/vfs.rs: a regular file is a sequence of bytes. */
module Ext4ReadWrite {
  import opened Common
  import opened Ext4Types
  import opened Ext4Extents
  import opened Ext4Layout
  import opened Ext4Tree
  import opened Ext4Volume
  import opened Ext4FileState
  import opened Ext4FileSteps
  import opened Ext4Files
  import Ext4OnDisk

  // Writing

  /** The sizes of a write, as `write_at` computes them. */
  predicate WriteFits(offset: nat, len: nat) {
    offset + len + BLOCK_SZ < U64 && (offset + len + BLOCK_SZ - 1) / BLOCK_SZ + 1 < U32
  }

  /** The file holds `buf` at `offset` now, over its old bytes or after zeros; other files are as before, and
      the bitmap has changed by exactly the blocks of this file. */
  ghost predicate WriteDone(st: State, st': State, i: nat, offset: nat, buf: seq<byte>) {
    && Sound(st') && OthersSame(st, st', i) && i in st.inodes && i in st'.inodes
    && Content(st'.disk, st'.inodes[i]) == Overwritten(Content(st.disk, st.inodes[i]), offset, buf)
    && Exchanged(st.used, st'.used, Owned(st.disk, st.inodes[i]), Owned(st'.disk, st'.inodes[i]))
    && st'.inodes[i].kind == st.inodes[i].kind && st'.inodes[i].links == st.inodes[i].links
  }

  lemma WriteDoneBoth(st: State, st1: State, st2: State, i: nat, extents: seq<Extent>, offset: nat, buf: seq<byte>)
    requires Grew(st, st1, i, extents) && WroteTo(st1, i, offset, buf, st2)
    ensures WriteDone(st, st2, i, offset, buf)
  {
    hide *;
    GrewParts(st, st1, i, extents);
    WroteParts(st1, i, offset, buf, st2);
    WroteSound(st1, i, offset, buf, st2);
    SameContent(st, st1, i);
    OthersSameBoth(st, st1, st2, i);
    WriteDoneJoin(st, st2, i, offset, buf);
  }

  lemma SameContent(st: State, st1: State, i: nat)
    requires SameFiles(st, st1) && i in st.inodes && i in st1.inodes
    ensures Content(st1.disk, st1.inodes[i]) == Content(st.disk, st.inodes[i])
    ensures st1.inodes[i].kind == st.inodes[i].kind && st1.inodes[i].links == st.inodes[i].links
    ensures st1.inodes[i].size == st.inodes[i].size
  {
    hide SameBytes, Content;
    SameBytesContent(st.disk, st.inodes[i], st1.disk, st1.inodes[i]);
  }

  lemma OthersSameBoth(st: State, st1: State, st2: State, i: nat)
    requires OthersSame(st, st1, i) && OthersSame(st1, st2, i)
    ensures OthersSame(st, st2, i)
  {
    hide Content, Owned, Ext;
    forall j | j in st.inodes && j != i
      ensures st2.inodes[j] == st.inodes[j] && Content(st2.disk, st2.inodes[j]) == Content(st.disk, st.inodes[j])
      ensures Owned(st2.disk, st2.inodes[j]) == Owned(st.disk, st.inodes[j]) && Ext(st2.disk, st2.inodes[j]) == Ext(st.disk, st.inodes[j])
    {
      assert j in st1.inodes.Keys;
    }
  }

  lemma WriteDoneJoin(st: State, st': State, i: nat, offset: nat, buf: seq<byte>)
    requires Sound(st') && OthersSame(st, st', i) && i in st.inodes && i in st'.inodes
    requires Content(st'.disk, st'.inodes[i]) == Overwritten(Content(st.disk, st.inodes[i]), offset, buf)
    requires Exchanged(st.used, st'.used, Owned(st.disk, st.inodes[i]), Owned(st'.disk, st'.inodes[i]))
    requires st'.inodes[i].kind == st.inodes[i].kind && st'.inodes[i].links == st.inodes[i].links
    ensures WriteDone(st, st', i, offset, buf)
  {
    hide Sound, Content, Owned, OthersSame;
  }

  lemma SoundWellFormed(st: State, i: nat)
    requires Sound(st) && i in st.inodes
    ensures WellFormed(Ext(st.disk, st.inodes[i])) && Injective(Ext(st.disk, st.inodes[i]))
  {
    hide *;
    SoundFile(st, i);
    FileParts(st.disk, st.used, st.inodes[i]);
  }

  lemma BlockOf(offset: nat, len: nat, pos: nat)
    requires offset <= pos < offset + len
    ensures offset / BLOCK_SZ <= pos / BLOCK_SZ < (offset + len + (BLOCK_SZ - 1)) / BLOCK_SZ
    ensures pos % BLOCK_SZ < BLOCK_SZ
  {
  }

  lemma CoveredAt(extents: seq<Extent>, from: nat, to: nat, l: nat)
    requires Covered(extents, from, to) && from <= l < to
    ensures MapLogicalBlock(extents, l).Some?
  {
  }

  /** The copying loop of `write_at`: blocks that are all mapped receive the bytes of the buffer. */
  method CopyIn(v: Volume, extents: seq<Extent>, offset: nat, buf: seq<byte>) returns (written: nat)
    requires WellFormed(extents) && Injective(extents) && buf != []
    requires Covered(extents, offset / BLOCK_SZ, (offset + |buf| + (BLOCK_SZ - 1)) / BLOCK_SZ)
    modifies v`disk
    ensures written == |buf| && Written(old(v.disk), extents, v.disk, offset, buf, |buf|)
  {
    hide *;
    U32Value();
    written := 0;
    var curOff := offset;
    WrittenNothing(v.disk, extents, offset, buf);
    while written < |buf|
      invariant written <= |buf| && curOff == offset + written
      invariant Written(old(v.disk), extents, v.disk, offset, buf, written)
    {
      var lblock := curOff / BLOCK_SZ;
      var offInBlock := curOff % BLOCK_SZ;
      BlockOf(offset, |buf|, curOff);
      var toWrite := if |buf| - written < BLOCK_SZ - offInBlock then |buf| - written else BLOCK_SZ - offInBlock;
      // The block was mapped beforehand, so the error for an unmapped one does not arise.
      CoveredAt(extents, offset / BLOCK_SZ, (offset + |buf| + (BLOCK_SZ - 1)) / BLOCK_SZ, lblock);
      var pblock := MapLogicalBlock(extents, lblock).value;
      WrittenNext(old(v.disk), extents, v.disk, offset, buf, written, pblock, offInBlock, toWrite);
      v.WriteBytes(pblock, offInBlock, buf[written..written + toWrite]);
      written := written + toWrite;
      curOff := curOff + toWrite;
    }
  }

  /** `write_at` on a file that is not a symbolic link. */
  method WriteAt(v: Volume, i: nat, offset: nat, buf: seq<byte>) returns (r: Result<nat>)
    requires v.Valid() && Sound(St(v)) && i in v.inodes && WriteFits(offset, |buf|)
    modifies v, v.fs, v.fs.blockBitmaps
    ensures v.Valid() && Sound(St(v))
    ensures old(v.inodes[i]).kind != Regular ==> r == Err(NotAFile) && St(v) == old(St(v))
    ensures r.Ok? ==> r.value == |buf|
    ensures r.Ok? && buf != [] ==> WriteDone(old(St(v)), St(v), i, offset, buf)
    ensures r.Err? || buf == [] ==> Untouched(old(St(v)), St(v)) && SameFiles(old(St(v)), St(v))
    ensures buf == [] ==> St(v) == old(St(v))
    ensures r.Err? && old(v.inodes[i]).kind == Regular ==> Excused(v.used, v.AllBlocks(), r.error)
    ensures r.Err? && old(v.inodes[i]).kind == Regular ==>
              Leaked(old(St(v)), i, v.used, v.AllBlocks(), offset / BLOCK_SZ, (offset + |buf| + (BLOCK_SZ - 1)) / BLOCK_SZ)
  {
    hide *;
    U32Value();
    ghost var st := St(v);
    StParts(v);
    StaysPut(v);
    if v.inodes[i].kind != Regular {
      return Err(NotAFile);
    }
    if buf == [] {
      return Ok(0);
    }
    var oldSize := v.inodes[i].size;
    var end := offset + |buf|;
    var newSize := if oldSize < end then end else oldSize;
    Fits(offset, |buf|);
    var startLblock := offset / BLOCK_SZ;
    var endLblock := (end + (BLOCK_SZ - 1)) / BLOCK_SZ;
    var ensured := EnsureWriteBlocks(v, i, startLblock, endLblock);
    if ensured.Err? {
      UntouchedSound(st, St(v));
      return Err(ensured.error);
    }
    var extents := ensured.value;
    ghost var st1 := St(v);
    StParts(v);
    GrewParts(st, st1, i, extents);
    SameContent(st, st1, i);
    SoundWellFormed(st1, i);
    var written := CopyIn(v, extents, offset, buf);
    var inode := v.inodes[i];
    if newSize != oldSize {
      inode := inode.(size := newSize);
    }
    v.inodes := v.inodes[i := inode];
    v.Opened();
    v.Closed();
    StParts(v);
    WroteToJoin(st1, i, offset, buf, St(v), inode);
    WriteDoneBoth(st, st1, St(v), i, extents, offset, buf);
    WriteDoneSound(st, St(v), i, offset, buf);
    return Ok(written);
  }

  lemma StaysPut(v: Volume)
    requires Sound(St(v))
    ensures Untouched(St(v), St(v)) && SameFiles(St(v), St(v))
  {
    hide FilesOk, AllApart, CacheOk, ByteAt, Content;
  }

  lemma Fits(offset: nat, len: nat)
    requires WriteFits(offset, len)
    ensures (offset + len + (BLOCK_SZ - 1)) / BLOCK_SZ < U32
  {
  }

  lemma UntouchedSound(st: State, st': State)
    requires Untouched(st, st')
    ensures Sound(st')
  {
  }

  lemma WriteDoneSound(st: State, st': State, i: nat, offset: nat, buf: seq<byte>)
    requires WriteDone(st, st', i, offset, buf)
    ensures Sound(st')
  {
    hide Sound;
  }

  lemma WroteToJoin(st: State, i: nat, offset: nat, buf: seq<byte>, st': State, inode: Inode)
    requires Sound(st) && i in st.inodes && st'.inodes == st.inodes[i := inode] && st'.used == st.used && st'.cache == st.cache
    requires inode.size == (if st.inodes[i].size < offset + |buf| then offset + |buf| else st.inodes[i].size)
    requires inode == st.inodes[i].(size := inode.size)
    requires Written(st.disk, Ext(st.disk, st.inodes[i]), st'.disk, offset, buf, |buf|)
    ensures WroteTo(st, i, offset, buf, st')
  {
    hide Sound, Ext, Written;
  }

  // Reading

  /** The first n bytes of the buffer are the file's bytes from `offset` on. */
  ghost predicate Filled(bytes: seq<byte>, n: nat, disk: Disk, extents: seq<Extent>, offset: nat) {
    n <= |bytes| && forall k :: 0 <= k < n ==> bytes[k] == ByteAt(disk, extents, offset + k)
  }

  /** The extents before `idx` have nothing left to give between `covered` and `end`. */
  ghost predicate Passed(extents: seq<Extent>, idx: nat, covered: nat, end: nat) {
    idx <= |extents| && (covered < end ==> forall j :: 0 <= j < idx ==>
      (extents[j].eeBlock + extents[j].Len()) * 4096 <= covered || extents[j].eeBlock * 4096 >= end)
  }

  /** Between the bytes read so far and the next extent lies a hole. */
  lemma HoleByte(disk: Disk, extents: seq<Extent>, idx: nat, covered: nat, end: nat, k: nat)
    requires WellFormed(extents) && Passed(extents, idx, covered, end) && covered <= k < end
    requires idx < |extents| ==> k < extents[idx].eeBlock * 4096
    ensures ByteAt(disk, extents, k) == 0
  {
    var l := k / BLOCK_SZ;
    assert l * 4096 <= k < (l + 1) * 4096;
    forall j | 0 <= j < |extents| ensures extents[j].Valid() && !extents[j].Covers(l) {
      if j < idx {
        assert (extents[j].eeBlock + extents[j].Len()) * 4096 <= covered || extents[j].eeBlock * 4096 >= end;
      } else if idx < j {
        assert extents[idx].eeBlock + extents[idx].Len() <= extents[j].eeBlock;
      }
    }
    MapNone(extents, l);
  }

  /** `buf[from..to].fill(0)` over a hole. */
  method FillHole(v: Volume, extents: seq<Extent>, idx: nat, offset: nat, ghost end: nat, buf: array<byte>, from: nat, to: nat)
    requires WellFormed(extents) && from <= to <= buf.Length && offset + to <= end
    requires Passed(extents, idx, offset + from, end) && (idx < |extents| ==> offset + to <= extents[idx].eeBlock * 4096)
    requires Filled(buf[..], from, v.disk, extents, offset)
    modifies buf
    ensures Filled(buf[..], to, v.disk, extents, offset) && buf[to..] == old(buf[to..])
  {
    hide ByteAt, WellFormed, Passed;
    forall k | from <= k < to {
      buf[k] := 0;
    }
    forall k | from <= k < to ensures buf[k] == ByteAt(v.disk, extents, offset + k) {
      HoleByte(v.disk, extents, idx, offset + from, end, offset + k);
    }
  }

  /** A byte inside an extent. */
  lemma ExtentByte(disk: Disk, extents: seq<Extent>, idx: nat, block: nat, pos: nat, phys: nat, x: nat)
    requires WellFormed(extents) && idx < |extents|
    requires extents[idx].eeBlock <= pos / BLOCK_SZ < extents[idx].eeBlock + extents[idx].Len()
    requires block == extents[idx].StartBlock() + (pos / BLOCK_SZ - extents[idx].eeBlock) && phys == pos % BLOCK_SZ
    requires phys + x < BLOCK_SZ
    ensures ByteAt(disk, extents, pos + x) == Block(disk, block)[phys + x]
  {
    assert (pos + x) / BLOCK_SZ == pos / BLOCK_SZ && (pos + x) % BLOCK_SZ == phys + x;
    MapAt(extents, idx, pos / BLOCK_SZ);
  }

  /** One step of the copying loop of `read_from_extents`, within one block. */
  method CopyPiece(v: Volume, extents: seq<Extent>, idx: nat, offset: nat, buf: array<byte>, dstOff: nat, curBlock: nat, physOff: nat, toRead: nat)
    requires WellFormed(extents) && idx < |extents|
    requires extents[idx].eeBlock <= (offset + dstOff) / BLOCK_SZ < extents[idx].eeBlock + extents[idx].Len()
    requires curBlock == extents[idx].StartBlock() + ((offset + dstOff) / BLOCK_SZ - extents[idx].eeBlock)
    requires physOff == (offset + dstOff) % BLOCK_SZ && physOff + toRead <= BLOCK_SZ && dstOff + toRead <= buf.Length
    requires Filled(buf[..], dstOff, v.disk, extents, offset)
    modifies buf
    ensures Filled(buf[..], dstOff + toRead, v.disk, extents, offset) && buf[dstOff + toRead..] == old(buf[dstOff + toRead..])
  {
    hide ByteAt, WellFormed, Block, Extent.Len, Extent.StartBlock;
    var data := Block(v.disk, curBlock);
    forall k | dstOff <= k < dstOff + toRead {
      buf[k] := data[physOff + (k - dstOff)];
    }
    forall k | dstOff <= k < dstOff + toRead ensures buf[k] == ByteAt(v.disk, extents, offset + k) {
      ExtentByte(v.disk, extents, idx, curBlock, offset + dstOff, physOff, k - dstOff);
    }
  }

  /** The piece of an extent from position `pos` on. */
  lemma PieceSizes(e: Extent, pos: nat, end: nat, toRead: nat)
    requires e.eeBlock * 4096 <= pos < end <= (e.eeBlock + e.Len()) * 4096
    requires toRead == Min(end - pos, 4096 - pos % 4096)
    ensures e.eeBlock <= pos / 4096 < e.eeBlock + e.Len()
    ensures toRead > 0 && pos + toRead < end ==> (pos + toRead) % 4096 == 0 && (pos + toRead) / 4096 == pos / 4096 + 1
    ensures (pos - e.eeBlock * 4096) / 4096 == pos / 4096 - e.eeBlock && (pos - e.eeBlock * 4096) % 4096 == pos % 4096
  {
    assert pos == pos / 4096 * 4096 + pos % 4096;
  }

  /** The inner loop of `read_from_extents`: the bytes from `copyStart` to `readEnd`, which one extent maps. */
  method CopyOut(v: Volume, extents: seq<Extent>, idx: nat, offset: nat, buf: array<byte>, copyStart: nat, readEnd: nat)
    requires WellFormed(extents) && idx < |extents| && offset <= copyStart < readEnd <= offset + buf.Length
    requires extents[idx].eeBlock * 4096 <= copyStart && readEnd <= (extents[idx].eeBlock + extents[idx].Len()) * 4096
    requires Filled(buf[..], copyStart - offset, v.disk, extents, offset)
    modifies buf
    ensures Filled(buf[..], readEnd - offset, v.disk, extents, offset)
    ensures buf[readEnd - offset..] == old(buf[readEnd - offset..])
  {
    hide ByteAt, WellFormed, Filled, Extent.Len, Extent.StartBlock;
    var e := extents[idx];
    var dstOff := copyStart - offset;
    var remaining := readEnd - copyStart;
    var offsetInExtent := copyStart - e.eeBlock * BLOCK_SZ;
    PieceSizes(e, copyStart, readEnd, Min(readEnd - copyStart, 4096 - copyStart % 4096));
    var curBlock := e.StartBlock() + offsetInExtent / BLOCK_SZ;
    var physOff := offsetInExtent % BLOCK_SZ;
    while remaining > 0
      invariant remaining == readEnd - (offset + dstOff) && copyStart <= offset + dstOff <= readEnd
      invariant remaining > 0 ==> curBlock == e.StartBlock() + ((offset + dstOff) / 4096 - e.eeBlock)
      invariant remaining > 0 ==> physOff == (offset + dstOff) % 4096
      invariant Filled(buf[..], dstOff, v.disk, extents, offset)
      invariant buf[readEnd - offset..] == old(buf[readEnd - offset..])
    {
      var toRead := Min(remaining, BLOCK_SZ - physOff);
      PieceSizes(e, offset + dstOff, readEnd, toRead);
      ghost var was := buf[..];
      CopyPiece(v, extents, idx, offset, buf, dstOff, curBlock, physOff, toRead);
      RestKept(was, buf[..], dstOff + toRead, readEnd - offset);
      dstOff := dstOff + toRead;
      remaining := remaining - toRead;
      physOff := 0;
      curBlock := curBlock + 1;
    }
  }

  lemma RestKept(was: seq<byte>, now: seq<byte>, from: nat, to: nat)
    requires |was| == |now| && from <= to <= |was| && now[from..] == was[from..]
    ensures now[to..] == was[to..]
  {
    assert now[to..] == now[from..][to - from..];
    assert was[to..] == was[from..][to - from..];
  }

  /** One step of the loop over extents in `read_from_extents`. */
  method ReadExtent(v: Volume, extents: seq<Extent>, idx: nat, offset: nat, fileEnd: nat, buf: array<byte>, coveredUntil: nat)
    returns (covered: nat)
    requires WellFormed(extents) && idx < |extents| && offset <= coveredUntil <= fileEnd <= offset + buf.Length
    requires Passed(extents, idx, coveredUntil, fileEnd)
    requires Filled(buf[..], coveredUntil - offset, v.disk, extents, offset)
    modifies buf
    ensures coveredUntil <= covered <= fileEnd && Passed(extents, idx + 1, covered, fileEnd)
    ensures Filled(buf[..], covered - offset, v.disk, extents, offset)
    ensures buf[fileEnd - offset..] == old(buf[fileEnd - offset..])
  {
    hide ByteAt, WellFormed, Filled, Extent.Len, Extent.StartBlock, Passed;
    var extentStart := extents[idx].eeBlock * BLOCK_SZ;
    var extentLen := extents[idx].Len() * BLOCK_SZ;
    var extentEnd := extentStart + extentLen;
    ghost var was := buf[..];
    if extentEnd <= offset || extentStart >= fileEnd {
      PassedNext(extents, idx, coveredUntil, coveredUntil, fileEnd);
      return coveredUntil;
    }
    var readStart := Max(extentStart, offset);
    var readEnd := Min(extentEnd, fileEnd);
    LenPositive(extents, idx);
    if readEnd <= readStart || readEnd <= coveredUntil {
      PassedNext(extents, idx, coveredUntil, coveredUntil, fileEnd);
      return coveredUntil;
    }
    var copyStart := Max(readStart, coveredUntil);
    if copyStart > coveredUntil {
      FillHole(v, extents, idx, offset, fileEnd, buf, coveredUntil - offset, copyStart - offset);
      RestKept(was, buf[..], copyStart - offset, fileEnd - offset);
    }
    ghost var filled := buf[..];
    CopyOut(v, extents, idx, offset, buf, copyStart, readEnd);
    RestKept(filled, buf[..], readEnd - offset, fileEnd - offset);
    PassedNext(extents, idx, coveredUntil, readEnd, fileEnd);
    return readEnd;
  }

  lemma LenPositive(extents: seq<Extent>, idx: nat)
    requires WellFormed(extents) && idx < |extents|
    ensures extents[idx].Len() >= 1
  {
    assert extents[idx].Valid();
  }

  lemma PassedNext(extents: seq<Extent>, idx: nat, coveredUntil: nat, covered: nat, end: nat)
    requires Passed(extents, idx, coveredUntil, end) && idx < |extents| && coveredUntil <= covered
    requires covered < end ==> (extents[idx].eeBlock + extents[idx].Len()) * 4096 <= covered || extents[idx].eeBlock * 4096 >= end
    ensures Passed(extents, idx + 1, covered, end)
  {
  }

  /** `read_from_extents`: the bytes of the file, holes included, whatever extents and blocks they lie in. */
  method ReadFromExtents(v: Volume, extents: seq<Extent>, offset: nat, buf: array<byte>, len: nat)
    requires WellFormed(extents) && len <= buf.Length
    modifies buf
    ensures Filled(buf[..], len, v.disk, extents, offset) && buf[len..] == old(buf[len..])
  {
    hide *;
    var fileEnd := offset + len;
    var coveredUntil := offset;
    NothingPassed(v.disk, extents, buf[..], offset, fileEnd);
    for idx := 0 to |extents|
      invariant offset <= coveredUntil <= fileEnd && Passed(extents, idx, coveredUntil, fileEnd)
      invariant Filled(buf[..], coveredUntil - offset, v.disk, extents, offset) && buf[len..] == old(buf[len..])
    {
      coveredUntil := ReadExtent(v, extents, idx, offset, fileEnd, buf, coveredUntil);
    }
    if coveredUntil < fileEnd {
      FillHole(v, extents, |extents|, offset, fileEnd, buf, coveredUntil - offset, len);
    }
  }

  lemma NothingPassed(disk: Disk, extents: seq<Extent>, bytes: seq<byte>, offset: nat, end: nat)
    ensures Passed(extents, 0, offset, end) && Filled(bytes, 0, disk, extents, offset)
  {
  }

  /** `read_at` on a file whose blocks are in extents. */
  method ReadAt(v: Volume, i: nat, offset: nat, buf: array<byte>) returns (n: nat)
    requires Sound(St(v)) && i in v.inodes
    modifies buf, v`extentsCache
    ensures n == if offset >= v.inodes[i].size then 0 else Min(buf.Length, v.inodes[i].size - offset)
    ensures n > 0 ==> buf[..n] == Content(v.disk, v.inodes[i])[offset..offset + n]
    ensures buf[n..] == old(buf[n..])
    ensures Untouched(old(St(v)), St(v)) && SameFiles(old(St(v)), St(v))
    ensures CacheKeys(old(v.extentsCache), v.extentsCache, i)
  {
    hide *;
    ghost var st := St(v);
    CacheKeysFacts(v.extentsCache, v.extentsCache, v.extentsCache, i, []);
    StParts(v);
    StaysPut(v);
    var fileSize := v.inodes[i].size;
    if offset >= fileSize {
      return 0;
    }
    MinValue(buf.Length, fileSize - offset);
    var readLen := Min(buf.Length, fileSize - offset);
    if readLen == 0 {
      return 0;
    }
    var extents := CachedExtents(v, i);
    SoundWellFormed(st, i);
    if i !in v.extentsCache {
      ExtentsCachePut(v, i, extents);
      CacheKeysFacts(st.cache, v.extentsCache, v.extentsCache, i, extents);
      StParts(v);
      PutSound(st, St(v), i, extents);
    }
    ReadFromExtents(v, extents, offset, buf, readLen);
    StParts(v);
    FilledContent(v.disk, v.inodes[i], offset, buf[..], readLen);
    return readLen;
  }

  lemma MinValue(a: nat, b: nat)
    ensures Min(a, b) <= a && Min(a, b) <= b && (Min(a, b) == a || Min(a, b) == b)
  {
  }

  lemma FilledContent(disk: Disk, inode: Inode, offset: nat, bytes: seq<byte>, n: nat)
    requires Filled(bytes, n, disk, Ext(disk, inode), offset) && offset + n <= inode.size
    ensures bytes[..n] == Content(disk, inode)[offset..offset + n]
  {
    hide ByteAt, Ext;
  }

  // Freeing

  /** The numbers start, start + 1, ... */
  ghost function Run(start: nat, n: nat): set<nat> {
    if n == 0 then {} else Run(start, n - 1) + {start + n - 1}
  }

  lemma {:induction false} InRun(start: nat, n: nat, b: nat)
    ensures b in Run(start, n) <==> start <= b < start + n
  {
    if n > 0 {
      InRun(start, n - 1, b);
    }
  }

  ghost function ExtentBlocks(e: Extent): set<nat> {
    Run(e.StartBlock(), e.Len())
  }

  /** The blocks of the first n extents. */
  ghost function AllExtentBlocks(extents: seq<Extent>, n: nat): set<nat>
    requires n <= |extents|
  {
    if n == 0 then {} else AllExtentBlocks(extents, n - 1) + ExtentBlocks(extents[n - 1])
  }

  lemma {:induction false} InExtentBlocks(extents: seq<Extent>, n: nat, b: nat)
    requires n <= |extents|
    ensures b in AllExtentBlocks(extents, n) <==> exists j :: 0 <= j < n && b in ExtentBlocks(extents[j])
  {
    hide ExtentBlocks;
    if n > 0 {
      InExtentBlocks(extents, n - 1, b);
      assert b in AllExtentBlocks(extents, n) <==> b in AllExtentBlocks(extents, n - 1) || b in ExtentBlocks(extents[n - 1]);
    }
  }

  /** The extents' blocks are the mapped ones. */
  lemma ExtentBlocksMapped(extents: seq<Extent>)
    requires WellFormed(extents)
    ensures AllExtentBlocks(extents, |extents|) == Mapped(extents)
  {
    hide AllExtentBlocks, Mapped, ExtentBlocks, WellFormed, MapLogicalBlock;
    forall b: nat ensures b in AllExtentBlocks(extents, |extents|) <==> b in Mapped(extents) {
      InExtentBlocks(extents, |extents|, b);
      if exists j :: 0 <= j < |extents| && b in ExtentBlocks(extents[j]) {
        var j :| 0 <= j < |extents| && b in ExtentBlocks(extents[j]);
        InMapped(extents, j, b);
      }
      if b in Mapped(extents) {
        var j := MappedIn(extents, b);
      }
    }
  }

  lemma InMapped(extents: seq<Extent>, j: nat, b: nat)
    requires WellFormed(extents) && j < |extents| && b in ExtentBlocks(extents[j])
    ensures b in Mapped(extents)
  {
    var l := extents[j].eeBlock + (b - extents[j].StartBlock());
    assert extents[j].Valid();
    InRun(extents[j].StartBlock(), extents[j].Len(), b);
    MapAt(extents, j, l);
    MapBound(extents, l);
  }

  lemma MappedIn(extents: seq<Extent>, b: nat) returns (j: nat)
    requires WellFormed(extents) && b in Mapped(extents)
    ensures j < |extents| && b in ExtentBlocks(extents[j])
  {
    var l: nat :| l < U32 && MapLogicalBlock(extents, l) == Some(b);
    j := MapIndex(extents, l);
    MapAt(extents, j, l);
    InRun(extents[j].StartBlock(), extents[j].Len(), b);
  }

  /** The blocks of one extent are given back. */
  method FreeExtent(v: Volume, e: Extent)
    requires v.Valid() && 0 !in ExtentBlocks(e)
    modifies v.fs.blockBitmaps, v`used
    ensures v.Valid() && v.used == old(v.used) - ExtentBlocks(e)
  {
    hide Volume.Valid, Extent.Len, Extent.StartBlock;
    var start := e.StartBlock();
    for b := 0 to e.Len()
      invariant v.Valid() && v.used == old(v.used) - Run(start, b)
    {
      InRun(start, e.Len(), 0);
      v.FreeBlock(start + b);
    }
  }

  /** `free_all_blocks`: exactly the blocks that the inode owns are freed. */
  method FreeAllBlocks(v: Volume, i: nat)
    requires v.Valid() && Sound(St(v)) && i in v.inodes
    modifies v.fs.blockBitmaps, v`used
    ensures v.Valid() && v.used == old(v.used) - Owned(v.disk, v.inodes[i])
  {
    hide *;
    StParts(v);
    SoundFile(St(v), i);
    var inode := v.inodes[i];
    FileParts(v.disk, v.used, inode);
    ZeroIn(v.disk, inode);
    var extents := Ext(v.disk, inode);
    ExtentBlocksMapped(extents);
    NoneFreed(extents);
    for idx := 0 to |extents|
      invariant v.Valid() && v.used == old(v.used) - AllExtentBlocks(extents, idx)
    {
      ghost var before := v.used;
      NotZero(extents, idx);
      FreeExtent(v, extents[idx]);
      FreedMore(old(v.used), extents, idx);
    }
    var tree := Collect(v.disk, inode.iBlock);
    v.FreeOldTree(v.disk, inode.iBlock, tree.leaves, tree.indexes);
    TreeIs(v.disk, inode);
    assert old(v.used) - Mapped(extents) - Tree(v.disk, inode) == old(v.used) - (Tree(v.disk, inode) + Mapped(extents));
  }

  lemma NoneFreed(extents: seq<Extent>)
    ensures AllExtentBlocks(extents, 0) == {} && forall s: set<nat> :: s - {} == s
  {
  }

  lemma NotZero(extents: seq<Extent>, idx: nat)
    requires idx < |extents| && 0 !in AllExtentBlocks(extents, |extents|)
    ensures 0 !in ExtentBlocks(extents[idx])
  {
    hide ExtentBlocks, AllExtentBlocks;
    InExtentBlocks(extents, |extents|, 0);
  }

  lemma FreedMore(used: set<nat>, extents: seq<Extent>, idx: nat)
    requires idx < |extents|
    ensures used - AllExtentBlocks(extents, idx) - ExtentBlocks(extents[idx]) == used - AllExtentBlocks(extents, idx + 1)
  {
    hide ExtentBlocks;
  }

  /** The inode root with its header reset to an empty leaf; the old entries stay where they were. */
  function EmptyRoot(iBlock: seq<byte>): (root: seq<byte>)
    requires |iBlock| == I_BLOCK_SZ
    ensures |root| == I_BLOCK_SZ
  {
    Splice(iBlock, 0, EncodeHeader(Header(MAGIC, 0, EXTENTS_IN_INODE, 0, 0)))
  }

  lemma EmptyRootReads(disk: Disk, inode: Inode)
    requires |inode.iBlock| == I_BLOCK_SZ
    ensures var f := inode.(size := 0, blocks := 0, iBlock := EmptyRoot(inode.iBlock));
            Ext(disk, f) == [] && Tree(disk, f) == {} && Ext4OnDisk.Stored(disk, f.iBlock, [])
  {
    hide EncodeHeader, DecodeHeader, Ext4OnDisk.Stored;
    var h := Header(MAGIC, 0, EXTENTS_IN_INODE, 0, 0);
    var root := EmptyRoot(inode.iBlock);
    HeaderRoundTrip(h);
    assert root[..12] == EncodeHeader(h);
    assert HeaderOf(root) == h;
    Ext4OnDisk.EmptyStored(disk, root);
  }

  /** All blocks of a file are freed, and it is empty: the end of `clear`, and of `unlink` on the last link. */
  method ResetInode(v: Volume, i: nat, links: nat)
    requires v.Valid() && Sound(St(v)) && i in v.inodes
    modifies v, v.fs.blockBitmaps
    ensures v.Valid() && Emptied(old(St(v)), i, St(v))
    ensures v.inodes == old(v.inodes)[i := v.inodes[i]]
    ensures i in v.inodes && v.inodes[i].kind == old(v.inodes[i]).kind && v.inodes[i].links == links
    ensures Ext4OnDisk.Stored(v.disk, v.inodes[i].iBlock, [])
  {
    hide *;
    ghost var st := St(v);
    StParts(v);
    SoundFile(st, i);
    FileParts(v.disk, v.used, v.inodes[i]);
    FreeAllBlocks(v, i);
    var inode := v.inodes[i];
    EmptyRootReads(v.disk, inode);
    var empty := inode.(size := 0, blocks := 0, iBlock := EmptyRoot(inode.iBlock));
    RootSize(inode);
    v.inodes := v.inodes[i := empty.(links := links)];
    v.extentsCache := v.extentsCache - {i};
    v.Opened();
    v.Closed();
    StParts(v);
    LinksAreNoTree(v.disk, empty, links);
    OnlyOne(st, St(v), i, empty.(links := links));
    EmptiedJoin(st, i, St(v));
  }

  lemma LinksAreNoTree(disk: Disk, inode: Inode, links: nat)
    ensures Ext(disk, inode.(links := links)) == Ext(disk, inode) && Tree(disk, inode.(links := links)) == Tree(disk, inode)
  {
    hide Parse, TreeBlocks;
  }

  lemma RootSize(inode: Inode)
    requires |inode.iBlock| == I_BLOCK_SZ
    ensures |EmptyRoot(inode.iBlock)| == I_BLOCK_SZ
  {
  }

  lemma EmptiedJoin(st: State, i: nat, st': State)
    requires Sound(st) && OnlyInode(st, st', i) && i in st.inodes && i in st'.inodes
    requires st'.disk == st.disk && st'.used == st.used - Owned(st.disk, st.inodes[i])
    requires |st'.inodes[i].iBlock| == I_BLOCK_SZ && st'.inodes[i].size == 0
    requires Ext(st.disk, st'.inodes[i]) == [] && Tree(st.disk, st'.inodes[i]) == {} && st'.cache == st.cache - {i}
    ensures Emptied(st, i, st')
  {
    hide Sound, OnlyInode, Owned, Ext, Tree;
  }

  /** `clear`: the file is empty, and exactly its blocks are free; no other file has changed. */
  method Clear(v: Volume, i: nat) returns (r: Result<bool>)
    requires v.Valid() && Sound(St(v)) && i in v.inodes
    modifies v, v.fs.blockBitmaps
    ensures v.Valid() && Sound(St(v))
    ensures r.Err? <==> old(v.inodes[i]).kind != Regular
    ensures r.Err? ==> r.error == NotAFile && St(v) == old(St(v))
    ensures r.Ok? ==> OthersSame(old(St(v)), St(v), i) && i in v.inodes && Content(v.disk, v.inodes[i]) == []
    ensures r.Ok? ==> v.used == old(v.used) - Owned(old(v.disk), old(v.inodes[i])) && Owned(v.disk, v.inodes[i]) == {}
    ensures r.Ok? ==> Emptied(old(St(v)), i, St(v))
    ensures r.Ok? ==> v.inodes[i].kind == old(v.inodes[i]).kind && v.inodes[i].links == old(v.inodes[i]).links
    ensures r.Ok? ==> Ext4OnDisk.Stored(v.disk, v.inodes[i].iBlock, [])
  {
    hide *;
    ghost var st := St(v);
    StParts(v);
    if v.inodes[i].kind != Regular {
      return Err(NotAFile);
    }
    ResetInode(v, i, v.inodes[i].links);
    EmptiedSound(st, i, St(v));
    EmptiedParts(st, i, St(v));
    StParts(v);
    return Ok(true);
  }

  lemma EmptiedParts(st: State, i: nat, st': State)
    requires Emptied(st, i, st')
    ensures i in st.inodes && i in st'.inodes && st'.disk == st.disk && st'.used == st.used - Owned(st.disk, st.inodes[i])
  {
    hide Sound, Owned, Ext, Tree;
  }
}
