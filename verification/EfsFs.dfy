/** The operations of easy-fs on a volume: easy-fs/src/efs.rs and easy-fs/src/vfs.rs. */
module EfsFs {
  import opened Common
  import opened EfsBitmap
  import opened EfsLayout
  import opened EfsBytes
  import opened EfsInode
  import opened EfsState
  import opened EfsDirEntry

  const INODE_SZ: nat := 128

  /** The parts of a volume, in blocks: super block, inode bitmap, inodes, data bitmap, data. */
  datatype Areas = Areas(inodeBitmapBlocks: nat, inodeAreaBlocks: nat, dataBitmapBlocks: nat, dataAreaBlocks: nat) {
    function InodeAreaStart(): nat {
      1 + inodeBitmapBlocks
    }

    function DataBitmapStart(): nat {
      1 + (inodeBitmapBlocks + inodeAreaBlocks)
    }

    function DataAreaStart(): nat {
      1 + (inodeBitmapBlocks + inodeAreaBlocks) + dataBitmapBlocks
    }
  }

  function InodeAreaBlocks(inodeBitmapBlocks: nat): nat {
    (inodeBitmapBlocks * BLOCK_BITS * INODE_SZ + BLOCK_SZ - 1) / BLOCK_SZ
  }

  /** The arithmetic of `EasyFileSystem::create`. */
  function AreasOf(totalBlocks: nat, inodeBitmapBlocks: nat): Areas
    requires 1 + inodeBitmapBlocks + InodeAreaBlocks(inodeBitmapBlocks) <= totalBlocks
  {
    var inodeTotalBlocks := inodeBitmapBlocks + InodeAreaBlocks(inodeBitmapBlocks);
    var dataTotalBlocks := totalBlocks - 1 - inodeTotalBlocks;
    var dataBitmapBlocks := (dataTotalBlocks + 4096) / 4097;
    Areas(inodeBitmapBlocks, InodeAreaBlocks(inodeBitmapBlocks), dataBitmapBlocks, dataTotalBlocks - dataBitmapBlocks)
  }

  /** Super block, inode bitmap, inodes, data bitmap and data follow each other and fill the volume. Every bit of the
      inode bitmap has its 128 bytes in the inode area, and one block fewer would not hold them; every data block has
      a bit in the data bitmap, and no smaller bitmap would do. */
  lemma AreasFit(totalBlocks: nat, inodeBitmapBlocks: nat)
    requires 1 + inodeBitmapBlocks + InodeAreaBlocks(inodeBitmapBlocks) <= totalBlocks
    ensures var a := AreasOf(totalBlocks, inodeBitmapBlocks);
            && a.inodeBitmapBlocks == inodeBitmapBlocks && a.InodeAreaStart() == 1 + inodeBitmapBlocks
            && a.InodeAreaStart() + a.inodeAreaBlocks == a.DataBitmapStart()
            && a.DataBitmapStart() + a.dataBitmapBlocks == a.DataAreaStart()
            && a.DataAreaStart() + a.dataAreaBlocks == totalBlocks
            && (forall blocks: nat :: blocks >= a.inodeAreaBlocks <==> 512 * blocks >= 128 * (4096 * inodeBitmapBlocks))
            && a.dataAreaBlocks <= a.dataBitmapBlocks * BLOCK_BITS
            && forall fewer: nat :: fewer < a.dataBitmapBlocks ==>
                 totalBlocks - a.DataBitmapStart() - fewer > fewer * BLOCK_BITS
  {
  }

  /** `get_disk_inode_pos`: block and offset. */
  function InodePos(a: Areas, id: nat): (nat, nat) {
    (a.InodeAreaStart() + id / (BLOCK_SZ / INODE_SZ), id % (BLOCK_SZ / INODE_SZ) * INODE_SZ)
  }

  /** Every number of the inode bitmap has room of its own in the inode area, one record after the other. */
  lemma InodesApart(totalBlocks: nat, inodeBitmapBlocks: nat, i: nat, k: nat)
    requires 1 + inodeBitmapBlocks + InodeAreaBlocks(inodeBitmapBlocks) <= totalBlocks
    requires i < inodeBitmapBlocks * BLOCK_BITS
    ensures var a := AreasOf(totalBlocks, inodeBitmapBlocks);
            var (b, at) := InodePos(a, i);
            var (c, at') := InodePos(a, k);
            && a.InodeAreaStart() <= b < a.DataBitmapStart() && at + INODE_SZ <= BLOCK_SZ
            && 512 * b + at == 512 * a.InodeAreaStart() + 128 * i
            && (i != k ==> b != c || at + INODE_SZ <= at' || at' + INODE_SZ <= at)
  {
    assert InodeAreaBlocks(inodeBitmapBlocks) == inodeBitmapBlocks * 1024;
  }

  ghost predicate ZeroedTo(blocks: Blocks, n: nat) {
    forall b: nat :: b < n ==> At(blocks, b) == Zeros(BLOCK_SZ)
  }

  lemma ZeroedMore(blocks: Blocks, i: nat)
    requires ZeroedTo(blocks, i)
    ensures ZeroedTo(blocks[i := Zeros(BLOCK_SZ)], i + 1)
  {
    hide Zeros;
    var blocks' := blocks[i := Zeros(BLOCK_SZ)];
    forall b: nat | b < i + 1 ensures At(blocks', b) == Zeros(BLOCK_SZ) {
      assert b < i ==> At(blocks, b) == Zeros(BLOCK_SZ);
    }
  }

  /** "clear all blocks". */
  method ZeroBlocks(disk: Disk, totalBlocks: nat)
    modifies disk
    ensures ZeroedTo(disk.blocks, totalBlocks)
  {
    for i := 0 to totalBlocks
      invariant ZeroedTo(disk.blocks, i)
    {
      ZeroedMore(disk.blocks, i);
      disk.blocks := disk.blocks[i := Zeros(BLOCK_SZ)];
    }
  }

  class EasyFileSystem {
    const disk: Disk
    const inodeBitmap: Bitmap
    const dataBitmap: Bitmap
    const dataStart: nat
    const dataBlocks: nat
    var inodes: seq<DiskInode>

    ghost predicate Valid()
      reads this, inodeBitmap, dataBitmap
    {
      && inodeBitmap.Valid() && dataBitmap.Valid() && inodeBitmap != dataBitmap
      && dataBlocks <= |dataBitmap.blocks| * BLOCK_BITS
      && inodeBitmap.Set() == UpTo(|inodes|)
      && forall i, k :: 0 <= i < k < |inodes| ==> inodes[i] != inodes[k]
    }

    ghost function St(): State
      requires Valid()
      reads this, disk, inodeBitmap, dataBitmap, inodes
    {
      State(seq(|inodes|, i requires 0 <= i < |inodes| reads this, inodes => inodes[i].Shape()),
            disk.blocks, dataBitmap.Set(), dataStart, dataBlocks)
    }

    /** `EasyFileSystem::create`: every block zero, and inode 0 the empty root directory. */
    constructor Create(device: Disk, totalBlocks: nat, inodeBitmapBlocks: nat)
      requires 0 < inodeBitmapBlocks && totalBlocks < U32
      requires 1 + inodeBitmapBlocks + InodeAreaBlocks(inodeBitmapBlocks) <= totalBlocks
      modifies device
      ensures Valid() && disk == device && fresh(inodeBitmap) && fresh(dataBitmap)
      ensures dataStart == AreasOf(totalBlocks, inodeBitmapBlocks).DataAreaStart()
      ensures dataBlocks == AreasOf(totalBlocks, inodeBitmapBlocks).dataAreaBlocks
      ensures |inodeBitmap.blocks| == inodeBitmapBlocks
      ensures Sound(St()) && FilesOf(St()) == [[]] && St().nodes[0].dir && St().used == {}
    {
      hide BlocksOk, Taken, FirstFit, Sound, FilesOf, FirstFit;
      var areas := AreasOf(totalBlocks, inodeBitmapBlocks);
      disk := device;
      inodeBitmap := new Bitmap(inodeBitmapBlocks);
      dataBitmap := new Bitmap(areas.dataBitmapBlocks);
      dataStart := areas.DataAreaStart();
      dataBlocks := areas.dataAreaBlocks;
      var root := new DiskInode(true);
      inodes := [root];
      new;
      AreasFit(totalBlocks, inodeBitmapBlocks);
      ZeroBlocks(device, totalBlocks);
      ghost var bits := inodeBitmap.blocks;
      var first := inodeBitmap.Alloc();
      FirstOfNone(bits, first);
      assert inodeBitmap.Set() == UpTo(1);
      NewVolumeSound(St());
    }

    /** `alloc_data`. The source takes what first fit returns; it is a block of the data area while one is free. */
    method AllocData() returns (id: nat)
      requires Valid() && (forall u :: u in dataBitmap.Set() ==> u < dataBlocks) && |dataBitmap.Set()| < dataBlocks
      modifies dataBitmap
      ensures Valid() && dataStart <= id < dataStart + dataBlocks && id - dataStart !in old(dataBitmap.Set())
      ensures dataBitmap.Set() == old(dataBitmap.Set()) + {id - dataStart}
    {
      hide Taken, UpTo;
      ghost var blocks := dataBitmap.blocks;
      var bit := dataBitmap.Alloc();
      FirstFitStaysBelow(blocks, dataBlocks, bit);
      id := bit.value + dataStart;
    }

    /** `dealloc_data`: the block is zeroed and its bit is cleared. */
    method DeallocData(id: nat)
      requires Valid() && id >= dataStart && id - dataStart in dataBitmap.Set()
      modifies disk, dataBitmap
      ensures Valid() && disk.blocks == old(disk.blocks)[id := Zeros(BLOCK_SZ)]
      ensures dataBitmap.Set() == old(dataBitmap.Set()) - {id - dataStart}
    {
      hide Taken, Zeros, UpTo, BlocksOk;
      disk.blocks := disk.blocks[id := Zeros(BLOCK_SZ)];
      dataBitmap.Dealloc(id - dataStart);
    }

    /** The loop of `Inode::increase_size`. */
    method AllocBlocks(count: nat) returns (v: seq<nat>)
      requires Valid() && (forall u :: u in dataBitmap.Set() ==> u < dataBlocks)
      requires |dataBitmap.Set()| + count <= dataBlocks
      modifies dataBitmap
      ensures Valid() && |v| == count && Fresh(old(St()), v)
      ensures dataBitmap.Set() == old(dataBitmap.Set()) + BitsOf(v, dataStart)
    {
      hide BitsOf, Taken, UpTo, Fresh;
      v := [];
      ghost var st := St();
      BitsOfNone(dataStart);
      NothingFresh(st);
      for q := 0 to count
        invariant Valid() && |v| == q && Fresh(st, v) && dataBitmap.Set() == st.used + BitsOf(v, dataStart)
        invariant |dataBitmap.Set()| == |st.used| + q && forall u :: u in dataBitmap.Set() ==> u < dataBlocks
      {
        var id := AllocData();
        FreshNext(st, v, id);
        v := v + [id];
      }
    }

    lemma Parts()
      requires Valid()
      ensures var st := St();
              && |st.nodes| == |inodes| && st.blocks == disk.blocks && st.used == dataBitmap.Set()
              && st.dataStart == dataStart && st.dataBlocks == dataBlocks
              && forall k :: 0 <= k < |inodes| ==> st.nodes[k] == inodes[k].Shape()
    {
      hide Taken, UpTo;
    }

    lemma BitmapParts()
      requires Valid()
      ensures dataBitmap.Valid() && inodeBitmap.Valid()
    {
    }

    lemma Distinct(i: nat)
      requires Valid() && i < |inodes|
      ensures forall k :: 0 <= k < |inodes| && k != i ==> inodes[k] != inodes[i]
    {
      hide Taken, UpTo;
    }

    /** `Inode::increase_size`. */
    method IncreaseSize(i: nat, newSize: nat) returns (ghost newBlocks: seq<nat>)
      requires Valid() && Sound(St()) && Room(St(), i, newSize)
      modifies dataBitmap, disk, inodes[i]
      ensures Valid()
      ensures newSize < old(St()).nodes[i].size ==> St() == old(St())
      ensures newSize >= old(St()).nodes[i].size ==> GrewTo(old(St()), i, newSize, newBlocks, St())
    {
      hide *;
      Parts();
      ghost var st := St();
      RoomParts(st, i, newSize);
      Distinct(i);
      inodes[i].Fields();
      newBlocks := [];
      if newSize < inodes[i].size {
        return;
      }
      var blocksNeeded := TotalBlocks(newSize) - TotalBlocks(inodes[i].size);
      SoundBits(st);
      var v := AllocBlocks(blocksNeeded);
      GrownWanted(st, i, v);
      WantedJoin(Owned(st.nodes[i], st.blocks) + v);
      inodes[i].IncreaseSize(newSize, v, disk);
      newBlocks := v;
      Parts();
      GrewJoin(st, i, newSize, v, St());
    }

    /** `Inode::write_at`. An empty buffer at the end of the last block is left out: the source then looks up a
        block that the file does not have. */
    method WriteAt(i: nat, offset: nat, buf: seq<byte>) returns (n: nat)
      requires Valid() && Sound(St()) && Room(St(), i, offset + |buf|) && Addressed(St(), i, offset, buf)
      modifies dataBitmap, disk, inodes[i]
      ensures Valid() && n == |buf| && WriteDone(old(St()), i, offset, buf, St())
    {
      hide *;
      Parts();
      ghost var st := St();
      RoomParts(st, i, offset + |buf|);
      Distinct(i);
      inodes[i].Fields();
      ghost var newBlocks := IncreaseSize(i, offset + |buf|);
      Parts();
      ghost var mid := St();
      GrewOrNot(st, i, offset + |buf|, newBlocks, mid);
      AddressedStill(st, i, offset, buf, mid);
      inodes[i].Fields();
      n := inodes[i].WriteAt(offset, buf, disk);
      WholeWritten(offset, buf, mid.nodes[i].size, n);
      Parts();
      WroteJoin(mid, i, offset, buf, St());
      WriteDoneJoin(st, i, offset, buf, newBlocks, mid, St());
    }

    /** `Inode::read_at`. */
    method ReadAt(i: nat, offset: nat, buf: array<byte>) returns (n: nat)
      requires Valid() && Sound(St()) && i < |inodes|
      modifies buf
      ensures var c := FilesOf(St())[i];
              && n == (if offset < |c| then Min(offset + buf.Length, |c|) - offset else 0)
              && n <= buf.Length && buf[n..] == old(buf[n..])
              && (n > 0 ==> buf[..n] == c[offset..offset + n])
    {
      hide *;
      Parts();
      SoundFiles(St());
      SizedParts(St(), i);
      inodes[i].Fields();
      n := inodes[i].ReadAt(offset, buf, disk);
    }

    /** `Inode::clear`: what `clear_size` returns is as long as `total_blocks` says, and each block is given back. */
    method Clear(i: nat)
      requires Valid() && Sound(St()) && i < |inodes|
      modifies dataBitmap, disk, inodes[i]
      ensures Valid() && ClearedAt(old(St()), i, St())
    {
      hide *;
      Parts();
      ghost var st := St();
      SoundFiles(st);
      SizedParts(st, i);
      Distinct(i);
      inodes[i].Fields();
      var size := inodes[i].size;
      var v := inodes[i].ClearSize(disk);
      inodes[i].Fields();
      assert |v| == TotalBlocks(size);
      SoundBlocks(st, i);
      GivenStart(st, v);
      BitmapParts();
      ghost var node := inodes[i].Shape();
      for q := 0 to |v|
        invariant Valid() && dataBitmap.Valid() && inodes == old(inodes) && inodes[i].Shape() == node
        invariant forall k :: 0 <= k < |inodes| && k != i ==> inodes[k].Shape() == old(inodes[k].Shape())
        invariant Given(st, v[..q], dataBitmap.Set(), disk.blocks)
      {
        GivenNext(st, v, q, dataBitmap.Set(), disk.blocks);
        DeallocData(v[q]);
        BitmapParts();
      }
      assert v[..|v|] == v;
      Parts();
      ClearedJoin(st, i, v, St());
    }

    /** The entry at place `k` of a directory, read into a buffer of its size. */
    method ReadEntry(root: nat, k: nat) returns (e: DirEntry)
      requires Valid() && Sound(St()) && root < |inodes| && DirOk(FilesOf(St())[root])
      requires k < |FilesOf(St())[root]| / DIRENT_SZ
      ensures e == EntryAt(FilesOf(St())[root], k) && 0 in e.bytes
    {
      hide *;
      DirEntrySizes(k);
      Parts();
      SoundFiles(St());
      var buf := new byte[DIRENT_SZ];
      var n := ReadAt(root, DIRENT_SZ * k, buf);
      EntryRead(FilesOf(St())[root], k, n);
      assert n == DIRENT_SZ;
      assert buf[..] == buf[..n];
      e := FromBytes(buf[..]);
    }

    /** `find_inode_id`. */
    method FindInodeId(root: nat, name: seq<byte>) returns (r: Option<nat>)
      requires Valid() && Sound(St()) && root < |inodes| && DirOk(FilesOf(St())[root])
      ensures Found(Listing(FilesOf(St())[root]), name, r)
    {
      hide *;
      DirEntrySizes(0);
      Parts();
      SoundFiles(St());
      ghost var c := FilesOf(St())[root];
      inodes[root].Fields();
      var fileCount := inodes[root].size / DIRENT_SZ;
      NothingBefore(c, name);
      for k := 0 to fileCount
        invariant NotBefore(c, name, k)
      {
        var e := ReadEntry(root, k);
        if NameOf(e) == name {
          FoundAt(c, name, k);
          return Some(e.inodeNumber);
        }
        NotAt(c, name, k);
      }
      FoundNowhere(c, name);
      return None;
    }

    /** `ls`. */
    method Ls(root: nat) returns (v: seq<seq<byte>>)
      requires Valid() && Sound(St()) && root < |inodes| && DirOk(FilesOf(St())[root])
      ensures |v| == |Listing(FilesOf(St())[root])|
      ensures forall k :: 0 <= k < |v| ==> v[k] == Listing(FilesOf(St())[root])[k].0
    {
      hide *;
      DirEntrySizes(0);
      Parts();
      SoundFiles(St());
      ghost var c := FilesOf(St())[root];
      inodes[root].Fields();
      var fileCount := inodes[root].size / DIRENT_SZ;
      v := [];
      for k := 0 to fileCount
        invariant |v| == k <= |c| / DIRENT_SZ
        invariant forall j :: 0 <= j < k ==> ListedName(c, j, v[j])
      {
        var e := ReadEntry(root, k);
        v := v + [NameOf(e)];
        ListedAt(c, k);
      }
      ListedAll(c, v);
    }

    /** `alloc_inode` and `initialize`: the least free number is the number of inodes so far. */
    method AddInode() returns (id: nat)
      requires Valid() && |inodes| < |inodeBitmap.blocks| * BLOCK_BITS
      modifies this`inodes, inodeBitmap
      ensures Valid() && id == old(|inodes|) && AddedNode(old(St()), St()) && !St().nodes[id].dir
      ensures |inodes| == id + 1 && inodes[..id] == old(inodes) && |inodeBitmap.blocks| == old(|inodeBitmap.blocks|)
    {
      hide Taken, BlocksOk, FirstFit, UpTo;
      ghost var blocks := inodeBitmap.blocks;
      var bit := inodeBitmap.Alloc();
      NextNumber(blocks, |inodes|, bit);
      id := bit.value;
      var inode := new DiskInode(false);
      inodes := inodes + [inode];
    }

    /** `create`: nothing for a name that is taken; otherwise a new empty file, and its entry at the end. */
    method CreateFile(root: nat, name: seq<byte>) returns (id: Option<nat>)
      requires Valid() && Sound(St()) && root < |inodes| && DirOk(FilesOf(St())[root]) && NameOk(name)
      requires Listed(Listing(FilesOf(St())[root]), name)
               || (|inodes| < |inodeBitmap.blocks| * BLOCK_BITS && |inodes| < U32
                   && Room(St(), root, |FilesOf(St())[root]| + DIRENT_SZ))
      modifies this, inodeBitmap, dataBitmap, disk, inodes[root]
      ensures Valid()
      ensures Listed(Listing(old(FilesOf(St()))[root]), name) ==> id == None && St() == old(St())
      ensures !Listed(Listing(old(FilesOf(St()))[root]), name) ==>
                id == Some(old(|inodes|)) && FileCreated(old(St()), root, name, St())
    {
      hide *;
      ghost var st := St();
      Parts();
      SoundFiles(st);
      ghost var c := FilesOf(st)[root];
      var taken := FindInodeId(root, name);
      FoundListed(Listing(c), name, taken);
      DirEntrySizes(0);
      if taken.Some? {
        return None;
      }
      var newInodeId := AddInode();
      ghost var mid := St();
      Parts();
      AddedKeeps(st, mid, root, |c| + DIRENT_SZ);
      inodes[root].Fields();
      var fileCount := inodes[root].size / DIRENT_SZ;
      NewEntry(c, name, newInodeId, fileCount);
      EntryAddressed(mid, root, fileCount * DIRENT_SZ, AsBytes(New(name, newInodeId)));
      var n := WriteAt(root, fileCount * DIRENT_SZ, AsBytes(New(name, newInodeId)));
      id := Some(newInodeId);
      FileCreatedJoin(st, root, name, mid, St());
    }
  }

  lemma DirEntrySizes(k: nat)
    ensures DIRENT_SZ == 32 && DIRENT_SZ * k >= 0
  {
  }

  lemma EntryRead(c: seq<byte>, k: nat, n: nat)
    requires DirOk(c) && k < |c| / DIRENT_SZ
    requires n == if DIRENT_SZ * k < |c| then Min(DIRENT_SZ * k + DIRENT_SZ, |c|) - DIRENT_SZ * k else 0
    ensures n == DIRENT_SZ && DIRENT_SZ * k + DIRENT_SZ <= |c| && 0 in EntryAt(c, k).bytes
    ensures EntryAt(c, k) == FromBytes(c[DIRENT_SZ * k..DIRENT_SZ * k + DIRENT_SZ])
  {
    hide FromBytes;
  }

  ghost predicate NotBefore(c: seq<byte>, name: seq<byte>, k: nat) {
    DirOk(c) && k <= |c| / DIRENT_SZ && forall j :: 0 <= j < k ==> Listing(c)[j].0 != name
  }

  lemma NothingBefore(c: seq<byte>, name: seq<byte>)
    requires DirOk(c)
    ensures NotBefore(c, name, 0)
  {
    hide EntryAt, Listing;
  }

  lemma NotAt(c: seq<byte>, name: seq<byte>, k: nat)
    requires NotBefore(c, name, k) && k < |c| / DIRENT_SZ && 0 in EntryAt(c, k).bytes && NameOf(EntryAt(c, k)) != name
    ensures NotBefore(c, name, k + 1)
  {
    hide NameOf, EntryAt;
  }

  lemma FoundAt(c: seq<byte>, name: seq<byte>, k: nat)
    requires NotBefore(c, name, k) && k < |c| / DIRENT_SZ && 0 in EntryAt(c, k).bytes && NameOf(EntryAt(c, k)) == name
    ensures Found(Listing(c), name, Some(EntryAt(c, k).inodeNumber))
  {
    hide NameOf, EntryAt;
    assert Listing(c)[k] == (name, EntryAt(c, k).inodeNumber);
  }

  lemma FoundNowhere(c: seq<byte>, name: seq<byte>)
    requires NotBefore(c, name, |c| / DIRENT_SZ)
    ensures Found(Listing(c), name, None)
  {
    hide NameOf, EntryAt;
  }

  lemma FoundListed(l: seq<(seq<byte>, nat)>, name: seq<byte>, r: Option<nat>)
    requires Found(l, name, r)
    ensures r.Some? <==> Listed(l, name)
  {
  }

  ghost predicate ListedName(c: seq<byte>, k: nat, name: seq<byte>) {
    DirOk(c) && k < |c| / DIRENT_SZ && Listing(c)[k].0 == name
  }

  lemma ListedAt(c: seq<byte>, k: nat)
    requires DirOk(c) && k < |c| / DIRENT_SZ && 0 in EntryAt(c, k).bytes
    ensures ListedName(c, k, NameOf(EntryAt(c, k)))
  {
    hide NameOf, EntryAt;
  }

  lemma ListedAll(c: seq<byte>, v: seq<seq<byte>>)
    requires DirOk(c) && |v| == |c| / DIRENT_SZ && forall j :: 0 <= j < |v| ==> ListedName(c, j, v[j])
    ensures |v| == |Listing(c)| && forall k :: 0 <= k < |v| ==> v[k] == Listing(c)[k].0
  {
    hide Listing;
  }

  lemma NextNumber(blocks: seq<Words>, n: nat, bit: Option<nat>)
    requires BlocksOk(blocks) && n < |blocks| * BLOCK_BITS && Taken(blocks) == UpTo(n) && FirstFit(blocks, bit)
    ensures bit == Some(n) && UpTo(n + 1) == UpTo(n) + {n}
  {
    hide Taken;
    FirstFitStaysBelow(blocks, n + 1, bit);
  }

  lemma AddedKeeps(st: State, mid: State, root: nat, newSize: nat)
    requires Sound(st) && AddedNode(st, mid) && Room(st, root, newSize)
    ensures Sound(mid) && Room(mid, root, newSize) && root < |mid.nodes| && mid.nodes[root] == st.nodes[root]
    ensures AllOk(mid) && |FilesOf(st)| == |st.nodes| && |FilesOf(mid)| == |mid.nodes|
  {
    hide Sound, FilesOf, AllOk;
    AddedSound(st, mid);
    SoundFiles(st);
    SoundFiles(mid);
    assert mid.nodes[..|st.nodes|][root] == st.nodes[root];
  }

  lemma NewEntry(c: seq<byte>, name: seq<byte>, id: nat, fileCount: nat)
    requires DirOk(c) && NameOk(name) && fileCount == |c| / DIRENT_SZ
    ensures |name| <= NAME_SZ && |New(name, id).bytes| == NAME_SZ && |AsBytes(New(name, id))| == DIRENT_SZ
    ensures fileCount * DIRENT_SZ == |c|
  {
    hide AsBytes, EntryAt;
  }

  lemma EntryAddressed(st: State, i: nat, offset: nat, buf: seq<byte>)
    requires i < |st.nodes| && |buf| == DIRENT_SZ
    ensures Addressed(st, i, offset, buf)
  {
  }

  /** The two parts of `create`. */
  ghost predicate CreatedThrough(st: State, root: nat, name: seq<byte>, mid: State, st': State)
    requires AllOk(st) && root < |st.nodes| && NameOk(name)
  {
    && AddedNode(st, mid) && !mid.nodes[|st.nodes|].dir
    && WriteDone(mid, root, |FilesOf(st)[root]|, AsBytes(New(name, |st.nodes|)), st')
  }

  ghost predicate FileCreated(st: State, root: nat, name: seq<byte>, st': State) {
    && AllOk(st) && root < |st.nodes| < U32 && NameOk(name)
    && exists mid :: CreatedThrough(st, root, name, mid, st')
  }

  lemma FileCreatedJoin(st: State, root: nat, name: seq<byte>, mid: State, st': State)
    requires AllOk(st) && root < |st.nodes| < U32 && NameOk(name)
    requires AddedNode(st, mid) && !mid.nodes[|st.nodes|].dir
    requires WriteDone(mid, root, |FilesOf(st)[root]|, AsBytes(New(name, |st.nodes|)), st')
    ensures FileCreated(st, root, name, st')
  {
    hide AddedNode, WriteDone, AllOk, FilesOf;
    assert CreatedThrough(st, root, name, mid, st');
  }

  /** Blocks given back so far: zeroed, and their bits cleared. */
  ghost predicate Given(st: State, v: seq<nat>, used: set<nat>, blocks: Blocks) {
    && used == st.used - BitsOf(v, st.dataStart)
    && forall b :: At(blocks, b) == if b in v then Zeros(BLOCK_SZ) else At(st.blocks, b)
  }

  lemma GivenStart(st: State, v: seq<nat>)
    ensures Given(st, v[..0], st.used, st.blocks)
  {
    hide At, Zeros;
  }

  lemma GivenNext(st: State, v: seq<nat>, q: nat, used: set<nat>, blocks: Blocks)
    requires q < |v| && NoDup(v) && AllInUse(st, v) && Given(st, v[..q], used, blocks)
    ensures v[q] >= st.dataStart && v[q] - st.dataStart in used
    ensures Given(st, v[..q + 1], used - {v[q] - st.dataStart}, blocks[v[q] := Zeros(BLOCK_SZ)])
  {
    hide Zeros, BitsOf;
    assert InUse(st, v[q]);
    var w := v[..q + 1];
    assert w[..q] == v[..q] && w[q] == v[q];
    forall p | 0 <= p < |w| ensures InUse(st, w[p]) && w[p] >= st.dataStart {
      assert w[p] == v[p] && InUse(st, v[p]);
    }
    BitsSplit(w, st.dataStart);
    var blocks' := blocks[v[q] := Zeros(BLOCK_SZ)];
    forall b ensures At(blocks', b) == if b in w then Zeros(BLOCK_SZ) else At(st.blocks, b) {
      assert At(blocks, b) == if b in v[..q] then Zeros(BLOCK_SZ) else At(st.blocks, b);
      assert b in w <==> b in v[..q] || b == v[q];
    }
  }

  lemma SizedParts(st: State, i: nat)
    requires Sound(st) && i < |st.nodes|
    ensures NodeOk(st.nodes[i]) && st.nodes[i].size <= MAX_SIZE && AllOk(st)
    ensures FilesOf(st)[i] == Content(st.nodes[i], st.blocks)
  {
    hide Owned, Content, ZeroTail, NoDup, AllInUse, AllApart, NoneLost, FreeZero;
    assert FileOk(st, st.nodes[i]);
  }

  lemma SoundBlocks(st: State, i: nat)
    requires Sound(st) && i < |st.nodes|
    ensures Sized(st.nodes[i]) && NoDup(Owned(st.nodes[i], st.blocks)) && AllInUse(st, Owned(st.nodes[i], st.blocks))
  {
    hide Owned, ZeroTail, NoDup, AllInUse, AllApart, NoneLost, FreeZero;
    assert FileOk(st, st.nodes[i]);
  }

  lemma ClearedJoin(st: State, i: nat, v: seq<nat>, st': State)
    requires i < |st.nodes| == |st'.nodes| && st'.dataStart == st.dataStart && st'.dataBlocks == st.dataBlocks
    requires forall k :: 0 <= k < |st.nodes| && k != i ==> st'.nodes[k] == st.nodes[k]
    requires Sized(st.nodes[i]) && v == Owned(st.nodes[i], st.blocks) && NodeOk(st'.nodes[i])
    requires st'.nodes[i].size == 0 && st'.nodes[i].dir == st.nodes[i].dir
    requires Given(st, v, st'.used, st'.blocks)
    ensures ClearedAt(st, i, st')
  {
    hide Owned, At, Zeros, BitsOf;
  }

  /** The first byte of the write falls in a block that the file has after growing. */
  ghost predicate Addressed(st: State, i: nat, offset: nat, buf: seq<byte>) {
    i < |st.nodes| && (buf != [] || offset % BLOCK_SZ != 0 || offset < st.nodes[i].size)
  }

  /** Exactly then: the block that the first turn of the loop looks up exists. */
  lemma AddressedMeansCovered(size: nat, offset: nat, buf: seq<byte>)
    ensures Covered(DataBlocks(Max(size, offset + |buf|)), offset)
       <==> buf != [] || offset % BLOCK_SZ != 0 || offset < size
  {
  }

  lemma GrewOrNot(st: State, i: nat, newSize: nat, newBlocks: seq<nat>, mid: State)
    requires Sound(st) && i < |st.nodes|
    requires newSize < st.nodes[i].size ==> mid == st
    requires newSize >= st.nodes[i].size ==> GrewTo(st, i, newSize, newBlocks, mid)
    ensures Sound(mid) && |mid.nodes| == |st.nodes| && mid.nodes[i].size == Max(st.nodes[i].size, newSize)
    ensures mid.dataStart == st.dataStart && mid.dataBlocks == st.dataBlocks && newSize <= mid.nodes[i].size
  {
    hide Sound, FilesOf, Owned, Fresh, BitsOf, SameBut, Indexes;
    if newSize >= st.nodes[i].size {
      GrewSound(st, i, newSize, newBlocks, mid);
    }
  }

  lemma AddressedStill(st: State, i: nat, offset: nat, buf: seq<byte>, mid: State)
    requires Addressed(st, i, offset, buf) && Sound(mid) && |mid.nodes| == |st.nodes|
    requires mid.nodes[i].size == Max(st.nodes[i].size, offset + |buf|)
    ensures i < |mid.nodes| && NodeOk(mid.nodes[i]) && mid.nodes[i].size <= MAX_SIZE
    ensures NoDup(Owned(mid.nodes[i], mid.blocks)) && offset <= mid.nodes[i].size
    ensures Covered(DataBlocks(mid.nodes[i].size), offset)
  {
    hide Sound, Owned, Covered, DataBlocks;
    SoundBlocks(mid, i);
    AddressedMeansCovered(st.nodes[i].size, offset, buf);
  }

  lemma WholeWritten(offset: nat, buf: seq<byte>, size: nat, n: nat)
    requires n == Min(offset + |buf|, size) - offset && offset + |buf| <= size
    ensures n == |buf|
  {
  }

  /** Room for file `i` to grow to the new size. */
  ghost predicate Room(st: State, i: nat, newSize: nat) {
    && i < |st.nodes| && newSize <= MAX_SIZE
    && (newSize < st.nodes[i].size
        || |st.used| + TotalBlocks(newSize) <= st.dataBlocks + TotalBlocks(st.nodes[i].size))
  }

  lemma RoomParts(st: State, i: nat, newSize: nat)
    requires Sound(st) && Room(st, i, newSize)
    ensures i < |st.nodes| && newSize <= MAX_SIZE && NodeOk(st.nodes[i]) && st.nodes[i].size <= MAX_SIZE
    ensures newSize >= st.nodes[i].size ==>
              TotalBlocks(st.nodes[i].size) <= TotalBlocks(newSize)
              && |st.used| + (TotalBlocks(newSize) - TotalBlocks(st.nodes[i].size)) <= st.dataBlocks
  {
    hide Owned, ZeroTail, NoDup, AllInUse, AllApart, NoneLost, FreeZero, Total;
    assert FileOk(st, st.nodes[i]);
    if newSize >= st.nodes[i].size {
      TotalGrows(DataBlocks(st.nodes[i].size), DataBlocks(newSize));
    }
  }

  lemma WantedJoin(ids: seq<nat>)
    requires NoDup(ids) && Numbers(ids)
    ensures Wanted(ids)
  {
  }

  lemma GrewJoin(st: State, i: nat, newSize: nat, newBlocks: seq<nat>, st': State)
    requires i < |st.nodes| == |st'.nodes| && st'.dataStart == st.dataStart && st'.dataBlocks == st.dataBlocks
    requires forall k :: 0 <= k < |st.nodes| && k != i ==> st'.nodes[k] == st.nodes[k]
    requires st.nodes[i].size <= newSize && Fresh(st, newBlocks)
    requires Grown(st.nodes[i], st.blocks, newSize, newBlocks, st'.nodes[i], st'.blocks)
    requires st'.used == st.used + BitsOf(newBlocks, st.dataStart)
    ensures GrewTo(st, i, newSize, newBlocks, st')
  {
    hide Grown, Fresh, BitsOf;
  }

  lemma WroteJoin(st: State, i: nat, offset: nat, buf: seq<byte>, st': State)
    requires i < |st.nodes| == |st'.nodes| && st'.dataStart == st.dataStart && st'.dataBlocks == st.dataBlocks
    requires forall k :: 0 <= k < |st.nodes| ==> st'.nodes[k] == st.nodes[k]
    requires st'.used == st.used && NodeOk(st.nodes[i]) && st.nodes[i].size <= MAX_SIZE
    requires OwnedBy(st.nodes[i], st'.blocks, DataBlocks(st.nodes[i].size), Owned(st.nodes[i], st.blocks))
    requires offset + |buf| <= st.nodes[i].size
    requires WrittenTo(st.nodes[i], st.blocks, st'.blocks, DataBlocks(st.nodes[i].size), offset, offset + |buf|, buf)
    requires SameBut(st.blocks, st'.blocks, DataIds(Owned(st.nodes[i], st.blocks)))
    ensures WroteTo(st, i, offset, |buf|, buf, st')
  {
    hide OwnedBy, WrittenTo, SameBut, Owned, DataIds;
  }

  lemma WriteDoneJoin(st: State, i: nat, offset: nat, buf: seq<byte>, newBlocks: seq<nat>, mid: State, st': State)
    requires i < |st.nodes| && WroteTo(mid, i, offset, |buf|, buf, st')
    requires offset + |buf| < st.nodes[i].size ==> mid == st
    requires offset + |buf| >= st.nodes[i].size ==> GrewTo(st, i, offset + |buf|, newBlocks, mid)
    ensures WriteDone(st, i, offset, buf, st')
  {
    hide WroteTo, GrewTo;
    if offset + |buf| >= st.nodes[i].size {
      assert GrewThenWrote(st, i, newBlocks, mid, offset, buf, st');
    }
  }

  lemma SoundBits(st: State)
    requires Sound(st)
    ensures forall u :: u in st.used ==> u < st.dataBlocks
  {
    hide Owned, FileOk, HasOwner, Apart;
  }

  lemma FirstOfNone(blocks: seq<Words>, r: Option<nat>)
    requires BlocksOk(blocks) && |blocks| > 0 && Taken(blocks) == {} && FirstFit(blocks, r)
    ensures r == Some(0)
  {
    hide Taken;
    FirstFitStaysBelow(blocks, 1, r);
  }

  lemma NewVolumeSound(st: State)
    requires |st.nodes| == 1 && NodeOk(st.nodes[0]) && st.nodes[0].size == 0 && st.used == {}
    requires st.dataStart + st.dataBlocks <= U32
    requires forall b :: st.dataStart <= b < st.dataStart + st.dataBlocks ==> At(st.blocks, b) == Zeros(BLOCK_SZ)
    ensures Sound(st) && FilesOf(st) == [[]]
  {
    hide Owned, Content, ZeroTail, NoDup, At, Zeros;
    EmptyFile(st, st.nodes[0]);
  }

  lemma NothingFresh(st: State)
    ensures Fresh(st, [])
  {
  }

  lemma FreshNext(st: State, v: seq<nat>, id: nat)
    requires Fresh(st, v) && st.dataStart <= id < st.dataStart + st.dataBlocks
    requires id - st.dataStart !in st.used + BitsOf(v, st.dataStart)
    ensures Fresh(st, v + [id]) && BitsOf(v + [id], st.dataStart) == BitsOf(v, st.dataStart) + {id - st.dataStart}
  {
    hide BitsOf;
    BitTaken(st, v, id);
    assert Fresh(st, v + [id]) by {
      forall q | 0 <= q < |v + [id]| ensures IsFree(st, (v + [id])[q]) {
      }
    }
    forall q | 0 <= q < |v + [id]| ensures (v + [id])[q] >= st.dataStart {
      assert IsFree(st, (v + [id])[q]);
    }
    BitsSplit(v + [id], st.dataStart);
    assert (v + [id])[..|v|] == v;
  }
}
