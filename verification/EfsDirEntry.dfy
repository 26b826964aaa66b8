/** Directory entries of easy-fs (easy-fs/src/layout.rs): 28 bytes of name, ended by a zero, and an inode number. */
module EfsDirEntry {
  import opened Common

  const DIRENT_SZ: nat := 32
  const NAME_SZ: nat := 28
  const NAME_LENGTH_LIMIT: nat := 27

  datatype DirEntry = DirEntry(bytes: seq<byte>, inodeNumber: nat)

  /** A name that fits with the zero behind it, and holds no zero itself. */
  ghost predicate NameOk(name: seq<byte>) {
    |name| <= NAME_LENGTH_LIMIT && 0 !in name
  }

  function New(name: seq<byte>, inodeNumber: nat): DirEntry
    requires |name| <= NAME_SZ
  {
    DirEntry(name + Zeros(NAME_SZ - |name|), inodeNumber)
  }

  function AsBytes(e: DirEntry): (b: seq<byte>)
    requires |e.bytes| == NAME_SZ
    ensures |b| == DIRENT_SZ
  {
    e.bytes + Le32(e.inodeNumber)
  }

  /** What `as_bytes_mut` makes of the bytes read into an entry. */
  function FromBytes(b: seq<byte>): (e: DirEntry)
    requires |b| == DIRENT_SZ
    ensures |e.bytes| == NAME_SZ
  {
    DirEntry(b[..NAME_SZ], From32(b[NAME_SZ..]))
  }

  /** The first zero at or after `from`; the source panics when there is none. */
  function ZeroFrom(b: seq<byte>, from: nat): (n: nat)
    requires from <= |b| && 0 in b[from..]
    ensures from <= n < |b| && b[n] == 0 && 0 !in b[from..n]
    decreases |b| - from
  {
    if b[from] == 0 then from else
      assert b[from..] == [b[from]] + b[from + 1..];
      var n := ZeroFrom(b, from + 1);
      assert b[from..n] == [b[from]] + b[from + 1..n];
      n
  }

  function NameOf(e: DirEntry): seq<byte>
    requires 0 in e.bytes
  {
    e.bytes[..ZeroFrom(e.bytes, 0)]
  }

  /** What is written as an entry is read back: the name and the number. */
  lemma EntryRoundTrip(name: seq<byte>, inodeNumber: nat)
    requires NameOk(name) && inodeNumber < U32
    ensures var e := FromBytes(AsBytes(New(name, inodeNumber)));
            0 in e.bytes && NameOf(e) == name && e.inodeNumber == inodeNumber
  {
    var e := FromBytes(AsBytes(New(name, inodeNumber)));
    Le32From32(inodeNumber);
    assert AsBytes(New(name, inodeNumber))[NAME_SZ..] == Le32(inodeNumber);
    assert e.bytes == name + Zeros(NAME_SZ - |name|);
    assert e.bytes[|name|] == 0;
    forall j | 0 <= j < |name| ensures e.bytes[j] != 0 {
      assert e.bytes[j] == name[j];
    }
    var n := ZeroFrom(e.bytes, 0);
    forall j | 0 <= j < n ensures e.bytes[j] != 0 {
      assert e.bytes[0..n][j] == e.bytes[j];
    }
  }

  /** The 32 bytes of an entry: the name, zeros up to byte 28, and the number with its low byte first. */
  lemma EntryBytes(name: seq<byte>, inodeNumber: nat)
    requires |name| <= 28 && inodeNumber < 0x1_0000_0000
    ensures var b := AsBytes(New(name, inodeNumber));
            && |b| == 32 && b[..|name|] == name && (forall i :: |name| <= i < 28 ==> b[i] == 0)
            && inodeNumber == b[28] as nat + 0x100 * b[29] as nat + 0x1_0000 * b[30] as nat + 0x100_0000 * b[31] as nat
  {
    Le32From32(inodeNumber);
    var b, n := AsBytes(New(name, inodeNumber)), Le32(inodeNumber);
    assert b[28] == n[0] && b[29] == n[1] && b[30] == n[2] && b[31] == n[3];
  }

  lemma EndIs(b: seq<byte>, n: nat)
    requires n < |b| && b[n] == 0 && 0 !in b[..n]
    ensures 0 in b && 0 in b[0..] && ZeroFrom(b, 0) == n
  {
    assert b[0..] == b;
    var z := ZeroFrom(b, 0);
    assert forall i :: 0 <= i < n ==> b[i] == b[..n][i];
    assert forall i :: 0 <= i < z ==> b[i] == b[0..z][i];
  }

  /** Entry k of a directory: the bytes before the first zero, and the number in bytes 28 to 31. */
  lemma EntryInBytes(c: seq<byte>, k: nat, n: nat)
    requires 32 * k + 32 <= |c| && n < 28 && c[32 * k + n] == 0 && 0 !in c[32 * k..32 * k + n]
    ensures k < |c| / DIRENT_SZ && 0 in EntryAt(c, k).bytes && NameOf(EntryAt(c, k)) == c[32 * k..32 * k + n]
    ensures EntryAt(c, k).inodeNumber == c[32 * k + 28] as nat + 0x100 * c[32 * k + 29] as nat
                                         + 0x1_0000 * c[32 * k + 30] as nat + 0x100_0000 * c[32 * k + 31] as nat
  {
    var e := c[32 * k..32 * k + 32];
    forall i | 0 <= i < n ensures e[..28][..n][i] == c[32 * k..32 * k + n][i] {
      assert e[i] == c[32 * k + i];
    }
    assert e[..28][..n] == c[32 * k..32 * k + n];
    EndIs(e[..28], n);
    assert e[28..][0] == c[32 * k + 28] && e[28..][1] == c[32 * k + 29] && e[28..][2] == c[32 * k + 30] && e[28..][3] == c[32 * k + 31];
  }

  /** A name of 28 bytes fits the field and leaves no room for the zero, so that it cannot be read back. */
  lemma FullNameHasNoEnd(name: seq<byte>, inodeNumber: nat)
    requires |name| <= NAME_SZ && 0 !in name
    ensures 0 in FromBytes(AsBytes(New(name, inodeNumber))).bytes <==> |name| <= NAME_LENGTH_LIMIT
  {
    var e := FromBytes(AsBytes(New(name, inodeNumber)));
    assert e.bytes == name + Zeros(NAME_SZ - |name|);
    if |name| <= NAME_LENGTH_LIMIT {
      assert e.bytes[|name|] == 0;
    } else {
      assert e.bytes == name;
    }
  }

  // Directories as lists of entries

  function EntryAt(c: seq<byte>, k: nat): DirEntry
    requires k < |c| / DIRENT_SZ
  {
    FromBytes(c[DIRENT_SZ * k..DIRENT_SZ * k + DIRENT_SZ])
  }

  ghost predicate DirOk(c: seq<byte>) {
    |c| % DIRENT_SZ == 0 && forall k :: 0 <= k < |c| / DIRENT_SZ ==> 0 in EntryAt(c, k).bytes
  }

  /** Names and inode numbers in the order of the directory. */
  ghost function Listing(c: seq<byte>): (l: seq<(seq<byte>, nat)>)
    requires DirOk(c)
    ensures |l| == |c| / DIRENT_SZ
  {
    seq(|c| / DIRENT_SZ, k requires 0 <= k < |c| / DIRENT_SZ => (NameOf(EntryAt(c, k)), EntryAt(c, k).inodeNumber))
  }

  ghost predicate Listed(l: seq<(seq<byte>, nat)>, name: seq<byte>) {
    exists k :: 0 <= k < |l| && l[k].0 == name
  }

  /** The number of the first entry with the name. */
  ghost predicate Found(l: seq<(seq<byte>, nat)>, name: seq<byte>, r: Option<nat>) {
    match r
    case None => !Listed(l, name)
    case Some(id) =>
      exists k :: 0 <= k < |l| && l[k] == (name, id) && forall j :: 0 <= j < k ==> l[j].0 != name
  }

  ghost predicate NamesDiffer(l: seq<(seq<byte>, nat)>) {
    forall j, k :: 0 <= j < k < |l| ==> l[j].0 != l[k].0
  }

  lemma Appended(c: seq<byte>, name: seq<byte>, inodeNumber: nat)
    requires DirOk(c) && NameOk(name) && inodeNumber < U32
    ensures var c' := Overwritten(c, |c|, AsBytes(New(name, inodeNumber)));
            DirOk(c') && Listing(c') == Listing(c) + [(name, inodeNumber)]
  {
    hide AsBytes, FromBytes, NameOf, Zeros;
    var e := AsBytes(New(name, inodeNumber));
    var c' := Overwritten(c, |c|, e);
    assert c' == c + e;
    var n := |c| / DIRENT_SZ;
    assert |c'| / DIRENT_SZ == n + 1 && |c'| % DIRENT_SZ == 0;
    EntryRoundTrip(name, inodeNumber);
    forall k | 0 <= k < n + 1
      ensures EntryAt(c', k) == if k < n then EntryAt(c, k) else FromBytes(e)
    {
      EntryInside(c, e, k);
    }
    forall k | 0 <= k < n + 1 ensures 0 in EntryAt(c', k).bytes {
      assert k < n ==> 0 in EntryAt(c, k).bytes;
    }
    assert Listing(c') == Listing(c) + [(name, inodeNumber)];
  }

  lemma EntryInside(c: seq<byte>, e: seq<byte>, k: nat)
    requires |c| % DIRENT_SZ == 0 && |e| == DIRENT_SZ && k <= |c| / DIRENT_SZ
    ensures EntryAt(c + e, k) == if k < |c| / DIRENT_SZ then EntryAt(c, k) else FromBytes(e)
  {
    hide FromBytes;
    var n := |c| / DIRENT_SZ;
    if k < n {
      assert (c + e)[DIRENT_SZ * k..DIRENT_SZ * k + DIRENT_SZ] == c[DIRENT_SZ * k..DIRENT_SZ * k + DIRENT_SZ];
    } else {
      assert DIRENT_SZ * k == |c|;
      assert (c + e)[DIRENT_SZ * k..DIRENT_SZ * k + DIRENT_SZ] == e;
    }
  }
}
