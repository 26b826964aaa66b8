/** Bitmap blocks of ext4-fs/src/ext4.rs: `set_bitmap_bit` and `find_and_alloc_bit_from`, on the bytes. */
module Ext4Bitmap {
  import opened Common
  import opened Ext4Types

  function TestBit(b: bv8, i: nat): bool
    requires i < 8
  {
    b & ((1 as bv8) << i) != 0
  }

  /** The byte with one bit set or cleared by its mask. */
  function WithBit(b: bv8, i: nat, value: bool): bv8
    requires i < 8
  {
    if value then b | ((1 as bv8) << i) else b & !((1 as bv8) << i)
  }

  lemma WithBitSets(b: bv8, i: nat, value: bool, j: nat)
    requires i < 8 && j < 8
    ensures TestBit(WithBit(b, i, value), j) == if i == j then value else TestBit(b, j)
  {
    ShiftIsMask(i);
    ShiftIsMask(j);
  }

  lemma ShiftIsMask(i: nat)
    requires i < 8
    ensures (1 as bv8) << i == [1, 2, 4, 8, 16, 32, 64, 128][i]
  {
  }

  function BitAt(bytes: seq<bv8>, bit: nat): bool
    requires bit < 8 * |bytes|
  {
    TestBit(bytes[bit / 8], bit % 8)
  }

  /** The bits of a bitmap block in order. */
  function Bits(bytes: seq<bv8>): (bits: seq<bool>)
    ensures |bits| == 8 * |bytes|
    ensures forall k :: 0 <= k < |bits| ==> bits[k] == BitAt(bytes, k)
  {
    seq(8 * |bytes|, k requires 0 <= k < 8 * |bytes| => BitAt(bytes, k))
  }

  /** Eight bits to a byte, the lowest first. */
  lemma LowestFirst(bytes: seq<bv8>, i: nat)
    requires i < |bytes|
    ensures forall k: nat :: k < 8 ==> Bits(bytes)[8 * i + k] == (bytes[i] & [0x01, 0x02, 0x04, 0x08, 0x10, 0x20, 0x40, 0x80][k] != 0)
  {
    forall k: nat | k < 8
      ensures Bits(bytes)[8 * i + k] == (bytes[i] & [0x01, 0x02, 0x04, 0x08, 0x10, 0x20, 0x40, 0x80][k] != 0)
    {
      assert (8 * i + k) / 8 == i && (8 * i + k) % 8 == k;
      ShiftIsMask(k);
    }
  }

  lemma BitChanged(bytes: seq<bv8>, bit: nat, value: bool)
    requires bit < 8 * |bytes|
    ensures Bits(bytes[bit / 8 := WithBit(bytes[bit / 8], bit % 8, value)]) == Bits(bytes)[bit := value]
  {
    var after := bytes[bit / 8 := WithBit(bytes[bit / 8], bit % 8, value)];
    forall k | 0 <= k < 8 * |bytes| ensures BitAt(after, k) == Bits(bytes)[bit := value][k] {
      if k / 8 == bit / 8 {
        WithBitSets(bytes[bit / 8], bit % 8, value, k % 8);
      }
    }
  }

  /** `set_bitmap_bit`. */
  method SetBitmapBit(bytes: array<bv8>, bit: nat, value: bool)
    requires bit < 8 * bytes.Length
    modifies bytes
    ensures Bits(bytes[..]) == Bits(old(bytes[..]))[bit := value]
  {
    BitChanged(bytes[..], bit, value);
    hide Bits, BitAt, WithBit;
    var bytePos, bitInByte := bit / 8, bit % 8;
    bytes[bytePos] := WithBit(bytes[bytePos], bitInByte, value);
    assert bytes[..] == old(bytes[..])[bit / 8 := WithBit(old(bytes[..])[bit / 8], bit % 8, value)];
  }

  /** One of the two scans of `find_and_alloc_bit_from`: the first clear bit in [from, to) is set. */
  method FindIn(bytes: array<bv8>, from: nat, to: nat) returns (found: Option<nat>)
    requires from <= to <= 8 * bytes.Length
    modifies bytes
    ensures found.None? ==> bytes[..] == old(bytes[..]) && forall k :: from <= k < to ==> Bits(bytes[..])[k]
    ensures found.Some? ==>
              && from <= found.value < to && !old(Bits(bytes[..]))[found.value]
              && (forall k :: from <= k < found.value ==> old(Bits(bytes[..]))[k])
              && Bits(bytes[..]) == old(Bits(bytes[..]))[found.value := true]
  {
    for bit := from to to
      invariant bytes[..] == old(bytes[..])
      invariant forall k :: from <= k < bit ==> Bits(bytes[..])[k]
    {
      var bytePos, bitInByte := bit / 8, bit % 8;
      assert Bits(bytes[..])[bit] == TestBit(bytes[bytePos], bitInByte);
      if bytes[bytePos] & ((1 as bv8) << bitInByte) == 0 {
        SetBitmapBit(bytes, bit, true);
        return Some(bit);
      }
    }
    return None;
  }

  /** The first `totalBits` bits are all set. */
  ghost predicate AllSet(bits: seq<bool>, totalBits: nat)
    requires totalBits <= |bits|
  {
    forall k :: 0 <= k < totalBits ==> bits[k]
  }

  /** `bit` is the first clear bit met by going from `start` to the end and then from 0 to `start`. */
  ghost predicate FirstClearFrom(bits: seq<bool>, start: nat, totalBits: nat, bit: nat)
    requires totalBits <= |bits|
  {
    && bit < totalBits && !bits[bit]
    && (start <= bit ==> forall k :: start <= k < bit ==> bits[k])
    && (bit < start ==> forall k :: 0 <= k < totalBits && (k < bit || start <= k) ==> bits[k])
  }

  /** `find_and_alloc_bit_from`. */
  method FindAndAllocBitFrom(bytes: array<bv8>, startBit: nat, totalBits: nat) returns (found: Option<nat>)
    requires totalBits <= 8 * bytes.Length
    modifies bytes
    ensures found.None? ==> bytes[..] == old(bytes[..]) && AllSet(Bits(bytes[..]), totalBits)
    ensures found.Some? ==>
              && FirstClearFrom(old(Bits(bytes[..])), Min(startBit, totalBits), totalBits, found.value)
              && Bits(bytes[..]) == old(Bits(bytes[..]))[found.value := true]
  {
    if totalBits == 0 {
      return None;
    }
    var start := Min(startBit, totalBits);
    found := FindIn(bytes, start, totalBits);
    if found.Some? {
      return;
    }
    found := FindIn(bytes, 0, start);
  }
}
