/** Machine-word bounds, bytes in little-endian order, and byte sequences that are overwritten: shared by the
    models of both file systems. */
module Common {

  const U16: nat := 0x1_0000
  const U32: nat := 0x1_0000_0000
  const U48: nat := 0x1_0000_0000_0000
  const U64: nat := 0x1_0000_0000_0000_0000

  datatype Option<T> = None | Some(value: T)

  function Saturating32(x: nat): (r: nat)
    ensures r < U32 && (x <= 0xffff_ffff ==> r == x) && (r < x ==> r == 0xffff_ffff)
  {
    if x < U32 then x else U32 - 1
  }

  function Saturating64(x: nat): (r: nat)
    ensures r < U64 && (x <= 0xffff_ffff_ffff_ffff ==> r == x) && (r < x ==> r == 0xffff_ffff_ffff_ffff)
  {
    if x < U64 then x else U64 - 1
  }

  function Min(a: nat, b: nat): nat {
    if a < b then a else b
  }

  function Max(a: nat, b: nat): nat {
    if a < b then b else a
  }

  type byte = n: nat | n < 256

  function Le16(n: nat): (b: seq<byte>)
    ensures |b| == 2
  {
    [n % 256, n / 256 % 256]
  }

  function Le32(n: nat): (b: seq<byte>)
    ensures |b| == 4
  {
    [n % 256, n / 256 % 256, n / 65536 % 256, n / 16777216 % 256]
  }

  function From16(b: seq<byte>): (n: nat)
    requires |b| == 2
    ensures n < U16
  {
    b[0] as nat + 256 * b[1] as nat
  }

  function From32(b: seq<byte>): (n: nat)
    requires |b| == 4
    ensures n < U32
  {
    b[0] as nat + 256 * b[1] as nat + 65536 * b[2] as nat + 16777216 * b[3] as nat
  }

  lemma Le16From16(n: nat)
    requires n < U16
    ensures From16(Le16(n)) == n
  {
  }

  lemma Le32From32(n: nat)
    requires n < U32
    ensures From32(Le32(n)) == n
  {
    assert n / 16777216 < 256;
    assert n / 65536 == 256 * (n / 16777216) + n / 65536 % 256;
    assert n / 256 == 256 * (n / 65536) + n / 256 % 256;
  }

  function Zeros(n: nat): (b: seq<byte>)
    ensures |b| == n && forall i :: 0 <= i < n ==> b[i] == 0
  {
    seq(n, i => 0)
  }

  /** Bytes written over part of a block. */
  function Splice(block: seq<byte>, off: nat, bytes: seq<byte>): (r: seq<byte>)
    requires off + |bytes| <= |block|
    ensures |r| == |block|
    ensures forall i :: 0 <= i < |r| ==> r[i] == if off <= i < off + |bytes| then bytes[i - off] else block[i]
  {
    block[..off] + bytes + block[off + |bytes|..]
  }

  /** What writing means for the bytes of a file: zeros in a gap, `buf` in its range, old bytes elsewhere. */
  function Overwritten(old_: seq<byte>, off: nat, buf: seq<byte>): (bytes: seq<byte>)
    ensures |bytes| == Max(|old_|, off + |buf|)
  {
    seq(Max(|old_|, off + |buf|), k requires 0 <= k < Max(|old_|, off + |buf|) =>
      if off <= k < off + |buf| then buf[k - off] else if k < |old_| then old_[k] else 0)
  }

  // Division

  lemma HalfFirst(w: nat, p: nat)
    requires p > 0
    ensures w / 2 / p == w / (2 * p)
  {
    var q, r := w / 2 / p, w / 2 % p;
    assert w == 2 * (w / 2) + w % 2 && w / 2 == p * q + r;
    assert w == (2 * p) * q + (2 * r + w % 2) by {
      assert 2 * (p * q) == (2 * p) * q;
    }
    QuotientIs(w, 2 * p, q, 2 * r + w % 2);
  }

  lemma QuotientIs(w: nat, d: nat, q: nat, r: nat)
    requires d > 0 && r < d && w == d * q + r
    ensures w / d == q
  {
    var q', r' := w / d, w % d;
    assert w == d * q' + r';
    if q' < q {
      assert d * q >= d * (q' + 1) by { ProductGrows(d, q' + 1, q); }
    } else if q < q' {
      assert d * q' >= d * (q + 1) by { ProductGrows(d, q + 1, q'); }
    }
  }

  lemma {:induction false} ProductGrows(d: nat, a: nat, b: nat)
    requires a <= b
    ensures d * a <= d * b
    decreases b
  {
    if a < b {
      ProductGrows(d, a, b - 1);
    }
  }
}
