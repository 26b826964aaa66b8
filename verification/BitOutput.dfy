/** `send_bits`: the compressed stream as a sequence of bits. */
module BitOutput {
  import opened Sums
  import opened HuffmanCodes

  const BUF_SIZE: nat := 32
  const WORD: nat := 0x1_0000_0000

  /** `x >> k`. */
  function ShiftRight(x: nat, k: nat): nat {
    if k == 0 then x else ShiftRight(x / 2, k - 1)
  }

  /** Splitting a value at bit k splits its bits. */
  lemma {:induction false} LsbSplit(x: nat, k: nat, len: nat)
    ensures LsbBits(x, k + len) == LsbBits(x, k) + LsbBits(ShiftRight(x, k), len)
  {
    if k != 0 {
      LsbSplit(x / 2, k - 1, len);
    }
  }

  /** `low | high << k` for a `low` of k bits. */
  function Above(low: nat, k: nat, high: nat): nat {
    if k == 0 then high else low % 2 + 2 * Above(low / 2, k - 1, high)
  }

  lemma {:induction false} AboveIsSum(low: nat, k: nat, high: nat)
    requires low < Pow2(k)
    ensures Above(low, k, high) == low + high * Pow2(k)
  {
    if k == 0 {
      assert high * Pow2(0) == high;
    } else {
      AboveIsSum(low / 2, k - 1, high);
      var p := Pow2(k - 1);
      assert high * (2 * p) == 2 * (high * p);
    }
  }

  lemma {:induction false} AboveBits(low: nat, k: nat, high: nat, len: nat)
    ensures LsbBits(Above(low, k, high), k + len) == LsbBits(low, k) + LsbBits(high, len)
    ensures ShiftRight(Above(low, k, high), k) == high
  {
    if k != 0 {
      AboveBits(low / 2, k - 1, high, len);
    }
  }

  lemma DivUnique(x: nat, d: nat, q: nat, r: nat)
    requires d > 0 && r < d && x == q * d + r
    ensures x / d == q && x % d == r
  {
    Division(x, d);
    if x / d > q {
      StrictStep(q, x / d, d);
    } else if x / d < q {
      StrictStep(x / d, q, d);
    }
  }

  lemma Division(x: nat, d: nat)
    requires d > 0
    ensures x == x / d * d + x % d && x % d < d
  {
  }

  lemma StrictStep(a: nat, b: nat, d: nat)
    requires a < b
    ensures a * d + d <= b * d
  {
    Grows(a + 1, b, d);
    Distributes(a, 1, d);
  }

  /** Dividing by 2p is halving and dividing by p. */
  lemma HalveDivMod(x: nat, p: nat)
    requires p > 0
    ensures x / (2 * p) == x / 2 / p && x % (2 * p) == 2 * (x / 2 % p) + x % 2
  {
    var q, r := x / 2 / p, x / 2 % p;
    Division(x / 2, p);
    assert q * (2 * p) == 2 * (q * p);
    DivUnique(x, 2 * p, q, 2 * r + x % 2);
  }

  lemma {:induction false} ShiftIsDivision(x: nat, k: nat)
    ensures ShiftRight(x, k) == x / Pow2(k)
  {
    if k != 0 {
      ShiftIsDivision(x / 2, k - 1);
      HalveDivMod(x, Pow2(k - 1));
    } else {
      assert Pow2(0) == 1;
    }
  }

  lemma {:induction false} LowBits(x: nat, k: nat)
    ensures LsbBits(x % Pow2(k), k) == LsbBits(x, k)
  {
    if k != 0 {
      LowBits(x / 2, k - 1);
      HalveDivMod(x, Pow2(k - 1));
    }
  }

  lemma {:induction false} ShiftAgain(x: nat, j: nat, k: nat)
    ensures ShiftRight(x, j + k) == ShiftRight(ShiftRight(x, j), k)
  {
    if j != 0 {
      ShiftAgain(x / 2, j - 1, k);
    }
  }

  lemma {:induction false} ShiftFits(x: nat, k: nat, len: nat)
    requires x < Pow2(k + len)
    ensures ShiftRight(x, k) < Pow2(len)
  {
    if k != 0 {
      assert Pow2(k + len) == 2 * Pow2(k - 1 + len);
      ShiftFits(x / 2, k - 1, len);
    }
  }

  lemma Pow2Values()
    ensures Pow2(8) == 0x100 && Pow2(16) == 0x1_0000 && Pow2(32) == WORD
  {
    assert Pow2(4) == 16;
    Pow2Add(4, 4);
    Pow2Add(8, 8);
    Pow2Add(16, 16);
  }

  function BytesBits(bytes: seq<nat>): seq<bool> {
    if bytes == [] then [] else BytesBits(bytes[..|bytes| - 1]) + LsbBits(bytes[|bytes| - 1], 8)
  }

  /** Bits are packed into bytes from the low end: bit 8 i + k of the stream is the digit of byte i that counts 2^k. */
  lemma {:induction false} BitInByte(bytes: seq<nat>, i: nat, k: nat)
    requires i < |bytes| && k < 8
    ensures |BytesBits(bytes)| == 8 * |bytes| && (BytesBits(bytes)[8 * i + k] <==> Digit(bytes[i], k) == 1)
    decreases |bytes|
  {
    hide LsbBits, Digit;
    var n := |bytes| - 1;
    var before := bytes[..n];
    if i < n {
      BitInByte(before, i, k);
      assert BytesBits(bytes)[8 * i + k] == BytesBits(before)[8 * i + k];
    } else {
      BytesLength(before);
      DigitSent(bytes[n], 8, k);
      assert BytesBits(bytes)[8 * n + k] == LsbBits(bytes[n], 8)[k];
    }
  }

  lemma {:induction false} BytesLength(bytes: seq<nat>)
    ensures |BytesBits(bytes)| == 8 * |bytes|
  {
    if bytes != [] {
      BytesLength(bytes[..|bytes| - 1]);
    }
  }

  lemma DigitSent(v: nat, len: nat, k: nat)
    requires k < len
    ensures LsbBits(v, len)[k] <==> Digit(v, k) == 1
  {
    LsbBitAt(v, len, k);
  }

  lemma BytesBitsPut(bytes: seq<nat>, b: nat)
    ensures BytesBits(bytes + [b]) == BytesBits(bytes) + LsbBits(b, 8)
  {
    assert (bytes + [b])[..|bytes + [b]| - 1] == bytes;
  }

  /** The output part of `globals`: bytes put out so far, and the bits that wait for a full word. */
  class BitWriter {
    var out: seq<nat>
    var biBuf: nat
    var biValid: nat

    constructor ()
      ensures Valid() && Bits() == []
    {
      out, biBuf, biValid := [], 0, 0;
    }

    ghost predicate Valid()
      reads this
    {
      biValid < BUF_SIZE && biBuf < Pow2(biValid)
    }

    /** The stream as bits: every byte lowest bit first, then the waiting bits. */
    ghost function Bits(): seq<bool>
      reads this
    {
      BytesBits(out) + LsbBits(biBuf, biValid)
    }

    method Put8bit(c: nat)
      modifies this`out
      ensures BytesBits(out) == BytesBits(old(out)) + LsbBits(c % 0x100, 8)
    {
      BytesBitsPut(out, c % 0x100);
      out := out + [c % 0x100];
    }

    /** `put_16bit`: low byte first. */
    method Put16bit(w: nat)
      requires w < 0x1_0000
      modifies this`out
      ensures BytesBits(out) == BytesBits(old(out)) + LsbBits(w, 16)
    {
      hide LsbBits, Pow2, ShiftRight, BytesBits;
      Pow2Values();
      LsbSplit(w, 8, 8);
      LowBits(w, 8);
      ShiftIsDivision(w, 8);
      Put8bit(w);
      Put8bit(w / 0x100);
    }

    /** `put_32bit`: low half first. */
    method Put32bit(n: nat)
      requires n < WORD
      modifies this`out
      ensures BytesBits(out) == BytesBits(old(out)) + LsbBits(n, 32)
    {
      hide LsbBits, Pow2, ShiftRight, BytesBits;
      Pow2Values();
      LsbSplit(n, 16, 16);
      LowBits(n, 16);
      ShiftIsDivision(n, 16);
      Put16bit(n % 0x1_0000);
      Put16bit(n / 0x1_0000);
    }

    /** `send_bits`: append `length` bits of `value`, lowest first. The `|` into the buffer is a sum,
        since the waiting bits lie below the new ones; it is cut to the 32 bits of the buffer. */
    method SendBits(value: nat, length: nat)
      requires Valid() && 1 <= length <= 16 && value < Pow2(length)
      modifies this
      ensures Valid() && Bits() == old(Bits()) + LsbBits(value, length)
    {
      hide LsbBits, Pow2, ShiftRight, BytesBits, Above;
      ghost var whole := biBuf + value * Pow2(biValid);
      AboveIsSum(biBuf, biValid, value);
      AboveBits(biBuf, biValid, value, length);
      WholeFits(biBuf, biValid, value, length);
      var newBuf := (biBuf + value * Pow2(biValid)) % WORD;
      var total := length + biValid;
      var rest := value;
      WordCut(whole, total);
      if total >= BUF_SIZE {
        ShiftAgain(whole, biValid, BUF_SIZE - biValid);
        rest := ShiftRight(rest, BUF_SIZE - biValid);
        Put32bit(newBuf);
        newBuf := rest;
        total := total - BUF_SIZE;
      }
      ghost var before := BytesBits(old(out));
      assert before + LsbBits(old(biBuf), old(biValid)) + LsbBits(value, length)
          == before + (LsbBits(old(biBuf), old(biValid)) + LsbBits(value, length));
      biBuf, biValid := newBuf, total;
    }
  }

  lemma WholeFits(low: nat, k: nat, high: nat, len: nat)
    requires low < Pow2(k) && high < Pow2(len)
    ensures low + high * Pow2(k) < Pow2(k + len)
  {
    Pow2Add(k, len);
    StrictStep(high, Pow2(len), Pow2(k));
  }

  /** Cutting the buffer to 32 bits loses exactly the bits above them. */
  lemma WordCut(whole: nat, total: nat)
    requires whole < Pow2(total)
    ensures total < BUF_SIZE ==> whole % WORD == whole
    ensures total >= BUF_SIZE ==>
              && LsbBits(whole, total) == LsbBits(whole % WORD, 32) + LsbBits(ShiftRight(whole, 32), total - 32)
              && ShiftRight(whole, 32) < Pow2(total - 32)
  {
    hide LsbBits, Pow2, ShiftRight;
    Pow2Values();
    if total < BUF_SIZE {
      Pow2Monotone(total, 32);
    } else {
      LsbSplit(whole, 32, total - 32);
      LowBits(whole, 32);
      ShiftFits(whole, 32, total - 32);
    }
  }
}
