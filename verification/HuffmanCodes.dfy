/** `gen_codes` and `bi_reverse`: canonical codes from code lengths (RFC 1951, section 3.2.2). */
module HuffmanCodes {
  import opened Common
  import opened Sums
  import opened HuffmanBitLengths

  /** The `len` low bits of a value, most significant first: how Huffman codes read. */
  function MsbBits(value: nat, len: nat): (bits: seq<bool>)
    ensures |bits| == len
  {
    if len == 0 then [] else MsbBits(value / 2, len - 1) + [value % 2 == 1]
  }

  /** The `len` low bits of a value, least significant first: how `send_bits` emits them. */
  function LsbBits(value: nat, len: nat): (bits: seq<bool>)
    ensures |bits| == len
  {
    if len == 0 then [] else [value % 2 == 1] + LsbBits(value / 2, len - 1)
  }

  lemma {:induction false} LsbBitAt(v: nat, len: nat, k: nat)
    requires k < len
    ensures LsbBits(v, len)[k] <==> v / Pow2(k) % 2 == 1
    decreases k
  {
    if k > 0 {
      LsbBitAt(v / 2, len - 1, k - 1);
      HalfFirst(v, Pow2(k - 1));
    }
  }

  lemma {:induction false} MsbBitAt(v: nat, len: nat, k: nat)
    requires k < len
    ensures MsbBits(v, len)[len - 1 - k] <==> v / Pow2(k) % 2 == 1
    decreases k
  {
    if k > 0 {
      MsbBitAt(v / 2, len - 1, k - 1);
      HalfFirst(v, Pow2(k - 1));
    }
  }

  /** The `len` binary digits of a value in the opposite order. */
  ghost predicate Reversed(code: nat, value: nat, len: nat) {
    code < Pow2(len) && forall k: nat :: k < len ==> Digit(code, k) == Digit(value, len - 1 - k)
  }

  /** The binary digit that counts 2^k. */
  function Digit(v: nat, k: nat): nat {
    v / Pow2(k) % 2
  }

  /** Sent from its low bit, a reversed value appears from its high bit. */
  lemma ReversedBits(code: nat, value: nat, len: nat)
    requires code < Pow2(len)
    ensures Reversed(code, value, len) <==> LsbBits(code, len) == MsbBits(value, len)
  {
    var a, b := LsbBits(code, len), MsbBits(value, len);
    forall k: nat | k < len ensures a[k] == b[k] <==> Digit(code, k) == Digit(value, len - 1 - k) {
      LsbBitAt(code, len, k);
      MsbBitAt(value, len, len - 1 - k);
    }
    if a == b {
      forall k: nat | k < len ensures Digit(code, k) == Digit(value, len - 1 - k) {
        assert a[k] == b[k];
      }
    }
    if Reversed(code, value, len) {
      forall k: nat | k < len ensures a[k] == b[k] {
        assert Digit(code, k) == Digit(value, len - 1 - k);
      }
    }
  }

  /** Step 2 of RFC 1951, section 3.2.2: the smallest code of each length. */
  function FirstCode(counts: seq<nat>, b: nat): nat
    requires b <= |counts|
  {
    if b == 0 then 0 else 2 * (FirstCode(counts, b - 1) + counts[b - 1])
  }

  /** Step 3: symbols of equal length get consecutive codes in symbol order. */
  function CanonicalCode(lens: seq<nat>, counts: seq<nat>, n: nat): nat
    requires n < |lens| && lens[n] <= |counts|
  {
    FirstCode(counts, lens[n]) + Count(lens[..n], lens[n])
  }

  lemma {:induction false} SameBitsSameValue(a: nat, b: nat, len: nat)
    requires a < Pow2(len) && b < Pow2(len) && MsbBits(a, len) == MsbBits(b, len)
    ensures a == b
  {
    if len != 0 {
      var x, y := MsbBits(a, len), MsbBits(b, len);
      assert x[..len - 1] == MsbBits(a / 2, len - 1) && y[..len - 1] == MsbBits(b / 2, len - 1);
      assert x[len - 1] == y[len - 1];
      SameBitsSameValue(a / 2, b / 2, len - 1);
    }
  }

  /** A code that starts with the bits of another lies in the interval of codes that the other spans. */
  lemma {:induction false} PrefixInterval(a: nat, la: nat, b: nat, lb: nat)
    requires a < Pow2(la) && b < Pow2(lb) && la <= lb
    requires MsbBits(a, la) <= MsbBits(b, lb)
    ensures b < (a + 1) * Pow2(lb - la)
    decreases lb
  {
    if la == lb {
      SameBitsSameValue(a, b, la);
    } else {
      assert MsbBits(b, lb)[..lb - 1] == MsbBits(b / 2, lb - 1);
      PrefixInterval(a, la, b / 2, lb - 1);
      assert (a + 1) * Pow2(lb - la) == 2 * ((a + 1) * Pow2(lb - 1 - la)) by {
        assert Pow2(lb - la) == 2 * Pow2(lb - 1 - la);
      }
    }
  }

  /** In units of 2^-top, the codes shorter than b fill exactly the space below the first code of length b. */
  lemma {:induction false} FirstCodeSpace(counts: seq<nat>, b: nat, top: nat)
    requires 1 <= b <= top < |counts| && counts[0] == 0
    ensures FirstCode(counts, b) * Pow2(top - b) == KraftOfCounts(counts, top, b - 1)
  {
    if b == 1 {
      assert FirstCode(counts, 1) == 2 * (FirstCode(counts, 0) + counts[0]);
    } else {
      FirstCodeSpace(counts, b - 1, top);
      var f, c, p := FirstCode(counts, b - 1), counts[b - 1], Pow2(top - b);
      assert Pow2(top - (b - 1)) == 2 * p == Weight(b - 1, top);
      assert 2 * (f + c) * p == f * (2 * p) + c * (2 * p);
    }
  }

  lemma {:induction false} KraftOfCountsGrows(counts: seq<nat>, max: nat, a: nat, b: nat)
    requires a <= b < |counts|
    ensures KraftOfCounts(counts, max, a) <= KraftOfCounts(counts, max, b)
    decreases b
  {
    if a < b {
      KraftOfCountsGrows(counts, max, a, b - 1);
    }
  }

  lemma {:induction false} CountPrefix(s: seq<nat>, v: nat, i: nat, j: nat)
    requires i <= j <= |s|
    ensures Count(s[..i], v) <= Count(s[..j], v)
    decreases j
  {
    if i < j {
      CountPrefix(s, v, i, j - 1);
      assert s[..j][..j - 1] == s[..j - 1];
    }
  }

  lemma CountNext(s: seq<nat>, v: nat, i: nat)
    requires i < |s|
    ensures Count(s[..i + 1], v) == Count(s[..i], v) + if s[i] == v then 1 else 0
  {
    assert s[..i + 1][..i] == s[..i];
  }

  /** The lengths, their histogram, and a Kraft sum of at most 1. */
  ghost predicate Codable(lens: seq<nat>, counts: seq<nat>) {
    && Histogram(counts, lens)
    && (forall x: nat :: x < |lens| ==> lens[x] <= MAX_BITS)
    && Kraft(lens, MAX_BITS) <= Pow2(MAX_BITS)
  }

  /** The space of a code, in units of 2^-15, ends no later than that of all codes up to its length. */
  lemma CodeSpace(lens: seq<nat>, counts: seq<nat>, n: nat)
    requires Codable(lens, counts) && n < |lens| && lens[n] != 0
    ensures var b, code := lens[n], CanonicalCode(lens, counts, n);
            && KraftOfCounts(counts, MAX_BITS, b - 1) <= code * Pow2(MAX_BITS - b)
            && (code + 1) * Pow2(MAX_BITS - b) <= KraftOfCounts(counts, MAX_BITS, b)
  {
    var b, code := lens[n], CanonicalCode(lens, counts, n);
    FirstCodeSpace(counts, b, MAX_BITS);
    CountNext(lens, b, n);
    CountPrefix(lens, b, n + 1, |lens|);
    assert lens[..|lens|] == lens;
    Between(FirstCode(counts, b), code, counts[b], Pow2(MAX_BITS - b));
  }

  lemma Between(first: nat, code: nat, count: nat, w: nat)
    requires first <= code < first + count
    ensures first * w <= code * w && (code + 1) * w <= first * w + count * w
  {
    Grows(first, code, w);
    Grows(code + 1, first + count, w);
    Distributes(first, count, w);
  }

  lemma Distributes(a: nat, b: nat, w: nat)
    ensures (a + b) * w == a * w + b * w
  {
  }

  lemma {:induction false} Grows(a: nat, b: nat, w: nat)
    requires a <= b
    ensures a * w <= b * w
    decreases b
  {
    if a < b {
      Grows(a, b - 1, w);
      Distributes(b - 1, 1, w);
    }
  }

  lemma StrictProduct(b: nat, a: nat, w: nat)
    requires b < a && w > 0
    ensures b * w < a * w
  {
    Grows(b + 1, a, w);
    Distributes(b, 1, w);
  }

  lemma Cancel(a: nat, b: nat, w: nat)
    requires a * w <= b * w && w > 0
    ensures a <= b
  {
    if a > b {
      StrictProduct(b, a, w);
    }
  }

  lemma Regroup(x: nat, p: nat, w: nat)
    ensures x * (p * w) == (x * p) * w
  {
  }

  /** Each canonical code fits its length. */
  lemma CodeFits(lens: seq<nat>, counts: seq<nat>, n: nat)
    requires Codable(lens, counts) && n < |lens| && lens[n] != 0
    ensures CanonicalCode(lens, counts, n) < Pow2(lens[n])
  {
    hide CanonicalCode, FirstCode, Count, Kraft, KraftOfCounts, Pow2;
    var b, code := lens[n], CanonicalCode(lens, counts, n);
    CodeSpace(lens, counts, n);
    KraftByCounts(lens, counts, MAX_BITS, MAX_BITS);
    KraftOfCountsGrows(counts, MAX_BITS, b, MAX_BITS);
    Pow2Add(b, MAX_BITS - b);
    Cancel(code + 1, Pow2(b), Pow2(MAX_BITS - b));
  }

  lemma EqualLengthsDiffer(lens: seq<nat>, counts: seq<nat>, m: nat, n: nat)
    requires m < n < |lens| && lens[m] == lens[n] <= |counts|
    ensures CanonicalCode(lens, counts, m) < CanonicalCode(lens, counts, n)
  {
    CountNext(lens, lens[m], m);
    CountPrefix(lens, lens[m], m + 1, n);
  }

  /** The interval of a shorter code ends before any longer code begins. */
  lemma ShorterPrecedes(lens: seq<nat>, counts: seq<nat>, m: nat, n: nat)
    requires Codable(lens, counts) && m < |lens| && n < |lens| && 0 < lens[m] < lens[n]
    ensures (CanonicalCode(lens, counts, m) + 1) * Pow2(lens[n] - lens[m]) <= CanonicalCode(lens, counts, n)
  {
    var a, la, b, lb := CanonicalCode(lens, counts, m), lens[m], CanonicalCode(lens, counts, n), lens[n];
    CodeSpace(lens, counts, m);
    CodeSpace(lens, counts, n);
    KraftOfCountsGrows(counts, MAX_BITS, la, lb - 1);
    SplitSpace(a + 1, la, lb, b);
  }

  lemma SplitSpace(x: nat, la: nat, lb: nat, b: nat)
    requires la <= lb <= MAX_BITS
    requires x * Pow2(MAX_BITS - la) <= b * Pow2(MAX_BITS - lb)
    ensures x * Pow2(lb - la) <= b
  {
    hide *;
    Pow2Add(lb - la, MAX_BITS - lb);
    assert lb - la + (MAX_BITS - lb) == MAX_BITS - la;
    Regroup(x, Pow2(lb - la), Pow2(MAX_BITS - lb));
    Cancel(x * Pow2(lb - la), b, Pow2(MAX_BITS - lb));
  }

  /** No canonical code is the beginning of another: the code can be decoded bit by bit. */
  lemma PrefixFree(lens: seq<nat>, counts: seq<nat>, m: nat, n: nat)
    requires Codable(lens, counts) && m < |lens| && n < |lens| && m != n
    requires 0 < lens[m] <= lens[n]
    ensures !(MsbBits(CanonicalCode(lens, counts, m), lens[m]) <= MsbBits(CanonicalCode(lens, counts, n), lens[n]))
  {
    assert |counts| == MAX_BITS + 1 && lens[n] <= MAX_BITS;
    hide CanonicalCode, Codable;
    var a, la, b, lb := CanonicalCode(lens, counts, m), lens[m], CanonicalCode(lens, counts, n), lens[n];
    CodeFits(lens, counts, m);
    CodeFits(lens, counts, n);
    if MsbBits(a, la) <= MsbBits(b, lb) {
      PrefixInterval(a, la, b, lb);
      if la < lb {
        ShorterPrecedes(lens, counts, m, n);
      } else {
        SameBitsSameValue(a, b, la);
        EqualLengthsDiffer(lens, counts, if m < n then m else n, if m < n then n else m);
      }
    }
  }

  /** `bi_reverse`; `|` and the shifts are written as the arithmetic they are on these operands. */
  method BiReverse(code: nat, len: nat) returns (res: nat)
    requires len >= 1
    ensures Reversed(res, code, len)
  {
    var c, l := code, len;
    res := 0;
    ghost var done := 0;
    while true
      invariant res == 2 * done && 1 <= l <= len && done < Pow2(len - l)
      invariant MsbBits(c, l) + LsbBits(done, len - l) == MsbBits(code, len)
      decreases l
    {
      assert MsbBits(c, l) + LsbBits(done, len - l) == MsbBits(c / 2, l - 1) + ([c % 2 == 1] + LsbBits(done, len - l));
      res := res + c % 2;
      assert LsbBits(res, len - l + 1) == [c % 2 == 1] + LsbBits(done, len - l);
      l := l - 1;
      if l <= 0 {
        ReversedBits(res, code, len);
        return;
      }
      c := c / 2;
      done := res;
      res := res * 2;
    }
  }

  /** The stored code of symbol x is its canonical code, with the digits reversed. */
  ghost predicate CodeStored(lens: seq<nat>, counts: seq<nat>, code: nat, x: nat)
    requires x < |lens| && lens[x] <= |counts|
  {
    Reversed(code, CanonicalCode(lens, counts, x), lens[x])
  }

  /** Every symbol with a length has its canonical code stored. */
  ghost predicate AllStored(lens: seq<nat>, counts: seq<nat>, codes: seq<nat>) {
    |lens| <= |codes| && forall x: nat :: x < |lens| && lens[x] != 0 ==> lens[x] <= |counts| && CodeStored(lens, counts, codes[x], x)
  }

  /** Before symbol n, the next code of length b follows those of the earlier symbols of that length. */
  ghost predicate NextCodes(nextCode: seq<nat>, lens: seq<nat>, counts: seq<nat>, n: nat)
    requires n <= |lens|
  {
    && |nextCode| == |counts| == MAX_BITS + 1
    && forall b :: 1 <= b <= MAX_BITS ==> nextCode[b] == FirstCode(counts, b) + Count(lens[..n], b)
  }

  lemma NextCodesStep(nextCode: seq<nat>, lens: seq<nat>, counts: seq<nat>, n: nat)
    requires n < |lens| && NextCodes(nextCode, lens, counts, n) && lens[n] <= MAX_BITS
    ensures |nextCode| == |counts| == MAX_BITS + 1
    ensures lens[n] != 0 ==> nextCode[lens[n]] == CanonicalCode(lens, counts, n)
    ensures NextCodes(if lens[n] != 0 then nextCode[lens[n] := nextCode[lens[n]] + 1] else nextCode, lens, counts, n + 1)
  {
    forall b: nat {:trigger Count(lens[..n + 1], b)} | 1 <= b <= MAX_BITS
      ensures Count(lens[..n + 1], b) == Count(lens[..n], b) + if lens[n] == b then 1 else 0 {
      CountNext(lens, b, n);
    }
  }

  /** `gen_codes`: every symbol with a length gets its canonical code, the others keep what they have. */
  method GenCodes(codes: array<nat>, dl: array<nat>, blCount: array<nat>, maxCode: int)
    requires codes != dl && codes != blCount && codes.Length == dl.Length && blCount.Length == MAX_BITS + 1
    requires -1 <= maxCode < dl.Length
    requires forall x :: 0 <= x <= maxCode ==> dl[x] <= MAX_BITS
    modifies codes
    ensures AllStored(dl[..maxCode + 1], blCount[..], codes[..])
    ensures forall x: nat :: x < codes.Length && (x > maxCode || dl[x] == 0) ==> codes[x] == old(codes[x])
  {
    hide CodeStored, NextCodes, FirstCode, MsbBits, LsbBits;
    ghost var lens, counts := dl[..maxCode + 1], blCount[..];
    var nextCode := FirstCodes(blCount, lens);
    var n: int := 0;
    while n <= maxCode
      invariant 0 <= n <= maxCode + 1
      invariant lens == dl[..maxCode + 1]
      invariant NextCodes(nextCode, lens, counts, n)
      invariant forall x: nat :: x < n && lens[x] != 0 ==> CodeStored(lens, counts, codes[x], x)
      invariant forall x: nat :: x < codes.Length && (x >= n || dl[x] == 0) ==> codes[x] == old(codes[x])
    {
      var len := dl[n];
      assert len == lens[n];
      NextCodesStep(nextCode, lens, counts, n);
      if len != 0 {
        codes[n] := StoredCode(nextCode[len], len, lens, counts, n);
        nextCode := nextCode[len := nextCode[len] + 1];
      }
      n := n + 1;
    }
    assert counts == blCount[..];
  }

  method StoredCode(code: nat, len: nat, ghost lens: seq<nat>, ghost counts: seq<nat>, ghost n: nat) returns (c: nat)
    requires n < |lens| && 1 <= len == lens[n] <= |counts| && code == CanonicalCode(lens, counts, n)
    ensures CodeStored(lens, counts, c, n)
  {
    c := BiReverse(code, len);
  }

  /** The first loop of `gen_codes`. */
  method FirstCodes(blCount: array<nat>, ghost lens: seq<nat>) returns (nextCode: seq<nat>)
    requires blCount.Length == MAX_BITS + 1
    ensures NextCodes(nextCode, lens, blCount[..], 0)
  {
    nextCode := seq(MAX_BITS + 1, _ => 0);
    var code := 0;
    for bits := 1 to MAX_BITS + 1
      invariant |nextCode| == MAX_BITS + 1
      invariant code == FirstCode(blCount[..], bits - 1)
      invariant forall b :: 1 <= b < bits ==> nextCode[b] == FirstCode(blCount[..], b)
    {
      code := (code + blCount[bits - 1]) * 2;
      nextCode := nextCode[bits := code];
    }
  }
}
