/** The codes that `gen_codes` stores are those of RFC 1951, and a receiver by the standard reads them. */
module HuffmanStandard {
  import opened Common
  import opened Sums
  import opened HuffmanBitLengths
  import opened HuffmanCodes
  import Rfc = Rfc1951

  lemma {:induction false} PowerIs(n: nat)
    ensures Rfc.Power(n) == Pow2(n)
  {
    if n > 0 {
      PowerIs(n - 1);
    }
  }

  /** What codes shorter than b take, among the first `upto` symbols, counted in codes of length b. */
  ghost function Shorter(lens: seq<nat>, b: nat, upto: nat): nat
    requires upto <= |lens|
  {
    if upto == 0 then 0
    else Shorter(lens, b, upto - 1) + if 0 < lens[upto - 1] < b then Pow2(b - lens[upto - 1]) else 0
  }

  lemma {:induction false} ShorterDoubles(lens: seq<nat>, b: nat, upto: nat)
    requires upto <= |lens| && b > 0
    ensures Shorter(lens, b + 1, upto) == 2 * (Shorter(lens, b, upto) + Count(lens[..upto], b))
    decreases upto
  {
    if upto > 0 {
      ShorterDoubles(lens, b, upto - 1);
      CountNext(lens, b, upto - 1);
      var len := lens[upto - 1];
      if 0 < len <= b {
        assert Pow2(b + 1 - len) == 2 * Pow2(b - len);
        assert Pow2(0) == 1;
      }
    }
  }

  lemma {:induction false} NoneShorter(lens: seq<nat>, upto: nat)
    requires upto <= |lens|
    ensures Shorter(lens, 1, upto) == 0
  {
    if upto > 0 {
      NoneShorter(lens, upto - 1);
    }
  }

  lemma {:induction false} FirstCodeIs(lens: seq<nat>, counts: seq<nat>, b: nat)
    requires Histogram(counts, lens) && 1 <= b <= MAX_BITS
    ensures FirstCode(counts, b) == Shorter(lens, b, |lens|)
  {
    assert lens[..|lens|] == lens;
    if b == 1 {
      NoneShorter(lens, |lens|);
      assert FirstCode(counts, 0) == 0;
    } else {
      FirstCodeIs(lens, counts, b - 1);
      ShorterDoubles(lens, b - 1, |lens|);
    }
  }

  lemma {:induction false} TakenIs(lens: seq<nat>, n: nat, upto: nat)
    requires n < |lens| && upto <= |lens| && lens[n] != 0
    ensures Rfc.Taken(lens, n, upto) == Shorter(lens, lens[n], upto) + Count(lens[..Min(upto, n)], lens[n])
    decreases upto
  {
    if upto > 0 {
      TakenIs(lens, n, upto - 1);
      if lens[upto - 1] <= lens[n] {
        PowerIs(lens[n] - lens[upto - 1]);
      }
      if upto <= n {
        CountNext(lens, lens[n], upto - 1);
      }
    }
  }

  /** The source's recurrence and the standard's rules give the same codes. */
  lemma CodeIs(lens: seq<nat>, counts: seq<nat>, n: nat)
    requires Histogram(counts, lens) && n < |lens| && 0 < lens[n] <= MAX_BITS
    ensures CanonicalCode(lens, counts, n) == Rfc.Code(lens, n)
  {
    TakenIs(lens, n, |lens|);
    FirstCodeIs(lens, counts, lens[n]);
  }

  /** Every symbol in use has its code by the standard, the digits reversed for sending from the low bit. */
  ghost predicate Standard(codes: seq<nat>, lens: seq<nat>) {
    && |lens| <= |codes| && (forall x :: 0 <= x < |lens| ==> lens[x] <= 15)
    && Kraft(lens, 15) <= Pow2(15)
    && forall x: nat :: x < |lens| && lens[x] != 0 ==> Reversed(codes[x], Rfc.Code(lens, x), lens[x])
  }

  /** How many codes there are of each length. */
  function Counts(lens: seq<nat>): (counts: seq<nat>)
    ensures Histogram(counts, lens)
  {
    seq(MAX_BITS + 1, b requires 0 <= b <= MAX_BITS => if b == 0 then 0 else Count(lens, b))
  }

  lemma StandardCodable(codes: seq<nat>, lens: seq<nat>)
    requires Standard(codes, lens)
    ensures Codable(lens, Counts(lens))
  {
    hide Kraft, Pow2, Counts, Reversed;
  }

  /** What `gen_codes` stores for lengths, some of whose last ones may be zero, is the standard's code. */
  lemma StoredIsStandard(lens: seq<nat>, m: nat, counts: seq<nat>, codes: seq<nat>)
    requires m <= |lens| <= |codes| && AllStored(lens[..m], counts, codes) && Codable(lens, counts)
    requires forall x: nat :: m <= x < |lens| ==> lens[x] == 0
    ensures Standard(codes, lens)
  {
    hide Kraft, Pow2, Reversed, CanonicalCode;
    forall x: nat | x < |lens| && lens[x] != 0 ensures Reversed(codes[x], Rfc.Code(lens, x), lens[x]) {
      assert lens[..m][x] == lens[x];
      assert CodeStored(lens[..m], counts, codes[x], x);
      CodeOfPrefix(lens, m, counts, x);
      CodeIs(lens, counts, x);
    }
  }

  lemma CodeOfPrefix(lens: seq<nat>, m: nat, counts: seq<nat>, x: nat)
    requires x < m <= |lens| && lens[x] <= |counts|
    ensures lens[..m][x] == lens[x] && CanonicalCode(lens[..m], counts, x) == CanonicalCode(lens, counts, x)
  {
    assert lens[..m][..x] == lens[..x];
  }

  // Reading a symbol

  lemma {:induction false} NoSymbol(lens: seq<nat>, len: nat, code: nat, from: nat)
    requires from <= |lens| && forall m: nat :: m < |lens| && lens[m] == len ==> Rfc.Code(lens, m) != code
    ensures Rfc.SymbolOf(lens, len, code, from) == |lens|
    decreases |lens| - from
  {
    hide Rfc.Code;
    if from < |lens| {
      NoSymbol(lens, len, code, from + 1);
    }
  }

  lemma {:induction false} OnlyOne(lens: seq<nat>, s: nat, from: nat)
    requires from <= s < |lens|
    requires forall m: nat :: m < |lens| && m != s && lens[m] == lens[s] ==> Rfc.Code(lens, m) != Rfc.Code(lens, s)
    ensures Rfc.SymbolOf(lens, lens[s], Rfc.Code(lens, s), from) == s
    decreases s - from
  {
    hide Rfc.Code;
    if from < s {
      OnlyOne(lens, s, from + 1);
    }
  }

  /** A value without its n last digits. */
  function Lead(v: nat, n: nat): nat {
    if n == 0 then v else Lead(v / 2, n - 1)
  }

  lemma {:induction false} LeadHalf(v: nat, n: nat)
    ensures Lead(v, n + 1) == Lead(v, n) / 2
  {
    if n > 0 {
      LeadHalf(v / 2, n - 1);
    }
  }

  lemma {:induction false} LeadBounds(v: nat, n: nat)
    ensures v < (Lead(v, n) + 1) * Pow2(n)
  {
    if n > 0 {
      LeadBounds(v / 2, n - 1);
      Doubled(Lead(v, n) + 1, Pow2(n - 1), v);
    } else {
      assert Pow2(0) == 1;
    }
  }

  lemma Doubled(a: nat, p: nat, v: nat)
    requires v / 2 < a * p
    ensures v < a * (2 * p)
  {
    assert a * (2 * p) == 2 * (a * p);
  }

  lemma {:induction false} NoLead(v: nat, n: nat)
    requires v < Pow2(n)
    ensures Lead(v, n) == 0
  {
    if n > 0 {
      NoLead(v / 2, n - 1);
    }
  }

  lemma {:induction false} MsbBitIs(v: nat, len: nat, n: nat)
    requires n < len
    ensures MsbBits(v, len)[len - 1 - n] <==> Lead(v, n) % 2 == 1
    decreases n
  {
    if n > 0 {
      MsbBitIs(v / 2, len - 1, n - 1);
    }
  }

  /** The part of a code read so far is no code of its length. */
  lemma NotYet(lens: seq<nat>, s: nat, k: nat, m: nat)
    requires Codable(lens, Counts(lens)) && s < |lens| && m < |lens| && lens[m] == k && 0 < k < lens[s]
    ensures Rfc.Code(lens, m) != Lead(Rfc.Code(lens, s), lens[s] - k)
  {
    var v, p := Rfc.Code(lens, s), Pow2(lens[s] - k);
    CodeIs(lens, Counts(lens), s);
    CodeIs(lens, Counts(lens), m);
    ShorterPrecedes(lens, Counts(lens), m, s);
    LeadBounds(v, lens[s] - k);
  }

  /** Of one length, codes differ. */
  lemma OthersDiffer(lens: seq<nat>, s: nat, m: nat)
    requires Codable(lens, Counts(lens)) && s < |lens| && m < |lens| && m != s && lens[m] == lens[s] != 0
    ensures Rfc.Code(lens, m) != Rfc.Code(lens, s)
  {
    CodeIs(lens, Counts(lens), s);
    CodeIs(lens, Counts(lens), m);
    EqualLengthsDiffer(lens, Counts(lens), if m < s then m else s, if m < s then s else m);
  }

  /** The next digit. */
  lemma NextDigit(v: nat, len: nat, k: nat)
    requires k < len
    ensures var more := MsbBits(v, len)[k..];
            more != [] && Lead(v, len - (k + 1)) == 2 * Lead(v, len - k) + (if more[0] then 1 else 0)
            && more[1..] == MsbBits(v, len)[k + 1..]
  {
    MsbBitIs(v, len, len - 1 - k);
    LeadHalf(v, len - 1 - k);
    assert MsbBits(v, len)[k..][0] == MsbBits(v, len)[k];
  }

  lemma {:induction false} ReadsOn(lens: seq<nat>, s: nat, k: nat, rest: seq<bool>)
    requires Codable(lens, Counts(lens)) && s < |lens| && k <= lens[s] && lens[s] != 0
    ensures var v := Rfc.Code(lens, s);
            Rfc.ReadSymbol(MsbBits(v, lens[s])[k..] + rest, lens, k, Lead(v, lens[s] - k)) == Rfc.Received(s, rest)
    decreases lens[s] - k
  {
    hide Rfc.Code, Codable, Counts, MsbBits, Rfc.SymbolOf;
    var v, len := Rfc.Code(lens, s), lens[s];
    var bits := MsbBits(v, len)[k..] + rest;
    if k == len {
      forall m: nat | m < |lens| && m != s && lens[m] == len ensures Rfc.Code(lens, m) != v {
        OthersDiffer(lens, s, m);
      }
      OnlyOne(lens, s, 0);
      assert Lead(v, 0) == v;
      assert bits == rest;
    } else {
      if k > 0 {
        forall m: nat | m < |lens| && lens[m] == k ensures Rfc.Code(lens, m) != Lead(v, len - k) {
          NotYet(lens, s, k, m);
        }
        NoSymbol(lens, k, Lead(v, len - k), 0);
      }
      NextDigit(v, len, k);
      ReadsOn(lens, s, k + 1, rest);
      assert bits[0] == MsbBits(v, len)[k..][0] && bits[1..] == MsbBits(v, len)[k + 1..] + rest;
    }
  }

  /** A receiver by the standard reads back the symbol whose stored code was sent. */
  lemma SymbolReceived(codes: seq<nat>, lens: seq<nat>, s: nat, rest: seq<bool>)
    requires Standard(codes, lens) && s < |lens| && lens[s] != 0
    ensures Rfc.ReadSymbol(LsbBits(codes[s], lens[s]) + rest, lens, 0, 0) == Rfc.Received(s, rest)
  {
    var v, len := Rfc.Code(lens, s), lens[s];
    StandardCodable(codes, lens);
    ReversedBits(codes[s], v, len);
    CodeIs(lens, Counts(lens), s);
    CodeFits(lens, Counts(lens), s);
    hide Rfc.Code, Rfc.ReadSymbol, MsbBits, LsbBits, Codable, Counts, Reversed, CanonicalCode;
    ReadsOn(lens, s, 0, rest);
    NoLead(v, len);
    assert MsbBits(v, len)[0..] == MsbBits(v, len);
  }
}
