/** Finite sums and counts over sequences, and powers of two: the bookkeeping
    language in which the Huffman proofs state what each array entry contributes. */
module Sums {

  function Pow2(n: nat): (r: nat)
    ensures r > 0
  {
    if n == 0 then 1 else 2 * Pow2(n - 1)
  }

  lemma {:induction false} Pow2Add(a: nat, b: nat)
    ensures Pow2(a + b) == Pow2(a) * Pow2(b)
  {
    if a != 0 {
      Pow2Add(a - 1, b);
      assert a + b - 1 == (a - 1) + b;
    }
  }

  lemma {:induction false} Pow2Monotone(a: nat, b: nat)
    requires a <= b
    ensures Pow2(a) <= Pow2(b)
    decreases b
  {
    if a < b {
      Pow2Monotone(a, b - 1);
    }
  }

  function Sum(s: seq<int>): int {
    if s == [] then 0 else Sum(s[..|s| - 1]) + s[|s| - 1]
  }

  /** Changing one entry changes the sum by exactly the difference. */
  lemma {:induction false} SumUpdate(s: seq<int>, i: nat, v: int)
    requires i < |s|
    ensures Sum(s[i := v]) == Sum(s) - s[i] + v
    decreases |s|
  {
    var t := s[i := v];
    if i == |s| - 1 {
      assert t[..|t| - 1] == s[..|s| - 1];
    } else {
      SumUpdate(s[..|s| - 1], i, v);
      assert t[..|t| - 1] == s[..|s| - 1][i := v];
    }
  }

  lemma {:induction false} SumZero(s: seq<int>)
    requires forall i :: 0 <= i < |s| ==> s[i] == 0
    ensures Sum(s) == 0
    decreases |s|
  {
    if s != [] {
      SumZero(s[..|s| - 1]);
    }
  }

  /** The sum of the products of entries at equal places. */
  function Dot(a: seq<nat>, b: seq<nat>): nat
    requires |a| <= |b|
  {
    if a == [] then 0 else Dot(a[..|a| - 1], b) + a[|a| - 1] * b[|a| - 1]
  }

  /** How often `v` occurs in `s`. */
  function Count(s: seq<nat>, v: nat): (c: nat)
    ensures c <= |s|
  {
    if s == [] then 0 else Count(s[..|s| - 1], v) + (if s[|s| - 1] == v then 1 else 0)
  }

  lemma {:induction false} CountUpdate(s: seq<nat>, i: nat, x: nat, v: nat)
    requires i < |s|
    ensures Count(s[i := x], v)
         == Count(s, v) - (if s[i] == v then 1 else 0) + (if x == v then 1 else 0)
    decreases |s|
  {
    var t := s[i := x];
    if i == |s| - 1 {
      assert t[..|t| - 1] == s[..|s| - 1];
    } else {
      CountUpdate(s[..|s| - 1], i, x, v);
      assert t[..|t| - 1] == s[..|s| - 1][i := x];
    }
  }

  lemma {:induction false} CountConstant(s: seq<nat>, v: nat, w: nat)
    requires forall i :: 0 <= i < |s| ==> s[i] == w
    ensures Count(s, v) == if v == w then |s| else 0
    decreases |s|
  {
    if s != [] {
      CountConstant(s[..|s| - 1], v, w);
    }
  }

  lemma {:induction false} CountAbsent(s: seq<nat>, v: nat)
    requires forall i :: 0 <= i < |s| ==> s[i] != v
    ensures Count(s, v) == 0
    decreases |s|
  {
    if s != [] {
      CountAbsent(s[..|s| - 1], v);
    }
  }

  /** Contribution of one code of length `len` to the Kraft sum, in units of 2^-max. */
  function Weight(len: nat, max: nat): nat {
    if 1 <= len <= max then Pow2(max - len) else 0
  }

  /** Kraft sum of a sequence of code lengths (length 0 means "not coded"), in units of 2^-max. */
  function Kraft(lens: seq<nat>, max: nat): nat {
    if lens == [] then 0 else Kraft(lens[..|lens| - 1], max) + Weight(lens[|lens| - 1], max)
  }

  /** Kraft sum of a table of counts: `counts[b]` codes of length b, for 1 <= b <= upto. */
  function KraftOfCounts(counts: seq<int>, max: nat, upto: nat): int
    requires upto < |counts|
  {
    if upto == 0 then 0
    else KraftOfCounts(counts, max, upto - 1) + counts[upto] * Weight(upto, max)
  }

  lemma {:induction false} KraftOfCountsFrame(a: seq<int>, b: seq<int>, max: nat, upto: nat)
    requires upto < |a| && upto < |b|
    requires forall k :: 1 <= k <= upto ==> a[k] == b[k]
    ensures KraftOfCounts(a, max, upto) == KraftOfCounts(b, max, upto)
  {
    if upto != 0 {
      KraftOfCountsFrame(a, b, max, upto - 1);
    }
  }

  lemma {:induction false} KraftOfCountsUpdate(counts: seq<int>, max: nat, upto: nat, b: nat, delta: int)
    requires upto < |counts| && 1 <= b < |counts|
    ensures KraftOfCounts(counts[b := counts[b] + delta], max, upto)
         == KraftOfCounts(counts, max, upto) + if b <= upto then delta * Weight(b, max) else 0
  {
    if upto == 0 {
    } else if b == upto {
      KraftOfCountsFrame(counts[b := counts[b] + delta], counts, max, upto - 1);
      assert (counts[b] + delta) * Weight(b, max) == counts[b] * Weight(b, max) + delta * Weight(b, max);
    } else {
      KraftOfCountsUpdate(counts, max, upto - 1, b, delta);
    }
  }

  /** Double counting: summing per symbol or per length gives the same Kraft sum. */
  lemma {:induction false} KraftByCounts(lens: seq<nat>, counts: seq<int>, max: nat, upto: nat)
    requires max <= upto < |counts|
    requires forall b :: 1 <= b <= upto ==> counts[b] == Count(lens, b)
    ensures Kraft(lens, max) == KraftOfCounts(counts, max, upto)
    decreases |lens|
  {
    if lens == [] {
      KraftOfNoCounts(counts, max, upto);
    } else {
      var init, last := lens[..|lens| - 1], lens[|lens| - 1];
      if 1 <= last <= upto {
        var counts' := counts[last := counts[last] - 1];
        forall b | 1 <= b <= upto ensures counts'[b] == Count(init, b) {
        }
        KraftByCounts(init, counts', max, upto);
        KraftOfCountsUpdate(counts, max, upto, last, -1);
      } else {
        KraftByCounts(init, counts, max, upto);
      }
    }
  }

  lemma {:induction false} KraftOfNoCounts(counts: seq<int>, max: nat, upto: nat)
    requires upto < |counts|
    requires forall b :: 1 <= b <= upto ==> counts[b] == 0
    ensures KraftOfCounts(counts, max, upto) == 0
  {
    if upto != 0 {
      KraftOfNoCounts(counts, max, upto - 1);
    }
  }
}
