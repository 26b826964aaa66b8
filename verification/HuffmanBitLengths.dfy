/** The Huffman coder's working state (`globals2`) and `gen_bitlen` on it. */
module HuffmanBitLengths {
  import opened Common
  import opened Sums
  import opened HuffmanLengths
  import opened HuffmanOptimal

  const L_CODES: nat := 286
  const D_CODES: nat := 30
  const BL_CODES: nat := 19
  const HEAP_SIZE: nat := 2 * L_CODES + 1
  const MAX_BITS: nat := 15
  const MAX_BL_BITS: nat := 7

  /** `tree_desc`. The unions of `ct_data` are two arrays: `fc` holds the frequency and later the
      code of a symbol, `dl` its father in the tree and later its code length. */
  class TreeDesc {
    const fc: array<nat>
    const dl: array<nat>
    const staticLens: Option<seq<nat>>
    const extraBits: seq<nat>
    const extraBase: nat
    const elems: nat
    const maxLength: nat
    var maxCode: int

    constructor (fc: array<nat>, dl: array<nat>, staticLens: Option<seq<nat>>, extraBits: seq<nat>,
                 extraBase: nat, elems: nat, maxLength: nat)
      ensures this.fc == fc && this.dl == dl && this.staticLens == staticLens
      ensures this.extraBits == extraBits && this.extraBase == extraBase
      ensures this.elems == elems && this.maxLength == maxLength && this.maxCode == 0
    {
      this.fc, this.dl, this.staticLens := fc, dl, staticLens;
      this.extraBits, this.extraBase := extraBits, extraBase;
      this.elems, this.maxLength, this.maxCode := elems, maxLength, 0;
    }

    ghost predicate Valid() {
      && fc != dl && fc.Length == dl.Length
      && 3 <= elems <= L_CODES && 2 * elems + 1 <= fc.Length
      && 1 <= maxLength <= MAX_BITS && elems <= Pow2(maxLength)
      && elems <= extraBase + |extraBits|
      && (staticLens.Some? ==> elems <= |staticLens.value|)
    }

    /** Extra bits sent after the code of symbol x. */
    function Xbits(x: nat): nat
      requires elems <= extraBase + |extraBits| && x < elems
    {
      if x >= extraBase then extraBits[x - extraBase] else 0
    }

    /** Per symbol, the bits of one occurrence besides its dynamic code. */
    ghost function Fixed(): (r: seq<nat>)
      requires Valid()
      ensures |r| == elems
    {
      seq(elems, x requires 0 <= x < elems => Xbits(x))
    }

    /** Per symbol, the bits of one occurrence under the static tree. */
    ghost function StaticFixed(): (r: seq<nat>)
      requires Valid() && staticLens.Some?
      ensures |r| == elems
    {
      seq(elems, x requires 0 <= x < elems => staticLens.value[x] + Xbits(x))
    }

    /** Length of the block under the code lengths `lens`, and under the static tree. */
    ghost function DynamicCost(lens: seq<nat>, freq: seq<nat>): int
      requires Valid() && |lens| == elems <= |freq|
    {
      TotalCost(lens, freq, Fixed(), true)
    }

    ghost function StaticCost(lens: seq<nat>, freq: seq<nat>): int
      requires Valid() && |lens| == elems <= |freq|
    {
      if staticLens.Some? then TotalCost(lens, freq, StaticFixed(), false) else 0
    }

    lemma FreeOfCost(lens: seq<nat>, freq: seq<nat>)
      requires Valid() && |lens| == elems <= |freq| && forall x :: 0 <= x < |lens| ==> lens[x] == 0
      ensures DynamicCost(lens, freq) == 0 && StaticCost(lens, freq) == 0
    {
      NoCost(lens, freq, Fixed(), true);
      if staticLens.Some? {
        NoCost(lens, freq, StaticFixed(), false);
      }
    }

    lemma SameStaticCost(a: seq<nat>, b: seq<nat>, freq: seq<nat>)
      requires Valid() && |a| == |b| == elems <= |freq|
      requires forall x :: 0 <= x < elems ==> (a[x] == 0 <==> b[x] == 0)
      ensures StaticCost(a, freq) == StaticCost(b, freq)
    {
      if staticLens.Some? {
        var f := StaticFixed();
        assert seq(elems, x requires 0 <= x < elems => Cost(a, freq, f, false, x))
            == seq(elems, x requires 0 <= x < elems => Cost(b, freq, f, false, x));
      }
    }

    /** For each occurrence of a symbol its code and its extra bits; under the static tree, its static code and these. */
    lemma CostsAre(lens: seq<nat>, freq: seq<nat>)
      requires Valid() && |lens| == elems <= |freq|
      requires forall x: nat :: x < elems ==> (lens[x] == 0 <==> freq[x] == 0)
      ensures DynamicCost(lens, freq) == Dot(lens, freq) + Extras(freq[..elems], extraBase, extraBits)
      ensures staticLens.Some? ==>
                StaticCost(lens, freq) == Dot(freq[..elems], staticLens.value) + Extras(freq[..elems], extraBase, extraBits)
    {
      hide TotalCost, Dot, Extras;
      var f, none := freq[..elems], seq(elems, _ => 0);
      MessageCost(lens, freq, none, extraBase, extraBits, Fixed(), true);
      DotZero(f, none);
      if staticLens.Some? {
        MessageCost(lens, freq, staticLens.value, extraBase, extraBits, StaticFixed(), false);
      }
    }

    lemma CostOfOne(lens: seq<nat>, freq: seq<nat>, x: nat, len: nat)
      requires Valid() && |lens| == elems <= |freq| && x < elems && lens[x] == 0 && len != 0
      ensures DynamicCost(lens[x := len], freq) == DynamicCost(lens, freq) + freq[x] * (len + Xbits(x))
      ensures staticLens.Some? ==>
                StaticCost(lens[x := len], freq) == StaticCost(lens, freq) + freq[x] * (staticLens.value[x] + Xbits(x))
    {
      CostStep(lens, freq, Fixed(), true, x, len);
      if staticLens.Some? {
        CostStep(lens, freq, StaticFixed(), false, x, len);
      }
    }

    lemma CostOfChange(lens: seq<nat>, freq: seq<nat>, x: nat, len: nat)
      requires Valid() && |lens| == elems <= |freq| && x < elems && lens[x] != 0 && len != 0
      ensures DynamicCost(lens[x := len], freq) == DynamicCost(lens, freq) + (len - lens[x]) * freq[x]
      ensures StaticCost(lens[x := len], freq) == StaticCost(lens, freq)
    {
      CostStep(lens, freq, Fixed(), true, x, len);
      assert freq[x] * (len + Xbits(x)) - freq[x] * (lens[x] + Xbits(x)) == (len - lens[x]) * freq[x];
      if staticLens.Some? {
        CostStep(lens, freq, StaticFixed(), false, x, len);
      }
    }
  }

  /** Bits that the coded symbols take: each occurrence costs its code, when counted, and a fixed part. */
  function Cost(lens: seq<nat>, freq: seq<nat>, fixed: seq<nat>, withCode: bool, x: nat): int
    requires x < |lens| <= |freq| && |lens| <= |fixed|
  {
    if lens[x] == 0 then 0 else freq[x] * ((if withCode then lens[x] else 0) + fixed[x])
  }

  function TotalCost(lens: seq<nat>, freq: seq<nat>, fixed: seq<nat>, withCode: bool): int
    requires |lens| <= |freq| && |lens| <= |fixed|
  {
    Sum(seq(|lens|, x requires 0 <= x < |lens| => Cost(lens, freq, fixed, withCode, x)))
  }

  // What the costs are

  /** What the symbols of a message take under the static tree, if there is one. */
  function StaticBits(t: TreeDesc, freq: seq<nat>): nat
    requires |freq| <= t.extraBase + |t.extraBits| && (t.staticLens.Some? ==> |freq| <= |t.staticLens.value|)
  {
    if t.staticLens.None? then 0 else Dot(freq, t.staticLens.value) + Extras(freq, t.extraBase, t.extraBits)
  }

  /** The extra bits of a message: `extraBits[x - base]` for each occurrence of a symbol x from `base` on. */
  function Extras(freq: seq<nat>, base: nat, extraBits: seq<nat>): nat
    requires |freq| <= base + |extraBits|
  {
    if |freq| <= base then 0 else Dot(freq[base..], extraBits)
  }

  lemma OnlyCoded(lens: seq<nat>, freq: seq<nat>, fixed: seq<nat>, withCode: bool)
    requires |lens| <= |freq| && |lens| <= |fixed|
    ensures TotalCost(lens, freq[..|lens|], fixed, withCode) == TotalCost(lens, freq, fixed, withCode)
  {
    assert seq(|lens|, x requires 0 <= x < |lens| => Cost(lens, freq[..|lens|], fixed, withCode, x))
        == seq(|lens|, x requires 0 <= x < |lens| => Cost(lens, freq, fixed, withCode, x));
  }

  lemma {:induction false} TotalIs(lens: seq<nat>, freq: seq<nat>, fixed: seq<nat>, withCode: bool)
    requires |lens| == |freq| <= |fixed| && forall x: nat :: x < |lens| ==> (lens[x] == 0 <==> freq[x] == 0)
    ensures TotalCost(lens, freq, fixed, withCode) == (if withCode then Dot(lens, freq) else 0) + Dot(freq, fixed)
    decreases |lens|
  {
    if lens != [] {
      var n := |lens| - 1;
      TotalIs(lens[..n], freq[..n], fixed, withCode);
      TotalNext(lens, freq, fixed, withCode);
      DotPrefix(lens[..n], freq);
      assert Cost(lens, freq, fixed, withCode, n) == (if withCode then lens[n] * freq[n] else 0) + freq[n] * fixed[n];
    }
  }

  lemma TotalNext(lens: seq<nat>, freq: seq<nat>, fixed: seq<nat>, withCode: bool)
    requires 0 < |lens| == |freq| <= |fixed|
    ensures var n := |lens| - 1;
            TotalCost(lens, freq, fixed, withCode) == TotalCost(lens[..n], freq[..n], fixed, withCode) + Cost(lens, freq, fixed, withCode, n)
  {
    var n := |lens| - 1;
    var all := seq(|lens|, x requires 0 <= x < |lens| => Cost(lens, freq, fixed, withCode, x));
    assert all[..n] == seq(n, x requires 0 <= x < n => Cost(lens[..n], freq[..n], fixed, withCode, x));
  }

  lemma {:induction false} DotPrefix(a: seq<nat>, b: seq<nat>)
    requires |a| <= |b|
    ensures Dot(a, b[..|a|]) == Dot(a, b)
    decreases |a|
  {
    if a != [] {
      DotPrefix(a[..|a| - 1], b);
      DotPrefix(a[..|a| - 1], b[..|a|]);
      assert b[..|a|][..|a| - 1] == b[..|a| - 1];
    }
  }

  /** A fixed part of `plain` for every symbol and of `extraBits` for those from `base` on. */
  lemma {:induction false} FixedParts(freq: seq<nat>, plain: seq<nat>, base: nat, extraBits: seq<nat>, fixed: seq<nat>)
    requires |freq| <= |plain| && |freq| <= |fixed| && |freq| <= base + |extraBits|
    requires forall x: nat :: x < |freq| ==> fixed[x] == plain[x] + if x >= base then extraBits[x - base] else 0
    ensures Dot(freq, fixed) == Dot(freq, plain) + Extras(freq, base, extraBits)
    decreases |freq|
  {
    if freq != [] {
      var n := |freq| - 1;
      FixedParts(freq[..n], plain, base, extraBits, fixed);
      ExtrasNext(freq, base, extraBits);
      hide Extras;
      var more := if n >= base then extraBits[n - base] else 0;
      BothProducts(freq[n], plain[n], more);
      assert Dot(freq, fixed) == Dot(freq[..n], fixed) + freq[n] * fixed[n];
      assert Dot(freq, plain) == Dot(freq[..n], plain) + freq[n] * plain[n];
    }
  }

  lemma BothProducts(a: nat, b: nat, c: nat)
    ensures a * (b + c) == a * b + a * c
  {
  }

  lemma ExtrasNext(freq: seq<nat>, base: nat, extraBits: seq<nat>)
    requires freq != [] && |freq| <= base + |extraBits|
    ensures var n := |freq| - 1;
            Extras(freq, base, extraBits) == Extras(freq[..n], base, extraBits) + freq[n] * if n >= base then extraBits[n - base] else 0
  {
    var n := |freq| - 1;
    if n >= base {
      assert freq[base..][..n - base] == freq[..n][base..];
    }
  }

  lemma MessageCost(lens: seq<nat>, freq: seq<nat>, plain: seq<nat>, base: nat, extraBits: seq<nat>, fixed: seq<nat>, withCode: bool)
    requires |lens| <= |freq| && |lens| <= |plain| && |lens| == |fixed| <= base + |extraBits|
    requires forall x: nat :: x < |lens| ==> fixed[x] == plain[x] + if x >= base then extraBits[x - base] else 0
    requires forall x: nat :: x < |lens| ==> (lens[x] == 0 <==> freq[x] == 0)
    ensures TotalCost(lens, freq, fixed, withCode)
         == (if withCode then Dot(lens, freq) else 0) + Dot(freq[..|lens|], plain) + Extras(freq[..|lens|], base, extraBits)
  {
    hide TotalCost, Dot, Extras;
    var f := freq[..|lens|];
    OnlyCoded(lens, freq, fixed, withCode);
    TotalIs(lens, f, fixed, withCode);
    FixedParts(f, plain, base, extraBits, fixed);
    DotPrefix(lens, freq);
  }

  lemma {:induction false} DotZero(a: seq<nat>, b: seq<nat>)
    requires |a| <= |b| && forall x :: 0 <= x < |a| ==> b[x] == 0
    ensures Dot(a, b) == 0
    decreases |a|
  {
    if a != [] {
      DotZero(a[..|a| - 1], b);
    }
  }

  lemma CostStep(lens: seq<nat>, freq: seq<nat>, fixed: seq<nat>, withCode: bool, x: nat, len: nat)
    requires x < |lens| <= |freq| && |lens| <= |fixed|
    ensures TotalCost(lens[x := len], freq, fixed, withCode)
         == TotalCost(lens, freq, fixed, withCode) - Cost(lens, freq, fixed, withCode, x)
          + Cost(lens[x := len], freq, fixed, withCode, x)
  {
    var s := seq(|lens|, y requires 0 <= y < |lens| => Cost(lens, freq, fixed, withCode, y));
    var t := seq(|lens|, y requires 0 <= y < |lens| => Cost(lens[x := len], freq, fixed, withCode, y));
    assert t == s[x := t[x]];
    SumUpdate(s, x, t[x]);
  }

  lemma NoCost(lens: seq<nat>, freq: seq<nat>, fixed: seq<nat>, withCode: bool)
    requires |lens| <= |freq| && |lens| <= |fixed|
    requires forall x :: 0 <= x < |lens| ==> lens[x] == 0
    ensures TotalCost(lens, freq, fixed, withCode) == 0
  {
    SumZero(seq(|lens|, x requires 0 <= x < |lens| => Cost(lens, freq, fixed, withCode, x)));
  }

  /** counts[b] is the number of codes of length b. */
  ghost predicate Histogram(counts: seq<nat>, lens: seq<nat>) {
    && |counts| == MAX_BITS + 1 && counts[0] == 0
    && forall b :: 1 <= b <= MAX_BITS ==> counts[b] == Count(lens, b)
  }

  lemma HistogramAdd(counts: seq<nat>, lens: seq<nat>, x: nat, len: nat)
    requires Histogram(counts, lens) && x < |lens| && lens[x] == 0 && 1 <= len <= MAX_BITS
    ensures Histogram(counts[len := counts[len] + 1], lens[x := len])
  {
    var counts' := counts[len := counts[len] + 1];
    forall b | 1 <= b <= MAX_BITS ensures counts'[b] == Count(lens[x := len], b) {
      CountUpdate(lens, x, len, b);
    }
  }

  /** Number of codes of length at most `upto`. */
  function Total(counts: seq<nat>, upto: nat): nat
    requires upto < |counts|
  {
    if upto == 0 then 0 else Total(counts, upto - 1) + counts[upto]
  }

  lemma {:induction false} TotalUpdate(counts: seq<nat>, upto: nat, b: nat, v: nat)
    requires upto < |counts| && 1 <= b < |counts|
    ensures Total(counts[b := v], upto) == Total(counts, upto) + if b <= upto then v - counts[b] else 0
  {
    if upto != 0 {
      TotalUpdate(counts, upto - 1, b, v);
    }
  }

  /** No more codes than symbols. */
  lemma {:induction false} TotalBound(counts: seq<nat>, lens: seq<nat>, upto: nat)
    requires upto < |counts| && forall b :: 1 <= b <= upto ==> counts[b] == Count(lens, b)
    ensures Total(counts, upto) <= |lens|
    decreases |lens|
  {
    if lens == [] {
      NoTotal(counts, upto);
    } else {
      var init, last := lens[..|lens| - 1], lens[|lens| - 1];
      var counts' := seq(|counts|, b requires 0 <= b < |counts| => if 1 <= b <= upto then Count(init, b) else 0);
      TotalBound(counts', init, upto);
      if 1 <= last <= upto {
        TotalUpdate(counts', upto, last, counts'[last] + 1);
        SameTotal(counts, counts'[last := counts'[last] + 1], upto);
      } else {
        SameTotal(counts, counts', upto);
      }
    }
  }

  lemma {:induction false} NoTotal(counts: seq<nat>, upto: nat)
    requires upto < |counts| && forall b :: 1 <= b <= upto ==> counts[b] == 0
    ensures Total(counts, upto) == 0
  {
    if upto != 0 {
      NoTotal(counts, upto - 1);
    }
  }

  lemma {:induction false} SameTotal(a: seq<nat>, b: seq<nat>, upto: nat)
    requires upto < |a| && upto < |b| && forall k :: 1 <= k <= upto ==> a[k] == b[k]
    ensures Total(a, upto) == Total(b, upto)
  {
    if upto != 0 {
      SameTotal(a, b, upto - 1);
    }
  }

  /** Leaves among the first i nodes of the list. */
  function Leaves(list: seq<nat>, i: nat, elems: nat): nat
    requires i <= |list|
  {
    if i == 0 then 0 else Leaves(list, i - 1, elems) + if list[i - 1] < elems then 1 else 0
  }

  /** State of the first pass after i nodes: `dl` mixes lengths and fathers, `lens` has the lengths alone. */
  ghost predicate Pass(list: seq<nat>, freq: seq<nat>, dad: seq<nat>, elems: nat, n: nat, max: nat,
                       i: nat, dl: seq<nat>, counts: seq<nat>, lens: seq<nat>, overflow: nat)
  {
    && TreeList(list, freq, dad, elems, n) && 1 <= i <= |list| && 1 <= max <= MAX_BITS
    && |dl| == |dad| && |lens| == elems + n - 1
    && Assigned(list, i, dad, dl, lens, max)
    && Balanced(list, i, lens, overflow, max, elems, n)
    && Histogram(counts, lens[..elems])
    && Total(counts, max) == Leaves(list, i, elems)
  }

  lemma PassStart(list: seq<nat>, freq: seq<nat>, dad: seq<nat>, elems: nat, n: nat, max: nat, counts: seq<nat>)
    requires TreeList(list, freq, dad, elems, n) && 1 <= max <= MAX_BITS
    requires |counts| == MAX_BITS + 1 && forall b :: 0 <= b <= MAX_BITS ==> counts[b] == 0
    ensures 2 <= n && list[0] < |dad|
    ensures Pass(list, freq, dad, elems, n, max, 1, dad[list[0] := 0], counts, seq(elems + n - 1, _ => 0), 0)
  {
    var lens: seq<nat> := seq(elems + n - 1, _ => 0);
    forall b: nat {:trigger Count(lens[..elems], b)} | 1 <= b <= MAX_BITS ensures Count(lens[..elems], b) == 0 {
      CountConstant(lens[..elems], b, 0);
    }
    NoTotal(counts, max);
    assert Leaves(list, 1, elems) == 0 by { assert Leaves(list, 0, elems) == 0; }
    FirstShares(list, elems, n, lens, Weights(max));
    FirstShares(list, elems, n, lens, Longest(max));
    assert list[..1] == [list[0]];
  }

  lemma PassStep(list: seq<nat>, freq: seq<nat>, dad: seq<nat>, elems: nat, n: nat, max: nat,
                 i: nat, dl: seq<nat>, counts: seq<nat>, lens: seq<nat>, overflow: nat, maxCode: int)
    requires Pass(list, freq, dad, elems, n, max, i, dl, counts, lens, overflow) && i < |list|
    requires elems <= |freq| && maxCode < elems && forall x: nat :: x < elems && freq[x] != 0 ==> x <= maxCode
    ensures list[i] < |dl| && dl[list[i]] < |dl| && |counts| == MAX_BITS + 1
    ensures elems <= |lens| && list[i] < |lens| && lens[list[i]] == 0 && (list[i] < elems <==> list[i] <= maxCode)
    ensures var fatherLen := dl[dl[list[i]]];
            var bits := CutLength(fatherLen, max);
            && 1 <= bits <= MAX_BITS
            && Pass(list, freq, dad, elems, n, max, i + 1, dl[list[i] := bits],
                    if list[i] <= maxCode then counts[bits := counts[bits] + 1] else counts,
                    lens[list[i] := bits], overflow + if fatherLen + 1 > max then 1 else 0)
  {
    FatherDone(list, freq, dad, elems, n, i);
    assert list[i] in list;
    AssignedStep(list, freq, dad, elems, n, i, dl, lens, max, CutLength(0, max));
    var bits := CutLength(lens[Father(elems, n, i)], max);
    assert IsNode(freq, elems, n - 1, list[i]);
    hide TreeList, Assigned, Balanced, IsNode;
    BalanceStep(list, freq, dad, elems, n, i, lens, overflow, max);
    AssignedStep(list, freq, dad, elems, n, i, dl, lens, max, bits);
    CountStep(list, i, elems, max, counts, lens, bits);
  }

  /** The lengths alone keep following the fathers' ones. */
  lemma PassFollows(list: seq<nat>, freq: seq<nat>, dad: seq<nat>, elems: nat, n: nat, max: nat,
                    i: nat, dl: seq<nat>, counts: seq<nat>, lens: seq<nat>, overflow: nat)
    requires Pass(list, freq, dad, elems, n, max, i, dl, counts, lens, overflow) && i < |list|
    requires Tracked(list, i, lens, dad, elems, n, max, overflow)
    ensures list[i] < |dl| && dl[list[i]] < |dl| && list[i] < |lens|
    ensures Tracked(list, i + 1, lens[list[i] := CutLength(dl[dl[list[i]]], max)], dad, elems, n, max,
                    overflow + if dl[dl[list[i]]] + 1 > max then 1 else 0)
  {
    hide Following, Unlimited, Balanced, Histogram, Total, Leaves;
    FatherDone(list, freq, dad, elems, n, i);
    FollowingStep(list, freq, dad, elems, n, i, lens, max);
    UnlimitedStep(list, freq, dad, elems, n, i, lens, max, overflow);
    AssignedAt(list, i, dad, dl, lens, max, list[i]);
    AssignedAt(list, i, dad, dl, lens, max, Father(elems, n, i));
  }

  lemma AssignedAt(list: seq<nat>, i: nat, dad: seq<nat>, dl: seq<nat>, lens: seq<nat>, max: nat, x: nat)
    requires i <= |list| && |lens| <= |dad| == |dl| && x < |lens| && Assigned(list, i, dad, dl, lens, max)
    ensures if x in list[..i] then dl[x] == lens[x] else lens[x] == 0 && dl[x] == dad[x]
  {
  }

  lemma PassSize(list: seq<nat>, freq: seq<nat>, dad: seq<nat>, elems: nat, n: nat, max: nat,
                 i: nat, dl: seq<nat>, counts: seq<nat>, lens: seq<nat>, overflow: nat)
    requires Pass(list, freq, dad, elems, n, max, i, dl, counts, lens, overflow)
    ensures |lens| == elems + n - 1
  {
  }

  lemma TrackedStart(list: seq<nat>, freq: seq<nat>, dad: seq<nat>, elems: nat, n: nat, max: nat)
    requires TreeList(list, freq, dad, elems, n)
    ensures Tracked(list, 1, seq(elems + n - 1, _ => 0), dad, elems, n, max, 0)
  {
    hide Unlimited;
    UnlimitedStart(list, freq, dad, elems, n, seq(elems + n - 1, _ => 0), max);
  }

  /** Lengths follow the fathers' lengths, and are the depths while none had to be cut. */
  ghost predicate Tracked(list: seq<nat>, i: nat, lens: seq<nat>, dad: seq<nat>, elems: nat, n: nat, max: nat, overflow: nat) {
    Following(list, i, lens, max, elems, n) && Unlimited(list, i, lens, dad, elems, n, max, overflow)
  }

  lemma TrackedParts(list: seq<nat>, i: nat, lens: seq<nat>, dad: seq<nat>, elems: nat, n: nat, max: nat, overflow: nat)
    requires Tracked(list, i, lens, dad, elems, n, max, overflow)
    ensures Following(list, i, lens, max, elems, n)
    ensures Shallow(list, dad, elems, n, max) ==> overflow == 0 && AtDepth(list, i, lens, dad, elems, n)
  {
    hide Following, Shallow, AtDepth;
  }

  /** What the first pass over such a tree means for the lengths. */
  lemma TrackedLengths(list: seq<nat>, freq: seq<nat>, dad: seq<nat>, elems: nat, n: nat, lens: seq<nat>, max: nat, overflow: nat)
    requires TreeList(list, freq, dad, elems, n) && HuffmanList(list, freq, elems, n) && |lens| == elems + n - 1
    requires Tracked(list, |list|, lens, dad, elems, n, max, overflow)
    ensures elems <= |lens| && elems <= |freq| && RarerLonger(lens[..elems], freq)
    ensures Shallow(list, dad, elems, n, max) ==> overflow == 0 && Optimal(lens[..elems], freq)
  {
    hide *;
    ListSizes(list, freq, dad, elems, n);
    TrackedParts(list, |list|, lens, dad, elems, n, max, overflow);
    FollowingIsRarerLonger(list, freq, dad, elems, n, lens, max);
    if Shallow(list, dad, elems, n, max) {
      DepthsOptimal(list, freq, dad, elems, n, lens);
    }
  }

  lemma CountStep(list: seq<nat>, i: nat, elems: nat, max: nat, counts: seq<nat>, lens: seq<nat>, bits: nat)
    requires i < |list| && elems <= |lens| && list[i] < |lens| && lens[list[i]] == 0 && 1 <= bits <= max <= MAX_BITS
    requires Histogram(counts, lens[..elems]) && Total(counts, max) == Leaves(list, i, elems)
    ensures var counts' := if list[i] < elems then counts[bits := counts[bits] + 1] else counts;
            && Histogram(counts', lens[list[i] := bits][..elems])
            && Total(counts', max) == Leaves(list, i + 1, elems)
  {
    if list[i] < elems {
      TotalUpdate(counts, max, bits, counts[bits] + 1);
      HistogramAdd(counts, lens[..elems], list[i], bits);
      assert lens[list[i] := bits][..elems] == lens[..elems][list[i] := bits];
    } else {
      assert lens[list[i] := bits][..elems] == lens[..elems];
    }
  }

  /** What `gen_bitlen` has after its first pass: cut lengths, their histogram, and a Kraft sum
      that exceeds 1 by half the overflow, with more codes of the longest length than that. */
  ghost predicate CutLengths(lens: seq<nat>, freq: seq<nat>, counts: seq<nat>, overflow: nat, max: nat)
    requires |lens| <= |freq|
  {
    && 2 * Kraft(lens, max) == 2 * Pow2(max) + overflow
    && (overflow > 0 ==> 2 * Count(lens, max) >= overflow + 2)
    && (forall x: nat :: x < |lens| ==> (lens[x] == 0 <==> freq[x] == 0) && lens[x] <= max)
    && Histogram(counts, lens)
  }

  lemma PassEnd(list: seq<nat>, freq: seq<nat>, dad: seq<nat>, elems: nat, n: nat, max: nat,
                dl: seq<nat>, counts: seq<nat>, lens: seq<nat>, overflow: nat)
    requires Pass(list, freq, dad, elems, n, max, |list|, dl, counts, lens, overflow)
    requires forall x: nat :: x < elems && freq[x] == 0 ==> dad[x] == 0
    ensures elems <= |dl| && elems <= |freq| && elems <= |lens| && dl[..elems] == lens[..elems]
    ensures CutLengths(dl[..elems], freq, counts, overflow, max)
    ensures Total(counts, max) == Leaves(list, |list|, elems) <= elems
  {
    PassDone(list, freq, dad, elems, n, dl, lens, overflow, max);
    assert list[..|list|] == list;
    forall x: nat | x < elems ensures dl[x] == lens[x] {
      assert x in list <==> IsNode(freq, elems, n - 1, x);
    }
    assert dl[..elems] == lens[..elems];
    TotalBound(counts, lens[..elems], max);
  }

  /** The third loop of `gen_bitlen` at list position k: the leaves behind k have their final lengths,
      which use up the counts of the lengths above `bits` and all but `left` of length `bits`. */
  ghost predicate Redo(list: seq<nat>, k: nat, elems: nat, freq: seq<nat>, max: nat, dl: seq<nat>,
                       counts: seq<nat>, lens: seq<nat>, bits: nat, left: nat)
  {
    && k <= |list| && |lens| == elems <= |dl| == |freq| && bits <= max <= MAX_BITS
    && |counts| == MAX_BITS + 1 && counts[0] == 0
    && (forall i, j :: 0 <= i < j < |list| ==> list[i] != list[j])
    && (forall i :: 0 <= i < |list| ==> list[i] < |dl|)
    && (forall x: nat :: x < elems ==> (x in list <==> freq[x] != 0))
    && (forall x: nat :: x < elems ==> (lens[x] != 0 <==> x in list[k..]))
    && (forall x: nat :: x < elems ==> dl[x] <= max && (dl[x] == 0 <==> freq[x] == 0) && (lens[x] != 0 ==> dl[x] == lens[x]))
    && (forall b :: 1 <= b <= MAX_BITS ==>
          Count(lens, b) + (if b < bits then counts[b] else if b == bits then left else 0) == counts[b])
    && left + (if bits == 0 then 0 else Total(counts, bits - 1)) == Leaves(list, k, elems)
  }

  /** The lengths given out so far fall along the list from its end on, and none is below `bits`. */
  ghost predicate Falling(list: seq<nat>, k: nat, elems: nat, lens: seq<nat>, bits: nat) {
    && (forall i :: k <= i < |list| && list[i] < elems && list[i] < |lens| ==> lens[list[i]] >= bits)
    && forall i, j :: k <= i < j < |list| && list[i] < elems && list[j] < elems && list[i] < |lens| && list[j] < |lens| ==>
         lens[list[i]] <= lens[list[j]]
  }

  lemma FallingLower(list: seq<nat>, k: nat, elems: nat, lens: seq<nat>, bits: nat, lower: nat)
    requires Falling(list, k, elems, lens, bits) && lower <= bits
    ensures Falling(list, k, elems, lens, lower)
  {
  }

  lemma FallingInner(list: seq<nat>, k: nat, elems: nat, lens: seq<nat>, bits: nat)
    requires Falling(list, k, elems, lens, bits) && 0 < k <= |list| && list[k - 1] >= elems
    ensures Falling(list, k - 1, elems, lens, bits)
  {
  }

  lemma FallingLeaf(list: seq<nat>, k: nat, elems: nat, lens: seq<nat>, bits: nat)
    requires Falling(list, k, elems, lens, bits) && 0 < k <= |list| && list[k - 1] < elems && list[k - 1] < |lens|
    requires forall i, j :: 0 <= i < j < |list| ==> list[i] != list[j]
    ensures Falling(list, k - 1, elems, lens[list[k - 1] := bits], bits)
  {
  }

  lemma FallingNothing(list: seq<nat>, elems: nat, lens: seq<nat>, bits: nat)
    ensures Falling(list, |list|, elems, lens, bits)
  {
  }

  /** Lengths that fall along a list in order of frequency. */
  lemma FallingIsRarerLonger(list: seq<nat>, k: nat, elems: nat, freq: seq<nat>, max: nat, dl: seq<nat>, counts: seq<nat>, lens: seq<nat>)
    requires Redo(list, k, elems, freq, max, dl, counts, lens, 0, 0) && Falling(list, k, elems, lens, 0)
    requires OrderedByFrequency(list, freq)
    ensures elems <= |dl| == |freq| && RarerLonger(dl[..elems], freq)
  {
    RedoEnd(list, k, elems, freq, max, dl, counts, lens);
    forall x, y | 0 <= x < elems && 0 <= y < elems && 0 < freq[x] < freq[y] ensures lens[x] >= lens[y] {
      var i := RedoAt(list, k, elems, freq, max, dl, counts, lens, x);
      var j := RedoAt(list, k, elems, freq, max, dl, counts, lens, y);
      hide Redo;
      InFront(list, freq, j, i);
    }
  }

  /** Every symbol in use has been given a length. */
  lemma RedoAt(list: seq<nat>, k: nat, elems: nat, freq: seq<nat>, max: nat, dl: seq<nat>, counts: seq<nat>, lens: seq<nat>, x: nat)
    returns (i: nat)
    requires Redo(list, k, elems, freq, max, dl, counts, lens, 0, 0) && x < elems && freq[x] != 0
    ensures k <= i < |list| && list[i] == x
  {
    assert x in list;
    i :| 0 <= i < |list| && list[i] == x;
    if i < k {
      NoLeaves(list, k, elems, i);
    }
  }

  lemma RedoParts(list: seq<nat>, k: nat, elems: nat, freq: seq<nat>, max: nat, dl: seq<nat>, counts: seq<nat>, lens: seq<nat>,
                  bits: nat, left: nat)
    requires Redo(list, k, elems, freq, max, dl, counts, lens, bits, left)
    ensures k <= |list| && |lens| == elems && forall i, j :: 0 <= i < j < |list| ==> list[i] != list[j]
  {
  }

  lemma RedoStart(list: seq<nat>, dad: seq<nat>, n: nat, elems: nat, freq: seq<nat>, max: nat, dl: seq<nat>, counts: seq<nat>)
    requires TreeList(list, freq, dad, elems, n) && |dl| == |freq| && 1 <= max <= MAX_BITS
    requires |counts| == MAX_BITS + 1 && counts[0] == 0 && forall b :: max < b <= MAX_BITS ==> counts[b] == 0
    requires forall x: nat :: x < elems ==> (dl[x] == 0 <==> freq[x] == 0) && dl[x] <= max
    requires Total(counts, max) == Leaves(list, |list|, elems)
    ensures Redo(list, |list|, elems, freq, max, dl, counts, seq(elems, _ => 0), max, counts[max])
  {
    var lens: seq<nat> := seq(elems, _ => 0);
    forall b: nat {:trigger Count(lens, b)} | 1 <= b <= MAX_BITS ensures Count(lens, b) == 0 {
      CountConstant(lens, b, 0);
    }
    forall x: nat | x < elems ensures x in list <==> freq[x] != 0 {
      assert x in list <==> IsNode(freq, elems, n - 1, x);
    }
    forall i | 0 <= i < |list| ensures list[i] < |dl| {
      assert list[i] in list;
    }
    assert list[|list|..] == [];
  }

  /** All codes of length `bits` are given out: go on with the next shorter length. */
  lemma RedoShorter(list: seq<nat>, k: nat, elems: nat, freq: seq<nat>, max: nat, dl: seq<nat>,
                    counts: seq<nat>, lens: seq<nat>, bits: nat)
    requires Redo(list, k, elems, freq, max, dl, counts, lens, bits, 0) && bits >= 1
    ensures Redo(list, k, elems, freq, max, dl, counts, lens, bits - 1, counts[bits - 1])
  {
  }

  /** The next node towards the root: an inner node is skipped, a leaf gets length `bits`. */
  lemma RedoStep(list: seq<nat>, k: nat, elems: nat, freq: seq<nat>, max: nat, dl: seq<nat>,
                 counts: seq<nat>, lens: seq<nat>, bits: nat, left: nat)
    requires Redo(list, k, elems, freq, max, dl, counts, lens, bits, left) && bits >= 1 && left > 0
    ensures 1 <= k && list[k - 1] < |dl| && |lens| == elems
    ensures if list[k - 1] < elems
            then dl[list[k - 1]] != 0 && freq[list[k - 1]] != 0
              && Redo(list, k - 1, elems, freq, max, dl[list[k - 1] := bits], counts, lens[list[k - 1] := bits], bits, left - 1)
            else Redo(list, k - 1, elems, freq, max, dl, counts, lens, bits, left)
  {
    assert k >= 1;
    var x := list[k - 1];
    assert list[k - 1..] == [x] + list[k..];
    assert x !in list[k..];
    if x < elems {
      assert x in list;
      forall b: nat {:trigger Count(lens[x := bits], b)} | 1 <= b <= MAX_BITS
        ensures Count(lens[x := bits], b) == Count(lens, b) + if b == bits then 1 else 0 {
        CountUpdate(lens, x, bits, b);
      }
    }
  }

  lemma {:induction false} NoLeaves(list: seq<nat>, k: nat, elems: nat, i: nat)
    requires i < k <= |list| && Leaves(list, k, elems) == 0
    ensures list[i] >= elems
  {
    if i < k - 1 {
      NoLeaves(list, k - 1, elems, i);
    }
  }

  lemma RedoEnd(list: seq<nat>, k: nat, elems: nat, freq: seq<nat>, max: nat, dl: seq<nat>, counts: seq<nat>, lens: seq<nat>)
    requires Redo(list, k, elems, freq, max, dl, counts, lens, 0, 0)
    ensures |lens| == elems <= |dl| && dl[..elems] == lens && Histogram(counts, dl[..elems])
    ensures forall x: nat :: x < elems ==> (dl[x] == 0 <==> freq[x] == 0) && dl[x] <= max
  {
    forall x: nat | x < elems ensures dl[x] == lens[x] {
      if freq[x] != 0 {
        assert x in list;
        var i :| 0 <= i < |list| && list[i] == x;
        if i < k {
          NoLeaves(list, k, elems, i);
        }
        assert list[k..][i - k] == x;
      }
    }
    assert dl[..elems] == lens;
  }

  /** What `gen_bitlen` promises: exactly the symbols with a frequency have a length, no length exceeds
      the maximum, the lengths fill the Kraft inequality exactly, and `counts` is their histogram. */
  ghost predicate CompleteLengths(lens: seq<nat>, freq: seq<nat>, counts: seq<nat>, max: nat)
    requires |lens| <= |freq|
  {
    && (forall x: nat :: x < |lens| ==> (lens[x] == 0 <==> freq[x] == 0) && lens[x] <= max)
    && Kraft(lens, max) == Pow2(max)
    && Histogram(counts, lens)
  }

  lemma NoLongCounts(counts: seq<nat>, lens: seq<nat>, max: nat)
    requires Histogram(counts, lens) && forall x: nat :: x < |lens| ==> lens[x] <= max
    ensures forall b :: max < b <= MAX_BITS ==> counts[b] == 0
  {
    forall b: nat | max < b <= MAX_BITS ensures counts[b] == 0 {
      CountAbsent(lens, b);
    }
  }

  lemma CutToCounts(lens: seq<nat>, freq: seq<nat>, counts: seq<nat>, overflow: nat, max: nat)
    requires |lens| <= |freq| && CutLengths(lens, freq, counts, overflow, max) && 1 <= max <= MAX_BITS
    ensures |counts| == MAX_BITS + 1 && counts[0] == 0 && forall b :: max < b <= MAX_BITS ==> counts[b] == 0
    ensures 2 * KraftOfCounts(counts, max, MAX_BITS) == 2 * Pow2(max) + overflow
    ensures overflow > 0 ==> 2 * counts[max] >= overflow + 2
    ensures forall x: nat :: x < |lens| ==> (lens[x] == 0 <==> freq[x] == 0) && lens[x] <= max
    ensures overflow == 0 ==> CompleteLengths(lens, freq, counts, max)
  {
    NoLongCounts(counts, lens, max);
    KraftByCounts(lens, counts, max, MAX_BITS);
  }

  lemma CountsToComplete(lens: seq<nat>, freq: seq<nat>, counts: seq<nat>, max: nat)
    requires |lens| <= |freq| && Histogram(counts, lens) && 1 <= max <= MAX_BITS
    requires KraftOfCounts(counts, max, MAX_BITS) == Pow2(max)
    requires forall x: nat :: x < |lens| ==> (lens[x] == 0 <==> freq[x] == 0) && lens[x] <= max
    ensures CompleteLengths(lens, freq, counts, max)
  {
    KraftByCounts(lens, counts, max, MAX_BITS);
  }

  /** `globals2`, the part that the tree builder uses. */
  class Coder {
    const heap: array<nat>
    const depth: array<nat>
    const blCount: array<nat>
    var heapLen: nat
    var heapMax: nat
    var optLen: int
    var staticLen: int

    constructor ()
      ensures Valid() && fresh(heap) && fresh(depth) && fresh(blCount)
      ensures optLen == 0 && staticLen == 0
    {
      heap := new nat[HEAP_SIZE](_ => 0);
      depth := new nat[HEAP_SIZE](_ => 0);
      blCount := new nat[MAX_BITS + 1](_ => 0);
      heapLen, heapMax, optLen, staticLen := 0, 0, 0, 0;
    }

    ghost predicate Valid() {
      && heap.Length == HEAP_SIZE && depth.Length == HEAP_SIZE && blCount.Length == MAX_BITS + 1
      && heap != depth && heap != blCount && depth != blCount
    }

    ghost predicate Separate(t: TreeDesc) {
      && t.Valid() && Valid()
      && {t.fc, t.dl} !! {heap, depth, blCount}
    }

    /** The heap's tail is the Huffman tree of the symbols that have a frequency. */
    ghost predicate TreeBuilt(t: TreeDesc, n: nat)
      requires Separate(t)
      reads this, heap, t, t.fc, t.dl
    {
      && heapMax < HEAP_SIZE && -1 <= t.maxCode < t.elems
      && TreeList(heap[heapMax..], t.fc[..], t.dl[..], t.elems, n)
      && (forall x: nat :: x < t.elems && t.fc[x] == 0 ==> t.dl[x] == 0)
      && (forall x: nat :: x < t.elems && t.fc[x] != 0 ==> x <= t.maxCode)
    }

    /** Clears the counts and gives the root its length, 0. */
    method StartPass(t: TreeDesc, ghost n: nat)
      requires Separate(t) && TreeBuilt(t, n)
      modifies blCount, t.dl
      ensures t.dl[..] == old(t.dl[..])[heap[heapMax] := 0]
      ensures forall b :: 0 <= b <= MAX_BITS ==> blCount[b] == 0
    {
      assert heap[heapMax] == heap[heapMax..][0] < t.dl.Length;
      for bits := 0 to blCount.Length
        invariant forall b :: 0 <= b < bits ==> blCount[b] == 0
        invariant t.dl[..] == old(t.dl[..])
      {
        blCount[bits] := 0;
      }
      t.dl[heap[heapMax]] := 0;
    }

    /** The loop body of the first pass: one node takes its father's length plus one, cut at the maximum. */
    method AssignLength(t: TreeDesc, node: nat) returns (cut: bool)
      requires Separate(t)
      requires node < t.dl.Length && t.dl[node] < t.dl.Length
      requires -1 <= t.maxCode < t.elems
      modifies blCount, t.dl, this`optLen, this`staticLen
      ensures var fatherLen := old(t.dl[t.dl[node]]);
              var bits := CutLength(fatherLen, t.maxLength);
              var leaf := node <= t.maxCode;
              && cut == (fatherLen + 1 > t.maxLength)
              && bits <= MAX_BITS
              && t.dl[..] == old(t.dl[..])[node := bits]
              && blCount[..] == (if leaf then old(blCount[..])[bits := old(blCount[bits]) + 1] else old(blCount[..]))
              && optLen == old(optLen) + (if leaf then t.fc[node] * (bits + t.Xbits(node)) else 0)
              && staticLen == old(staticLen) + if leaf && t.staticLens.Some? then t.fc[node] * (t.staticLens.value[node] + t.Xbits(node)) else 0
    {
      var bits := t.dl[t.dl[node]] + 1;
      cut := false;
      if bits > t.maxLength {
        bits := t.maxLength;
        cut := true;
      }
      t.dl[node] := bits;
      if node > t.maxCode {
        return;
      }
      blCount[bits] := blCount[bits] + 1;
      var xbits := 0;
      if node >= t.extraBase {
        xbits := t.extraBits[node - t.extraBase];
      }
      var f := t.fc[node];
      optLen := optLen + f * (bits + xbits);
      if t.staticLens.Some? {
        staticLen := staticLen + f * (t.staticLens.value[node] + xbits);
      }
    }

    /** `optLen` and `staticLen` have grown by what the symbols with a length cost. */
    ghost predicate Accounts(t: TreeDesc, freq: seq<nat>, lens: seq<nat>, opt: int, static0: int)
      requires t.Valid() && |lens| == t.elems <= |freq|
      reads this
    {
      optLen == opt + t.DynamicCost(lens, freq) && staticLen == static0 + t.StaticCost(lens, freq)
    }

    /** One round of the first pass: the node at heap position h moves from the unassigned to the assigned. */
    method PassRound(t: TreeDesc, h: nat, overflow: nat, ghost list: seq<nat>, ghost freq: seq<nat>, ghost dad: seq<nat>,
                     ghost n: nat, ghost lens: seq<nat>, ghost opt: int, ghost static0: int)
      returns (overflow': nat, ghost lens': seq<nat>)
      requires Separate(t) && heapMax < h < HEAP_SIZE
      requires list == heap[heapMax..] && t.elems <= |freq| && -1 <= t.maxCode < t.elems
      requires forall x: nat :: x < t.elems && freq[x] != 0 ==> x <= t.maxCode
      requires Pass(list, freq, dad, t.elems, n, t.maxLength, h - heapMax, t.dl[..], blCount[..], lens, overflow)
      requires freq == t.fc[..] && t.elems <= |lens| && Accounts(t, freq, lens[..t.elems], opt, static0)
      requires Tracked(list, h - heapMax, lens, dad, t.elems, n, t.maxLength, overflow)
      modifies blCount, t.dl, this`optLen, this`staticLen
      ensures Pass(list, freq, dad, t.elems, n, t.maxLength, h + 1 - heapMax, t.dl[..], blCount[..], lens', overflow')
      ensures Tracked(list, h + 1 - heapMax, lens', dad, t.elems, n, t.maxLength, overflow')
      ensures t.elems <= |lens'| && Accounts(t, freq, lens'[..t.elems], opt, static0)
    {
      hide Pass, Tracked;
      ghost var i, max := h - heapMax, t.maxLength;
      PassFollows(list, freq, dad, t.elems, n, max, i, t.dl[..], blCount[..], lens, overflow);
      PassStep(list, freq, dad, t.elems, n, max, i, t.dl[..], blCount[..], lens, overflow, t.maxCode);
      var node := heap[h];
      assert node == list[i];
      ghost var bits := CutLength(t.dl[t.dl[node]], max);
      lens' := lens[node := bits];
      if node <= t.maxCode {
        assert lens'[..t.elems] == lens[..t.elems][node := bits];
        t.CostOfOne(lens[..t.elems], freq, node, bits);
      } else {
        assert lens'[..t.elems] == lens[..t.elems];
      }
      var cut := AssignLength(t, node);
      overflow' := if cut then overflow + 1 else overflow;
    }

    /** The rounds of the first pass, from the node behind the root to the end of the list. */
    method PassRounds(t: TreeDesc, ghost list: seq<nat>, ghost freq: seq<nat>, ghost dad: seq<nat>, ghost n: nat, ghost start: seq<nat>,
                      ghost opt: int, ghost static0: int)
      returns (overflow: nat, ghost lens: seq<nat>)
      requires Separate(t) && heapMax < HEAP_SIZE
      requires list == heap[heapMax..] && t.elems <= |freq| && -1 <= t.maxCode < t.elems
      requires forall x: nat :: x < t.elems && freq[x] != 0 ==> x <= t.maxCode
      requires Pass(list, freq, dad, t.elems, n, t.maxLength, 1, t.dl[..], blCount[..], start, 0)
      requires freq == t.fc[..] && t.elems <= |start| && Accounts(t, freq, start[..t.elems], opt, static0)
      requires Tracked(list, 1, start, dad, t.elems, n, t.maxLength, 0)
      modifies blCount, t.dl, this`optLen, this`staticLen
      ensures Tracked(list, |list|, lens, dad, t.elems, n, t.maxLength, overflow)
      ensures Pass(list, freq, dad, t.elems, n, t.maxLength, |list|, t.dl[..], blCount[..], lens, overflow)
      ensures t.elems <= |lens| && Accounts(t, freq, lens[..t.elems], opt, static0)
    {
      hide Pass, Tracked;
      overflow, lens := 0, start;
      var h := heapMax + 1;
      while h < HEAP_SIZE
        invariant heapMax + 1 <= h <= HEAP_SIZE
        invariant Pass(list, freq, dad, t.elems, n, t.maxLength, h - heapMax, t.dl[..], blCount[..], lens, overflow)
        invariant Tracked(list, h - heapMax, lens, dad, t.elems, n, t.maxLength, overflow)
        invariant freq == t.fc[..] && t.elems <= |lens| && Accounts(t, freq, lens[..t.elems], opt, static0)
      {
        overflow, lens := PassRound(t, h, overflow, list, freq, dad, n, lens, opt, static0);
        h := h + 1;
      }
    }

    /** First pass of `gen_bitlen`: lengths from the fathers' lengths, cut at the maximum. */
    method FirstPass(t: TreeDesc, ghost n: nat) returns (overflow: nat)
      requires Separate(t) && TreeBuilt(t, n)
      modifies blCount, t.dl, this`optLen, this`staticLen
      ensures CutLengths(t.dl[..t.elems], t.fc[..], blCount[..], overflow, t.maxLength)
      ensures Accounts(t, t.fc[..], t.dl[..t.elems], old(optLen), old(staticLen))
      ensures Total(blCount[..], t.maxLength) == Leaves(heap[heapMax..], |heap[heapMax..]|, t.elems) <= t.elems
      ensures HuffmanList(heap[heapMax..], t.fc[..], t.elems, n) ==> RarerLonger(t.dl[..t.elems], t.fc[..])
      ensures HuffmanList(heap[heapMax..], t.fc[..], t.elems, n) && Shallow(heap[heapMax..], old(t.dl[..]), t.elems, n, t.maxLength) ==>
                overflow == 0 && Optimal(t.dl[..t.elems], t.fc[..])
    {
      hide Pass, TreeList, CutLengths, Leaves, Total, Tracked, HuffmanList, RarerLonger, Shallow, Optimal;
      ghost var list, freq, dad, elems, max := heap[heapMax..], t.fc[..], t.dl[..], t.elems, t.maxLength;
      ghost var start: seq<nat> := seq(elems + n - 1, _ => 0);
      StartPass(t, n);
      PassStart(list, freq, dad, elems, n, max, blCount[..]);
      TrackedStart(list, freq, dad, elems, n, max);
      t.FreeOfCost(start[..elems], freq);
      ghost var lens;
      overflow, lens := PassRounds(t, list, freq, dad, n, start, optLen, staticLen);
      PassEnd(list, freq, dad, elems, n, max, t.dl[..], blCount[..], lens, overflow);
      if HuffmanList(list, freq, elems, n) {
        PassSize(list, freq, dad, elems, n, max, |list|, t.dl[..], blCount[..], lens, overflow);
        TrackedLengths(list, freq, dad, elems, n, lens, max, overflow);
      }
    }

    /** Second loop of `gen_bitlen`: move leaves down until the overflow is gone. Each round takes
        one unit off the Kraft sum and keeps the number of codes. */
    method ShortenOverflow(max: nat, overflow: nat, ghost codes: nat)
      requires Valid() && 1 <= max <= MAX_BITS && 0 < overflow
      requires blCount[0] == 0
      requires 2 * KraftOfCounts(blCount[..], max, MAX_BITS) == 2 * Pow2(max) + overflow
      requires 2 * blCount[max] >= overflow + 2
      requires Total(blCount[..], max) == codes <= Pow2(max)
      modifies blCount
      ensures KraftOfCounts(blCount[..], max, MAX_BITS) == Pow2(max)
      ensures Total(blCount[..], max) == codes
      ensures blCount[0] == 0 && forall b :: max < b <= MAX_BITS ==> blCount[b] == old(blCount[b])
    {
      var left: int := overflow;
      while left > 0
        invariant 2 * KraftOfCounts(blCount[..], max, MAX_BITS) == 2 * Pow2(max) + left
        invariant left >= 0 && 2 * blCount[max] >= left + 2
        invariant Total(blCount[..], max) == codes && blCount[0] == 0
        invariant forall b :: max < b <= MAX_BITS ==> blCount[b] == old(blCount[b])
      {
        LengthenOne(max, left, codes);
        left := left - 2;
      }
    }

    method FindGrowable(max: nat) returns (bits: nat)
      requires Valid() && 1 <= max <= MAX_BITS
      requires exists b :: 1 <= b < max && blCount[b] != 0
      ensures 1 <= bits < max && blCount[bits] != 0
      ensures forall b :: bits < b < max ==> blCount[b] == 0
    {
      bits := max - 1;
      while blCount[bits] == 0
        invariant exists b :: 1 <= b <= bits && blCount[b] != 0
        invariant bits < max && forall b :: bits < b < max ==> blCount[b] == 0
        decreases bits
      {
        bits := bits - 1;
      }
    }

    /** One round: the longest code that can still grow does so, an overflowing code becomes its brother. */
    method LengthenOne(max: nat, ghost left: nat, ghost codes: nat)
      requires Valid() && 1 <= max <= MAX_BITS && 0 < left
      requires blCount[0] == 0
      requires 2 * KraftOfCounts(blCount[..], max, MAX_BITS) == 2 * Pow2(max) + left
      requires 2 * blCount[max] >= left + 2
      requires Total(blCount[..], max) == codes <= Pow2(max)
      modifies blCount
      ensures left >= 2
      ensures KraftOfCounts(blCount[..], max, MAX_BITS) == KraftOfCounts(old(blCount[..]), max, MAX_BITS) - 1
      ensures 2 * blCount[max] >= left
      ensures Total(blCount[..], max) == codes
      ensures blCount[0] == 0 && forall b :: max < b <= MAX_BITS ==> blCount[b] == old(blCount[b])
    {
      hide KraftOfCounts, Total, Lengthened;
      GrowableLength(blCount[..], max);
      var bits := FindGrowable(max);
      LengthenKraft(blCount[..], max, bits);
      LengthenTotal(blCount[..], max, bits);
      LengthenedParts(blCount[..], max, bits);
      Lengthen(max, bits);
    }

    method Lengthen(max: nat, bits: nat)
      requires Valid() && 1 <= bits < max <= MAX_BITS && blCount[bits] > 0 && blCount[max] > 0
      modifies blCount
      ensures blCount[..] == Lengthened(old(blCount[..]), max, bits)
    {
      blCount[bits] := blCount[bits] - 1;
      blCount[bits + 1] := blCount[bits + 1] + 2;
      blCount[max] := blCount[max] - 1;
    }

    /** Third loop of `gen_bitlen`: give the lengths out again, longest first, from the least frequent leaf on. */
    method Reassign(t: TreeDesc, ghost n: nat, ghost dad: seq<nat>)
      requires Separate(t) && heapMax < HEAP_SIZE && -1 <= t.maxCode < t.elems
      requires TreeList(heap[heapMax..], t.fc[..], dad, t.elems, n)
      requires forall x: nat :: x < t.elems && t.fc[x] != 0 ==> x <= t.maxCode
      requires blCount[0] == 0 && forall b :: t.maxLength < b <= MAX_BITS ==> blCount[b] == 0
      requires forall x: nat :: x < t.elems ==> (t.dl[x] == 0 <==> t.fc[x] == 0) && t.dl[x] <= t.maxLength
      requires Total(blCount[..], t.maxLength) == Leaves(heap[heapMax..], |heap[heapMax..]|, t.elems)
      modifies t.dl, this`optLen
      ensures Histogram(blCount[..], t.dl[..t.elems])
      ensures forall x: nat :: x < t.elems ==> (t.dl[x] == 0 <==> t.fc[x] == 0) && t.dl[x] <= t.maxLength
      ensures optLen - t.DynamicCost(t.dl[..t.elems], t.fc[..]) == old(optLen - t.DynamicCost(t.dl[..t.elems], t.fc[..]))
      ensures OrderedByFrequency(heap[heapMax..], t.fc[..]) ==> RarerLonger(t.dl[..t.elems], t.fc[..])
    {
      hide Redo, TreeList, Total, Leaves, Histogram, Falling, OrderedByFrequency, RarerLonger;
      ghost var list, freq, counts := heap[heapMax..], t.fc[..], blCount[..];
      RedoStart(list, dad, n, t.elems, freq, t.maxLength, t.dl[..], counts);
      ghost var none: seq<nat> := seq(t.elems, _ => 0);
      ghost var debt := optLen - t.DynamicCost(t.dl[..t.elems], freq);
      FallingNothing(list, t.elems, none, t.maxLength);
      ghost var k, lens := ReassignRounds(t, list, freq, counts, none, debt);
      RedoEnd(list, k, t.elems, freq, t.maxLength, t.dl[..], counts, lens);
      if OrderedByFrequency(list, freq) {
        FallingIsRarerLonger(list, k, t.elems, freq, t.maxLength, t.dl[..], counts, lens);
      }
    }

    /** The outer loop, over the lengths. */
    method ReassignRounds(t: TreeDesc, ghost list: seq<nat>, ghost freq: seq<nat>, ghost counts: seq<nat>,
                          ghost none: seq<nat>, ghost debt: int)
      returns (ghost k: nat, ghost lens: seq<nat>)
      requires Separate(t) && heapMax < HEAP_SIZE && -1 <= t.maxCode < t.elems
      requires forall x: nat :: x < t.elems && t.fc[x] != 0 ==> x <= t.maxCode
      requires list == heap[heapMax..] && freq == t.fc[..] && counts == blCount[..] && counts[0] == 0
      requires Redo(list, |list|, t.elems, freq, t.maxLength, t.dl[..], counts, none, t.maxLength, counts[t.maxLength])
      requires Falling(list, |list|, t.elems, none, t.maxLength)
      requires debt == optLen - t.DynamicCost(t.dl[..t.elems], freq)
      modifies t.dl, this`optLen
      ensures Redo(list, k, t.elems, freq, t.maxLength, t.dl[..], counts, lens, 0, 0)
      ensures Falling(list, k, t.elems, lens, 0)
      ensures debt == optLen - t.DynamicCost(t.dl[..t.elems], freq)
    {
      hide Redo, Falling, Total, Leaves, Count, TotalCost, TreeDesc.DynamicCost;
      lens := none;
      var h := HEAP_SIZE;
      var bits := t.maxLength;
      while bits != 0
        invariant heapMax <= h <= HEAP_SIZE && 0 <= bits <= MAX_BITS
        invariant freq == t.fc[..]
        invariant Redo(list, h - heapMax, t.elems, freq, t.maxLength, t.dl[..], counts, lens, bits, counts[bits])
        invariant Falling(list, h - heapMax, t.elems, lens, bits)
        invariant debt == optLen - t.DynamicCost(t.dl[..t.elems], freq)
        decreases bits
      {
        h, lens := GiveOut(t, bits, h, list, freq, counts, lens, debt);
        RedoShorter(list, h - heapMax, t.elems, freq, t.maxLength, t.dl[..], counts, lens, bits);
        FallingLower(list, h - heapMax, t.elems, lens, bits, bits - 1);
        bits := bits - 1;
      }
      k := h - heapMax;
    }

    /** The inner loop for one length. */
    method GiveOut(t: TreeDesc, bits: nat, start: nat, ghost list: seq<nat>, ghost freq: seq<nat>, ghost counts: seq<nat>,
                   ghost given: seq<nat>, ghost debt: int)
      returns (h: nat, ghost lens: seq<nat>)
      requires Separate(t) && heapMax <= start <= HEAP_SIZE && 1 <= bits <= MAX_BITS && -1 <= t.maxCode < t.elems
      requires forall x: nat :: x < t.elems && t.fc[x] != 0 ==> x <= t.maxCode
      requires heapMax < HEAP_SIZE && list == heap[heapMax..] && freq == t.fc[..] && counts == blCount[..]
      requires Redo(list, start - heapMax, t.elems, freq, t.maxLength, t.dl[..], counts, given, bits, counts[bits])
      requires Falling(list, start - heapMax, t.elems, given, bits)
      requires debt == optLen - t.DynamicCost(t.dl[..t.elems], freq)
      modifies t.dl, this`optLen
      ensures heapMax <= h <= HEAP_SIZE
      ensures Redo(list, h - heapMax, t.elems, freq, t.maxLength, t.dl[..], counts, lens, bits, 0)
      ensures Falling(list, h - heapMax, t.elems, lens, bits)
      ensures debt == optLen - t.DynamicCost(t.dl[..t.elems], freq)
    {
      hide Redo, Falling;
      h, lens := start, given;
      var left := blCount[bits];
      while left != 0
        invariant heapMax <= h <= HEAP_SIZE
        invariant freq == t.fc[..]
        invariant Redo(list, h - heapMax, t.elems, freq, t.maxLength, t.dl[..], counts, lens, bits, left)
        invariant Falling(list, h - heapMax, t.elems, lens, bits)
        invariant debt == optLen - t.DynamicCost(t.dl[..t.elems], freq)
        decreases h
      {
        RedoStep(list, h - heapMax, t.elems, freq, t.maxLength, t.dl[..], counts, lens, bits, left);
        RedoParts(list, h - heapMax, t.elems, freq, t.maxLength, t.dl[..], counts, lens, bits, left);
        h := h - 1;
        var m := heap[h];
        assert m == list[h - heapMax];
        assert m < t.elems ==> t.fc[m] == freq[m];
        if m > t.maxCode {
          FallingInner(list, h + 1 - heapMax, t.elems, lens, bits);
          continue;
        }
        FallingLeaf(list, h + 1 - heapMax, t.elems, lens, bits);
        SetLength(t, m, bits, freq, debt);
        lens := lens[m := bits];
        left := left - 1;
      }
    }

    method SetLength(t: TreeDesc, m: nat, bits: nat, ghost freq: seq<nat>, ghost debt: int)
      requires Separate(t) && m < t.elems && t.dl[m] != 0 && bits != 0 && freq == t.fc[..]
      requires debt == optLen - t.DynamicCost(t.dl[..t.elems], freq)
      modifies t.dl, this`optLen
      ensures t.dl[..] == old(t.dl[..])[m := bits]
      ensures debt == optLen - t.DynamicCost(t.dl[..t.elems], freq)
    {
      if t.dl[m] != bits {
        t.CostOfChange(t.dl[..t.elems], freq, m, bits);
        optLen := optLen + (bits - t.dl[m]) * t.fc[m];
        t.dl[m] := bits;
        assert t.dl[..t.elems] == old(t.dl[..t.elems])[m := bits];
      }
    }

    /** `gen_bitlen`. */
    method GenBitlen(t: TreeDesc, ghost n: nat)
      requires Separate(t) && TreeBuilt(t, n)
      modifies blCount, t.dl, this`optLen, this`staticLen
      ensures CompleteLengths(t.dl[..t.elems], t.fc[..], blCount[..], t.maxLength)
      ensures optLen == old(optLen) + Dot(t.dl[..t.elems], t.fc[..]) + Extras(t.fc[..t.elems], t.extraBase, t.extraBits)
      ensures staticLen == old(staticLen) + StaticBits(t, t.fc[..t.elems])
      ensures HuffmanList(heap[heapMax..], t.fc[..], t.elems, n) ==> RarerLonger(t.dl[..t.elems], t.fc[..])
      ensures HuffmanList(heap[heapMax..], t.fc[..], t.elems, n) && Shallow(heap[heapMax..], old(t.dl[..]), t.elems, n, t.maxLength) ==>
                Optimal(t.dl[..t.elems], t.fc[..])
    {
      hide HuffmanList, RarerLonger, Shallow, Optimal, TotalCost, TreeDesc.DynamicCost, TreeDesc.StaticCost, OrderedByFrequency, Leaves, Total,
        Dot, Extras, StaticBits, Kraft, Histogram;
      HuffmanParts(heap[heapMax..], t.fc[..], t.elems, n);
      ghost var dad, freq, max := t.dl[..], t.fc[..], t.maxLength;
      var overflow := FirstPass(t, n);
      CutToCounts(t.dl[..t.elems], freq, blCount[..], overflow, max);
      if overflow != 0 {
        Limit(t, overflow, n, dad);
      }
      Accounted(t, freq, t.dl[..t.elems], old(optLen), old(staticLen));
    }

    lemma Accounted(t: TreeDesc, freq: seq<nat>, lens: seq<nat>, opt: int, static0: int)
      requires t.Valid() && |lens| == t.elems <= |freq| && Accounts(t, freq, lens, opt, static0)
      requires forall x: nat :: x < t.elems ==> (lens[x] == 0 <==> freq[x] == 0)
      ensures optLen == opt + Dot(lens, freq) + Extras(freq[..t.elems], t.extraBase, t.extraBits)
      ensures staticLen == static0 + StaticBits(t, freq[..t.elems])
    {
      hide Dot, Extras, TreeDesc.DynamicCost, TotalCost;
      t.CostsAre(lens, freq);
    }

    /** The rest of `gen_bitlen`, when some code came out too long. */
    method Limit(t: TreeDesc, overflow: nat, ghost n: nat, ghost dad: seq<nat>)
      requires Separate(t) && heapMax < HEAP_SIZE && -1 <= t.maxCode < t.elems && 0 < overflow
      requires TreeList(heap[heapMax..], t.fc[..], dad, t.elems, n)
      requires forall x: nat :: x < t.elems && t.fc[x] != 0 ==> x <= t.maxCode
      requires blCount[0] == 0 && forall b :: t.maxLength < b <= MAX_BITS ==> blCount[b] == 0
      requires 2 * KraftOfCounts(blCount[..], t.maxLength, MAX_BITS) == 2 * Pow2(t.maxLength) + overflow
      requires 2 * blCount[t.maxLength] >= overflow + 2
      requires Total(blCount[..], t.maxLength) == Leaves(heap[heapMax..], |heap[heapMax..]|, t.elems) <= t.elems
      requires forall x: nat :: x < t.elems ==> (t.dl[x] == 0 <==> t.fc[x] == 0) && t.dl[x] <= t.maxLength
      modifies blCount, t.dl, this`optLen
      ensures CompleteLengths(t.dl[..t.elems], t.fc[..], blCount[..], t.maxLength)
      ensures optLen - t.DynamicCost(t.dl[..t.elems], t.fc[..]) == old(optLen - t.DynamicCost(t.dl[..t.elems], t.fc[..]))
      ensures t.StaticCost(t.dl[..t.elems], t.fc[..]) == old(t.StaticCost(t.dl[..t.elems], t.fc[..]))
      ensures OrderedByFrequency(heap[heapMax..], t.fc[..]) ==> RarerLonger(t.dl[..t.elems], t.fc[..])
    {
      hide TreeList, KraftOfCounts, Total, Leaves, CompleteLengths, OrderedByFrequency, RarerLonger;
      ghost var freq, max, cut := t.fc[..], t.maxLength, t.dl[..t.elems];
      ShortenOverflow(t.maxLength, overflow, Total(blCount[..], max));
      assert heap[heapMax..] == old(heap[heapMax..]) && freq == t.fc[..] && cut == t.dl[..t.elems];
      Reassign(t, n, dad);
      CountsToComplete(t.dl[..t.elems], freq, blCount[..], max);
      t.SameStaticCost(cut, t.dl[..t.elems], freq);
    }
  }

  lemma HuffmanParts(list: seq<nat>, freq: seq<nat>, elems: nat, n: nat)
    ensures HuffmanList(list, freq, elems, n) ==> OrderedByFrequency(list, freq)
  {
  }

  /** If all codes had the longest length there would be no more than 2^max of them: no excess. */
  lemma GrowableLength(counts: seq<nat>, max: nat)
    requires 1 <= max < |counts| && counts[0] == 0 && MAX_BITS < |counts|
    requires KraftOfCounts(counts, max, MAX_BITS) > Pow2(max) && max <= MAX_BITS
    requires Total(counts, max) <= Pow2(max)
    ensures exists b :: 1 <= b < max && counts[b] != 0
  {
    if forall b :: 1 <= b < max ==> counts[b] == 0 {
      OnlyLongest(counts, max, MAX_BITS);
    }
  }

  lemma {:induction false} OnlyLongest(counts: seq<nat>, max: nat, upto: nat)
    requires 1 <= max < |counts| && upto < |counts|
    requires forall b :: 1 <= b < max ==> counts[b] == 0
    ensures KraftOfCounts(counts, max, upto) == if upto < max then 0 else counts[max]
    ensures upto <= max ==> Total(counts, upto) == if upto < max then 0 else counts[max]
  {
    if upto != 0 {
      OnlyLongest(counts, max, upto - 1);
    }
  }

  /** counts after one code grows from `bits` to bits + 1 and an overflowing one becomes its brother. */
  function Lengthened(counts: seq<nat>, max: nat, bits: nat): seq<nat>
    requires 1 <= bits < max < |counts| && counts[bits] > 0 && counts[max] > 0
  {
    var a := counts[bits := counts[bits] - 1];
    var b := a[bits + 1 := a[bits + 1] + 2];
    b[max := b[max] - 1]
  }

  lemma LengthenedParts(counts: seq<nat>, max: nat, bits: nat)
    requires |counts| == MAX_BITS + 1 && 1 <= bits < max <= MAX_BITS && counts[bits] > 0 && counts[max] > 0
    ensures var r := Lengthened(counts, max, bits);
            && |r| == |counts| && r[0] == counts[0] && r[max] + 1 >= counts[max]
            && forall b :: max < b <= MAX_BITS ==> r[b] == counts[b]
  {
  }

  lemma LengthenKraft(counts: seq<nat>, max: nat, bits: nat)
    requires |counts| == MAX_BITS + 1 && 1 <= bits < max <= MAX_BITS
    requires counts[bits] > 0 && counts[max] > 0
    ensures KraftOfCounts(Lengthened(counts, max, bits), max, MAX_BITS) == KraftOfCounts(counts, max, MAX_BITS) - 1
  {
    var a: seq<nat> := counts[bits := counts[bits] - 1];
    var b := a[bits + 1 := a[bits + 1] + 2];
    var w := Weight(bits + 1, max);
    assert Weight(bits, max) == 2 * w;
    KraftOfCountsUpdate(counts, max, MAX_BITS, bits, -1);
    KraftOfCountsUpdate(a, max, MAX_BITS, bits + 1, 2);
    KraftOfCountsUpdate(b, max, MAX_BITS, max, -1);
    assert Weight(max, max) == 1;
  }

  lemma LengthenTotal(counts: seq<nat>, max: nat, bits: nat)
    requires |counts| == MAX_BITS + 1 && 1 <= bits < max <= MAX_BITS
    requires counts[bits] > 0 && counts[max] > 0
    ensures Total(Lengthened(counts, max, bits), max) == Total(counts, max)
  {
    var a := counts[bits := counts[bits] - 1];
    var b := a[bits + 1 := a[bits + 1] + 2];
    TotalUpdate(counts, max, bits, counts[bits] - 1);
    TotalUpdate(a, max, bits + 1, a[bits + 1] + 2);
    TotalUpdate(b, max, max, b[max] - 1);
  }
}
