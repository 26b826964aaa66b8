/** How many bits the code lengths of two trees take, and that `build_tree` adds exactly that to `opt_len`: the
    length by which `flush_block` chooses the form of a block is the length of what is sent. */
module DynamicLength {
  import opened Sums
  import opened HuffmanLengths
  import opened HuffmanBitLengths
  import opened HuffmanOptimal
  import opened HuffmanCodes
  import opened HuffmanBuild
  import opened CodeRuns
  import opened CodeTransmission

  /** `extra_blbits`. */
  const EXTRA_BLBITS: seq<nat> := [0, 0, 0, 0, 0, 0, 0, 0, 0, 0, 0, 0, 0, 0, 0, 0, 2, 3, 7]

  /** The bits that the uses of each symbol take. */
  function PerSymbol(tokens: seq<Token>, lens: seq<nat>): (s: seq<int>)
    requires |lens| == BL_CODES
    ensures |s| == BL_CODES && forall x :: 0 <= x < BL_CODES ==> s[x] == Times(Uses(tokens, x), lens[x] + EXTRA_BLBITS[x])
  {
    seq(BL_CODES, x requires 0 <= x < BL_CODES => Times(Uses(tokens, x), lens[x] + EXTRA_BLBITS[x]))
  }

  lemma TokenLength(t: Token, codes: seq<nat>, lens: seq<nat>)
    requires t.Legal() && |codes| >= BL_CODES && |lens| >= BL_CODES
    ensures t.Symbol() < BL_CODES && |TokenBits(t, codes, lens)| == lens[t.Symbol()] + EXTRA_BLBITS[t.Symbol()]
  {
  }

  /** Tokens take the bits of their symbols, as often as these are used. */
  lemma {:induction false} TokensLength(tokens: seq<Token>, codes: seq<nat>, lens: seq<nat>)
    requires AllLegal(tokens) && |codes| >= BL_CODES && |lens| >= BL_CODES
    ensures |TokensBits(tokens, codes, lens)| == Sum(PerSymbol(tokens, lens[..BL_CODES]))
    decreases |tokens|
  {
    hide TokenBits, Times, EXTRA_BLBITS, Sum;
    var few := lens[..BL_CODES];
    if tokens == [] {
      NoUses(few);
    } else {
      var t := tokens[0];
      assert t.Legal();
      TokensLength(tokens[1..], codes, lens);
      TokenLength(t, codes, lens);
      OneMoreUse(tokens, few);
      SumUpdate(PerSymbol(tokens[1..], few), t.Symbol(), PerSymbol(tokens, few)[t.Symbol()]);
    }
  }

  lemma NoUses(lens: seq<nat>)
    requires |lens| == BL_CODES
    ensures Sum(PerSymbol([], lens)) == 0
  {
    SumZero(PerSymbol([], lens));
  }

  lemma OneMoreUse(tokens: seq<Token>, lens: seq<nat>)
    requires tokens != [] && tokens[0].Legal() && |lens| == BL_CODES
    ensures var s := tokens[0].Symbol();
            && s < BL_CODES
            && PerSymbol(tokens, lens) == PerSymbol(tokens[1..], lens)[s := PerSymbol(tokens, lens)[s]]
            && PerSymbol(tokens, lens)[s] == PerSymbol(tokens[1..], lens)[s] + lens[s] + EXTRA_BLBITS[s]
  {
    var s := tokens[0].Symbol();
    OneMoreTime(Uses(tokens[1..], s), lens[s] + EXTRA_BLBITS[s]);
    hide Times;
    forall x | 0 <= x < BL_CODES && x != s ensures Uses(tokens, x) == Uses(tokens[1..], x) {
    }
  }

  lemma OneMoreTime(n: nat, b: nat)
    ensures Times(n + 1, b) == Times(n, b) + b
  {
  }

  /** Of a complete code with two symbols each has a code of one bit. */
  lemma TwoLengths(lens: seq<nat>, max: nat, x: nat, y: nat)
    requires x < |lens| && y < |lens| && x != y && 1 <= max && Kraft(lens, max) == Pow2(max)
    requires forall z: nat :: z < |lens| ==> lens[z] <= max && (lens[z] != 0 <==> z == x || z == y)
    ensures lens[x] == 1 && lens[y] == 1
  {
    KraftIsSum(lens, max);
    var none: seq<int> := seq(|lens|, _ => 0);
    var w := WeightsOf(lens, max);
    assert w == none[x := Weight(lens[x], max)][y := Weight(lens[y], max)];
    SumZero(none);
    SumUpdate(none, x, Weight(lens[x], max));
    SumUpdate(none[x := Weight(lens[x], max)], y, Weight(lens[y], max));
    HalfAtMost(lens[x], max);
    HalfAtMost(lens[y], max);
  }

  lemma HalfAtMost(len: nat, max: nat)
    requires 1 <= len <= max
    ensures 2 * Weight(len, max) <= Pow2(max) && (2 * Weight(len, max) == Pow2(max) ==> len == 1)
  {
    assert Pow2(max) == 2 * Pow2(max - 1);
    if len > 1 {
      Pow2Monotone(max - len, max - 2);
      assert Pow2(max - 1) == 2 * Pow2(max - 2);
    }
  }

  /** What a tally of tokens costs: forced symbols come to one bit each. */
  lemma CostExact(tokens: seq<Token>, tallied: seq<nat>, forced: seq<nat>, freq: seq<nat>, lens: seq<nat>, counts: seq<nat>, max: nat)
    requires |lens| == BL_CODES <= |tallied| && BL_CODES <= |freq| && 1 <= max
    requires forall x: nat :: x < BL_CODES ==> tallied[x] == Uses(tokens, x)
    requires exists x: nat :: x < BL_CODES && tallied[x] != 0
    requires RightlyForced(tallied, BL_CODES, forced) && forall i :: 0 <= i < |forced| ==> forced[i] < |tallied|
    requires freq[..BL_CODES] == WithForced(tallied, forced)[..BL_CODES]
    requires CompleteLengths(lens, freq, counts, max)
    ensures TotalCost(lens, freq, EXTRA_BLBITS, true) - |forced| == Sum(PerSymbol(tokens, lens))
  {
    SizeOfExtra();
    if forced == [] {
      SameCosts(tokens, tallied, freq, lens);
    } else {
      var x: nat :| OnlySymbol(tallied, BL_CODES, x) && forced == [if x < 2 then x + 1 else 0];
      OneForced(tokens, tallied, freq, lens, counts, max, x, forced[0], forced);
    }
  }

  lemma SizeOfExtra()
    ensures |EXTRA_BLBITS| == BL_CODES && forall x :: 0 <= x < 16 ==> EXTRA_BLBITS[x] == 0
  {
  }

  lemma CostAt(lens: seq<nat>, freq: seq<nat>, x: nat)
    requires |lens| == BL_CODES == |EXTRA_BLBITS| && BL_CODES <= |freq| && x < BL_CODES
    requires lens[x] == 0 <==> freq[x] == 0
    ensures Cost(lens, freq, EXTRA_BLBITS, true, x) == Times(freq[x], lens[x] + EXTRA_BLBITS[x])
  {
  }

  lemma SameCosts(tokens: seq<Token>, tallied: seq<nat>, freq: seq<nat>, lens: seq<nat>)
    requires |lens| == BL_CODES == |EXTRA_BLBITS| && BL_CODES <= |freq| && BL_CODES <= |tallied|
    requires forall x: nat :: x < BL_CODES ==> tallied[x] == Uses(tokens, x) && (lens[x] == 0 <==> freq[x] == 0)
    requires freq[..BL_CODES] == tallied[..BL_CODES]
    ensures TotalCost(lens, freq, EXTRA_BLBITS, true) == Sum(PerSymbol(tokens, lens))
  {
    var c := seq(|lens|, x requires 0 <= x < |lens| => Cost(lens, freq, EXTRA_BLBITS, true, x));
    forall x: nat | x < BL_CODES ensures c[x] == PerSymbol(tokens, lens)[x] {
      CostAt(lens, freq, x);
      assert freq[x] == freq[..BL_CODES][x] == tallied[..BL_CODES][x];
    }
    assert c == PerSymbol(tokens, lens);
  }

  lemma OneForced(tokens: seq<Token>, tallied: seq<nat>, freq: seq<nat>, lens: seq<nat>, counts: seq<nat>, max: nat, x: nat, f: nat,
                  forced: seq<nat>)
    requires |lens| == BL_CODES == |EXTRA_BLBITS| && BL_CODES <= |freq| && BL_CODES <= |tallied| && 1 <= max
    requires OnlySymbol(tallied, BL_CODES, x) && f == (if x < 2 then x + 1 else 0) && forced == [f]
    requires forall x: nat :: x < BL_CODES ==> tallied[x] == Uses(tokens, x)
    requires freq[..BL_CODES] == WithForced(tallied, forced)[..BL_CODES] && CompleteLengths(lens, freq, counts, max)
    requires EXTRA_BLBITS[f] == 0
    ensures TotalCost(lens, freq, EXTRA_BLBITS, true) - 1 == Sum(PerSymbol(tokens, lens))
  {
    hide Sum, EXTRA_BLBITS, Histogram, Uses;
    ForcedOnce(tallied, f);
    forall z: nat | z < BL_CODES ensures freq[z] == (if z == f then 1 else tallied[z]) {
      assert freq[z] == freq[..BL_CODES][z] == WithForced(tallied, forced)[..BL_CODES][z];
    }
    TwoLengths(lens, max, x, f);
    var c := seq(|lens|, z requires 0 <= z < |lens| => Cost(lens, freq, EXTRA_BLBITS, true, z));
    var p := PerSymbol(tokens, lens);
    forall z: nat | z < BL_CODES ensures c[z] == p[f := 1][z] {
      CostAt(lens, freq, z);
      OneTimesOne();
    }
    assert c == p[f := 1];
    SumUpdate(p, f, 1);
    NoTimes(lens[f] + EXTRA_BLBITS[f]);
  }

  lemma OneTimesOne()
    ensures Times(1, 1) == 1
  {
  }

  lemma NoTimes(b: nat)
    ensures Times(0, b) == 0
  {
  }

  lemma ForcedOnce(tallied: seq<nat>, f: nat)
    requires f < |tallied|
    ensures WithForced(tallied, [f]) == tallied[f := 1]
  {
    assert [f][..0] == [];
  }
}
