/** `build_bl_tree` and the tree part of `send_all_trees`: both trees of a dynamic block go out
    under a code that is built for them, and a receiver gets them back. */
module DynamicTrees {
  import opened Sums
  import opened HuffmanLengths
  import opened HuffmanBitLengths
  import opened HuffmanCodes
  import opened HuffmanBuild
  import opened BitOutput
  import opened CodeRuns
  import opened CodeTransmission
  import opened HuffmanStandard
  import opened CodeDecoding
  import Rfc = Rfc1951
  import opened DynamicLength

  /** `bl_order`: the order in which the lengths of the code-length code are sent. */
  const BL_ORDER: seq<nat> := [16, 17, 18, 0, 8, 7, 9, 6, 10, 5, 11, 4, 12, 3, 13, 2, 14, 1, 15]

  /** Everything that is used after the scans gets a code from the tree that is built on them. */
  lemma TalliedIsSendable(tokens: seq<Token>, freq: seq<nat>, codes: seq<nat>, lens: seq<nat>, counts: seq<nat>, max: nat, maxCode: int)
    requires AllLegal(tokens) && |codes| == |lens| && BL_CODES <= |freq| && BL_CODES <= |lens|
    requires forall s: nat :: s < BL_CODES && Uses(tokens, s) > 0 ==> freq[s] != 0
    requires CompleteLengths(lens[..BL_CODES], freq, counts, max) && max <= 16 && LargestCode(freq, BL_CODES, maxCode)
    requires forall x: nat :: x <= maxCode && lens[x] != 0 ==> codes[x] < Pow2(lens[x])
    ensures Sendable(tokens, codes, lens)
  {
    forall i | 0 <= i < |tokens| ensures HasCode(tokens[i].Symbol(), codes, lens) {
      var s := tokens[i].Symbol();
      assert tokens[i].Legal();
      UsedSymbol(tokens, i);
      assert freq[s] != 0;
      assert lens[..BL_CODES][s] == lens[s];
    }
  }

  /** The arrays of a dynamic block are distinct objects. */
  ghost predicate Distinct(c: Coder, bl: TreeDesc, lDl: array<nat>, dDl: array<nat>) {
    && c.Separate(bl) && lDl != dDl
    && {lDl, dDl} !! {bl.fc, bl.dl, c.heap, c.depth, c.blCount}
  }

  /** No length behind the first `blcodes` in `bl_order` is left out of what is sent. */
  ghost predicate CutAt(lens: seq<nat>, blcodes: nat) {
    |lens| == BL_CODES && 4 <= blcodes <= BL_CODES && forall k {:trigger BL_ORDER[k]} :: blcodes <= k < BL_CODES ==> lens[BL_ORDER[k]] == 0
  }

  /** The length at that place in `bl_order` is not zero. */
  ghost predicate LastSent(lens: seq<nat>, k: nat) {
    k < |BL_ORDER| && BL_ORDER[k] < |lens| && lens[BL_ORDER[k]] != 0
  }

  /** `build_bl_tree`: the index in `bl_order` of the last length to send. */
  method BuildBlTree(c: Coder, bl: TreeDesc, lDl: array<nat>, lMax: nat, dDl: array<nat>, dMax: nat) returns (maxBlindex: nat)
    requires Distinct(c, bl, lDl, dDl) && bl.elems == BL_CODES && bl.maxLength == MAX_BL_BITS
    requires bl.fc.Length == bl.dl.Length == 2 * BL_CODES + 1
    requires lMax + 1 < lDl.Length && dMax + 1 < dDl.Length && lDl[lMax] != 0
    requires forall k :: 0 <= k <= lMax ==> lDl[k] <= MAX_BITS
    requires forall k :: 0 <= k <= dMax ==> dDl[k] <= MAX_BITS
    modifies c, c.heap, c.depth, c.blCount, bl.fc, bl.dl, bl`maxCode, lDl, dDl
    ensures lDl[..] == old(lDl[..])[lMax + 1 := GUARD] && dDl[..] == old(dDl[..])[dMax + 1 := GUARD]
    ensures Guarded(lDl[..lMax + 2]) && Guarded(dDl[..dMax + 2])
    ensures Sendable(TreeTokens(lDl[..lMax + 2]), bl.fc[..], bl.dl[..])
    ensures Sendable(TreeTokens(dDl[..dMax + 2]), bl.fc[..], bl.dl[..])
    ensures Standard(bl.fc[..], bl.dl[..BL_CODES])
    ensures forall x: nat :: x < BL_CODES ==> bl.dl[x] <= MAX_BL_BITS
    ensures CutAt(bl.dl[..BL_CODES], maxBlindex + 1) && LastSent(bl.dl[..BL_CODES], maxBlindex)
    ensures old(Tally(bl.fc[..], [])) && WithExtraBits(bl) ==>
              c.optLen == old(c.optLen) + 3 * (maxBlindex + 1) + 5 + 5 + 4
                          + |BlockTreesBits(lDl[..lMax + 2], dDl[..dMax + 2], bl.fc[..], bl.dl[..])|
  {
    hide Standard, CutAt, LastSent, BL_ORDER, TokensBits, TreeTokens, Uses;
    ScanTree(lDl, bl.fc, lMax);
    ghost var l := TreeTokens(lDl[..lMax + 2]);
    ScanTree(dDl, bl.fc, dMax);
    ghost var d := TreeTokens(dDl[..dMax + 2]);
    assert lDl[..lMax + 2] == old(lDl[..])[lMax + 1 := GUARD][..lMax + 2];
    assert dDl[..dMax + 2] == old(dDl[..])[dMax + 1 := GUARD][..dMax + 2];
    TreeTokensMeaning(lDl[..lMax + 2]);
    TreeTokensMeaning(dDl[..dMax + 2]);
    if old(Tally(bl.fc[..], [])) {
      BothTallied(old(bl.fc[..]), bl.fc[..], l, d);
    }
    CodeTheTokens(c, bl, l, d);
    assert lDl[..lMax + 2][..|lDl[..lMax + 2]| - 1][lMax] == lDl[lMax];
    ghost var i := SomeLength(l, lMax);
    assert HasCode(l[i].Symbol(), bl.fc[..], bl.dl[..]);
    maxBlindex := LastLength(bl, l[i].len);
    c.optLen := c.optLen + 3 * (maxBlindex + 1) + 5 + 5 + 4;
  }

  lemma BothTallied(none: seq<nat>, freq: seq<nat>, l: seq<Token>, d: seq<Token>)
    requires Tally(none, []) && |freq| == |none|
    requires forall s: nat :: s < |freq| ==> freq[s] == none[s] + Uses(l, s) + Uses(d, s)
    ensures Tally(freq, l + d)
  {
    forall x: nat | x < BL_CODES ensures freq[x] == Uses(l + d, x) {
      UsesBoth(l, d, x);
      assert none[x] == Uses([], x) == 0;
    }
  }

  /** A tree with a code has a length among its tokens, not only repetitions. */
  lemma {:induction false} SomeLength(tokens: seq<Token>, k: nat) returns (i: nat)
    requires AllLegal(tokens) && k < |Expand(tokens)| && Expand(tokens)[k] != 0
    ensures i < |tokens| && tokens[i].Length? && tokens[i].len <= 15
    decreases |tokens|
  {
    var before, t := tokens[..|tokens| - 1], tokens[|tokens| - 1];
    assert t.Legal();
    if t.Length? {
      i := |tokens| - 1;
    } else if k < |Expand(before)| {
      i := SomeLength(before, k);
    } else {
      i := SomeLength(before, |Expand(before)| - 1);
    }
  }

  /** The loop of `build_bl_tree`: trailing zeros in `bl_order` are not sent. As some length other than those of
      the three repeat symbols is in use, at least four lengths are. */
  method LastLength(bl: TreeDesc, ghost inUse: nat) returns (maxBlindex: nat)
    requires bl.dl.Length >= BL_CODES && inUse <= 15 && bl.dl[inUse] != 0
    ensures CutAt(bl.dl[..BL_CODES], maxBlindex + 1) && LastSent(bl.dl[..BL_CODES], maxBlindex)
  {
    OrderFits();
    ghost var rank := RankOf(inUse);
    maxBlindex := BL_CODES - 1;
    while maxBlindex >= 3
      invariant rank <= maxBlindex < BL_CODES
      invariant forall k {:trigger BL_ORDER[k]} :: maxBlindex < k < BL_CODES ==> bl.dl[BL_ORDER[k]] == 0
    {
      if bl.dl[BL_ORDER[maxBlindex]] != 0 {
        break;
      }
      maxBlindex := maxBlindex - 1;
    }
  }

  /** `bl_order` names each of the 19 symbols once. */
  lemma OrderFits()
    ensures |BL_ORDER| == BL_CODES && forall k :: 0 <= k < BL_CODES ==> BL_ORDER[k] < BL_CODES
    ensures forall j, k :: 0 <= j < k < BL_CODES ==> BL_ORDER[j] != BL_ORDER[k]
    ensures forall x: nat :: x < BL_CODES ==> x in BL_ORDER
    ensures BL_ORDER[0] > 15 && BL_ORDER[1] > 15 && BL_ORDER[2] > 15
  {
  }

  lemma RankOf(x: nat) returns (rank: nat)
    requires x < BL_CODES
    ensures rank < BL_CODES && BL_ORDER[rank] == x && (x <= 15 ==> rank >= 3)
  {
    OrderFits();
    hide BL_ORDER;
    assert x in BL_ORDER;
    rank :| rank < |BL_ORDER| && BL_ORDER[rank] == x;
  }

  /** Frequencies that count exactly these tokens, in a tree with the extra bits of the code-length code. */
  ghost predicate Tally(freq: seq<nat>, tokens: seq<Token>) {
    |freq| >= BL_CODES && forall x: nat :: x < BL_CODES ==> freq[x] == Uses(tokens, x)
  }

  ghost predicate WithExtraBits(bl: TreeDesc) {
    bl.extraBase == 0 && bl.extraBits == EXTRA_BLBITS
  }

  /** What `build_tree` adds to `opt_len` for them is what they take on the wire. */
  lemma TokensCost(bl: TreeDesc, l: seq<Token>, d: seq<Token>, tallied: seq<nat>, forced: seq<nat>, freq: seq<nat>,
                   codes: seq<nat>, lens: seq<nat>, counts: seq<nat>)
    requires bl.Valid() && bl.elems == BL_CODES && WithExtraBits(bl) && Tally(tallied, l + d) && l != []
    requires AllLegal(l) && AllLegal(d) && |codes| >= BL_CODES && |lens| >= BL_CODES && |freq| >= BL_CODES
    requires RightlyForced(tallied, BL_CODES, forced) && forall i :: 0 <= i < |forced| ==> forced[i] < |tallied|
    requires freq[..BL_CODES] == WithForced(tallied, forced)[..BL_CODES]
    requires CompleteLengths(lens[..BL_CODES], freq, counts, MAX_BL_BITS)
    ensures Dot(lens[..BL_CODES], freq) + Extras(freq[..BL_CODES], bl.extraBase, bl.extraBits) - |forced|
         == |TokensBits(l, codes, lens)| + |TokensBits(d, codes, lens)|
  {
    hide *;
    FirstUse(tallied, l, d);
    TallyCost(bl, l + d, tallied, forced, freq, lens[..BL_CODES], counts);
    WireLength(l, d, codes, lens);
  }

  lemma TallyCost(bl: TreeDesc, tokens: seq<Token>, tallied: seq<nat>, forced: seq<nat>, freq: seq<nat>, lens: seq<nat>, counts: seq<nat>)
    requires |lens| == BL_CODES <= |freq| && WithExtraBits(bl) && Tally(tallied, tokens)
    requires exists x: nat :: x < BL_CODES && tallied[x] != 0
    requires RightlyForced(tallied, BL_CODES, forced) && forall i :: 0 <= i < |forced| ==> forced[i] < |tallied|
    requires freq[..BL_CODES] == WithForced(tallied, forced)[..BL_CODES]
    requires CompleteLengths(lens, freq, counts, MAX_BL_BITS)
    ensures |bl.extraBits| == BL_CODES
    ensures Dot(lens, freq) + Extras(freq[..BL_CODES], bl.extraBase, bl.extraBits) - |forced| == Sum(PerSymbol(tokens, lens))
  {
    hide *;
    TallyParts(tallied, tokens);
    CostExact(tokens, tallied, forced, freq, lens, counts, MAX_BL_BITS);
    CostIs(bl, lens, freq, counts);
  }

  lemma WireLength(l: seq<Token>, d: seq<Token>, codes: seq<nat>, lens: seq<nat>)
    requires AllLegal(l) && AllLegal(d) && |codes| >= BL_CODES && |lens| >= BL_CODES
    ensures |codes| > REPZ_11_138 && |lens| > REPZ_11_138
    ensures Sum(PerSymbol(l + d, lens[..BL_CODES])) == |TokensBits(l, codes, lens)| + |TokensBits(d, codes, lens)|
  {
    hide *;
    AlphabetSize();
    BothLegal(l, d);
    TokensBitsBoth(l, d, codes, lens);
    TokensLength(l + d, codes, lens);
  }

  lemma AlphabetSize()
    ensures BL_CODES == 19 && REPZ_11_138 == 18
  {
  }

  lemma TallyParts(freq: seq<nat>, tokens: seq<Token>)
    requires Tally(freq, tokens)
    ensures |freq| >= BL_CODES && forall x: nat :: x < BL_CODES ==> freq[x] == Uses(tokens, x)
    ensures BL_CODES == 19 && MAX_BL_BITS == 7 && REPZ_11_138 == 18
  {
    hide Uses;
  }

  lemma FirstUse(tallied: seq<nat>, l: seq<Token>, d: seq<Token>)
    requires Tally(tallied, l + d) && l != [] && AllLegal(l)
    ensures exists x: nat :: x < BL_CODES && tallied[x] != 0
  {
    assert l[0].Legal() && (l + d)[0] == l[0];
    UsedSymbol(l + d, 0);
    hide Uses;
    assert l[0].Symbol() < BL_CODES && tallied[l[0].Symbol()] != 0;
  }

  lemma CostIs(bl: TreeDesc, lens: seq<nat>, freq: seq<nat>, counts: seq<nat>)
    requires |lens| == BL_CODES <= |freq| && WithExtraBits(bl) && CompleteLengths(lens, freq, counts, MAX_BL_BITS)
    ensures |bl.extraBits| == |EXTRA_BLBITS| == BL_CODES
    ensures Dot(lens, freq) + Extras(freq[..BL_CODES], bl.extraBase, bl.extraBits) == TotalCost(lens, freq, EXTRA_BLBITS, true)
  {
    hide TotalCost, Dot, Extras, Kraft, Histogram;
    var none := seq(BL_CODES, _ => 0);
    MessageCost(lens, freq, none, 0, EXTRA_BLBITS, EXTRA_BLBITS, true);
    DotZero(freq[..BL_CODES], none);
  }

  method CodeTheTokens(c: Coder, bl: TreeDesc, ghost l: seq<Token>, ghost d: seq<Token>)
    requires c.Separate(bl) && bl.elems == BL_CODES && bl.maxLength == MAX_BL_BITS
    requires AllLegal(l) && AllLegal(d)
    requires forall s: nat :: s < bl.fc.Length && (Uses(l, s) > 0 || Uses(d, s) > 0) ==> bl.fc[s] > 0
    modifies c, c.heap, c.depth, c.blCount, bl.fc, bl.dl, bl`maxCode
    ensures Sendable(l, bl.fc[..], bl.dl[..]) && Sendable(d, bl.fc[..], bl.dl[..])
    ensures Standard(bl.fc[..], bl.dl[..BL_CODES])
    ensures forall x: nat :: x < BL_CODES ==> bl.dl[x] <= MAX_BL_BITS
    ensures old(Tally(bl.fc[..], l + d)) && WithExtraBits(bl) && l != [] ==>
              c.optLen == old(c.optLen) + |TokensBits(l, bl.fc[..], bl.dl[..])| + |TokensBits(d, bl.fc[..], bl.dl[..])|
  {
    ghost var tallied := bl.fc[..];
    ghost var freq, forced, list, dad := BuildTree(c, bl);
    hide Decodable, Sendable, TreeList, HuffmanList, Uses, Kraft, RarerLonger, Standard, AllStored, RightlyForced, WithForced,
      Tally, WithExtraBits, TokensBits, Dot, Extras;
    ForcedKeepsUsed(tallied, forced, freq, BL_CODES);
    ghost var lens := bl.dl[..];
    assert lens[..BL_CODES] == bl.dl[..BL_CODES];
    CodesFit(bl.fc[..], lens[..BL_CODES]);
    assert forall x: nat :: x < BL_CODES ==> lens[x] == lens[..BL_CODES][x];
    TalliedIsSendable(l, freq, bl.fc[..], lens, c.blCount[..], MAX_BL_BITS, bl.maxCode);
    TalliedIsSendable(d, freq, bl.fc[..], lens, c.blCount[..], MAX_BL_BITS, bl.maxCode);
    forall x: nat | x < BL_CODES ensures bl.dl[x] <= MAX_BL_BITS {
      assert bl.dl[x] == lens[..BL_CODES][x];
    }
    if Tally(tallied, l + d) && WithExtraBits(bl) && l != [] {
      TokensCost(bl, l, d, tallied, forced, freq, bl.fc[..], lens, c.blCount[..]);
    }
  }

  lemma CodesFit(codes: seq<nat>, lens: seq<nat>)
    requires Standard(codes, lens)
    ensures forall x: nat :: x < |lens| && lens[x] != 0 ==> codes[x] < Pow2(lens[x])
  {
    hide Kraft, Pow2, Rfc.Code;
  }

  lemma {:induction false} ForcedKeepsUsed(freq: seq<nat>, forced: seq<nat>, freq': seq<nat>, elems: nat)
    requires elems <= |freq| && elems <= |freq'|
    requires forall i :: 0 <= i < |forced| ==> forced[i] < elems
    requires freq'[..elems] == WithForced(freq, forced)[..elems]
    ensures forall s: nat :: s < elems && freq[s] != 0 ==> freq'[s] != 0
  {
    forall s: nat | s < elems && freq[s] != 0 ensures freq'[s] != 0 {
      ForcedNonZero(freq, forced, s);
      assert freq'[s] == freq'[..elems][s] == WithForced(freq, forced)[..elems][s];
    }
  }

  lemma {:induction false} ForcedNonZero(freq: seq<nat>, forced: seq<nat>, s: nat)
    requires s < |freq| && freq[s] != 0 && forall i :: 0 <= i < |forced| ==> forced[i] < |freq|
    ensures WithForced(freq, forced)[s] != 0
    decreases |forced|
  {
    if forced != [] {
      ForcedNonZero(freq, forced[..|forced| - 1], s);
    }
  }

  /** What both trees of a block look like on the wire. */
  ghost function BlockTreesBits(l: seq<nat>, d: seq<nat>, codes: seq<nat>, lens: seq<nat>): seq<bool>
    requires Guarded(l) && Guarded(d)
    requires Sendable(TreeTokens(l), codes, lens) && Sendable(TreeTokens(d), codes, lens)
  {
    TokensBits(TreeTokens(l), codes, lens) + TokensBits(TreeTokens(d), codes, lens)
  }

  /** The two `send_tree` calls of `send_all_trees`. */
  method SendTrees(w: BitWriter, bl: TreeDesc, lDl: array<nat>, lMax: nat, dDl: array<nat>, dMax: nat)
    requires w.Valid() && bl.fc.Length == bl.dl.Length == 2 * BL_CODES + 1
    requires lMax + 1 < lDl.Length && dMax + 1 < dDl.Length
    requires Guarded(lDl[..lMax + 2]) && Guarded(dDl[..dMax + 2])
    requires Sendable(TreeTokens(lDl[..lMax + 2]), bl.fc[..], bl.dl[..])
    requires Sendable(TreeTokens(dDl[..dMax + 2]), bl.fc[..], bl.dl[..])
    modifies w
    ensures w.Valid()
    ensures w.Bits() == old(w.Bits()) + BlockTreesBits(lDl[..lMax + 2], dDl[..dMax + 2], bl.fc[..], bl.dl[..])
  {
    hide TreeTokens, TokensBits, Sendable, Guarded;
    SendTree(w, lDl, lMax, bl.fc, bl.dl);
    SendTree(w, dDl, dMax, bl.fc, bl.dl);
  }

  /** A receiver by the standard that knows the lengths of the code-length code and the two counts reads back the literal
      tree's lengths and then the distance tree's, and stops exactly where the trees end. */
  lemma TreesReceived(l: seq<nat>, d: seq<nat>, codes: seq<nat>, lens: seq<nat>, rest: seq<bool>)
    requires Guarded(l) && Guarded(d) && |codes| == |lens| >= BL_CODES
    requires Sendable(TreeTokens(l), codes, lens) && Sendable(TreeTokens(d), codes, lens)
    requires Standard(codes[..BL_CODES], lens[..BL_CODES])
    ensures var literal := Rfc.ReadLengths(BlockTreesBits(l, d, codes, lens) + rest, lens[..19], |l| - 1, []);
            && literal.Received? && literal.value == l[..|l| - 1]
            && Rfc.ReadLengths(literal.rest, lens[..19], |d| - 1, []) == Rfc.Received(d[..|d| - 1], rest)
  {
    var cs, ls := codes[..BL_CODES], lens[..BL_CODES];
    OnlyTheAlphabet(TreeTokens(l), codes, lens);
    OnlyTheAlphabet(TreeTokens(d), codes, lens);
    var first, second := TokensBits(TreeTokens(l), codes, lens), TokensBits(TreeTokens(d), codes, lens);
    assert first + second + rest == first + (second + rest);
    hide Rfc.ReadLengths, TokensBits, TreeTokens, Sendable, Standard, Guarded;
    TreeReceived(l, second + rest, cs, ls);
    TreeReceived(d, rest, cs, ls);
  }

  /** Tokens use the first 19 symbols only; the inner nodes behind them do not matter. */
  lemma {:induction false} OnlyTheAlphabet(tokens: seq<Token>, codes: seq<nat>, lens: seq<nat>)
    requires Sendable(tokens, codes, lens) && BL_CODES <= |codes|
    ensures Sendable(tokens, codes[..BL_CODES], lens[..BL_CODES])
    ensures TokensBits(tokens, codes[..BL_CODES], lens[..BL_CODES]) == TokensBits(tokens, codes, lens)
    decreases |tokens|
  {
    forall i | 0 <= i < |tokens| ensures HasCode(tokens[i].Symbol(), codes[..BL_CODES], lens[..BL_CODES]) {
      assert tokens[i].Legal() && HasCode(tokens[i].Symbol(), codes, lens);
    }
    if tokens != [] {
      SendableTail(tokens, codes, lens);
      OnlyTheAlphabet(tokens[1..], codes, lens);
    }
  }
}
