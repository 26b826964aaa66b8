/** `send_all_trees`: the header of a block with dynamic trees, which a receiver by RFC 1951 alone reads back. */
module DynamicHeader {
  import opened Common
  import opened Sums
  import opened HuffmanBitLengths
  import opened HuffmanCodes
  import opened HuffmanBuild
  import opened BitOutput
  import opened CodeRuns
  import opened CodeTransmission
  import opened HuffmanStandard
  import opened CodeDecoding
  import opened DynamicLength
  import opened DynamicTrees
  import Rfc = Rfc1951

  // The sender

  /** The lengths of the code-length code, in `bl_order`, three bits each. */
  function OrderedBits(lens: seq<nat>, n: nat): seq<bool>
    requires |lens| == BL_CODES && n <= BL_CODES
  {
    if n == 0 then [] else OrderedBits(lens, n - 1) + LsbBits(lens[BL_ORDER[n - 1]], 3)
  }

  /** The counts, five, five and four bits, and those lengths. */
  function HeaderBits(lcodes: nat, dcodes: nat, blcodes: nat, lens: seq<nat>): seq<bool>
    requires 257 <= lcodes && 1 <= dcodes && 4 <= blcodes <= BL_CODES == |lens|
  {
    LsbBits(lcodes - 257, 5) + LsbBits(dcodes - 1, 5) + LsbBits(blcodes - 4, 4) + OrderedBits(lens, blcodes)
  }

  ghost predicate Short(lens: seq<nat>) {
    |lens| == BL_CODES && forall x :: 0 <= x < BL_CODES ==> lens[x] <= MAX_BL_BITS
  }

  /** `send_all_trees`. */
  method SendAllTrees(w: BitWriter, bl: TreeDesc, lDl: array<nat>, lcodes: nat, dDl: array<nat>, dcodes: nat, blcodes: nat)
    requires w.Valid() && bl.fc.Length == bl.dl.Length == 2 * BL_CODES + 1 && Short(bl.dl[..BL_CODES])
    requires 257 <= lcodes <= L_CODES && 1 <= dcodes <= D_CODES && 4 <= blcodes <= BL_CODES
    requires lcodes < lDl.Length && dcodes < dDl.Length
    requires Guarded(lDl[..lcodes + 1]) && Guarded(dDl[..dcodes + 1])
    requires Sendable(TreeTokens(lDl[..lcodes + 1]), bl.fc[..], bl.dl[..])
    requires Sendable(TreeTokens(dDl[..dcodes + 1]), bl.fc[..], bl.dl[..])
    modifies w
    ensures w.Valid()
    ensures w.Bits() == old(w.Bits()) + HeaderBits(lcodes, dcodes, blcodes, bl.dl[..BL_CODES])
                        + BlockTreesBits(lDl[..lcodes + 1], dDl[..dcodes + 1], bl.fc[..], bl.dl[..])
  {
    hide TreeTokens, TokensBits, Sendable, Guarded, LsbBits, Pow2, BlockTreesBits, BL_ORDER, Short;
    SmallFields(lcodes, dcodes, blcodes);
    w.SendBits(lcodes - 257, 5);
    w.SendBits(dcodes - 1, 5);
    w.SendBits(blcodes - 4, 4);
    SendLengths(w, bl, blcodes);
    SendTrees(w, bl, lDl, lcodes - 1, dDl, dcodes - 1);
    Together(old(w.Bits()), LsbBits(lcodes - 257, 5), LsbBits(dcodes - 1, 5), LsbBits(blcodes - 4, 4),
             OrderedBits(bl.dl[..BL_CODES], blcodes), BlockTreesBits(lDl[..lcodes + 1], dDl[..dcodes + 1], bl.fc[..], bl.dl[..]));
  }

  lemma SmallFields(lcodes: nat, dcodes: nat, blcodes: nat)
    requires 257 <= lcodes <= L_CODES && 1 <= dcodes <= D_CODES && 4 <= blcodes <= BL_CODES
    ensures lcodes - 257 < Pow2(5) && dcodes - 1 < Pow2(5) && blcodes - 4 < Pow2(4) && MAX_BL_BITS < Pow2(3)
  {
    assert Pow2(3) == 8;
    assert Pow2(4) == 2 * Pow2(3);
    assert Pow2(5) == 2 * Pow2(4);
  }

  lemma Together(s: seq<bool>, a: seq<bool>, b: seq<bool>, c: seq<bool>, d: seq<bool>, e: seq<bool>)
    ensures s + a + b + c + d + e == s + (a + b + c + d) + e
  {
  }

  /** The loop over `bl_order`. */
  method SendLengths(w: BitWriter, bl: TreeDesc, blcodes: nat)
    requires w.Valid() && bl.dl.Length == 2 * BL_CODES + 1 && Short(bl.dl[..BL_CODES]) && 4 <= blcodes <= BL_CODES
    modifies w
    ensures w.Valid() && w.Bits() == old(w.Bits()) + OrderedBits(bl.dl[..BL_CODES], blcodes)
  {
    hide LsbBits, Pow2, BL_ORDER, BitWriter.Bits;
    OrderFits();
    SmallFields(257, 1, blcodes);
    ghost var lens := bl.dl[..BL_CODES];
    for rank := 0 to blcodes
      invariant w.Valid() && lens == bl.dl[..BL_CODES] && w.Bits() == old(w.Bits()) + OrderedBits(lens, rank)
    {
      assert bl.dl[BL_ORDER[rank]] == lens[BL_ORDER[rank]];
      w.SendBits(bl.dl[BL_ORDER[rank]], 3);
    }
  }

  // What is sent is received

  lemma CountsReceived(lcodes: nat, dcodes: nat, blcodes: nat, rest: seq<bool>)
    requires 257 <= lcodes <= L_CODES && 1 <= dcodes <= D_CODES && 4 <= blcodes <= BL_CODES
    ensures Rfc.ReadCounts(LsbBits(lcodes - 257, 5) + LsbBits(dcodes - 1, 5) + LsbBits(blcodes - 4, 4) + rest)
         == Rfc.Received((lcodes, dcodes, blcodes), rest)
  {
    SmallFields(lcodes, dcodes, blcodes);
    hide LsbBits, Rfc.ReadNumber, Pow2;
    var a, b, c := LsbBits(lcodes - 257, 5), LsbBits(dcodes - 1, 5), LsbBits(blcodes - 4, 4);
    assert a + b + c + rest == a + (b + (c + rest));
    ReadsSent(lcodes - 257, 5, b + (c + rest));
    ReadsSent(dcodes - 1, 5, c + rest);
    ReadsSent(blcodes - 4, 4, rest);
  }

  /** The lengths of the first n ranks, zero for the others. */
  ghost predicate KnownTo(known: seq<nat>, lens: seq<nat>, n: nat) {
    && |known| == |lens| == BL_CODES
    && forall k {:trigger BL_ORDER[k]} :: 0 <= k < BL_CODES ==> known[BL_ORDER[k]] == if k < n then lens[BL_ORDER[k]] else 0
  }

  lemma KnownNext(known: seq<nat>, lens: seq<nat>, rank: nat)
    requires KnownTo(known, lens, rank) && rank < BL_CODES
    ensures KnownTo(known[BL_ORDER[rank] := lens[BL_ORDER[rank]]], lens, rank + 1)
  {
    OrderFits();
    hide BL_ORDER;
  }

  lemma KnownAll(known: seq<nat>, lens: seq<nat>, n: nat)
    requires KnownTo(known, lens, n) && CutAt(lens, n)
    ensures known == lens
  {
    OrderFits();
    hide BL_ORDER;
    forall x: nat | x < BL_CODES ensures known[x] == lens[x] {
      var rank := RankOf(x);
      assert known[BL_ORDER[rank]] == if rank < n then lens[BL_ORDER[rank]] else 0;
    }
  }

  /** The bits of the ranks from `rank` on. */
  function OrderedFrom(lens: seq<nat>, rank: nat, n: nat): seq<bool>
    requires |lens| == BL_CODES && n <= BL_CODES
    decreases n - rank
  {
    if rank >= n then [] else LsbBits(lens[BL_ORDER[rank]], 3) + OrderedFrom(lens, rank + 1, n)
  }

  lemma {:induction false} FromRank(lens: seq<nat>, rank: nat, n: nat)
    requires |lens| == BL_CODES && rank <= n <= BL_CODES
    ensures OrderedBits(lens, n) == OrderedBits(lens, rank) + OrderedFrom(lens, rank, n)
    decreases n - rank
  {
    hide LsbBits, BL_ORDER;
    if rank < n {
      OrderFits();
      FromRank(lens, rank + 1, n);
      assert OrderedBits(lens, rank) + (LsbBits(lens[BL_ORDER[rank]], 3) + OrderedFrom(lens, rank + 1, n))
          == OrderedBits(lens, rank) + LsbBits(lens[BL_ORDER[rank]], 3) + OrderedFrom(lens, rank + 1, n);
    }
  }

  lemma {:induction false} OrderedReceived(lens: seq<nat>, n: nat, rank: nat, known: seq<nat>, rest: seq<bool>)
    requires Short(lens) && CutAt(lens, n) && rank <= n && KnownTo(known, lens, rank)
    ensures Rfc.ReadOrdered(OrderedFrom(lens, rank, n) + rest, n, rank, known) == Rfc.Received(lens, rest)
    decreases n - rank
  {
    OrderIs();
    hide LsbBits, Rfc.ReadNumber, BL_ORDER, Pow2, KnownTo, Rfc.ORDER;
    OrderFits();
    KnownSize(known, lens, rank);
    if rank < n {
      SmallFields(257, 1, 4);
      var first, more := LsbBits(lens[BL_ORDER[rank]], 3), OrderedFrom(lens, rank + 1, n) + rest;
      assert OrderedFrom(lens, rank, n) + rest == first + more;
      ReadsSent(lens[BL_ORDER[rank]], 3, more);
      KnownNext(known, lens, rank);
      OrderedReceived(lens, n, rank + 1, known[BL_ORDER[rank] := lens[BL_ORDER[rank]]], rest);
    } else {
      KnownAll(known, lens, n);
      assert OrderedFrom(lens, rank, n) + rest == rest;
    }
  }

  /** The order in which the source sends is that of the standard. */
  lemma OrderIs()
    ensures BL_ORDER == Rfc.ORDER
  {
  }

  lemma KnownSize(known: seq<nat>, lens: seq<nat>, n: nat)
    requires KnownTo(known, lens, n)
    ensures |known| == |lens| == BL_CODES
  {
  }

  lemma NothingKnown(lens: seq<nat>)
    requires |lens| == BL_CODES
    ensures KnownTo(Rfc.Repeated(0, 19), lens, 0)
  {
    OrderFits();
    hide BL_ORDER;
  }

  /** Tokens mean the same after other tokens, unless they begin with a copy of what was there. */
  lemma {:induction false} ExpandBoth(a: seq<Token>, b: seq<Token>)
    requires AllLegal(b) && (b != [] ==> !b[0].CopyPrevious?)
    ensures Expand(a + b) == Expand(a) + Expand(b) && (b != [] ==> Expand(b) != [])
    decreases |b|
  {
    hide *;
    NothingExpands();
    if b == [] {
      assert a + b == a;
    } else {
      var before, t := b[..|b| - 1], b[|b| - 1];
      LegalParts(b);
      ExpandBoth(a, before);
      ExpandOne(a + before, t);
      assert b == before + [t] && a + b == a + before + [t];
      ExpandOne(before, t);
      MeaningAfter(Expand(a), Expand(before), t);
    }
  }

  lemma LegalParts(b: seq<Token>)
    requires AllLegal(b) && b != []
    ensures AllLegal(b[..|b| - 1]) && b[|b| - 1].Legal()
  {
  }

  lemma MeaningAfter(a: seq<nat>, before: seq<nat>, t: Token)
    requires t.Legal() && (before != [] || !t.CopyPrevious?)
    ensures a + before + Meaning(t, a + before) == a + (before + Meaning(t, before)) && Meaning(t, before) != []
  {
  }

  /** The tokens of both trees, decoded as one sequence. */
  lemma BothReceived(l: seq<nat>, d: seq<nat>, codes: seq<nat>, lens: seq<nat>, rest: seq<bool>)
    requires Guarded(l) && Guarded(d) && |codes| == |lens| == BL_CODES
    requires Sendable(TreeTokens(l), codes, lens) && Sendable(TreeTokens(d), codes, lens) && Standard(codes, lens)
    ensures Rfc.ReadLengths(TokensBits(TreeTokens(l), codes, lens) + TokensBits(TreeTokens(d), codes, lens) + rest, lens,
                            |l| - 1 + (|d| - 1), [])
         == Rfc.Received(l[..|l| - 1] + d[..|d| - 1], rest)
  {
    hide Rfc.ReadLengths, TokensBits, Standard, Expand, TreeTokens, HasCode;
    var a, b := TreeTokens(l), TreeTokens(d);
    TreeTokensMeaning(l);
    TreeTokensMeaning(d);
    NoCopyFirst(l);
    NoCopyFirst(d);
    ExpandBoth(a, b);
    BothSendable(a, b, codes, lens);
    TokensBitsBoth(a, b, codes, lens);
    NoCopyOfBoth(a, b);
    NothingExpands();
    LengthsReceived([], a + b, rest, codes, lens);
    assert [] + (a + b) == a + b;
  }

  lemma NothingExpands()
    ensures Expand([]) == []
  {
  }

  lemma NoCopyFirst(lens: seq<nat>)
    requires Guarded(lens)
    ensures TreeTokens(lens) != [] ==> !TreeTokens(lens)[0].CopyPrevious?
  {
    if TreeTokens(lens) != [] {
      FirstIsNoCopy(lens, 0, 0);
    }
  }

  lemma NoCopyOfBoth(a: seq<Token>, b: seq<Token>)
    requires (a != [] ==> !a[0].CopyPrevious?) && (b != [] ==> !b[0].CopyPrevious?)
    ensures a + b != [] ==> !(a + b)[0].CopyPrevious?
  {
  }

  lemma BothSendable(a: seq<Token>, b: seq<Token>, codes: seq<nat>, lens: seq<nat>)
    requires Sendable(a, codes, lens) && Sendable(b, codes, lens)
    ensures AllLegal(a) && AllLegal(b) && Sendable(a + b, codes, lens)
  {
    hide HasCode, Token.Legal;
  }

  /** Whoever reads by the standard alone gets both trees back, and stops exactly behind them. */
  lemma HeaderReceived(l: seq<nat>, d: seq<nat>, codes: seq<nat>, lens: seq<nat>, blcodes: nat, rest: seq<bool>)
    requires Guarded(l) && Guarded(d) && 257 <= |l| - 1 <= L_CODES && 1 <= |d| - 1 <= D_CODES
    requires |codes| == |lens| >= BL_CODES && Short(lens[..BL_CODES]) && CutAt(lens[..BL_CODES], blcodes)
    requires Sendable(TreeTokens(l), codes, lens) && Sendable(TreeTokens(d), codes, lens)
    requires Standard(codes[..BL_CODES], lens[..BL_CODES])
    ensures Rfc.ReadTrees(HeaderBits(|l| - 1, |d| - 1, blcodes, lens[..BL_CODES]) + BlockTreesBits(l, d, codes, lens) + rest)
         == Rfc.Received((l[..|l| - 1], d[..|d| - 1]), rest)
  {
    hide *;
    CutSizes(lens[..BL_CODES], blcodes);
    var cs, ls := codes[..BL_CODES], lens[..BL_CODES];
    OnlyTheAlphabet(TreeTokens(l), codes, lens);
    OnlyTheAlphabet(TreeTokens(d), codes, lens);
    BothReceived(l, d, cs, ls, rest);
    var trees := TokensBits(TreeTokens(l), cs, ls) + TokensBits(TreeTokens(d), cs, ls);
    BlockTreesAre(l, d, codes, lens);
    FromRank(ls, 0, blcodes);
    NothingKnown(ls);
    NoneOrdered(ls);
    OrderedReceived(ls, blcodes, 0, Rfc.Repeated(0, 19), trees + rest);
    CountsReceived(|l| - 1, |d| - 1, blcodes, OrderedBits(ls, blcodes) + (trees + rest));
    HeaderIs(|l| - 1, |d| - 1, blcodes, ls, trees, rest);
    GuardedSize(l);
    GuardedSize(d);
    TreesRead(HeaderBits(|l| - 1, |d| - 1, blcodes, ls) + trees + rest, |l| - 1, |d| - 1, blcodes, OrderedBits(ls, blcodes) + (trees + rest),
              ls, trees + rest, l[..|l| - 1], d[..|d| - 1], rest);
  }

  lemma CutSizes(lens: seq<nat>, blcodes: nat)
    requires CutAt(lens, blcodes)
    ensures |lens| == BL_CODES && 4 <= blcodes <= BL_CODES && BL_CODES == 19
  {
  }

  lemma GuardedSize(lens: seq<nat>)
    requires Guarded(lens)
    ensures |lens| >= 1
  {
  }

  lemma NoneOrdered(lens: seq<nat>)
    requires |lens| == BL_CODES
    ensures OrderedBits(lens, 0) == [] && forall s: seq<bool> :: [] + s == s
  {
  }

  lemma BlockTreesAre(l: seq<nat>, d: seq<nat>, codes: seq<nat>, lens: seq<nat>)
    requires Guarded(l) && Guarded(d) && Sendable(TreeTokens(l), codes, lens) && Sendable(TreeTokens(d), codes, lens)
    ensures AllLegal(TreeTokens(l)) && AllLegal(TreeTokens(d)) && |codes| > REPZ_11_138 && |lens| > REPZ_11_138
    ensures BlockTreesBits(l, d, codes, lens) == TokensBits(TreeTokens(l), codes, lens) + TokensBits(TreeTokens(d), codes, lens)
  {
    hide TreeTokens, TokensBits, Guarded;
  }

  lemma HeaderIs(lcodes: nat, dcodes: nat, blcodes: nat, lens: seq<nat>, trees: seq<bool>, rest: seq<bool>)
    requires 257 <= lcodes && 1 <= dcodes && 4 <= blcodes <= BL_CODES == |lens|
    ensures HeaderBits(lcodes, dcodes, blcodes, lens) + trees + rest
         == LsbBits(lcodes - 257, 5) + LsbBits(dcodes - 1, 5) + LsbBits(blcodes - 4, 4) + (OrderedBits(lens, blcodes) + (trees + rest))
  {
    hide LsbBits, OrderedBits;
  }

  lemma TreesRead(bits: seq<bool>, lcodes: nat, dcodes: nat, blcodes: nat, after: seq<bool>, lens: seq<nat>, trees: seq<bool>,
                  l: seq<nat>, d: seq<nat>, rest: seq<bool>)
    requires Rfc.ReadCounts(bits) == Rfc.Received((lcodes, dcodes, blcodes), after) && blcodes <= 19
    requires Rfc.ReadOrdered(after, blcodes, 0, Rfc.Repeated(0, 19)) == Rfc.Received(lens, trees)
    requires Rfc.ReadLengths(trees, lens, lcodes + dcodes, []) == Rfc.Received(l + d, rest)
    requires |l| == lcodes && |d| == dcodes
    ensures Rfc.ReadTrees(bits) == Rfc.Received((l, d), rest)
  {
    hide Rfc.ReadCounts, Rfc.ReadOrdered, Rfc.ReadLengths;
    assert (l + d)[..lcodes] == l && (l + d)[lcodes..] == d;
  }

  // From the lengths of two trees to the bits of a block

  lemma {:induction false} OrderedLength(lens: seq<nat>, n: nat)
    requires |lens| == BL_CODES && n <= BL_CODES
    ensures |OrderedBits(lens, n)| == 3 * n
  {
    if n > 0 {
      OrderFits();
      OrderedLength(lens, n - 1);
    }
  }

  lemma HeaderLength(lcodes: nat, dcodes: nat, blcodes: nat, lens: seq<nat>)
    requires 257 <= lcodes && 1 <= dcodes && 4 <= blcodes <= BL_CODES == |lens|
    ensures |HeaderBits(lcodes, dcodes, blcodes, lens)| == 5 + 5 + 4 + 3 * blcodes
  {
    OrderedLength(lens, blcodes);
    hide LsbBits, OrderedBits;
  }

  /** The calls of `build_bl_tree` and `send_all_trees` in `flush_block`: `opt_len`, by which the form of the block is
      chosen in between, has grown by exactly the bits that are sent then, and whoever reads by the standard alone gets
      both trees back from them, whatever follows. */
  method SendDynamicTrees(w: BitWriter, c: Coder, bl: TreeDesc, lDl: array<nat>, lMax: nat, dDl: array<nat>, dMax: nat)
    requires w.Valid() && Distinct(c, bl, lDl, dDl) && bl.elems == BL_CODES && bl.maxLength == MAX_BL_BITS
    requires bl.fc.Length == bl.dl.Length == 2 * BL_CODES + 1 && WithExtraBits(bl) && Tally(bl.fc[..], [])
    requires lMax + 1 < lDl.Length && dMax + 1 < dDl.Length && lDl[lMax] != 0
    requires 256 <= lMax < L_CODES && dMax < D_CODES
    requires forall k :: 0 <= k <= lMax ==> lDl[k] <= MAX_BITS
    requires forall k :: 0 <= k <= dMax ==> dDl[k] <= MAX_BITS
    modifies w, c, c.heap, c.depth, c.blCount, bl.fc, bl.dl, bl`maxCode, lDl, dDl
    ensures w.Valid() && |w.Bits()| >= |old(w.Bits())| && w.Bits()[..|old(w.Bits())|] == old(w.Bits())
    ensures c.optLen - old(c.optLen) == |w.Bits()| - |old(w.Bits())|
    ensures var sent := w.Bits()[|old(w.Bits())|..];
            forall rest: seq<bool> :: Rfc.ReadTrees(sent + rest) == Rfc.Received((old(lDl[..lMax + 1]), old(dDl[..dMax + 1])), rest)
  {
    hide *;
    TreeLimits();
    ghost var l, d, before := lDl[..lMax + 1], dDl[..dMax + 1], w.Bits();
    var maxBlindex := BuildBlTree(c, bl, lDl, lMax, dDl, dMax);
    ghost var fc, dl, gl, gd := bl.fc[..], bl.dl[..], lDl[..lMax + 2], dDl[..dMax + 2];
    assert gl[..|gl| - 1] == l && gd[..|gd| - 1] == d;
    assert dl[..BL_CODES] == bl.dl[..BL_CODES] && fc[..BL_CODES] == bl.fc[..BL_CODES];
    ShortJoin(dl[..BL_CODES]);
    CutSizes(dl[..BL_CODES], maxBlindex + 1);
    SendAllTrees(w, bl, lDl, lMax + 1, dDl, dMax + 1, maxBlindex + 1);
    HeaderLength(lMax + 1, dMax + 1, maxBlindex + 1, dl[..BL_CODES]);
    ghost var header, trees := HeaderBits(lMax + 1, dMax + 1, maxBlindex + 1, dl[..BL_CODES]), BlockTreesBits(gl, gd, fc, dl);
    SentBehind(before, header, trees, w.Bits());
    PrefixStandard(fc, dl);
    forall rest: seq<bool> ensures Rfc.ReadTrees(w.Bits()[|before|..] + rest) == Rfc.Received((l, d), rest) {
      HeaderReceived(gl, gd, fc, dl, maxBlindex + 1, rest);
    }
  }

  lemma TreeLimits()
    ensures BL_CODES == 19 && L_CODES == 286 && D_CODES == 30
  {
  }

  lemma ShortJoin(lens: seq<nat>)
    requires |lens| == BL_CODES && forall x: nat :: x < BL_CODES ==> lens[x] <= MAX_BL_BITS
    ensures Short(lens)
  {
  }

  lemma SentBehind(before: seq<bool>, header: seq<bool>, trees: seq<bool>, after: seq<bool>)
    requires after == before + header + trees
    ensures |after| == |before| + |header| + |trees| && after[..|before|] == before && after[|before|..] == header + trees
  {
  }

  lemma PrefixStandard(codes: seq<nat>, lens: seq<nat>)
    requires |codes| == |lens| >= BL_CODES && Standard(codes, lens[..BL_CODES])
    ensures Standard(codes[..BL_CODES], lens[..BL_CODES])
  {
    hide Kraft, Pow2, Reversed, Rfc.Code;
  }

  // Where each length goes

  lemma {:induction false} FieldAt(lens: seq<nat>, n: nat, k: nat)
    requires |lens| == BL_CODES && k < n <= BL_CODES
    ensures |OrderedBits(lens, n)| == 3 * n && OrderedBits(lens, n)[3 * k..3 * k + 3] == LsbBits(lens[BL_ORDER[k]], 3)
    decreases n
  {
    hide BL_ORDER, LsbBits;
    OrderFits();
    OrderedLength(lens, n - 1);
    var before, last := OrderedBits(lens, n - 1), LsbBits(lens[BL_ORDER[n - 1]], 3);
    if k < n - 1 {
      FieldAt(lens, n - 1, k);
      assert (before + last)[3 * k..3 * k + 3] == before[3 * k..3 * k + 3];
    } else {
      assert (before + last)[3 * k..3 * k + 3] == last;
    }
  }

  /** The symbols in the order of their lengths: 16, 17, 18 and 0, and then, outwards from the middle, 8, 7, 9, 6, and so
      on up to 15. */
  function Ranked(k: nat): (x: nat)
    requires k < 19
    ensures x < 19
  {
    if k < 3 then 16 + k
    else if k == 3 then 0
    else if k % 2 == 0 then 8 + (k - 4) / 2
    else 7 - (k - 5) / 2
  }

  /** Behind the fourteen bits of the counts, three bits for each length, in that order. */
  lemma FieldPlaces(lcodes: nat, dcodes: nat, blcodes: nat, lens: seq<nat>, k: nat)
    requires 257 <= lcodes && 1 <= dcodes && 4 <= blcodes <= 19 == |lens| && Short(lens) && k < blcodes
    ensures |HeaderBits(lcodes, dcodes, blcodes, lens)| == 14 + 3 * blcodes
    ensures Rfc.Number(HeaderBits(lcodes, dcodes, blcodes, lens)[14 + 3 * k..17 + 3 * k]) == lens[Ranked(k)]
  {
    SmallFields(257, 1, 4);
    HeaderLength(lcodes, dcodes, blcodes, lens);
    FieldAt(lens, blcodes, k);
    PlaceInOrder(k);
    hide *;
    AlphabetSize();
    BehindCounts(lcodes, dcodes, blcodes, lens, k);
    ShortAt(lens, BL_ORDER[k]);
    NumberSent(lens[BL_ORDER[k]], 3);
  }

  lemma ShortAt(lens: seq<nat>, x: nat)
    requires Short(lens) && x < |lens|
    ensures lens[x] <= MAX_BL_BITS
  {
  }

  lemma BehindCounts(lcodes: nat, dcodes: nat, blcodes: nat, lens: seq<nat>, k: nat)
    requires 257 <= lcodes && 1 <= dcodes && 4 <= blcodes <= BL_CODES == |lens| && k < blcodes
    requires |OrderedBits(lens, blcodes)| == 3 * blcodes
    ensures |HeaderBits(lcodes, dcodes, blcodes, lens)| == 14 + 3 * blcodes
    ensures HeaderBits(lcodes, dcodes, blcodes, lens)[14 + 3 * k..17 + 3 * k] == OrderedBits(lens, blcodes)[3 * k..3 * k + 3]
  {
    hide LsbBits, OrderedBits;
    var counts, lengths := LsbBits(lcodes - 257, 5) + LsbBits(dcodes - 1, 5) + LsbBits(blcodes - 4, 4), OrderedBits(lens, blcodes);
    assert |counts| == 14 && HeaderBits(lcodes, dcodes, blcodes, lens) == counts + lengths;
    assert (counts + lengths)[14 + 3 * k..17 + 3 * k] == lengths[3 * k..3 * k + 3];
  }

  lemma PlaceInOrder(k: nat)
    requires k < 19
    ensures |BL_ORDER| == 19 && BL_ORDER[k] == Ranked(k)
  {
  }
}
