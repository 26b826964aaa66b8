/** `scan_tree` and `send_tree` on the arrays, and the decoder that section 3.2.7 of RFC 1951 prescribes. */
module CodeTransmission {
  import opened Sums
  import opened HuffmanBitLengths
  import opened HuffmanCodes
  import opened HuffmanBuild
  import opened BitOutput
  import opened CodeRuns

  /** Number of tokens with a given symbol. */
  function Uses(tokens: seq<Token>, symbol: nat): nat {
    if tokens == [] then 0 else (if tokens[0].Symbol() == symbol then 1 else 0) + Uses(tokens[1..], symbol)
  }

  lemma {:induction false} UsesBoth(a: seq<Token>, b: seq<Token>, symbol: nat)
    ensures Uses(a + b, symbol) == Uses(a, symbol) + Uses(b, symbol)
    decreases |a|
  {
    if a == [] {
      assert a + b == b;
    } else {
      UsesBoth(a[1..], b, symbol);
      assert (a + b)[1..] == a[1..] + b;
    }
  }

  lemma {:induction false} UsesLiterals(cur: nat, count: nat, symbol: nat)
    ensures Uses(seq(count, _ => Length(cur)), symbol) == if symbol == cur then count else 0
  {
    if count != 0 {
      UsesLiterals(cur, count - 1, symbol);
      assert seq(count, _ => Length(cur))[1..] == seq(count - 1, _ => Length(cur));
    }
  }

  lemma {:induction false} UsedSymbol(tokens: seq<Token>, i: nat)
    requires i < |tokens|
    ensures Uses(tokens, tokens[i].Symbol()) >= 1
    decreases |tokens|
  {
    if i > 0 {
      UsedSymbol(tokens[1..], i - 1);
    }
  }

  lemma UsesOfRun(prev: int, cur: nat, count: nat, minCount: nat, symbol: nat)
    requires count >= 1
    ensures Uses(Run(prev, cur, count, minCount), symbol)
         == if count < minCount then (if symbol == cur then count else 0)
            else if cur != 0 then (if cur != prev && symbol == cur then 1 else 0) + (if symbol == REP_3_6 then 1 else 0)
            else if count <= 10 then (if symbol == REPZ_3_10 then 1 else 0)
            else (if symbol == REPZ_11_138 then 1 else 0)
  {
    UsesLiterals(cur, count, symbol);
    var run := Run(prev, cur, count, minCount);
    if count >= minCount {
      if cur != 0 && cur != prev {
        assert run[1..] == [CopyPrevious(count - 1)];
        assert run[1..][1..] == [];
        assert Uses(run[1..], symbol) == if symbol == REP_3_6 then 1 else 0;
      } else {
        assert run[1..] == [];
      }
    }
  }

  /** The tally of one finished run. */
  method TallyRun(blFreq: array<nat>, prevlen: int, curlen: nat, count: nat, minCount: nat)
    requires blFreq.Length > REPZ_11_138 && curlen <= 15 && count >= 1
    modifies blFreq
    ensures forall s: nat :: s < blFreq.Length ==>
              blFreq[s] == old(blFreq[s]) + Uses(Run(prevlen, curlen, count, minCount), s)
  {
    forall s: nat | s < blFreq.Length ensures Uses(Run(prevlen, curlen, count, minCount), s)
         == if count < minCount then (if s == curlen then count else 0)
            else if curlen != 0 then (if curlen != prevlen && s == curlen then 1 else 0) + (if s == REP_3_6 then 1 else 0)
            else if count <= 10 then (if s == REPZ_3_10 then 1 else 0)
            else (if s == REPZ_11_138 then 1 else 0)
    {
      UsesOfRun(prevlen, curlen, count, minCount, s);
    }
    hide Uses, Run;
    if count < minCount {
      blFreq[curlen] := blFreq[curlen] + count;
    } else if curlen != 0 {
      if curlen != prevlen {
        blFreq[curlen] := blFreq[curlen] + 1;
      }
      blFreq[REP_3_6] := blFreq[REP_3_6] + 1;
    } else if count <= 10 {
      blFreq[REPZ_3_10] := blFreq[REPZ_3_10] + 1;
    } else {
      blFreq[REPZ_11_138] := blFreq[REPZ_11_138] + 1;
    }
  }

  /** `scan_tree`: sets the guard and adds to each symbol's frequency how often `send_tree` will use it. */
  method ScanTree(dl: array<nat>, blFreq: array<nat>, maxCode: nat)
    requires dl != blFreq && maxCode + 1 < dl.Length && blFreq.Length > REPZ_11_138
    requires forall k :: 0 <= k <= maxCode ==> dl[k] <= 15
    modifies dl, blFreq
    ensures dl[..] == old(dl[..])[maxCode + 1 := 0xffff]
    ensures forall s: nat :: s < blFreq.Length ==>
              blFreq[s] == old(blFreq[s]) + Uses(TreeTokens(dl[..maxCode + 2]), s)
  {
    var prevlen: int := -1;
    var nextlen := dl[0];
    var count, maxCount, minCount := 0, 7, 4;
    if nextlen == 0 {
      maxCount, minCount := 138, 3;
    }
    dl[maxCode + 1] := GUARD;
    ghost var lens, freq := dl[..maxCode + 2], blFreq[..];
    var n := 0;
    while n <= maxCode
      invariant n <= maxCode + 1 && lens == dl[..maxCode + 2] && dl[..] == old(dl[..])[maxCode + 1 := GUARD]
      invariant nextlen == lens[n]
      invariant n <= maxCode ==> maxCount == MaxCount(nextlen, nextlen == prevlen) && minCount == MinCount(nextlen, nextlen == prevlen)
      invariant forall s: nat :: s < blFreq.Length ==>
                  blFreq[s] + Uses(Tokens(lens, n, prevlen, count), s) == freq[s] + Uses(TreeTokens(lens), s)
    {
      var curlen := nextlen;
      nextlen := dl[n + 1];
      count := count + 1;
      if count < maxCount && curlen == nextlen {
        n := n + 1;
        continue;
      }
      ghost var run := Run(prevlen, curlen, count, minCount);
      forall s: nat ensures Uses(Tokens(lens, n, prevlen, count - 1), s) == Uses(run, s) + Uses(Tokens(lens, n + 1, curlen, 0), s) {
        UsesBoth(run, Tokens(lens, n + 1, curlen, 0), s);
      }
      TallyRun(blFreq, prevlen, curlen, count, minCount);
      count := 0;
      prevlen := curlen;
      maxCount, minCount := 7, 4;
      if nextlen == 0 {
        maxCount, minCount := 138, 3;
      } else if curlen == nextlen {
        maxCount, minCount := 6, 3;
      }
      n := n + 1;
    }
  }

  /** How a token is sent: its symbol's code, then the extra bits of its repeat count. */
  function TokenBits(t: Token, codes: seq<nat>, lens: seq<nat>): seq<bool>
    requires t.Legal() && |codes| > REPZ_11_138 && |lens| > REPZ_11_138
  {
    LsbBits(codes[t.Symbol()], lens[t.Symbol()]) +
    match t
    case Length(_) => []
    case CopyPrevious(n) => LsbBits(n - 3, 2)
    case FewZeros(n) => LsbBits(n - 3, 3)
    case ManyZeros(n) => LsbBits(n - 11, 7)
  }

  function TokensBits(tokens: seq<Token>, codes: seq<nat>, lens: seq<nat>): seq<bool>
    requires AllLegal(tokens) && |codes| > REPZ_11_138 && |lens| > REPZ_11_138
  {
    if tokens == [] then [] else TokenBits(tokens[0], codes, lens) + TokensBits(tokens[1..], codes, lens)
  }

  lemma {:induction false} TokensBitsBoth(a: seq<Token>, b: seq<Token>, codes: seq<nat>, lens: seq<nat>)
    requires AllLegal(a) && AllLegal(b) && |codes| > REPZ_11_138 && |lens| > REPZ_11_138
    ensures AllLegal(a + b) && TokensBits(a + b, codes, lens) == TokensBits(a, codes, lens) + TokensBits(b, codes, lens)
    decreases |a|
  {
    BothLegal(a, b);
    if a == [] {
      assert a + b == b;
    } else {
      TokensBitsBoth(a[1..], b, codes, lens);
      assert (a + b)[1..] == a[1..] + b;
    }
  }

  /** Symbol c of the code-length code has a code that `send_bits` takes. */
  ghost predicate HasCode(c: nat, codes: seq<nat>, lens: seq<nat>) {
    c < |codes| == |lens| && 1 <= lens[c] <= 16 && codes[c] < Pow2(lens[c])
  }

  /** The code-length code can send the symbols of these tokens. */
  ghost predicate Sendable(tokens: seq<Token>, codes: seq<nat>, lens: seq<nat>) {
    && |codes| == |lens| > REPZ_11_138
    && AllLegal(tokens)
    && forall i :: 0 <= i < |tokens| ==> HasCode(tokens[i].Symbol(), codes, lens)
  }

  /** `SEND_CODE`. */
  method SendCode(w: BitWriter, c: nat, codes: array<nat>, lens: array<nat>)
    requires w.Valid() && c < codes.Length == lens.Length && 1 <= lens[c] <= 16 && codes[c] < Pow2(lens[c])
    modifies w
    ensures w.Valid() && w.Bits() == old(w.Bits()) + LsbBits(codes[c], lens[c])
  {
    w.SendBits(codes[c], lens[c]);
  }

  /** The literal branch of `send_tree`. */
  method SendLiterals(w: BitWriter, curlen: nat, start: nat, codes: array<nat>, lens: array<nat>)
    requires w.Valid() && start >= 1 && Sendable(seq(start, _ => Length(curlen)), codes[..], lens[..])
    modifies w
    ensures w.Valid() && w.Bits() == old(w.Bits()) + TokensBits(seq(start, _ => Length(curlen)), codes[..], lens[..])
  {
    ghost var cs, ls, run := codes[..], lens[..], seq(start, _ => Length(curlen));
    assert run[0] == Length(curlen);
    var count := start;
    assert run[..0] == [];
    while true
      invariant w.Valid() && 1 <= count <= start && cs == codes[..] && ls == lens[..]
      invariant w.Bits() == old(w.Bits()) + TokensBits(run[..start - count], cs, ls)
      decreases count
    {
      SendCode(w, curlen, codes, lens);
      count := count - 1;
      OneMoreToken(run, start - count - 1, cs, ls);
      if count == 0 {
        break;
      }
    }
    assert run[..start] == run;
  }

  lemma OneMoreToken(tokens: seq<Token>, k: nat, codes: seq<nat>, lens: seq<nat>)
    requires k < |tokens| && Sendable(tokens, codes, lens)
    ensures AllLegal(tokens[..k]) && AllLegal(tokens[..k + 1])
    ensures TokensBits(tokens[..k + 1], codes, lens) == TokensBits(tokens[..k], codes, lens) + TokenBits(tokens[k], codes, lens)
  {
    TokensBitsBoth(tokens[..k], [tokens[k]], codes, lens);
    assert tokens[..k + 1] == tokens[..k] + [tokens[k]];
    assert [tokens[k]][1..] == [];
  }

  lemma OneToken(t: Token, codes: seq<nat>, lens: seq<nat>)
    requires Sendable([t], codes, lens)
    ensures HasCode(t.Symbol(), codes, lens)
    ensures t.Legal() && TokensBits([t], codes, lens) == TokenBits(t, codes, lens)
  {
    assert [t][0] == t;
    assert [t][1..] == [];
  }

  lemma TwoTokens(a: Token, b: Token, codes: seq<nat>, lens: seq<nat>)
    requires Sendable([a, b], codes, lens)
    ensures HasCode(a.Symbol(), codes, lens) && HasCode(b.Symbol(), codes, lens)
    ensures a.Legal() && b.Legal() && TokensBits([a, b], codes, lens) == TokenBits(a, codes, lens) + TokenBits(b, codes, lens)
  {
    assert [a, b][0] == a && [a, b][1] == b;
    assert [a, b][1..] == [b];
    assert [b][1..] == [];
    assert TokensBits([b], codes, lens) == TokenBits(b, codes, lens);
  }

  /** The other branches: a repeat symbol and its extra bits. */
  method SendRepeat(w: BitWriter, symbol: nat, extra: nat, width: nat, ghost t: Token, codes: array<nat>, lens: array<nat>)
    requires w.Valid() && t.Legal() && symbol == t.Symbol() && HasCode(symbol, codes[..], lens[..]) && codes.Length > REPZ_11_138
    requires 1 <= width <= 16 && extra < Pow2(width)
    requires TokenBits(t, codes[..], lens[..]) == LsbBits(codes[symbol], lens[symbol]) + LsbBits(extra, width)
    modifies w
    ensures w.Valid() && w.Bits() == old(w.Bits()) + TokenBits(t, codes[..], lens[..])
  {
    hide TokenBits, LsbBits, Pow2;
    SendCode(w, symbol, codes, lens);
    w.SendBits(extra, width);
  }

  method SendRun(w: BitWriter, prevlen: int, curlen: nat, count: nat, minCount: nat, codes: array<nat>, lens: array<nat>)
    requires w.Valid() && count >= 1 && curlen <= 15
    requires Sendable(Run(prevlen, curlen, count, minCount), codes[..], lens[..])
    modifies w
    ensures w.Valid() && w.Bits() == old(w.Bits()) + TokensBits(Run(prevlen, curlen, count, minCount), codes[..], lens[..])
  {
    Pow2Small();
    hide Pow2, LsbBits;
    if count < minCount {
      SendLiterals(w, curlen, count, codes, lens);
    } else if curlen != 0 {
      if curlen != prevlen {
        SendNewLength(w, curlen, count, codes, lens);
      } else {
        OneToken(CopyPrevious(count), codes[..], lens[..]);
        SendRepeat(w, REP_3_6, count - 3, 2, CopyPrevious(count), codes, lens);
      }
    } else if count <= 10 {
      OneToken(FewZeros(count), codes[..], lens[..]);
      SendRepeat(w, REPZ_3_10, count - 3, 3, FewZeros(count), codes, lens);
    } else {
      OneToken(ManyZeros(count), codes[..], lens[..]);
      SendRepeat(w, REPZ_11_138, count - 11, 7, ManyZeros(count), codes, lens);
    }
  }

  method SendNewLength(w: BitWriter, curlen: nat, count: nat, codes: array<nat>, lens: array<nat>)
    requires w.Valid() && count >= 1 && curlen <= 15 && Sendable([Length(curlen), CopyPrevious(count - 1)], codes[..], lens[..])
    modifies w
    ensures w.Valid() && w.Bits() == old(w.Bits()) + TokensBits([Length(curlen), CopyPrevious(count - 1)], codes[..], lens[..])
  {
    Pow2Small();
    hide Pow2, LsbBits;
    TwoTokens(Length(curlen), CopyPrevious(count - 1), codes[..], lens[..]);
    SendCode(w, curlen, codes, lens);
    SendRepeat(w, REP_3_6, count - 4, 2, CopyPrevious(count - 1), codes, lens);
  }

  /** `send_tree`: the tree's lengths go out as the bits of their run-length coding. */
  method SendTree(w: BitWriter, dl: array<nat>, maxCode: nat, codes: array<nat>, blLens: array<nat>)
    requires w.Valid() && maxCode + 1 < dl.Length && Guarded(dl[..maxCode + 2])
    requires Sendable(TreeTokens(dl[..maxCode + 2]), codes[..], blLens[..])
    modifies w
    ensures w.Valid()
    ensures w.Bits() == old(w.Bits()) + TokensBits(TreeTokens(dl[..maxCode + 2]), codes[..], blLens[..])
  {
    ghost var lens, cs, ls := dl[..maxCode + 2], codes[..], blLens[..];
    ghost var sent: seq<Token>, start := [], w.Bits();
    var prevlen: int := -1;
    var nextlen := dl[0];
    var count, maxCount, minCount := 0, 7, 4;
    if nextlen == 0 {
      maxCount, minCount := 138, 3;
    }
    assert Progress(lens, 0, prevlen, count, sent, cs, ls, start, w.Bits());
    hide Progress, Run, Sendable;
    var n := 0;
    while n <= maxCode
      invariant n <= maxCode + 1 && w.Valid() && lens == dl[..maxCode + 2] && cs == codes[..] && ls == blLens[..]
      invariant nextlen == lens[n]
      invariant n <= maxCode ==> maxCount == MaxCount(nextlen, nextlen == prevlen) && minCount == MinCount(nextlen, nextlen == prevlen)
      invariant Progress(lens, n, prevlen, count, sent, cs, ls, start, w.Bits())
    {
      var curlen := nextlen;
      nextlen := dl[n + 1];
      ProgressStep(lens, n, prevlen, count, sent, cs, ls, start, w.Bits());
      count := count + 1;
      n := n + 1;
      if count < maxCount && curlen == nextlen {
        continue;
      }
      SendRun(w, prevlen, curlen, count, minCount, codes, blLens);
      sent := sent + Run(prevlen, curlen, count, minCount);
      count := 0;
      prevlen := curlen;
      if nextlen == 0 {
        maxCount, minCount := 138, 3;
      } else if curlen == nextlen {
        maxCount, minCount := 6, 3;
      } else {
        maxCount, minCount := 7, 4;
      }
    }
    ProgressEnd(lens, n, prevlen, count, sent, cs, ls, start, w.Bits());
  }

  /** The tokens `sent` are in the stream and those from position n on complete the coding. */
  ghost predicate Progress(lens: seq<nat>, n: nat, prev: int, count: nat, sent: seq<Token>,
                           codes: seq<nat>, blLens: seq<nat>, start: seq<bool>, bits: seq<bool>)
  {
    && n < |lens| && Guarded(lens) && Sendable(TreeTokens(lens), codes, blLens)
    && AllLegal(sent) && sent + Tokens(lens, n, prev, count) == TreeTokens(lens)
    && bits == start + TokensBits(sent, codes, blLens)
  }

  lemma ProgressStep(lens: seq<nat>, n: nat, prev: int, count: nat, sent: seq<Token>,
                     codes: seq<nat>, blLens: seq<nat>, start: seq<bool>, bits: seq<bool>)
    requires Progress(lens, n, prev, count, sent, codes, blLens, start, bits) && n + 1 < |lens|
    ensures lens[n] <= 15
    ensures count + 1 < MaxCount(lens[n], lens[n] == prev) && lens[n] == lens[n + 1] ==>
              Progress(lens, n + 1, prev, count + 1, sent, codes, blLens, start, bits)
    ensures !(count + 1 < MaxCount(lens[n], lens[n] == prev) && lens[n] == lens[n + 1]) ==>
              var run := Run(prev, lens[n], count + 1, MinCount(lens[n], lens[n] == prev));
              && Sendable(run, codes, blLens) && AllLegal(run) && |codes| > REPZ_11_138 && |blLens| > REPZ_11_138
              && Progress(lens, n + 1, lens[n], 0, sent + run, codes, blLens, start, bits + TokensBits(run, codes, blLens))
  {
    if !(count + 1 < MaxCount(lens[n], lens[n] == prev) && lens[n] == lens[n + 1]) {
      var run, rest := Run(prev, lens[n], count + 1, MinCount(lens[n], lens[n] == prev)), Tokens(lens, n + 1, lens[n], 0);
      assert Tokens(lens, n, prev, count) == run + rest;
      hide Progress, Run, Sendable, Tokens, MaxCount, MinCount;
      ProgressRun(lens, n, prev, count, sent, codes, blLens, start, bits, run);
    }
  }

  lemma ProgressRun(lens: seq<nat>, n: nat, prev: int, count: nat, sent: seq<Token>,
                    codes: seq<nat>, blLens: seq<nat>, start: seq<bool>, bits: seq<bool>, run: seq<Token>)
    requires Progress(lens, n, prev, count, sent, codes, blLens, start, bits) && n + 1 < |lens|
    requires Tokens(lens, n, prev, count) == run + Tokens(lens, n + 1, lens[n], 0)
    ensures Sendable(run, codes, blLens) && AllLegal(run) && |codes| > REPZ_11_138 && |blLens| > REPZ_11_138
    ensures Progress(lens, n + 1, lens[n], 0, sent + run, codes, blLens, start, bits + TokensBits(run, codes, blLens))
  {
    hide Sendable, Tokens, Guarded, TreeTokens, TokensBits, AllLegal;
    var rest := Tokens(lens, n + 1, lens[n], 0);
    SentMore(sent, run, rest, codes, blLens);
    SendableSizes(run, codes, blLens);
    Regroup3(start, TokensBits(sent, codes, blLens), TokensBits(run, codes, blLens));
  }

  lemma Regroup3(a: seq<bool>, b: seq<bool>, c: seq<bool>)
    ensures (a + b) + c == a + (b + c)
  {
  }

  lemma SendableSizes(tokens: seq<Token>, codes: seq<nat>, lens: seq<nat>)
    requires Sendable(tokens, codes, lens)
    ensures |codes| == |lens| > REPZ_11_138 && AllLegal(tokens)
  {
  }

  lemma ProgressEnd(lens: seq<nat>, n: nat, prev: int, count: nat, sent: seq<Token>,
                    codes: seq<nat>, blLens: seq<nat>, start: seq<bool>, bits: seq<bool>)
    requires Progress(lens, n, prev, count, sent, codes, blLens, start, bits) && n + 1 == |lens|
    ensures AllLegal(TreeTokens(lens)) && |codes| == |blLens| > REPZ_11_138
    ensures bits == start + TokensBits(TreeTokens(lens), codes, blLens)
  {
    assert sent + [] == sent;
  }

  lemma SentMore(sent: seq<Token>, run: seq<Token>, rest: seq<Token>, codes: seq<nat>, lens: seq<nat>)
    requires Sendable(sent + (run + rest), codes, lens) && AllLegal(sent)
    ensures Sendable(run, codes, lens) && AllLegal(sent + run)
    ensures sent + (run + rest) == (sent + run) + rest
    ensures TokensBits(sent + run, codes, lens) == TokensBits(sent, codes, lens) + TokensBits(run, codes, lens)
  {
    var all := sent + (run + rest);
    forall i | 0 <= i < |run| ensures run[i].Legal() && HasCode(run[i].Symbol(), codes, lens) {
      assert run[i] == all[|sent| + i];
    }
    TokensBitsBoth(sent, run, codes, lens);
  }

  lemma Pow2Small()
    ensures Pow2(2) == 4 && Pow2(3) == 8 && Pow2(7) == 128
  {
    assert Pow2(5) == 32;
  }
}
