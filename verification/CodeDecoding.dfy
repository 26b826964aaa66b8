/** The receiving end: what `send_tree` sends, read as RFC 1951 prescribes. */
module CodeDecoding {
  import opened Sums
  import opened HuffmanBitLengths
  import opened HuffmanCodes
  import opened HuffmanStandard
  import opened CodeRuns
  import opened CodeTransmission
  import Rfc = Rfc1951

  lemma {:induction false} NumberSent(v: nat, len: nat)
    requires v < Pow2(len)
    ensures Rfc.Number(LsbBits(v, len)) == v
  {
    if len != 0 {
      NumberSent(v / 2, len - 1);
      assert LsbBits(v, len)[1..] == LsbBits(v / 2, len - 1);
    }
  }

  lemma ReadsSent(v: nat, width: nat, rest: seq<bool>)
    requires v < Pow2(width)
    ensures Rfc.ReadNumber(LsbBits(v, width) + rest, width) == Rfc.Received(v, rest)
  {
    NumberSent(v, width);
    var bits := LsbBits(v, width) + rest;
    assert bits[..width] == LsbBits(v, width) && bits[width..] == rest;
  }

  lemma MeaningGrows(t: Token, sofar: seq<nat>)
    requires t.Legal() && (sofar == [] ==> !t.CopyPrevious?)
    ensures |Meaning(t, sofar)| >= 1
  {
  }

  /** A token is received as the lengths it stands for. */
  lemma OneReceived(t: Token, tail: seq<bool>, codes: seq<nat>, lens: seq<nat>, want: nat, sofar: seq<nat>)
    requires t.Legal() && HasCode(t.Symbol(), codes, lens) && |lens| > REPZ_11_138 && Standard(codes, lens)
    requires |sofar| < want && (sofar == [] ==> !t.CopyPrevious?)
    ensures Rfc.ReadLengths(TokenBits(t, codes, lens) + tail, lens, want, sofar)
         == Rfc.ReadLengths(tail, lens, want, sofar + Meaning(t, sofar))
  {
    var s := t.Symbol();
    var extra := Extra(t);
    assert TokenBits(t, codes, lens) + tail == LsbBits(codes[s], lens[s]) + (extra + tail);
    SymbolReceived(codes, lens, s, extra + tail);
    hide *;
    ExtraReceived(LsbBits(codes[s], lens[s]) + (extra + tail), t, tail, lens, want, sofar);
  }

  lemma ExtraReceived(bits: seq<bool>, t: Token, tail: seq<bool>, lens: seq<nat>, want: nat, sofar: seq<nat>)
    requires t.Legal() && Rfc.ReadSymbol(bits, lens, 0, 0) == Rfc.Received(t.Symbol(), Extra(t) + tail)
    requires |sofar| < want && (sofar == [] ==> !t.CopyPrevious?)
    ensures Rfc.ReadLengths(bits, lens, want, sofar) == Rfc.ReadLengths(tail, lens, want, sofar + Meaning(t, sofar))
  {
    Pow2Small();
    hide LsbBits, Pow2, Rfc.ReadSymbol, Rfc.ReadNumber, Repeat, Rfc.Repeated;
    match t
    case Length(len) =>
      assert Extra(t) + tail == tail;
    case CopyPrevious(n) =>
      ReadsSent(n - 3, 2, tail);
      SameRepeat(sofar[|sofar| - 1], n);
    case FewZeros(n) =>
      ReadsSent(n - 3, 3, tail);
      SameRepeat(0, n);
    case ManyZeros(n) =>
      ReadsSent(n - 11, 7, tail);
      SameRepeat(0, n);
  }

  lemma SameRepeat(x: nat, n: nat)
    ensures Rfc.Repeated(x, n) == Repeat(x, n)
  {
  }

  /** The bits behind the code of a token. */
  function Extra(t: Token): seq<bool>
    requires t.Legal()
  {
    match t
    case Length(_) => []
    case CopyPrevious(n) => LsbBits(n - 3, 2)
    case FewZeros(n) => LsbBits(n - 3, 3)
    case ManyZeros(n) => LsbBits(n - 11, 7)
  }

  /** The decoder undoes the encoder, whatever follows in the stream. */
  lemma {:induction false} LengthsReceived(before: seq<Token>, tokens: seq<Token>, rest: seq<bool>, codes: seq<nat>, lens: seq<nat>)
    requires Sendable(tokens, codes, lens) && Standard(codes, lens)
    requires tokens != [] && Expand(before) == [] ==> !tokens[0].CopyPrevious?
    ensures Rfc.ReadLengths(TokensBits(tokens, codes, lens) + rest, lens, |Expand(before + tokens)|, Expand(before))
         == Rfc.Received(Expand(before + tokens), rest)
    decreases |tokens|
  {
    if tokens == [] {
      assert before + tokens == before;
      assert TokensBits(tokens, codes, lens) + rest == rest;
    } else {
      var t, more := tokens[0], tokens[1..];
      var tail := TokensBits(more, codes, lens) + rest;
      assert TokensBits(tokens, codes, lens) + rest == TokenBits(t, codes, lens) + tail;
      assert t.Legal() && HasCode(t.Symbol(), codes, lens);
      SendableTail(tokens, codes, lens);
      hide Rfc.ReadLengths, TokenBits, TokensBits, HasCode, Standard, Sendable, Expand, Meaning;
      OneToGo(before, tokens);
      OneReceived(t, tail, codes, lens, |Expand(before + tokens)|, Expand(before));
      LengthsReceived(before + [t], more, rest, codes, lens);
    }
  }

  /** The first token adds something, and what it adds is a beginning of the whole. */
  lemma OneToGo(before: seq<Token>, tokens: seq<Token>)
    requires tokens != [] && tokens[0].Legal() && (Expand(before) == [] ==> !tokens[0].CopyPrevious?)
    ensures Expand(before + [tokens[0]]) == Expand(before) + Meaning(tokens[0], Expand(before)) != []
    ensures |Expand(before)| < |Expand(before + tokens)|
    ensures before + tokens == (before + [tokens[0]]) + tokens[1..]
  {
    hide *;
    ExpandOne(before, tokens[0]);
    MeaningGrows(tokens[0], Expand(before));
    FirstToken(before, tokens);
    ExpandMore(before + [tokens[0]], tokens[1..]);
  }

  lemma FirstToken(before: seq<Token>, tokens: seq<Token>)
    requires tokens != []
    ensures before + tokens == (before + [tokens[0]]) + tokens[1..]
  {
  }

  lemma SendableTail(tokens: seq<Token>, codes: seq<nat>, lens: seq<nat>)
    requires Sendable(tokens, codes, lens) && tokens != []
    ensures Sendable(tokens[1..], codes, lens)
  {
    forall i | 0 <= i < |tokens[1..]| ensures HasCode(tokens[1..][i].Symbol(), codes, lens) && tokens[1..][i].Legal() {
      assert tokens[1..][i] == tokens[i + 1];
    }
  }

  lemma {:induction false} FirstIsNoCopy(lens: seq<nat>, n: nat, count: nat)
    requires n < |lens| && Tokens(lens, n, -1, count) != []
    ensures !Tokens(lens, n, -1, count)[0].CopyPrevious?
    decreases |lens| - n
  {
    if n + 1 < |lens| {
      if count + 1 < MaxCount(lens[n], false) && lens[n] == lens[n + 1] {
        FirstIsNoCopy(lens, n + 1, count + 1);
      } else {
        assert Run(-1, lens[n], count + 1, MinCount(lens[n], false)) != [];
      }
    }
  }

  /** Whoever knows the lengths of the code-length code and the number of codes gets the tree's lengths back. */
  lemma TreeReceived(lens: seq<nat>, rest: seq<bool>, codes: seq<nat>, blLens: seq<nat>)
    requires Guarded(lens) && Sendable(TreeTokens(lens), codes, blLens) && Standard(codes, blLens)
    ensures Rfc.ReadLengths(TokensBits(TreeTokens(lens), codes, blLens) + rest, blLens, |lens| - 1, [])
         == Rfc.Received(lens[..|lens| - 1], rest)
  {
    TreeTokensMeaning(lens);
    if TreeTokens(lens) != [] {
      FirstIsNoCopy(lens, 0, 0);
    }
    LengthsReceived([], TreeTokens(lens), rest, codes, blLens);
    assert [] + TreeTokens(lens) == TreeTokens(lens);
  }
}
