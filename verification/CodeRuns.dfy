/** `scan_tree` and `send_tree`: code lengths in compressed form (RFC 1951, section 3.2.7). */
module CodeRuns {
  import opened Sums
  import opened HuffmanBitLengths
  import opened HuffmanCodes
  import opened HuffmanBuild
  import opened BitOutput

  const REP_3_6: nat := 16
  const REPZ_3_10: nat := 17
  const REPZ_11_138: nat := 18
  const GUARD: nat := 0xffff

  /** The code length alphabet: a length, "copy the previous length", two forms of "repeat zero". */
  datatype Token = Length(len: nat) | CopyPrevious(times: nat) | FewZeros(times: nat) | ManyZeros(times: nat) {
    /** Repeat counts as section 3.2.7 allows them. */
    predicate Legal() {
      match this
      case Length(len) => len <= 15
      case CopyPrevious(n) => 3 <= n <= 6
      case FewZeros(n) => 3 <= n <= 10
      case ManyZeros(n) => 11 <= n <= 138
    }

    function Symbol(): nat {
      match this
      case Length(len) => len
      case CopyPrevious(_) => REP_3_6
      case FewZeros(_) => REPZ_3_10
      case ManyZeros(_) => REPZ_11_138
    }
  }

  ghost predicate AllLegal(tokens: seq<Token>) {
    forall i :: 0 <= i < |tokens| ==> tokens[i].Legal()
  }

  lemma BothLegal(a: seq<Token>, b: seq<Token>)
    requires AllLegal(a) && AllLegal(b)
    ensures AllLegal(a + b)
  {
  }

  function Repeat(x: nat, n: nat): seq<nat> {
    seq(n, _ => x)
  }

  /** What one token adds to the lengths decoded so far. */
  function Meaning(token: Token, sofar: seq<nat>): seq<nat> {
    match token
    case Length(len) => [len]
    case CopyPrevious(n) => if sofar == [] then [] else Repeat(sofar[|sofar| - 1], n)
    case FewZeros(n) => Repeat(0, n)
    case ManyZeros(n) => Repeat(0, n)
  }

  /** The lengths that a token sequence stands for. */
  function Expand(tokens: seq<Token>): seq<nat> {
    if tokens == [] then []
    else
      var sofar := Expand(tokens[..|tokens| - 1]);
      sofar + Meaning(tokens[|tokens| - 1], sofar)
  }

  lemma {:induction false} ExpandMore(a: seq<Token>, b: seq<Token>)
    ensures Expand(a) <= Expand(a + b)
    decreases |b|
  {
    if b == [] {
      assert a + b == a;
    } else {
      ExpandMore(a, b[..|b| - 1]);
      assert (a + b)[..|a + b| - 1] == a + b[..|b| - 1];
    }
  }

  lemma ExpandOne(tokens: seq<Token>, t: Token)
    ensures Expand(tokens + [t]) == Expand(tokens) + Meaning(t, Expand(tokens))
  {
    assert (tokens + [t])[..|tokens + [t]| - 1] == tokens;
  }

  /** Tokens for `count` times the length `cur` after the length `prev` (-1: nothing came before). */
  function Run(prev: int, cur: nat, count: nat, minCount: nat): seq<Token> {
    if count < minCount then seq(count, _ => Length(cur))
    else if cur != 0 then
      if cur != prev then [Length(cur), CopyPrevious(if count > 0 then count - 1 else 0)] else [CopyPrevious(count)]
    else if count <= 10 then [FewZeros(count)]
    else [ManyZeros(count)]
  }

  /** The repeat limits in force when `next` follows `cur`. */
  function MaxCount(next: nat, same: bool): nat {
    if next == 0 then 138 else if same then 6 else 7
  }

  function MinCount(next: nat, same: bool): nat {
    if next == 0 || same then 3 else 4
  }

  /** The run-length coding as a function: tokens still to come before position n, when `count`
      lengths equal to lens[n] have been seen and not yet coded. */
  function Tokens(lens: seq<nat>, n: nat, prev: int, count: nat): seq<Token>
    requires n < |lens|
    decreases |lens| - n
  {
    if n + 1 == |lens| then []
    else
      var cur, next, c := lens[n], lens[n + 1], count + 1;
      var same := cur == prev;
      if c < MaxCount(cur, same) && cur == next then Tokens(lens, n + 1, prev, c)
      else Run(prev, cur, c, MinCount(cur, same)) + Tokens(lens, n + 1, cur, 0)
  }

  /** Where the coding stands: `sofar` are the lengths before the open run, which has `count` members. */
  ghost predicate RunState(lens: seq<nat>, n: nat, prev: int, count: nat, sofar: seq<nat>) {
    && n < |lens| && count <= n && sofar == lens[..n - count]
    && (forall k :: n - count <= k < n ==> lens[k] == lens[n])
    && prev == (if sofar == [] then -1 else sofar[|sofar| - 1])
    && (count > 0 ==> count < MaxCount(lens[n], lens[n] == prev))
  }

  lemma {:induction false} LiteralRun(tokens: seq<Token>, cur: nat, count: nat)
    ensures Expand(tokens + seq(count, _ => Length(cur))) == Expand(tokens) + Repeat(cur, count)
  {
    var run := seq(count, _ => Length(cur));
    if count == 0 {
      assert tokens + run == tokens;
    } else {
      LiteralRun(tokens, cur, count - 1);
      var shorter := seq(count - 1, _ => Length(cur));
      assert tokens + run == (tokens + shorter) + [Length(cur)];
      ExpandOne(tokens + shorter, Length(cur));
      assert Repeat(cur, count - 1) + [cur] == Repeat(cur, count);
    }
  }

  lemma NewLengthRun(tokens: seq<Token>, cur: nat, count: nat)
    requires 4 <= count <= 7
    ensures Expand(tokens + [Length(cur), CopyPrevious(count - 1)]) == Expand(tokens) + Repeat(cur, count)
  {
    ExpandOne(tokens, Length(cur));
    ExpandOne(tokens + [Length(cur)], CopyPrevious(count - 1));
    assert tokens + [Length(cur), CopyPrevious(count - 1)] == (tokens + [Length(cur)]) + [CopyPrevious(count - 1)];
    assert [cur] + Repeat(cur, count - 1) == Repeat(cur, count);
  }

  /** A finished run is legal and means its `count` lengths. */
  lemma RunMeaning(tokens: seq<Token>, prev: int, cur: nat, count: nat)
    requires prev == (if Expand(tokens) == [] then -1 else Expand(tokens)[|Expand(tokens)| - 1])
    requires cur <= 15 && 1 <= count <= MaxCount(cur, cur == prev)
    ensures var run := Run(prev, cur, count, MinCount(cur, cur == prev));
            && Expand(tokens + run) == Expand(tokens) + Repeat(cur, count)
            && AllLegal(run)
  {
    hide Expand;
    if count < MinCount(cur, cur == prev) {
      LiteralRun(tokens, cur, count);
    } else if cur != 0 && cur != prev {
      NewLengthRun(tokens, cur, count);
    } else {
      ExpandOne(tokens, Run(prev, cur, count, MinCount(cur, cur == prev))[0]);
    }
  }

  lemma RunContinues(lens: seq<nat>, n: nat, prev: int, count: nat, sofar: seq<nat>)
    requires RunState(lens, n, prev, count, sofar) && n + 1 < |lens| && lens[n + 1] == lens[n]
    requires count + 1 < MaxCount(lens[n], lens[n] == prev)
    ensures RunState(lens, n + 1, prev, count + 1, sofar)
  {
    assert n + 1 - (count + 1) == n - count;
  }

  lemma RunEnds(lens: seq<nat>, n: nat, prev: int, count: nat, sofar: seq<nat>)
    requires RunState(lens, n, prev, count, sofar) && n + 1 < |lens|
    ensures RunState(lens, n + 1, lens[n], 0, sofar + Repeat(lens[n], count + 1))
  {
    assert lens[..n - count] + Repeat(lens[n], count + 1) == lens[..n + 1];
  }

  /** Coding the open run at n leaves no run open at n + 1. */
  lemma CloseRun(lens: seq<nat>, n: nat, prev: int, count: nat, tokens: seq<Token>)
    requires RunState(lens, n, prev, count, Expand(tokens)) && n + 1 < |lens| && lens[n] <= 15
    ensures var run := Run(prev, lens[n], count + 1, MinCount(lens[n], lens[n] == prev));
            RunState(lens, n + 1, lens[n], 0, Expand(tokens + run)) && AllLegal(run)
  {
    hide RunState, Expand, Run, MaxCount, MinCount, Repeat, AllLegal;
    RunLength(lens, n, prev, count, Expand(tokens));
    RunMeaning(tokens, prev, lens[n], count + 1);
    RunEnds(lens, n, prev, count, Expand(tokens));
  }

  lemma AllCoded(lens: seq<nat>, n: nat, prev: int, sofar: seq<nat>)
    requires RunState(lens, n, prev, 0, sofar) && n + 1 == |lens|
    ensures sofar == lens[..|lens| - 1]
  {
  }

  /** The tokens of a guarded length sequence expand to exactly these lengths, and all are legal. */
  lemma {:induction false} TokensMeaning(lens: seq<nat>, n: nat, prev: int, count: nat, tokens: seq<Token>)
    requires n < |lens| && lens[|lens| - 1] == GUARD && forall k :: 0 <= k < |lens| - 1 ==> lens[k] <= 15
    requires RunState(lens, n, prev, count, Expand(tokens)) && (n + 1 == |lens| ==> count == 0)
    ensures Expand(tokens + Tokens(lens, n, prev, count)) == lens[..|lens| - 1]
    ensures AllLegal(Tokens(lens, n, prev, count))
    decreases |lens| - n
  {
    hide RunState, Expand, Run, MaxCount, MinCount, Repeat;
    if n + 1 == |lens| {
      AllCoded(lens, n, prev, Expand(tokens));
      assert tokens + [] == tokens;
    } else if count + 1 < MaxCount(lens[n], lens[n] == prev) && lens[n] == lens[n + 1] {
      RunContinues(lens, n, prev, count, Expand(tokens));
      TokensMeaning(lens, n + 1, prev, count + 1, tokens);
    } else {
      var run, rest := Run(prev, lens[n], count + 1, MinCount(lens[n], lens[n] == prev)), Tokens(lens, n + 1, lens[n], 0);
      CloseRun(lens, n, prev, count, tokens);
      TokensMeaning(lens, n + 1, lens[n], 0, tokens + run);
      assert tokens + (run + rest) == (tokens + run) + rest;
      BothLegal(run, rest);
    }
  }

  lemma RunLength(lens: seq<nat>, n: nat, prev: int, count: nat, sofar: seq<nat>)
    requires RunState(lens, n, prev, count, sofar)
    ensures count + 1 <= MaxCount(lens[n], lens[n] == prev)
    ensures prev == if sofar == [] then -1 else sofar[|sofar| - 1]
  {
  }

  /** The coding of a whole tree. */
  function TreeTokens(lens: seq<nat>): seq<Token>
    requires lens != []
  {
    Tokens(lens, 0, -1, 0)
  }

  /** The last length is the guard, and no other. */
  ghost predicate Guarded(lens: seq<nat>) {
    lens != [] && lens[|lens| - 1] == GUARD && forall k :: 0 <= k < |lens| - 1 ==> lens[k] <= 15
  }

  /** Section 3.2.7 decodes it to the same lengths. */
  lemma TreeTokensMeaning(lens: seq<nat>)
    requires Guarded(lens)
    ensures Expand(TreeTokens(lens)) == lens[..|lens| - 1]
    ensures AllLegal(TreeTokens(lens))
  {
    TokensMeaning(lens, 0, -1, 0, []);
    assert [] + TreeTokens(lens) == TreeTokens(lens);
  }

  // Which tokens these are

  function Literals(x: nat, r: nat): seq<Token> {
    seq(r, _ => Length(x))
  }

  /** r zeros: 138 at a time, and the rest as one token unless it is shorter than three. */
  function ZerosCoded(r: nat): seq<Token> {
    if r >= 138 then [ManyZeros(138)] + ZerosCoded(r - 138)
    else if r >= 11 then [ManyZeros(r)]
    else if r >= 3 then [FewZeros(r)]
    else Literals(0, r)
  }

  /** r more of the length x that came before: six at a time, and the rest likewise. */
  function CopiesCoded(x: nat, r: nat): seq<Token> {
    if r >= 6 then [CopyPrevious(6)] + CopiesCoded(x, r - 6)
    else if r >= 3 then [CopyPrevious(r)]
    else Literals(x, r)
  }

  /** A run of r equal lengths, with others on both sides. */
  function Coded(x: nat, r: nat): seq<Token> {
    if x == 0 then ZerosCoded(r) else if r < 4 then Literals(x, r) else [Length(x)] + CopiesCoded(x, r - 1)
  }

  /** How many of the first lengths are equal. */
  function Alike(s: seq<nat>): (r: nat)
    ensures r <= |s| && (s != [] ==> r > 0)
    ensures forall i :: 0 <= i < r ==> s[i] == s[0]
    ensures r < |s| ==> s[r] != s[0]
  {
    if |s| <= 1 then |s| else if s[1] == s[0] then 1 + Alike(s[1..]) else 1
  }

  function RunsCoded(s: seq<nat>): seq<Token> {
    if s == [] then [] else Coded(s[0], Alike(s)) + RunsCoded(s[Alike(s)..])
  }

  /** From position n on there are m lengths x, and then another. */
  ghost predicate RunAhead(lens: seq<nat>, n: nat, x: nat, m: nat) {
    m > 0 && n + m < |lens| && (forall i :: n <= i < n + m ==> lens[i] == x) && lens[n + m] != x
  }

  /** The scan goes on to the end of the run, or to the limit. */
  lemma {:induction false} Scanned(lens: seq<nat>, n: nat, prev: int, count: nat, x: nat, m: nat)
    requires RunAhead(lens, n, x, m) && count < MaxCount(x, x == prev)
    ensures var max, min := MaxCount(x, x == prev), MinCount(x, x == prev);
            if count + m <= max then Tokens(lens, n, prev, count) == Run(prev, x, count + m, min) + Tokens(lens, n + m, x, 0)
            else Tokens(lens, n, prev, count) == Run(prev, x, max, min) + Tokens(lens, n + (max - count), x, 0)
    decreases m
  {
    hide Run;
    if m > 1 && count + 1 < MaxCount(x, x == prev) {
      Scanned(lens, n + 1, prev, count + 1, x, m - 1);
    }
  }

  lemma {:induction false} ZerosAhead(lens: seq<nat>, n: nat, prev: int, m: nat)
    requires RunAhead(lens, n, 0, m)
    ensures Tokens(lens, n, prev, 0) == ZerosCoded(m) + Tokens(lens, n + m, 0, 0)
    decreases m
  {
    hide Tokens;
    Scanned(lens, n, prev, 0, 0, m);
    if m > 138 {
      ZerosAhead(lens, n + 138, 0, m - 138);
      Behind([ManyZeros(138)], ZerosCoded(m - 138), Tokens(lens, n + m, 0, 0));
    } else if m == 138 {
      assert ZerosCoded(138) == [ManyZeros(138)] + ZerosCoded(0);
      assert ZerosCoded(0) == [];
    }
  }

  lemma {:induction false} CopiesAhead(lens: seq<nat>, n: nat, x: nat, m: nat)
    requires RunAhead(lens, n, x, m) && x != 0
    ensures Tokens(lens, n, x, 0) == CopiesCoded(x, m) + Tokens(lens, n + m, x, 0)
    decreases m
  {
    hide Tokens;
    Scanned(lens, n, x, 0, x, m);
    if m > 6 {
      CopiesAhead(lens, n + 6, x, m - 6);
      Behind([CopyPrevious(6)], CopiesCoded(x, m - 6), Tokens(lens, n + m, x, 0));
    } else if m == 6 {
      assert CopiesCoded(x, 6) == [CopyPrevious(6)] + CopiesCoded(x, 0);
      assert CopiesCoded(x, 0) == [];
    }
  }

  lemma Behind(a: seq<Token>, b: seq<Token>, c: seq<Token>)
    ensures a + (b + c) == a + b + c
  {
  }

  lemma RunAheadCoded(lens: seq<nat>, n: nat, prev: int, x: nat, m: nat)
    requires RunAhead(lens, n, x, m) && prev != x
    ensures Tokens(lens, n, prev, 0) == Coded(x, m) + Tokens(lens, n + m, x, 0)
  {
    hide *;
    if x == 0 {
      ZerosAhead(lens, n, prev, m);
      ZerosOnly(m);
    } else if m > 7 {
      FirstSeven(lens, n, prev, x, m);
      AheadOf(lens, n, x, m);
      CopiesAhead(lens, n + 7, x, m - 7);
      SevenCoded(x, m);
      Behind([Length(x), CopyPrevious(6)], CopiesCoded(x, m - 7), Tokens(lens, n + m, x, 0));
    } else {
      UpToSeven(lens, n, prev, x, m);
    }
  }

  lemma ZerosOnly(m: nat)
    ensures Coded(0, m) == ZerosCoded(m)
  {
  }

  /** A length that is not zero goes out once and up to six more times in two tokens. */
  lemma FirstSeven(lens: seq<nat>, n: nat, prev: int, x: nat, m: nat)
    requires RunAhead(lens, n, x, m) && prev != x && x != 0 && m > 7
    ensures Tokens(lens, n, prev, 0) == [Length(x), CopyPrevious(6)] + Tokens(lens, n + 7, x, 0)
  {
    hide Tokens;
    Scanned(lens, n, prev, 0, x, m);
  }

  lemma AheadOf(lens: seq<nat>, n: nat, x: nat, m: nat)
    requires RunAhead(lens, n, x, m) && m > 7
    ensures RunAhead(lens, n + 7, x, m - 7)
  {
  }

  lemma SevenCoded(x: nat, m: nat)
    requires x != 0 && m > 7
    ensures Coded(x, m) == [Length(x), CopyPrevious(6)] + CopiesCoded(x, m - 7)
  {
    assert CopiesCoded(x, m - 1) == [CopyPrevious(6)] + CopiesCoded(x, m - 7);
    Behind([Length(x)], [CopyPrevious(6)], CopiesCoded(x, m - 7));
    assert [Length(x)] + [CopyPrevious(6)] == [Length(x), CopyPrevious(6)];
  }

  lemma UpToSeven(lens: seq<nat>, n: nat, prev: int, x: nat, m: nat)
    requires RunAhead(lens, n, x, m) && prev != x && x != 0 && m <= 7
    ensures Tokens(lens, n, prev, 0) == Coded(x, m) + Tokens(lens, n + m, x, 0)
  {
    hide Tokens;
    Scanned(lens, n, prev, 0, x, m);
    if m == 7 {
      assert CopiesCoded(x, 6) == [CopyPrevious(6)] + CopiesCoded(x, 0);
      assert CopiesCoded(x, 0) == [];
    }
  }

  lemma {:induction false} RestCoded(lens: seq<nat>, n: nat, prev: int)
    requires Guarded(lens) && n < |lens| && (n + 1 < |lens| ==> prev != lens[n])
    ensures Tokens(lens, n, prev, 0) == RunsCoded(lens[n..|lens| - 1])
    decreases |lens| - n
  {
    hide Tokens, Coded;
    var s := lens[n..|lens| - 1];
    if s == [] {
      LastToken(lens, n, prev);
    } else {
      var m := Alike(s);
      assert forall i :: n <= i < n + m ==> lens[i] == s[i - n];
      assert n + m < |lens| - 1 ==> lens[n + m] == s[m];
      RunAheadCoded(lens, n, prev, lens[n], m);
      RestCoded(lens, n + m, lens[n]);
      assert lens[n + m..|lens| - 1] == s[m..];
    }
  }

  lemma LastToken(lens: seq<nat>, n: nat, prev: int)
    requires n + 1 == |lens|
    ensures Tokens(lens, n, prev, 0) == []
  {
  }

  /** The tokens are those of the runs of equal lengths, one after the other. */
  lemma RunsAreCoded(lens: seq<nat>)
    requires Guarded(lens)
    ensures TreeTokens(lens) == RunsCoded(lens[..|lens| - 1])
  {
    hide Tokens;
    RestCoded(lens, 0, -1);
    assert lens[0..|lens| - 1] == lens[..|lens| - 1];
  }
}
