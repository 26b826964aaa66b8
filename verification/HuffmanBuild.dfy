/** `build_tree` from end to end: leaves, forced codes, heap, merges, code lengths, codes. */
module HuffmanBuild {
  import opened Sums
  import opened HuffmanHeap
  import opened HuffmanLengths
  import opened HuffmanOptimal
  import HuffmanHeights
  import opened HuffmanBitLengths
  import opened HuffmanCodes
  import opened HuffmanStandard
  import opened HuffmanTree

  /** The heap holds exactly the symbols of non-zero frequency, each once. */
  ghost predicate LeavesWaiting(h: seq<nat>, len: nat, freq: seq<nat>, upto: nat)
    requires len < |h| && upto <= |freq|
  {
    && len <= upto
    && (forall x: nat :: Waiting(h, len)[x] == if IsNode(freq, upto, 0, x) then 1 else 0)
    && (forall j :: 1 <= j <= len ==> h[j] < upto)
  }

  lemma LeafAdded(h: seq<nat>, len: nat, freq: seq<nat>, upto: nat, h': seq<nat>, freq': seq<nat>, upto': nat, x: nat)
    requires len + 1 < |h| == |h'| && upto <= |freq| && LeavesWaiting(h, len, freq, upto)
    requires h' == h[len + 1 := x]
    requires upto <= upto' <= |freq'| && x < upto' && len < upto'
    requires forall y: nat :: y < upto' ==> (freq'[y] != 0 <==> (y < upto && freq[y] != 0) || y == x)
    requires !(x < upto && freq[x] != 0)
    ensures LeavesWaiting(h', len + 1, freq', upto')
  {
    assert h'[1..len + 2] == h[1..len + 1] + [x];
    assert Waiting(h', len + 1) == Waiting(h, len) + multiset{x};
  }

  /** `max` is the largest symbol with a frequency, -1 if there is none. */
  ghost predicate LargestCode(freq: seq<nat>, upto: nat, max: int)
    requires upto <= |freq|
  {
    && -1 <= max < upto && (max >= 0 ==> freq[max] != 0)
    && forall x: nat :: x < upto && freq[x] != 0 ==> x <= max
  }

  /** The first loop: symbols with a frequency enter the heap, the others have length 0. */
  method CollectLeaves(c: Coder, t: TreeDesc) returns (maxCode: int)
    requires c.Separate(t)
    modifies c.heap, c.depth, t.dl, c`heapLen, c`heapMax
    ensures c.heapMax == HEAP_SIZE && c.heapLen < HEAP_SIZE
    ensures LeavesWaiting(c.heap[..], c.heapLen, t.fc[..], t.elems)
    ensures LargestCode(t.fc[..], t.elems, maxCode) && Flat(t.fc[..], c.depth[..], t.elems)
    ensures forall x :: 0 <= x < t.elems && t.fc[x] == 0 ==> t.dl[x] == 0
  {
    maxCode := -1;
    c.heapLen := 0;
    c.heapMax := HEAP_SIZE;
    ghost var f := t.fc[..];
    var n := 0;
    assert c.heap[1..1] == [];
    while n < t.elems
      invariant n <= t.elems && c.heapLen < HEAP_SIZE && c.heapMax == HEAP_SIZE && f == t.fc[..]
      invariant LeavesWaiting(c.heap[..], c.heapLen, f, n)
      invariant LargestCode(f, n, maxCode) && Flat(f, c.depth[..], n)
      invariant forall x :: 0 <= x < n && f[x] == 0 ==> t.dl[x] == 0
    {
      maxCode := Collect(c, t, n, maxCode);
      n := n + 1;
    }
  }

  lemma LargestNext(freq: seq<nat>, n: nat, max: int)
    requires n < |freq| && LargestCode(freq, n, max)
    ensures LargestCode(freq, n + 1, if freq[n] != 0 then n else max)
  {
  }

  lemma FlatMore(freq: seq<nat>, depth: seq<nat>, n: nat)
    requires n < |freq| && Flat(freq, depth, n)
    ensures freq[n] == 0 ==> Flat(freq, depth, n + 1)
    ensures n < |depth| ==> Flat(freq, depth[n := 0], n + 1)
  {
  }

  method Collect(c: Coder, t: TreeDesc, n: nat, max: int) returns (maxCode: int)
    requires c.Separate(t) && n < t.elems && c.heapLen < HEAP_SIZE
    requires LeavesWaiting(c.heap[..], c.heapLen, t.fc[..], n) && LargestCode(t.fc[..], n, max)
    requires Flat(t.fc[..], c.depth[..], n)
    modifies c.heap, c.depth, t.dl, c`heapLen
    ensures c.heapLen < HEAP_SIZE
    ensures LeavesWaiting(c.heap[..], c.heapLen, t.fc[..], n + 1) && LargestCode(t.fc[..], n + 1, maxCode)
    ensures Flat(t.fc[..], c.depth[..], n + 1)
    ensures forall x :: 0 <= x < t.dl.Length && x != n ==> t.dl[x] == old(t.dl[x])
    ensures t.fc[n] == 0 ==> t.dl[n] == 0
  {
    hide *;
    SeparateParts(c, t);
    LeafFits(c, t, n);
    LeafNext(c.heap[..], c.heapLen, t.fc[..], c.depth[..], n, max);
    maxCode := max;
    if t.fc[n] != 0 {
      c.heapLen := c.heapLen + 1;
      c.heap[c.heapLen] := n;
      maxCode := n;
      c.depth[n] := 0;
      assert c.heap[..] == old(c.heap[..])[c.heapLen := n] && c.depth[..] == old(c.depth[..])[n := 0];
    } else {
      t.dl[n] := 0;
    }
  }

  lemma LeafFits(c: Coder, t: TreeDesc, n: nat)
    requires c.Separate(t) && n < t.elems && c.heapLen < HEAP_SIZE && LeavesWaiting(c.heap[..], c.heapLen, t.fc[..], n)
    ensures c.heapLen + 1 < HEAP_SIZE && n < c.depth.Length && c.heap != c.depth
  {
    hide Waiting, IsNode;
  }

  lemma NoLeaf(h: seq<nat>, len: nat, freq: seq<nat>, n: nat)
    requires len < |h| && n < |freq| && LeavesWaiting(h, len, freq, n) && freq[n] == 0
    ensures LeavesWaiting(h, len, freq, n + 1)
  {
    hide Waiting;
  }

  lemma FewLeaves(h: seq<nat>, len: nat, freq: seq<nat>, n: nat)
    requires len < |h| && n <= |freq| && LeavesWaiting(h, len, freq, n)
    ensures len <= n
  {
    hide Waiting, IsNode;
  }

  lemma LeafNext(h: seq<nat>, len: nat, freq: seq<nat>, depth: seq<nat>, n: nat, max: int)
    requires len + 1 < |h| && n < |freq| && n < |depth|
    requires LeavesWaiting(h, len, freq, n) && LargestCode(freq, n, max) && Flat(freq, depth, n)
    ensures if freq[n] == 0 then LeavesWaiting(h, len, freq, n + 1) && LargestCode(freq, n + 1, max) && Flat(freq, depth, n + 1)
            else LeavesWaiting(h[len + 1 := n], len + 1, freq, n + 1) && LargestCode(freq, n + 1, n)
                 && Flat(freq, depth[n := 0], n + 1)
  {
    hide *;
    LargestNext(freq, n, max);
    FlatMore(freq, depth, n);
    if freq[n] == 0 {
      NoLeaf(h, len, freq, n);
    } else {
      FewLeaves(h, len, freq, n);
      LeafAdded(h, len, freq, n, h[len + 1 := n], freq, n + 1, n);
    }
  }

  /** The frequencies after `forced` symbols were given frequency 1. */
  function WithForced(freq: seq<nat>, forced: seq<nat>): (r: seq<nat>)
    requires forall i :: 0 <= i < |forced| ==> forced[i] < |freq|
    ensures |r| == |freq|
  {
    if forced == [] then freq else WithForced(freq, forced[..|forced| - 1])[forced[|forced| - 1] := 1]
  }

  /** Static code lengths of the forced symbols. */
  function StaticLens(t: TreeDesc, forced: seq<nat>): int
    requires t.staticLens.Some? && forall i :: 0 <= i < |forced| ==> forced[i] < |t.staticLens.value|
  {
    if forced == [] then 0 else StaticLens(t, forced[..|forced| - 1]) + t.staticLens.value[forced[|forced| - 1]]
  }

  /** The symbols that the second loop picks, one after the other, when the largest code is `max`. */
  function ForcedFrom(max: int, count: nat): seq<nat>
    requires max >= -1
    decreases count
  {
    if count == 0 then []
    else if max < 2 then [max + 1] + ForcedFrom(max + 1, count - 1)
    else [0] + ForcedFrom(max, count - 1)
  }

  /** With two symbols in use nothing is forced; one gets company; and with none, 0 and 1 are forced. */
  ghost predicate RightlyForced(freq: seq<nat>, elems: nat, forced: seq<nat>)
    requires elems <= |freq|
  {
    || (forced == [] && exists x: nat, y: nat :: x < elems && y < elems && x != y && freq[x] != 0 && freq[y] != 0)
    || (exists x: nat :: OnlySymbol(freq, elems, x) && forced == [if x < 2 then x + 1 else 0])
    || (forced == [0, 1] && forall x: nat :: x < elems ==> freq[x] == 0)
  }

  ghost predicate OnlySymbol(freq: seq<nat>, elems: nat, x: nat)
    requires elems <= |freq|
  {
    x < elems && freq[x] != 0 && forall y: nat :: y < elems && y != x ==> freq[y] == 0
  }

  lemma ForcedRight(h: seq<nat>, len: nat, freq: seq<nat>, elems: nat, max: int, forced: seq<nat>)
    requires len < |h| && elems <= |freq| && LeavesWaiting(h, len, freq, elems) && LargestCode(freq, elems, max)
    requires forced == if len < 2 then ForcedFrom(max, 2 - len) else []
    ensures RightlyForced(freq, elems, forced)
  {
    var w := Waiting(h, len);
    if len == 0 {
      NoneUsed(w, freq, elems);
      assert max == -1;
      assert ForcedFrom(1, 0) == [] && ForcedFrom(0, 1) == [1] && ForcedFrom(-1, 2) == [0] + ForcedFrom(0, 1);
    } else if len == 1 {
      assert h[1..2] == [h[1]];
      assert w == multiset{h[1]};
      OneUsed(w, freq, elems, h[1]);
      assert max == h[1];
      assert ForcedFrom(max, 1) == [if max < 2 then max + 1 else 0];
      assert OnlySymbol(freq, elems, h[1]);
    } else {
      TwoUsed(h, len, freq, elems);
    }
  }

  lemma NoneUsed(w: multiset<nat>, freq: seq<nat>, elems: nat)
    requires elems <= |freq| && |w| == 0 && forall x: nat :: w[x] == if IsNode(freq, elems, 0, x) then 1 else 0
    ensures forall x: nat :: x < elems ==> freq[x] == 0
  {
    assert w == multiset{};
    forall x: nat | x < elems ensures freq[x] == 0 {
      assert w[x] == 0;
    }
  }

  lemma OneUsed(w: multiset<nat>, freq: seq<nat>, elems: nat, a: nat)
    requires elems <= |freq| && w == multiset{a} && forall x: nat :: w[x] == if IsNode(freq, elems, 0, x) then 1 else 0
    ensures OnlySymbol(freq, elems, a)
  {
    assert w[a] == 1;
    forall y: nat | y < elems && y != a ensures freq[y] == 0 {
      assert w[y] == 0;
    }
  }

  lemma TwoUsed(h: seq<nat>, len: nat, freq: seq<nat>, elems: nat)
    requires 2 <= len < |h| && elems <= |freq| && LeavesWaiting(h, len, freq, elems)
    ensures exists x: nat, y: nat :: x < elems && y < elems && x != y && freq[x] != 0 && freq[y] != 0
  {
    var s := h[1..len + 1];
    forall x: nat ensures multiset(s)[x] <= 1 {
      assert Waiting(h, len)[x] == if IsNode(freq, elems, 0, x) then 1 else 0;
    }
    OnceEach(s);
    assert s[0] != s[1] && s[0] in multiset(s) && s[1] in multiset(s);
    assert IsNode(freq, elems, 0, s[0]) && IsNode(freq, elems, 0, s[1]);
  }

  /** The second loop: with fewer than two symbols in use, unused ones are forced into the code. */
  method ForceTwoCodes(c: Coder, t: TreeDesc, max: int) returns (maxCode: int, ghost forced: seq<nat>)
    requires c.Separate(t) && c.heapLen < HEAP_SIZE
    requires LeavesWaiting(c.heap[..], c.heapLen, t.fc[..], t.elems) && LargestCode(t.fc[..], t.elems, max)
    requires Flat(t.fc[..], c.depth[..], t.elems)
    modifies c.heap, c.depth, t.fc, c`heapLen, c`optLen, c`staticLen
    ensures 2 <= c.heapLen < HEAP_SIZE && c.heapLen == old(c.heapLen) + |forced|
    ensures |forced| > 0 ==> c.heapLen == 2
    ensures RightlyForced(old(t.fc[..]), t.elems, forced)
    ensures forall i :: 0 <= i < |forced| ==> forced[i] < t.elems && old(t.fc[forced[i]]) == 0
    ensures t.fc[..] == WithForced(old(t.fc[..]), forced)
    ensures LeavesWaiting(c.heap[..], c.heapLen, t.fc[..], t.elems) && LargestCode(t.fc[..], t.elems, maxCode)
    ensures Flat(t.fc[..], c.depth[..], t.elems)
    ensures c.optLen == old(c.optLen) - |forced|
    ensures c.staticLen == old(c.staticLen) - if t.staticLens.Some? then StaticLens(t, forced) else 0
    ensures forall x :: 0 <= x < t.elems && t.fc[x] == 0 ==> old(t.fc[x]) == 0
  {
    hide *;
    SeparateParts(c, t);
    ghost var f0, s0, h0, len0, opt0 := t.fc[..], c.staticLen, c.heap[..], c.heapLen, c.optLen;
    AtLeastNoCode(f0, t.elems, max);
    ghost var all := if len0 < 2 then ForcedFrom(max, 2 - len0) else [];
    NothingPicked(max, len0, all);
    NothingForced(t, f0, s0);
    maxCode, forced := max, [];
    ForcingJoin(c, t, maxCode, forced, f0, s0, len0, opt0, all);
    while c.heapLen < 2
      invariant Forcing(c, t, maxCode, forced, f0, s0, len0, opt0, all)
      decreases 2 - c.heapLen
    {
      maxCode, forced := ForceOne(c, t, maxCode, forced, f0, s0, len0, opt0, all);
    }
    ForcingParts(c, t, maxCode, forced, f0, s0, len0, opt0, all);
    AllPicked(maxCode, c.heapLen, forced, all);
    ForcedParts(t, f0, forced, t.fc[..], s0, c.staticLen);
    ForcedRight(h0, len0, f0, t.elems, max, forced);
  }

  /** What holds after some symbols were forced. */
  ghost predicate Forcing(c: Coder, t: TreeDesc, max: int, forced: seq<nat>, f0: seq<nat>, s0: int, len0: nat, opt0: int,
                          all: seq<nat>)
    reads c, c.heap, c.depth, t.fc
  {
    && c.Separate(t) && c.heapLen < HEAP_SIZE && c.heapLen == len0 + |forced| && (|forced| > 0 ==> c.heapLen <= 2)
    && LeavesWaiting(c.heap[..], c.heapLen, t.fc[..], t.elems) && LargestCode(t.fc[..], t.elems, max)
    && Flat(t.fc[..], c.depth[..], t.elems)
    && Picking(max, c.heapLen, forced, all) && c.optLen == opt0 - |forced|
    && Forced(t, f0, forced, t.fc[..], s0, c.staticLen)
  }

  lemma ForcingParts(c: Coder, t: TreeDesc, max: int, forced: seq<nat>, f0: seq<nat>, s0: int, len0: nat, opt0: int,
                     all: seq<nat>)
    requires Forcing(c, t, max, forced, f0, s0, len0, opt0, all)
    ensures c.Separate(t) && c.heapLen < HEAP_SIZE && c.heapLen == len0 + |forced| && (|forced| > 0 ==> c.heapLen <= 2)
    ensures c.heap.Length == HEAP_SIZE && t.elems <= t.fc.Length
    ensures LeavesWaiting(c.heap[..], c.heapLen, t.fc[..], t.elems) && LargestCode(t.fc[..], t.elems, max)
    ensures Flat(t.fc[..], c.depth[..], t.elems)
    ensures Picking(max, c.heapLen, forced, all) && c.optLen == opt0 - |forced|
    ensures Forced(t, f0, forced, t.fc[..], s0, c.staticLen)
  {
    hide Flat, LeavesWaiting, LargestCode, Picking, Forced;
  }

  lemma ForcingJoin(c: Coder, t: TreeDesc, max: int, forced: seq<nat>, f0: seq<nat>, s0: int, len0: nat, opt0: int,
                    all: seq<nat>)
    requires c.Separate(t) && c.heapLen < HEAP_SIZE && c.heapLen == len0 + |forced| && (|forced| > 0 ==> c.heapLen <= 2)
    requires LeavesWaiting(c.heap[..], c.heapLen, t.fc[..], t.elems) && LargestCode(t.fc[..], t.elems, max)
    requires Flat(t.fc[..], c.depth[..], t.elems)
    requires Picking(max, c.heapLen, forced, all) && c.optLen == opt0 - |forced|
    requires Forced(t, f0, forced, t.fc[..], s0, c.staticLen)
    ensures Forcing(c, t, max, forced, f0, s0, len0, opt0, all)
  {
    hide Flat, LeavesWaiting, LargestCode, Picking, Forced;
  }

  /** The loop body. */
  method ForceOne(c: Coder, t: TreeDesc, max: int, ghost forced: seq<nat>, ghost f0: seq<nat>, ghost s0: int,
                  ghost len0: nat, ghost opt0: int, ghost all: seq<nat>) returns (maxCode: int, ghost forced': seq<nat>)
    requires Forcing(c, t, max, forced, f0, s0, len0, opt0, all) && c.heapLen < 2
    modifies c.heap, c.depth, t.fc, c`heapLen, c`optLen, c`staticLen
    ensures Forcing(c, t, maxCode, forced', f0, s0, len0, opt0, all) && c.heapLen == old(c.heapLen) + 1
  {
    hide *;
    ForcingParts(c, t, max, forced, f0, s0, len0, opt0, all);
    SeparateParts(c, t);
    ghost var f1, s1 := t.fc[..], c.staticLen;
    ghost var symbol;
    maxCode, symbol := ForceCode(c, t, max);
    ForcedMore(t, f0, forced, f1, s0, s1, symbol);
    PickedNext(max, c.heapLen - 1, forced, all);
    forced' := forced + [symbol];
    ForcingJoin(c, t, maxCode, forced', f0, s0, len0, opt0, all);
  }

  lemma AtLeastNoCode(freq: seq<nat>, elems: nat, max: int)
    requires elems <= |freq| && LargestCode(freq, elems, max)
    ensures max >= -1
  {
  }

  /** What was picked so far and what is still to come. */
  ghost predicate Picking(max: int, len: nat, forced: seq<nat>, all: seq<nat>) {
    max >= -1 && all == forced + if len < 2 then ForcedFrom(max, 2 - len) else []
  }

  lemma SeparateParts(c: Coder, t: TreeDesc)
    requires c.Separate(t)
    ensures HEAP_SIZE > 2 && c.heap.Length == HEAP_SIZE && t.Valid() && t.elems <= t.fc.Length
    ensures c.heap != t.fc && c.depth != t.fc && c.blCount != t.fc && t.dl != t.fc && t.dl.Length == t.fc.Length
    ensures c.blCount.Length == MAX_BITS + 1 && 1 <= t.maxLength <= MAX_BITS
    ensures c.heap != c.blCount && c.heap != t.dl && c.blCount != t.dl && c.depth != t.dl
  {
  }

  lemma NothingPicked(max: int, len: nat, all: seq<nat>)
    requires max >= -1 && all == if len < 2 then ForcedFrom(max, 2 - len) else []
    ensures Picking(max, len, [], all)
  {
  }

  lemma PickedNext(max: int, len: nat, forced: seq<nat>, all: seq<nat>)
    requires Picking(max, len, forced, all) && len < 2
    ensures Picking(if max < 2 then max + 1 else max, len + 1, forced + [if max < 2 then max + 1 else 0], all)
  {
    var next, symbol := if max < 2 then max + 1 else max, if max < 2 then max + 1 else 0;
    assert ForcedFrom(max, 2 - len) == [symbol] + ForcedFrom(next, 1 - len);
    assert forced + ([symbol] + ForcedFrom(next, 1 - len)) == forced + [symbol] + ForcedFrom(next, 1 - len);
    if len == 1 {
      assert ForcedFrom(next, 0) == [];
    }
  }

  lemma AllPicked(max: int, len: nat, forced: seq<nat>, all: seq<nat>)
    requires Picking(max, len, forced, all) && len >= 2
    ensures forced == all
  {
  }

  lemma NothingForced(t: TreeDesc, freq: seq<nat>, static0: int)
    requires t.Valid() && t.elems <= |freq|
    ensures Forced(t, freq, [], freq, static0, static0)
  {
  }

  lemma ForcedParts(t: TreeDesc, freq0: seq<nat>, forced: seq<nat>, freq: seq<nat>, static0: int, static1: int)
    requires Forced(t, freq0, forced, freq, static0, static1)
    ensures t.Valid() && t.elems <= |freq0| && forall i :: 0 <= i < |forced| ==> forced[i] < t.elems && freq0[forced[i]] == 0
    ensures freq == WithForced(freq0, forced)
    ensures static1 == static0 - (if t.staticLens.Some? then StaticLens(t, forced) else 0)
    ensures forall x :: 0 <= x < t.elems && freq[x] == 0 ==> freq0[x] == 0
  {
  }

  /** `freq` and the static length after the symbols of `forced` were forced into the code. */
  ghost predicate Forced(t: TreeDesc, freq0: seq<nat>, forced: seq<nat>, freq: seq<nat>, static0: int, static1: int) {
    && t.Valid() && t.elems <= |freq0|
    && (forall i :: 0 <= i < |forced| ==> forced[i] < t.elems && freq0[forced[i]] == 0)
    && freq == WithForced(freq0, forced)
    && static1 == static0 - (if t.staticLens.Some? then StaticLens(t, forced) else 0)
    && forall x :: 0 <= x < t.elems && freq[x] == 0 ==> freq0[x] == 0
  }

  lemma ForcedMore(t: TreeDesc, freq0: seq<nat>, forced: seq<nat>, freq: seq<nat>, static0: int, static1: int, symbol: nat)
    requires Forced(t, freq0, forced, freq, static0, static1) && symbol < t.elems && freq[symbol] == 0
    ensures Forced(t, freq0, forced + [symbol], freq[symbol := 1], static0,
                   static1 - if t.staticLens.Some? then t.staticLens.value[symbol] else 0)
  {
    var longer := forced + [symbol];
    assert longer[..|longer| - 1] == forced;
  }

  lemma UnusedSymbol(h: seq<nat>, len: nat, freq: seq<nat>, elems: nat, max: int)
    requires len < 2 < |h| && 3 <= elems <= |freq| && LeavesWaiting(h, len, freq, elems) && LargestCode(freq, elems, max)
    ensures var symbol := if max < 2 then max + 1 else 0;
            freq[symbol] == 0 && LargestCode(freq[symbol := 1], elems, if max < 2 then max + 1 else max)
  {
    if max >= 2 {
      var w, rest := Waiting(h, len), Waiting(h, len) - multiset{max};
      assert w[max] == 1 && |w| == len;
      assert w == multiset{max} + rest;
      assert |rest| == 0;
      assert w[0] == 0;
    }
  }

  method ForceCode(c: Coder, t: TreeDesc, max: int) returns (maxCode: int, ghost symbol: nat)
    requires c.Separate(t) && c.heapLen < 2
    requires LeavesWaiting(c.heap[..], c.heapLen, t.fc[..], t.elems) && LargestCode(t.fc[..], t.elems, max)
    requires Flat(t.fc[..], c.depth[..], t.elems)
    modifies c.heap, c.depth, t.fc, c`heapLen, c`optLen, c`staticLen
    ensures c.heapLen == old(c.heapLen) + 1
    ensures symbol == (if max < 2 then max + 1 else 0) && maxCode == (if max < 2 then max + 1 else max)
    ensures symbol < t.elems && old(t.fc[symbol]) == 0 && t.fc[..] == old(t.fc[..])[symbol := 1]
    ensures LeavesWaiting(c.heap[..], c.heapLen, t.fc[..], t.elems) && LargestCode(t.fc[..], t.elems, maxCode)
    ensures Flat(t.fc[..], c.depth[..], t.elems)
    ensures c.optLen == old(c.optLen) - 1
    ensures c.staticLen == old(c.staticLen) - if t.staticLens.Some? then t.staticLens.value[symbol] else 0
  {
    hide *;
    SeparateParts(c, t);
    CodeFits(c, t, max);
    CodeForced(c.heap[..], c.heapLen, t.fc[..], c.depth[..], t.elems, max);
    maxCode := max;
    var new_;
    if maxCode < 2 {
      maxCode := maxCode + 1;
      new_ := maxCode;
    } else {
      new_ := 0;
    }
    symbol := new_;
    c.heapLen := c.heapLen + 1;
    c.heap[c.heapLen] := new_;
    t.fc[new_] := 1;
    c.depth[new_] := 0;
    c.optLen := c.optLen - 1;
    if t.staticLens.Some? {
      c.staticLen := c.staticLen - t.staticLens.value[new_];
    }
    assert c.heap[..] == old(c.heap[..])[c.heapLen := new_] && c.depth[..] == old(c.depth[..])[new_ := 0];
    assert t.fc[..] == old(t.fc[..])[new_ := 1];
  }

  lemma CodeFits(c: Coder, t: TreeDesc, max: int)
    requires c.Separate(t) && c.heapLen < 2 && LargestCode(t.fc[..], t.elems, max)
    ensures HEAP_SIZE > 3 && -1 <= max < t.elems && 3 <= t.elems <= t.fc.Length && t.elems <= c.depth.Length && c.heap != c.depth
    ensures t.staticLens.Some? ==> t.elems <= |t.staticLens.value|
  {
  }

  lemma CodeForced(h: seq<nat>, len: nat, freq: seq<nat>, depth: seq<nat>, elems: nat, max: int)
    requires len < 2 && 3 < |h| && 3 <= elems <= |freq| && elems <= |depth| && -1 <= max < elems
    requires LeavesWaiting(h, len, freq, elems) && LargestCode(freq, elems, max) && Flat(freq, depth, elems)
    ensures var symbol := if max < 2 then max + 1 else 0;
            && freq[symbol] == 0 && LargestCode(freq[symbol := 1], elems, if max < 2 then max + 1 else max)
            && LeavesWaiting(h[len + 1 := symbol], len + 1, freq[symbol := 1], elems)
            && Flat(freq[symbol := 1], depth[symbol := 0], elems)
  {
    hide *;
    UnusedSymbol(h, len, freq, elems, max);
    var symbol := if max < 2 then max + 1 else 0;
    LeafAdded(h, len, freq, elems, h[len + 1 := symbol], freq[symbol := 1], elems, symbol);
    FlatForced(freq, depth, elems, symbol);
  }

  lemma FlatForced(freq: seq<nat>, depth: seq<nat>, elems: nat, x: nat)
    requires x < |freq| && x < |depth| && Flat(freq, depth, elems)
    ensures Flat(freq[x := 1], depth[x := 0], elems)
  {
  }

  /** The third loop: establish the heap property from the last father to the root. */
  method Heapify(c: Coder, t: TreeDesc)
    requires c.Separate(t) && 1 <= c.heapLen < HEAP_SIZE
    requires InTables(c.heap[..], c.heapLen, t.fc[..], c.depth[..])
    modifies c.heap
    ensures InTables(c.heap[..], c.heapLen, t.fc[..], c.depth[..])
    ensures HeapFrom(c.heap[..], 1, c.heapLen, t.fc[..], c.depth[..])
    ensures Waiting(c.heap[..], c.heapLen) == Waiting(old(c.heap[..]), c.heapLen)
  {
    ghost var f, d := t.fc[..], c.depth[..];
    var n := c.heapLen / 2;
    while n >= 1
      invariant 0 <= n <= c.heapLen / 2 && f == t.fc[..] && d == c.depth[..]
      invariant InTables(c.heap[..], c.heapLen, f, d)
      invariant HeapFrom(c.heap[..], n + 1, c.heapLen, f, d)
      invariant Waiting(c.heap[..], c.heapLen) == Waiting(old(c.heap[..]), c.heapLen)
    {
      SiftOne(c.heap[..], n, c.heapLen, f, d);
      PqDownHeap(c.heap, c.heapLen, t.fc, c.depth, n);
      n := n - 1;
    }
  }

  lemma SiftOne(h: seq<nat>, k: nat, len: nat, freq: seq<nat>, depth: seq<nat>)
    requires InTables(h, len, freq, depth) && 1 <= k <= len && HeapFrom(h, k + 1, len, freq, depth)
    ensures HeapFrom(Sift(h, k, len, freq, depth), k, len, freq, depth)
    ensures Waiting(Sift(h, k, len, freq, depth), len) == Waiting(h, len)
  {
    SiftRestoresHeap(h, k, k, len, freq, depth);
    SiftPermutes(h, k, len, freq, depth);
  }

  lemma OnceEach(s: seq<nat>)
    requires forall x: nat :: multiset(s)[x] <= 1
    ensures forall i, k :: 0 <= i < k < |s| ==> s[i] != s[k]
  {
    forall i, k | 0 <= i < k < |s| ensures s[i] != s[k] {
      var a, b := s[..k], s[k..];
      assert s == a + b;
      assert a[i] == s[i] && b[0] == s[k];
      assert multiset(s) == multiset(a) + multiset(b);
      assert multiset(a)[s[i]] >= 1 && multiset(b)[s[k]] >= 1;
      assert multiset(a)[s[k]] + multiset(b)[s[k]] == multiset(s)[s[k]] <= 1;
    }
  }

  /** The last waiting node is the root; put in front of the merged nodes it completes the tree's list. */
  lemma ForestToList(h: seq<nat>, top: nat, freq: seq<nat>, dad: seq<nat>, elems: nat, n: nat)
    requires 2 <= n && Forest(h, 1, top, freq, dad, elems, n, n - 1)
    ensures TreeList([h[1]] + h[top..], freq, dad, elems, n)
  {
    var list := [h[1]] + h[top..];
    assert h[1..2] == [h[1]];
    assert multiset(list) == Nodes(h, 1, top);
    OnceEach(list);
    forall x: nat ensures x in list <==> IsNode(freq, elems, n - 1, x) {
      assert x in list <==> multiset(list)[x] > 0;
    }
    forall i | 1 <= i < |list|
      ensures list[i] < |dad| && dad[list[i]] == Father(elems, n, i) && list[i] < dad[list[i]]
    {
      assert list[i] == h[top + i - 1];
    }
    var root := elems + n - 2;
    assert root in list;
    var i :| 0 <= i < |list| && list[i] == root;
  }

  /** From the merged nodes' order to the order of the whole list. */
  lemma TameToOrder(h: seq<nat>, top: nat, keys: seq<nat>)
    requires 1 < top < |h| && InOrder(h, 1, top, keys) && h[1] < |keys|
    ensures OrderedByFrequency([h[1]] + h[top..], keys)
  {
    var list := [h[1]] + h[top..];
    assert h[1..2][0] == h[1];
    assert h[1] in Waiting(h, 1);
    forall i | 0 <= i < |list| ensures list[i] < |keys| {
      assert i > 0 ==> list[i] == h[top + i - 1];
    }
    forall i, k | 0 <= i < k < |list| ensures keys[list[k]] <= keys[list[i]] {
      assert list[k] == h[top + k - 1];
      if i > 0 {
        assert list[i] == h[top + i - 1];
      } else {
        assert keys[h[top]] <= keys[h[1]];
        assert keys[h[top + k - 1]] <= keys[h[top]];
      }
    }
  }

  /** And from the sums of the pairs to those of the fathers in the list. */
  lemma TameToSums(h: seq<nat>, top: nat, freq: seq<nat>, elems: nat, n: nat)
    requires 1 < top < |h| && PairSums(h, top, freq, elems) && 2 <= n && top == |h| - 2 * (n - 1)
    ensures FathersSum([h[1]] + h[top..], freq, elems, n)
  {
    var list := [h[1]] + h[top..];
    forall i | 1 <= i && i + 1 < |list| && i % 2 == 1 && i <= 2 * n - 2
      ensures list[i] < |freq| && list[i + 1] < |freq| && Father(elems, n, i) < |freq|
      ensures freq[Father(elems, n, i)] == freq[list[i]] + freq[list[i + 1]]
    {
      var q := top + i - 1;
      assert PairSum(h, freq, elems, q);
      assert list[i] == h[q] && list[i + 1] == h[q + 1];
      assert Father(elems, n, i) == elems + (|h| - 2 - q) / 2;
    }
  }

  /** And their depths. */
  lemma RankedToTies(h: seq<nat>, top: nat, freq: seq<nat>, depth: seq<nat>, dad: seq<nat>, elems: nat, n: nat)
    requires 1 < top < |h| && Ranked(h, 1, top, freq, depth, elems) && 2 <= n && top == |h| - 2 * (n - 1)
    requires TreeList([h[1]] + h[top..], freq, dad, elems, n) && elems + n - 1 <= |depth|
    ensures HuffmanHeights.TieList([h[1]] + h[top..], freq, depth, elems, n)
  {
    hide *;
    var list := [h[1]] + h[top..];
    RankedParts(h, 1, top, freq, depth, elems);
    FlatList(list, freq, depth, dad, elems, n);
    KeysSize(freq, depth);
    TameToOrder(h, top, HuffmanHeights.Keys(freq, depth));
    forall i | 1 <= i && i + 1 < |list| && i % 2 == 1 ensures HuffmanHeights.FatherDeeper(list, depth, elems, n, i) {
      PairToFather(h, top, depth, elems, n, i);
    }
    HuffmanHeights.TieJoin(list, freq, depth, elems, n);
  }

  lemma KeysSize(freq: seq<nat>, depth: seq<nat>)
    ensures |HuffmanHeights.Keys(freq, depth)| == |freq|
  {
  }

  lemma FlatList(list: seq<nat>, freq: seq<nat>, depth: seq<nat>, dad: seq<nat>, elems: nat, n: nat)
    requires TreeList(list, freq, dad, elems, n) && Flat(freq, depth, elems) && elems + n - 1 <= |depth|
    ensures 2 <= n && |list| == 2 * n - 1 && elems <= |depth| && list[0] < |freq|
    ensures forall p :: 0 <= p < |list| && list[p] < elems ==> depth[list[p]] == 0
  {
    assert list[0] in list && IsNode(freq, elems, n - 1, list[0]);
    forall p | 0 <= p < |list| && list[p] < elems ensures depth[list[p]] == 0 {
      assert list[p] in list;
      assert IsNode(freq, elems, n - 1, list[p]);
    }
  }

  lemma PairToFather(h: seq<nat>, top: nat, depth: seq<nat>, elems: nat, n: nat, i: nat)
    requires 1 < top < |h| && PairDepths(h, top, depth, elems) && 2 <= n && top == |h| - 2 * (n - 1)
    requires 1 <= i && i + 1 < 1 + |h[top..]| && i % 2 == 1
    ensures HuffmanHeights.FatherDeeper([h[1]] + h[top..], depth, elems, n, i)
  {
    var list := [h[1]] + h[top..];
    var q := top + i - 1;
    assert PairDepth(h, depth, elems, q);
    assert list[i] == h[q] && list[i + 1] == h[q + 1];
    assert Father(elems, n, i) == elems + (|h| - 2 - q) / 2;
  }

  lemma TameToList(h: seq<nat>, top: nat, freq: seq<nat>, depth: seq<nat>, dad: seq<nat>, elems: nat, n: nat)
    requires 1 < top < |h| && Tame(h, 1, top, freq, depth, elems) && h[1] < |freq| && 2 <= n && top == |h| - 2 * (n - 1)
    requires TreeList([h[1]] + h[top..], freq, dad, elems, n) && elems + n - 1 <= |depth|
    ensures Frequent([h[1]] + h[top..], freq, depth, elems, n)
  {
    hide TreeList, Ranked, InOrder;
    TameToOrder(h, top, freq);
    TameToSums(h, top, freq, elems, n);
    RankedToTies(h, top, freq, depth, dad, elems, n);
  }

  /** The list of a tree that was made by joining the first two nodes in the order of `SMALLER` again and again. */
  ghost predicate Frequent(list: seq<nat>, freq: seq<nat>, depth: seq<nat>, elems: nat, n: nat) {
    HuffmanList(list, freq, elems, n) && HuffmanHeights.TieList(list, freq, depth, elems, n)
  }

  /** The do-while loop of `build_tree`. */
  method MergeAll(c: Coder, t: TreeDesc, ghost n: nat)
    requires c.Separate(t) && Merging(c, t, n, 0) && c.heapLen == n >= 2
    modifies c.heap, c.depth, t.fc, t.dl, c`heapLen, c`heapMax
    ensures Merging(c, t, n, n - 1) && c.heapLen == 1
    ensures forall x: nat :: x < t.elems ==> t.fc[x] == old(t.fc[x]) && (t.fc[x] == 0 ==> t.dl[x] == old(t.dl[x]))
    ensures old(Tame(c.heap[..], c.heapLen, c.heapMax, t.fc[..], c.depth[..], t.elems)) ==> Tame(c.heap[..], c.heapLen, c.heapMax, t.fc[..], c.depth[..], t.elems)
  {
    hide Merging, Tame, Forest;
    MergingBounds(c, t, n, 0);
    ghost var tame := Tame(c.heap[..], c.heapLen, c.heapMax, t.fc[..], c.depth[..], t.elems);
    ghost var k := 0;
    var node := t.elems;
    while true
      invariant Merging(c, t, n, k) && node == t.elems + k && c.heapLen == n - k >= 2
      invariant forall x: nat :: x < t.elems ==> t.fc[x] == old(t.fc[x]) && (t.fc[x] == 0 ==> t.dl[x] == old(t.dl[x]))
      invariant c.heapLen < c.heapMax <= HEAP_SIZE && (tame ==> Tame(c.heap[..], c.heapLen, c.heapMax, t.fc[..], c.depth[..], t.elems))
      decreases n - k
    {
      ghost var s := Merge(c, t, node, n, k);
      AfterMerge(c, t, s);
      node := node + 1;
      k := k + 1;
      if c.heapLen < 2 {
        break;
      }
    }
  }

  lemma AfterMerge(c: Coder, t: TreeDesc, s: Snapshot)
    requires c.Separate(t) && MergedFrom(s, c.heap[..], t.fc[..], c.depth[..], t.dl[..])
    requires c.heapLen == s.len - 1 && c.heapMax == s.top - 2 && s.elems == t.elems
    ensures Merging(c, t, s.n, s.k + 1) && c.heapLen == s.n - s.k - 1 && c.heapLen < c.heapMax <= HEAP_SIZE
    ensures forall z: nat :: z < t.elems && z < |s.freq| && z < |s.dad| && s.freq[z] == 0 ==> t.dl[z] == s.dad[z]
    ensures 1 <= s.len < s.top <= |s.h| && (Tame(s.h, s.len, s.top, s.freq, s.depth, s.elems) ==> Tame(c.heap[..], c.heapLen, c.heapMax, t.fc[..], c.depth[..], t.elems))
  {
    hide Tame, HeapFrom, InTables, Waiting, Nodes;
  }

  lemma MergingBounds(c: Coder, t: TreeDesc, n: nat, k: nat)
    requires c.Separate(t) && Merging(c, t, n, k)
    ensures c.heapLen < c.heapMax <= HEAP_SIZE && c.heapLen == n - k
  {
  }

  lemma LeavesToForest(h: seq<nat>, len: nat, freq: seq<nat>, dad: seq<nat>, elems: nat, depth: seq<nat>)
    requires |h| == HEAP_SIZE == |depth| && elems <= L_CODES && 2 * elems + 1 <= |freq| == |dad|
    requires 2 <= len < |h| && LeavesWaiting(h, len, freq, elems)
    ensures Forest(h, len, HEAP_SIZE, freq, dad, elems, len, 0)
    ensures InTables(h, len, freq, depth)
    ensures Sum(freq[..elems]) < 0x1_0000 && Flat(freq, depth, elems) ==> Tame(h, len, HEAP_SIZE, freq, depth, elems)
  {
    assert h[HEAP_SIZE..] == [];
    assert Nodes(h, len, HEAP_SIZE) == Waiting(h, len);
    LeafSum(Waiting(h, len), freq, elems);
    if Flat(freq, depth, elems) {
      FlatBytes(h, len, freq, depth, elems);
    }
  }

  lemma FlatBytes(h: seq<nat>, len: nat, freq: seq<nat>, depth: seq<nat>, elems: nat)
    requires len < |h| && elems <= |freq| && LeavesWaiting(h, len, freq, elems) && Flat(freq, depth, elems)
    ensures PositiveBytes(Waiting(h, len), freq, depth)
  {
    forall z: nat | z in Waiting(h, len) ensures IsNode(freq, elems, 0, z) {
      assert Waiting(h, len)[z] > 0;
    }
  }

  lemma LeafSum(w: multiset<nat>, freq: seq<nat>, elems: nat)
    requires elems <= |freq|
    requires forall x: nat :: w[x] == if IsNode(freq, elems, 0, x) then 1 else 0
    ensures FreqSum(w, freq) == Sum(freq[..elems])
  {
    var s := seq(|freq|, x requires 0 <= x < |freq| => if x in w then freq[x] else 0);
    forall x: nat | x < |freq| ensures s[x] == if x < elems then freq[x] else 0 {
      assert w[x] == if IsNode(freq, elems, 0, x) then 1 else 0;
    }
    SumOfPrefix(s, freq, elems);
  }

  lemma {:induction false} SumOfPrefix(s: seq<int>, freq: seq<nat>, elems: nat)
    requires |s| == |freq| >= elems
    requires forall x: nat :: x < |s| ==> s[x] == if x < elems then freq[x] else 0
    ensures Sum(s) == Sum(freq[..elems])
    decreases |s|
  {
    if |s| > elems {
      SumOfPrefix(s[..|s| - 1], freq[..|s| - 1], elems);
      assert freq[..|s| - 1][..elems] == freq[..elems];
    } else if elems > 0 {
      SumOfPrefix(s[..|s| - 1], freq[..|s| - 1], elems - 1);
      assert freq[..elems][..elems - 1] == freq[..|s| - 1][..elems - 1];
    }
  }

  /** `build_tree` up to the merges. */
  method PrepareHeap(c: Coder, t: TreeDesc) returns (ghost forced: seq<nat>)
    requires c.Separate(t)
    modifies c.heap, c.depth, t.fc, t.dl, t`maxCode, c`heapLen, c`heapMax, c`optLen, c`staticLen
    ensures 2 <= c.heapLen && Merging(c, t, c.heapLen, 0) && |forced| <= c.heapLen && (|forced| > 0 ==> c.heapLen == 2)
    ensures LargestCode(t.fc[..], t.elems, t.maxCode)
    ensures RightlyForced(old(t.fc[..]), t.elems, forced)
    ensures forall i :: 0 <= i < |forced| ==> forced[i] < t.elems && old(t.fc[forced[i]]) == 0
    ensures t.fc[..] == WithForced(old(t.fc[..]), forced)
    ensures forall x :: 0 <= x < t.elems && t.fc[x] == 0 ==> t.dl[x] == 0
    ensures c.optLen == old(c.optLen) - |forced|
    ensures c.staticLen == old(c.staticLen) - if t.staticLens.Some? then StaticLens(t, forced) else 0
    ensures Sum(t.fc[..t.elems]) < 0x1_0000 ==> Tame(c.heap[..], c.heapLen, c.heapMax, t.fc[..], c.depth[..], t.elems)
  {
    hide RightlyForced, Flat;
    var max := CollectLeaves(c, t);
    max, forced := ForceTwoCodes(c, t, max);
    t.maxCode := max;
    HeapifyLeaves(c, t);
  }

  method HeapifyLeaves(c: Coder, t: TreeDesc)
    requires c.Separate(t) && 2 <= c.heapLen < HEAP_SIZE && c.heapMax == HEAP_SIZE
    requires LeavesWaiting(c.heap[..], c.heapLen, t.fc[..], t.elems) && Flat(t.fc[..], c.depth[..], t.elems)
    modifies c.heap
    ensures Merging(c, t, c.heapLen, 0)
    ensures Sum(t.fc[..t.elems]) < 0x1_0000 ==> Tame(c.heap[..], c.heapLen, c.heapMax, t.fc[..], c.depth[..], t.elems)
  {
    LeavesToForest(c.heap[..], c.heapLen, t.fc[..], t.dl[..], t.elems, c.depth[..]);
    ghost var h := c.heap[..];
    Heapify(c, t);
    SameLeaves(h, c.heap[..], c.heapLen, t.fc[..], t.elems, c.depth[..]);
    LeavesToForest(c.heap[..], c.heapLen, t.fc[..], t.dl[..], t.elems, c.depth[..]);
    assert t.fc[..][..t.elems] == t.fc[..t.elems];
  }

  lemma SameLeaves(h: seq<nat>, h': seq<nat>, len: nat, freq: seq<nat>, elems: nat, depth: seq<nat>)
    requires len < |h| == |h'| && elems <= |freq| && LeavesWaiting(h, len, freq, elems)
    requires Waiting(h', len) == Waiting(h, len)
    ensures LeavesWaiting(h', len, freq, elems)
  {
    forall j | 1 <= j <= len ensures h'[j] < elems {
      assert h'[1..len + 1][j - 1] == h'[j];
      assert Waiting(h', len)[h'[j]] > 0;
    }
  }

  /** The last assignment before `gen_bitlen`: the root goes in front of the merged nodes. */
  method PushRoot(c: Coder, t: TreeDesc, ghost n: nat)
    requires c.Separate(t) && 2 <= n && Merging(c, t, n, n - 1) && c.heapLen == 1
    requires LargestCode(t.fc[..], t.elems, t.maxCode)
    requires forall x: nat :: x < t.elems && t.fc[x] == 0 ==> t.dl[x] == 0
    modifies c.heap, c`heapMax
    ensures c.TreeBuilt(t, n)
    ensures old(Tame(c.heap[..], c.heapLen, c.heapMax, t.fc[..], c.depth[..], t.elems)) ==> Frequent(c.heap[c.heapMax..], t.fc[..], c.depth[..], t.elems, n)
  {
    hide TreeList, Frequent, Tame;
    ghost var h, top := c.heap[..], c.heapMax;
    ForestToList(h, top, t.fc[..], t.dl[..], t.elems, n);
    ghost var tame := Tame(h, 1, top, t.fc[..], c.depth[..], t.elems);
    if tame {
      TameToList(h, top, t.fc[..], c.depth[..], t.dl[..], t.elems, n);
    }
    c.heapMax := c.heapMax - 1;
    c.heap[c.heapMax] := c.heap[1];
    assert c.heap[c.heapMax..] == [h[1]] + h[top..];
  }

  /** No stored code, read from its low bit, is the beginning of another. */
  ghost predicate Decodable(codes: seq<nat>, lens: seq<nat>)
    requires |lens| <= |codes|
  {
    forall a: nat, b: nat :: a < |lens| && b < |lens| && a != b && lens[a] != 0 && lens[b] != 0 ==>
      !(LsbBits(codes[a], lens[a]) <= LsbBits(codes[b], lens[b]))
  }

  lemma {:induction false} KraftRescale(lens: seq<nat>, m: nat, top: nat)
    requires m <= top && forall x: nat :: x < |lens| ==> lens[x] <= m
    ensures Kraft(lens, top) == Kraft(lens, m) * Pow2(top - m)
    decreases |lens|
  {
    if lens != [] {
      var len := lens[|lens| - 1];
      KraftRescale(lens[..|lens| - 1], m, top);
      if len != 0 {
        Pow2Add(m - len, top - m);
      }
      Distributes(Kraft(lens[..|lens| - 1], m), Weight(len, m), Pow2(top - m));
    }
  }

  lemma {:induction false} DropZeros(lens: seq<nat>, k: nat)
    requires k <= |lens| && forall x: nat :: k <= x < |lens| ==> lens[x] == 0
    ensures forall b: nat :: b != 0 ==> Count(lens[..k], b) == Count(lens, b)
    ensures forall m: nat :: Kraft(lens[..k], m) == Kraft(lens, m)
    decreases |lens|
  {
    if k < |lens| {
      DropZeros(lens[..|lens| - 1], k);
      assert lens[..|lens| - 1][..k] == lens[..k];
    } else {
      assert lens[..k] == lens;
    }
  }

  /** Complete lengths up to the largest code are what `gen_codes` needs. */
  lemma CompleteIsCodable(lens: seq<nat>, freq: seq<nat>, counts: seq<nat>, max: nat, maxCode: int)
    requires |lens| <= |freq| && CompleteLengths(lens, freq, counts, max) && max <= MAX_BITS
    requires LargestCode(freq, |lens|, maxCode)
    ensures Codable(lens[..maxCode + 1], counts)
  {
    hide Kraft, Pow2, Count;
    DropZeros(lens, maxCode + 1);
    KraftRescale(lens, max, MAX_BITS);
    Pow2Add(max, MAX_BITS - max);
  }

  lemma AllCodable(lens: seq<nat>, freq: seq<nat>, counts: seq<nat>, max: nat)
    requires |lens| <= |freq| && CompleteLengths(lens, freq, counts, max) && max <= MAX_BITS
    ensures Codable(lens, counts)
  {
    hide Kraft, Pow2, Count;
    KraftRescale(lens, max, MAX_BITS);
    Pow2Add(max, MAX_BITS - max);
  }

  lemma StoredIsDecodable(lens: seq<nat>, counts: seq<nat>, codes: seq<nat>, all: seq<nat>)
    requires Codable(lens, counts) && |lens| <= |all| <= |codes| && all[..|lens|] == lens
    requires forall x: nat :: |lens| <= x < |all| ==> all[x] == 0
    requires AllStored(lens, counts, codes)
    ensures Decodable(codes, all)
  {
    hide Codable, AllStored, LsbBits;
    forall a: nat, b: nat | a < |all| && b < |all| && a != b && all[a] != 0 && all[b] != 0
      ensures !(LsbBits(codes[a], all[a]) <= LsbBits(codes[b], all[b]))
    {
      assert lens[a] == all[a] && lens[b] == all[b];
      StoredApart(lens, counts, codes, a, b);
    }
  }

  lemma StoredApart(lens: seq<nat>, counts: seq<nat>, codes: seq<nat>, a: nat, b: nat)
    requires Codable(lens, counts) && AllStored(lens, counts, codes)
    requires a < |lens| <= |codes| && b < |lens| && a != b && lens[a] != 0 && lens[b] != 0
    ensures !(LsbBits(codes[a], lens[a]) <= LsbBits(codes[b], lens[b]))
  {
    hide CanonicalCode, Codable, LsbBits, MsbBits, Reversed;
    assert CodeStored(lens, counts, codes[a], a) && CodeStored(lens, counts, codes[b], b);
    ReversedFits(codes[a], CanonicalCode(lens, counts, a), lens[a]);
    ReversedFits(codes[b], CanonicalCode(lens, counts, b), lens[b]);
    if lens[a] <= lens[b] {
      PrefixFree(lens, counts, a, b);
    }
  }

  lemma ReversedFits(code: nat, value: nat, len: nat)
    requires Reversed(code, value, len)
    ensures LsbBits(code, len) == MsbBits(value, len)
  {
    ReversedBits(code, value, len);
  }

  /** `build_tree` up to `gen_bitlen`: the tree and its code lengths. */
  method BuildLengths(c: Coder, t: TreeDesc) returns (ghost freq: seq<nat>, ghost forced: seq<nat>, ghost list: seq<nat>, ghost dad: seq<nat>)
    requires c.Separate(t)
    modifies c, c.heap, c.depth, c.blCount, t.fc, t.dl, t`maxCode
    ensures freq == t.fc[..] && LargestCode(freq, t.elems, t.maxCode)
    ensures |forced| <= 2 && forall i :: 0 <= i < |forced| ==> forced[i] < t.elems && old(t.fc[forced[i]]) == 0
    ensures RightlyForced(old(t.fc[..]), t.elems, forced)
    ensures freq[..t.elems] == WithForced(old(t.fc[..]), forced)[..t.elems]
    ensures TreeList(list, freq, dad, t.elems, (|list| + 1) / 2)
    ensures Sum(freq[..t.elems]) < 0x1_0000 ==> HuffmanList(list, freq, t.elems, (|list| + 1) / 2)
    ensures Sum(freq[..t.elems]) < 0x1_0000 ==> RarerLonger(t.dl[..t.elems], freq)
    ensures Sum(freq[..t.elems]) < 0x1_0000 ==>
              (Optimal(t.dl[..t.elems], freq) <==> Shallow(list, dad, t.elems, (|list| + 1) / 2, t.maxLength))
    ensures Sum(freq[..t.elems]) < 0x1_0000 && Sum(freq[..t.elems]) < Fib(t.maxLength + 3) ==> Optimal(t.dl[..t.elems], freq)
    ensures CompleteLengths(t.dl[..t.elems], freq, c.blCount[..], t.maxLength)
    ensures c.optLen == old(c.optLen) - |forced| + Dot(t.dl[..t.elems], freq) + Extras(freq[..t.elems], t.extraBase, t.extraBits)
    ensures c.staticLen == old(c.staticLen) - (if t.staticLens.Some? then StaticLens(t, forced) else 0) + StaticBits(t, freq[..t.elems])
  {
    hide *;
    SeparateParts(c, t);
    ghost var n;
    forced, n := BuildForest(c, t);
    BuiltParts(c, t, n);
    list, dad, freq := c.heap[c.heapMax..], t.dl[..], t.fc[..];
    ListSizes(list, freq, dad, t.elems, n);
    ghost var depth := c.depth[..];
    FrequentParts(list, freq, depth, t.elems, n);
    c.GenBitlen(t, n);
    assert list == c.heap[c.heapMax..] && freq == t.fc[..];
    if Sum(freq[..t.elems]) < 0x1_0000 {
      LimitKept(list, freq, dad, depth, t.elems, n, t.dl[..t.elems], c.blCount[..], t.maxLength);
      FewOptimal(list, freq, dad, t.elems, n, t.maxLength, t.dl[..t.elems]);
    }
    assert freq[..t.elems] == t.fc[..t.elems];
  }

  lemma FrequentParts(list: seq<nat>, freq: seq<nat>, depth: seq<nat>, elems: nat, n: nat)
    ensures Frequent(list, freq, depth, elems, n) ==>
              HuffmanList(list, freq, elems, n) && HuffmanHeights.TieList(list, freq, depth, elems, n)
  {
    hide HuffmanList, HuffmanHeights.TieList;
  }

  /** Lengths within the limit that are optimal mean that the tree keeps it. */
  lemma LimitKept(list: seq<nat>, freq: seq<nat>, dad: seq<nat>, depth: seq<nat>, elems: nat, n: nat, lens: seq<nat>, counts: seq<nat>, max: nat)
    requires TreeList(list, freq, dad, elems, n) && HuffmanList(list, freq, elems, n) && HuffmanHeights.TieList(list, freq, depth, elems, n)
    requires |lens| == elems <= |freq| && Sum(freq[..elems]) < 0x1_0000 && CompleteLengths(lens, freq, counts, max)
    ensures Optimal(lens, freq) ==> Shallow(list, dad, elems, n, max)
  {
    hide *;
    if Optimal(lens, freq) {
      CompleteCodes(lens, freq, counts, max);
      HuffmanHeights.OptimalIsShallow(list, freq, dad, depth, elems, n, lens, max);
    }
  }

  lemma CompleteCodes(lens: seq<nat>, freq: seq<nat>, counts: seq<nat>, max: nat)
    requires |lens| <= |freq| && CompleteLengths(lens, freq, counts, max)
    ensures Codes(lens, freq, max)
  {
    hide Kraft, Pow2;
  }

  lemma BuiltParts(c: Coder, t: TreeDesc, n: nat)
    requires c.Separate(t) && c.TreeBuilt(t, n)
    ensures c.heapMax <= c.heap.Length && TreeList(c.heap[c.heapMax..], t.fc[..], t.dl[..], t.elems, n)
  {
    hide TreeList;
  }

  method BuildForest(c: Coder, t: TreeDesc) returns (ghost forced: seq<nat>, ghost n: nat)
    requires c.Separate(t)
    modifies c, c.heap, c.depth, t.fc, t.dl, t`maxCode
    ensures c.TreeBuilt(t, n) && LargestCode(t.fc[..], t.elems, t.maxCode)
    ensures |forced| <= 2 && forall i :: 0 <= i < |forced| ==> forced[i] < t.elems && old(t.fc[forced[i]]) == 0
    ensures RightlyForced(old(t.fc[..]), t.elems, forced)
    ensures t.fc[..t.elems] == WithForced(old(t.fc[..]), forced)[..t.elems]
    ensures Sum(t.fc[..t.elems]) < 0x1_0000 ==> Frequent(c.heap[c.heapMax..], t.fc[..], c.depth[..], t.elems, n)
    ensures c.optLen == old(c.optLen) - |forced|
    ensures c.staticLen == old(c.staticLen) - if t.staticLens.Some? then StaticLens(t, forced) else 0
  {
    forced := PrepareHeap(c, t);
    hide Merging, Tame, Frequent, LargestCode, RightlyForced;
    n := c.heapLen;
    MergeTree(c, t, n);
  }

  method MergeTree(c: Coder, t: TreeDesc, ghost n: nat)
    requires c.Separate(t) && Merging(c, t, n, 0) && c.heapLen == n >= 2
    requires LargestCode(t.fc[..], t.elems, t.maxCode)
    requires forall x: nat :: x < t.elems && t.fc[x] == 0 ==> t.dl[x] == 0
    modifies c.heap, c.depth, t.fc, t.dl, c`heapLen, c`heapMax
    ensures c.TreeBuilt(t, n) && LargestCode(t.fc[..], t.elems, t.maxCode)
    ensures t.fc[..t.elems] == old(t.fc[..t.elems])
    ensures old(Tame(c.heap[..], c.heapLen, c.heapMax, t.fc[..], c.depth[..], t.elems)) ==> Frequent(c.heap[c.heapMax..], t.fc[..], c.depth[..], t.elems, n)
  {
    ghost var f0 := t.fc[..];
    MergeAll(c, t, n);
    hide TreeList, Forest, Tame, Frequent;
    assert f0[..t.elems] == t.fc[..t.elems];
    LargestKept(f0, t.fc[..], t.elems, t.maxCode);
    PushRoot(c, t, n);
  }

  lemma LargestKept(freq: seq<nat>, freq': seq<nat>, elems: nat, max: int)
    requires elems <= |freq| && elems <= |freq'| && freq[..elems] == freq'[..elems] && LargestCode(freq, elems, max)
    ensures LargestCode(freq', elems, max)
  {
    assert forall x :: 0 <= x < elems ==> freq'[x] == freq'[..elems][x] == freq[x];
  }

  /** The static lengths of forced symbols are taken off before they are counted: the message has none of them. */
  lemma ForcedCostNothing(t: TreeDesc, freq: seq<nat>, forced: seq<nat>)
    requires t.Valid() && t.elems <= |freq| && RightlyForced(freq, t.elems, forced)
    requires |forced| <= 2 && forall i :: 0 <= i < |forced| ==> forced[i] < t.elems && freq[forced[i]] == 0
    ensures t.staticLens.Some? ==>
              Dot(WithForced(freq, forced)[..t.elems], t.staticLens.value)
              == Dot(freq[..t.elems], t.staticLens.value) + StaticLens(t, forced)
  {
    hide *;
    DifferentForced(freq, t.elems, forced);
    StaticFits(t);
    ForcedBefore(freq, []);
    if t.staticLens.Some? {
      StaticNone(t);
      if forced != [] {
        ForcedBefore(freq, forced);
        StaticLast(t, freq, forced);
        var first := forced[..|forced| - 1];
        if first != [] {
          ForcedBefore(freq, first);
          StaticLast(t, freq, first);
          assert first[..|first| - 1] == [];
        }
      }
    }
  }

  lemma StaticFits(t: TreeDesc)
    requires t.Valid()
    ensures t.staticLens.Some? ==> t.elems <= |t.staticLens.value|
  {
  }

  lemma StaticNone(t: TreeDesc)
    requires t.staticLens.Some?
    ensures StaticLens(t, []) == 0
  {
  }

  lemma DifferentForced(freq: seq<nat>, elems: nat, forced: seq<nat>)
    requires elems <= |freq| && RightlyForced(freq, elems, forced)
    ensures |forced| <= 2 && (|forced| == 2 ==> forced[0] != forced[1])
  {
  }

  /** The last of the forced symbols had no occurrence before. */
  lemma StaticLast(t: TreeDesc, freq: seq<nat>, forced: seq<nat>)
    requires t.staticLens.Some? && t.elems <= |t.staticLens.value| && t.elems <= |freq| && forced != []
    requires forall i :: 0 <= i < |forced| ==> forced[i] < t.elems
    requires WithForced(freq, forced[..|forced| - 1])[forced[|forced| - 1]] == 0
    ensures StaticLens(t, forced) == StaticLens(t, forced[..|forced| - 1]) + t.staticLens.value[forced[|forced| - 1]]
    ensures Dot(WithForced(freq, forced)[..t.elems], t.staticLens.value)
         == Dot(WithForced(freq, forced[..|forced| - 1])[..t.elems], t.staticLens.value)
            + t.staticLens.value[forced[|forced| - 1]]
  {
    hide *;
    var x, f1 := forced[|forced| - 1], WithForced(freq, forced[..|forced| - 1]);
    StaticUnfolds(t, freq, forced);
    TakenUpdated(f1, t.elems, x);
    DotUpdated(f1[..t.elems], t.staticLens.value, x);
  }

  lemma StaticUnfolds(t: TreeDesc, freq: seq<nat>, forced: seq<nat>)
    requires t.staticLens.Some? && t.elems <= |t.staticLens.value| && t.elems <= |freq| && forced != []
    requires forall i :: 0 <= i < |forced| ==> forced[i] < t.elems
    ensures StaticLens(t, forced) == StaticLens(t, forced[..|forced| - 1]) + t.staticLens.value[forced[|forced| - 1]]
    ensures WithForced(freq, forced) == WithForced(freq, forced[..|forced| - 1])[forced[|forced| - 1] := 1]
  {
  }

  lemma TakenUpdated(f: seq<nat>, n: nat, x: nat)
    requires x < n <= |f|
    ensures f[x := 1][..n] == f[..n][x := 1]
  {
  }

  lemma ForcedBefore(freq: seq<nat>, forced: seq<nat>)
    requires |forced| <= 2 && forall i :: 0 <= i < |forced| ==> forced[i] < |freq|
    requires |forced| == 2 ==> forced[0] != forced[1]
    ensures forced == [] ==> WithForced(freq, forced) == freq
    ensures forced != [] && freq[forced[|forced| - 1]] == 0 ==> WithForced(freq, forced[..|forced| - 1])[forced[|forced| - 1]] == 0
  {
    if |forced| == 2 {
      assert forced[..1][..0] == [];
      assert WithForced(freq, []) == freq;
      assert WithForced(freq, forced[..1]) == freq[forced[0] := 1];
    } else if |forced| == 1 {
      assert forced[..0] == [];
      assert WithForced(freq, []) == freq;
    }
  }

  lemma {:induction false} DotUpdated(a: seq<nat>, b: seq<nat>, x: nat)
    requires |a| <= |b| && x < |a| && a[x] == 0
    ensures Dot(a[x := 1], b) == Dot(a, b) + b[x]
    decreases |a|
  {
    var n := |a| - 1;
    if x == n {
      assert a[x := 1][..n] == a[..n];
    } else {
      assert a[x := 1][..n] == a[..n][x := 1];
      DotUpdated(a[..n], b, x);
    }
  }

  /** `build_tree`. */
  method BuildTree(c: Coder, t: TreeDesc) returns (ghost freq: seq<nat>, ghost forced: seq<nat>, ghost list: seq<nat>, ghost dad: seq<nat>)
    requires c.Separate(t)
    modifies c, c.heap, c.depth, c.blCount, t.fc, t.dl, t`maxCode
    ensures |freq| == t.fc.Length && LargestCode(freq, t.elems, t.maxCode)
    ensures |forced| <= 2 && forall i :: 0 <= i < |forced| ==> forced[i] < t.elems && old(t.fc[forced[i]]) == 0
    ensures RightlyForced(old(t.fc[..]), t.elems, forced)
    ensures freq[..t.elems] == WithForced(old(t.fc[..]), forced)[..t.elems]
    ensures TreeList(list, freq, dad, t.elems, (|list| + 1) / 2)
    ensures Sum(freq[..t.elems]) < 0x1_0000 ==> HuffmanList(list, freq, t.elems, (|list| + 1) / 2)
    ensures Sum(freq[..t.elems]) < 0x1_0000 ==> RarerLonger(t.dl[..t.elems], freq)
    ensures Sum(freq[..t.elems]) < 0x1_0000 ==>
              (Optimal(t.dl[..t.elems], freq) <==> Shallow(list, dad, t.elems, (|list| + 1) / 2, t.maxLength))
    ensures Sum(freq[..t.elems]) < 0x1_0000 && Sum(freq[..t.elems]) < Fib(t.maxLength + 3) ==> Optimal(t.dl[..t.elems], freq)
    ensures CompleteLengths(t.dl[..t.elems], freq, c.blCount[..], t.maxLength)
    ensures c.optLen == old(c.optLen) - |forced| + Dot(t.dl[..t.elems], freq) + Extras(freq[..t.elems], t.extraBase, t.extraBits)
    ensures t.staticLens.None? ==> c.staticLen == old(c.staticLen)
    ensures t.staticLens.Some? ==>
              c.staticLen == old(c.staticLen) + Dot(old(t.fc[..t.elems]), t.staticLens.value)
                           + Extras(freq[..t.elems], t.extraBase, t.extraBits)
    ensures AllStored(t.dl[..t.maxCode + 1], c.blCount[..], t.fc[..])
    ensures Decodable(t.fc[..], t.dl[..t.elems]) && Standard(t.fc[..], t.dl[..t.elems])
  {
    hide RightlyForced, RarerLonger, HuffmanList, Shallow, Optimal, Fib;
    ghost var f0 := t.fc[..];
    freq, forced, list, dad := BuildLengths(c, t);
    ForcedCostNothing(t, f0, forced);
    assert f0[..t.elems] == old(t.fc[..t.elems]);
    WriteCodes(c, t, freq);
  }

  /** The end of `build_tree`: `gen_codes` on complete lengths. */
  method WriteCodes(c: Coder, t: TreeDesc, ghost freq: seq<nat>)
    requires c.Separate(t) && t.elems <= |freq| && LargestCode(freq, t.elems, t.maxCode)
    requires CompleteLengths(t.dl[..t.elems], freq, c.blCount[..], t.maxLength)
    modifies t.fc
    ensures AllStored(t.dl[..t.maxCode + 1], c.blCount[..], t.fc[..])
    ensures Decodable(t.fc[..], t.dl[..t.elems]) && Standard(t.fc[..], t.dl[..t.elems])
  {
    hide *;
    SeparateParts(c, t);
    ghost var lens, counts := t.dl[..t.elems], c.blCount[..];
    LengthsCodable(lens, freq, counts, t.maxLength, t.elems, t.maxCode);
    assert lens[..t.maxCode + 1] == t.dl[..t.maxCode + 1];
    CodableParts(lens[..t.maxCode + 1], counts);
    ShortLengths(t.dl[..], t.maxCode + 1);
    GenCodes(t.fc, t.dl, c.blCount, t.maxCode);
    StoredIsDecodable(t.dl[..t.maxCode + 1], counts, t.fc[..], lens);
    AllCodable(lens, freq, counts, t.maxLength);
    StoredIsStandard(lens, t.maxCode + 1, counts, t.fc[..]);
  }

  lemma LengthsCodable(lens: seq<nat>, freq: seq<nat>, counts: seq<nat>, maxLength: nat, elems: nat, maxCode: int)
    requires |lens| == elems <= |freq| && LargestCode(freq, elems, maxCode) && 1 <= maxLength <= MAX_BITS
    requires CompleteLengths(lens, freq, counts, maxLength)
    ensures -1 <= maxCode < elems && Codable(lens[..maxCode + 1], counts)
    ensures forall x: nat :: maxCode + 1 <= x < |lens| ==> lens[x] == 0
  {
    CompleteIsCodable(lens, freq, counts, maxLength, maxCode);
  }

  lemma CodableParts(lens: seq<nat>, counts: seq<nat>)
    requires Codable(lens, counts)
    ensures |counts| == MAX_BITS + 1 && forall x :: 0 <= x < |lens| ==> lens[x] <= MAX_BITS
  {
  }

  lemma ShortLengths(dl: seq<nat>, n: nat)
    requires n <= |dl| && forall x :: 0 <= x < n ==> dl[..n][x] <= MAX_BITS
    ensures forall x :: 0 <= x < n ==> dl[x] <= MAX_BITS
  {
    forall x | 0 <= x < n ensures dl[x] <= MAX_BITS {
      assert dl[..n][x] == dl[x];
    }
  }
}
