/** Why the ties that `SMALLER` breaks by depth matter: of all optimal codes, a tree made by joining the two nodes that
    are least frequent and, among these, least deep has the shortest longest code. So lengths within a limit are
    optimal only if that tree keeps the limit. */
module HuffmanHeights {
  import opened Sums
  import opened HuffmanLengths
  import opened HuffmanOptimal

  /** `h` holds how far a node reaches down: a leaf not at all, and a joined node one further than its sons. */
  ghost predicate Heights(f: seq<nat>, b: seq<nat>, n: nat, h: seq<nat>) {
    && |h| == |f| == |b| == 2 * n - 1
    && forall k, q :: 0 <= k && k + 1 < n && 0 <= q < |f| && NewNode(f, b, n, k, q) ==>
         h[q] == Higher(h[Left(n, k) - 2], h[Left(n, k) - 1]) + 1
  }

  lemma HeightAt(f: seq<nat>, b: seq<nat>, n: nat, h: seq<nat>, k: nat, q: nat)
    requires Heights(f, b, n, h) && k + 1 < n && q < |f| && NewNode(f, b, n, k, q)
    ensures 3 <= Left(n, k) <= |h| && q < |h| && h[q] == Higher(h[Left(n, k) - 2], h[Left(n, k) - 1]) + 1
  {
    hide NewNode;
  }

  lemma HigherIs(a: nat, b: nat)
    ensures Higher(a, b) >= a && Higher(a, b) >= b && (Higher(a, b) == a || Higher(a, b) == b)
  {
  }

  /** Lengths that cost no more than the tree leave no room for it to be higher than they reach. */
  lemma {:induction false} NoHigher(f: seq<nat>, b: seq<nat>, n: nat, k: nat, l: seq<nat>, top: nat, h: seq<nat>, bound: nat)
    requires Merges(f, b, n) && k < n && Heights(f, b, n, h) && TieOrder(f, h)
    requires Fit(b, k, l, top, Left(n, k)) && Low(b, k, l, h, Left(n, k), bound)
    requires |l| == |f| == |b| && Sum(Costs(f, b, k, l, Left(n, k))) <= MergeSum(f, n, k)
    ensures |h| > 0 && b[0] <= n - 1 ==> h[0] <= bound
    decreases n - k
  {
    hide *;
    MergesSize(f, b, n);
    HeightsSize(f, b, n, h);
    if k + 1 < n {
      var q := MergedParts(f, b, n, k);
      var l' := JoinedLow(f, b, n, k, q, l, top, h, bound);
      FitSize(b, k + 1, l', top, Left(n, k + 1));
      NoHigher(f, b, n, k + 1, l', top, h, bound);
    } else {
      LastStep(n, k);
      LowAt(b, k, l, h, 1, bound, 0);
    }
  }

  lemma HeightsSize(f: seq<nat>, b: seq<nat>, n: nat, h: seq<nat>)
    requires Heights(f, b, n, h)
    ensures |h| == |f| == |b| == 2 * n - 1
  {
    hide NewNode;
  }

  lemma LowAt(b: seq<nat>, k: nat, l: seq<nat>, h: seq<nat>, m: nat, bound: nat, p: nat)
    requires Low(b, k, l, h, m, bound) && p < m && p < |b|
    ensures p < |l| && p < |h| && (b[p] <= k ==> l[p] + h[p] <= bound)
  {
  }

  /** One step: as no step may cost anything, none makes a node reach further. */
  lemma JoinedLow(f: seq<nat>, b: seq<nat>, n: nat, k: nat, q: nat, l: seq<nat>, top: nat, h: seq<nat>, bound: nat) returns (l': seq<nat>)
    requires Merges(f, b, n) && k + 1 < n && |f| == |b| == 2 * n - 1 && q < Left(n, k) - 2 && NewNode(f, b, n, k, q)
    requires Heights(f, b, n, h) && TieOrder(f, h) && Fit(b, k, l, top, Left(n, k)) && Low(b, k, l, h, Left(n, k), bound)
    requires Sum(Costs(f, b, k, l, Left(n, k))) <= MergeSum(f, n, k)
    ensures Fit(b, k + 1, l', top, Left(n, k + 1)) && Low(b, k + 1, l', h, Left(n, k + 1), bound)
    ensures Sum(Costs(f, b, k + 1, l', Left(n, k + 1))) <= MergeSum(f, n, k + 1)
  {
    hide *;
    var m := Left(n, k);
    FitSize(b, k, l, top, m);
    ListFalls(f, b, n);
    var _ := MergedParts(f, b, n, k);
    var l1 := Arranged(f, b, k, l, top, m, h, bound);
    Levelled(f, b, k, l1, top, m);
    var l2 := l1[m - 1 := l1[m - 2]];
    JoinedFit(f, b, n, k, q, l2, top);
    l' := l2[q := l2[m - 2] - 1];
    AtLeast(f, b, n, k + 1, l', top);
    HeightAt(f, b, n, h, k, q);
    HeightsSize(f, b, n, h);
    JoinKeepsLow(f, b, n, k, q, l1, h, bound);
  }

  lemma JoinKeepsLow(f: seq<nat>, b: seq<nat>, n: nat, k: nat, q: nat, l: seq<nat>, h: seq<nat>, bound: nat)
    requires |f| == |b| == |l| == |h| == 2 * n - 1 && k + 1 < n && q < Left(n, k) - 2 && NewNode(f, b, n, k, q)
    requires b[Left(n, k) - 1] <= k && b[Left(n, k) - 2] <= k && 1 <= l[Left(n, k) - 2] <= l[Left(n, k) - 1]
    requires Low(b, k, l, h, Left(n, k), bound) && h[q] == Higher(h[Left(n, k) - 2], h[Left(n, k) - 1]) + 1
    ensures var m := Left(n, k);
            Low(b, k + 1, l[m - 1 := l[m - 2]][q := l[m - 2] - 1], h, Left(n, k + 1), bound)
  {
    var m := Left(n, k);
    LowAt(b, k, l, h, m, bound, m - 1);
    LowAt(b, k, l, h, m, bound, m - 2);
    HigherIs(h[m - 2], h[m - 1]);
  }

  // Heights that are kept in one byte

  /** `g` holds heights that are counted modulo 256. */
  ghost predicate Counted(f: seq<nat>, b: seq<nat>, n: nat, g: seq<nat>) {
    && |g| == |f| == |b| == 2 * n - 1 && (forall p :: 0 <= p < |b| && b[p] == 0 ==> g[p] == 0)
    && forall k, q :: 0 <= k && k + 1 < n && 0 <= q < |f| && NewNode(f, b, n, k, q) ==>
         g[q] == (Higher(g[Left(n, k) - 2], g[Left(n, k) - 1]) + 1) % 0x100
  }

  lemma CountedAt(f: seq<nat>, b: seq<nat>, n: nat, g: seq<nat>, k: nat, q: nat)
    requires Counted(f, b, n, g) && k + 1 < n && q < |f| && NewNode(f, b, n, k, q)
    ensures 3 <= Left(n, k) <= |g| && q < |g| && g[q] == (Higher(g[Left(n, k) - 2], g[Left(n, k) - 1]) + 1) % 0x100
  {
    hide NewNode;
  }

  lemma CountedSize(f: seq<nat>, b: seq<nat>, n: nat, g: seq<nat>)
    requires Counted(f, b, n, g)
    ensures |g| == |f| == |b| == 2 * n - 1 && (forall p :: 0 <= p < |b| && b[p] == 0 ==> g[p] == 0)
  {
    hide NewNode;
  }

  /** The step in which a node is joined. */
  function StepOf(n: nat, p: nat): (k: nat)
    requires 1 <= p < 2 * n - 1
    ensures k + 1 < n && (p == Left(n, k) - 1 || p == Left(n, k) - 2)
  {
    (2 * n - 2 - p) / 2
  }

  /** A node that came into being in a step is the one that the step made. */
  lemma BornIsNew(f: seq<nat>, b: seq<nat>, n: nat, p: nat)
    requires Merges(f, b, n) && p < |f| && 1 <= b[p] <= n - 1
    ensures NewNode(f, b, n, b[p] - 1, p) && |f| == |b| == 2 * n - 1
  {
    var k := b[p] - 1;
    var q := MergedParts(f, b, n, k);
    if p > 0 {
      var j := StepOf(n, p);
      var _ := MergedParts(f, b, n, j);
      assert j > k;
    }
  }

  /** Frequencies grow with the height as the Fibonacci numbers do, so that with a total of 16 bits no height wraps
      around. */
  lemma {:induction false} NoWrap(f: seq<nat>, b: seq<nat>, n: nat, g: seq<nat>, p: nat)
    requires Merges(f, b, n) && Counted(f, b, n, g) && f[0] < 0x1_0000 && forall p :: 0 <= p < |f| ==> f[p] >= 1
    requires p < |f| && b[p] <= n - 1
    ensures |g| == |f| == |b| == 2 * n - 1 && f[p] >= Fib(g[p] + 2)
    ensures b[p] > 0 ==> var m := Left(n, b[p] - 1); 3 <= m <= |g| && g[p] == Higher(g[m - 2], g[m - 1]) + 1
    decreases b[p], 0
  {
    hide *;
    CountedSize(f, b, n, g);
    SmallFibs();
    if b[p] > 0 {
      var k := b[p] - 1;
      BornIsNew(f, b, n, p);
      var q := MergedParts(f, b, n, k);
      NewAt(f, b, n, k, p);
      CountedAt(f, b, n, g, k, p);
      var m := Left(n, k);
      NoWrap(f, b, n, g, m - 2);
      NoWrap(f, b, n, g, m - 1);
      HigherIs(g[m - 2], g[m - 1]);
      if Higher(g[m - 2], g[m - 1]) > 0 {
        if g[m - 2] == Higher(g[m - 2], g[m - 1]) {
          HighAndOther(f, b, n, g, k, m - 2, m - 1);
        } else {
          HighAndOther(f, b, n, g, k, m - 1, m - 2);
        }
      }
      ListFalls(f, b, n);
      FirstMost(f, p);
      InOneByte(f, p, Higher(g[m - 2], g[m - 1]));
    }
  }

  lemma NewAt(f: seq<nat>, b: seq<nat>, n: nat, k: nat, q: nat)
    requires |f| == |b| == 2 * n - 1 && k + 1 < n && NewNode(f, b, n, k, q)
    ensures q < Left(n, k) - 2 && 3 <= Left(n, k) <= |f| && f[q] == f[Left(n, k) - 2] + f[Left(n, k) - 1]
  {
  }

  lemma InOneByte(f: seq<nat>, p: nat, high: nat)
    requires p < |f| && f[p] >= Fib(high + 3) && f[p] <= f[0] < 0x1_0000
    ensures (high + 1) % 0x100 == high + 1
  {
    hide Fib;
    BigFib();
    if high >= 22 {
      FibGrows(25, high + 3);
    }
  }

  lemma BigFib()
    ensures Fib(25) == 75025
  {
    assert Fib(5) == 5;
    assert Fib(8) == 21;
    assert Fib(11) == 89;
    assert Fib(14) == 377;
    assert Fib(17) == 1597;
    assert Fib(20) == 6765;
    assert Fib(23) == 28657;
  }

  /** The higher of two nodes that are joined, and the other, which was there when the sons of the first were joined,
      or came later, and is no rarer than they. */
  lemma HighAndOther(f: seq<nat>, b: seq<nat>, n: nat, g: seq<nat>, k: nat, x: nat, y: nat)
    requires Merges(f, b, n) && Counted(f, b, n, g) && f[0] < 0x1_0000 && forall p :: 0 <= p < |f| ==> f[p] >= 1
    requires k + 1 < n && {x, y} == {Left(n, k) - 2, Left(n, k) - 1} && x < |g| && y < |f| && g[x] > 0
    requires |g| == |f| == |b| == 2 * n - 1 && b[x] <= k && f[x] >= Fib(g[x] + 2)
    requires b[x] > 0 ==> var m := Left(n, b[x] - 1); 3 <= m <= |g| && g[x] == Higher(g[m - 2], g[m - 1]) + 1
    ensures f[x] + f[y] >= Fib(g[x] + 3)
    decreases b[x], 0
  {
    hide *;
    CountedSize(f, b, n, g);
    var j := b[x] - 1;
    var q := MergedParts(f, b, n, j);
    var m := Left(n, j);
    HigherIs(g[m - 2], g[m - 1]);
    var s := if g[m - 2] == Higher(g[m - 2], g[m - 1]) then m - 2 else m - 1;
    NoWrap(f, b, n, g, s);
    LeftApart(n, j, k);
    ListFalls(f, b, n);
    FallsTo(f, y, s);
    FibStep(g[x]);
  }

  lemma LeftApart(n: nat, j: nat, k: nat)
    requires j < k && k + 1 < n
    ensures Left(n, k) <= Left(n, j) - 2 && 3 <= Left(n, k)
  {
  }

  lemma FallsTo(f: seq<nat>, p: nat, q: nat)
    requires p <= q < |f| && forall p, q :: 0 <= p < q < |f| ==> f[q] <= f[p]
    ensures f[q] <= f[p]
  {
  }

  lemma FirstMost(f: seq<nat>, p: nat)
    requires p < |f| && forall p, q :: 0 <= p < q < |f| ==> f[q] <= f[p]
    ensures f[p] <= f[0]
  {
  }

  lemma CountedHeights(f: seq<nat>, b: seq<nat>, n: nat, g: seq<nat>)
    requires Merges(f, b, n) && Counted(f, b, n, g) && f[0] < 0x1_0000 && forall p :: 0 <= p < |f| ==> f[p] >= 1
    ensures Heights(f, b, n, g)
  {
    CountedSize(f, b, n, g);
    hide NewNode, Merges, Counted, Fib;
    forall k, q | 0 <= k && k + 1 < n && 0 <= q < |f| && NewNode(f, b, n, k, q)
      ensures g[q] == Higher(g[Left(n, k) - 2], g[Left(n, k) - 1]) + 1
    {
      BornIn(f, b, n, k, q);
      NoWrap(f, b, n, g, q);
    }
  }

  lemma BornIn(f: seq<nat>, b: seq<nat>, n: nat, k: nat, q: nat)
    requires |f| == |b| == 2 * n - 1 && k + 1 < n && q < |f| && NewNode(f, b, n, k, q)
    ensures b[q] == k + 1
  {
  }

  // Heights and depths

  /** No node lies deeper than the root is high. */
  lemma {:induction false} DeepIsHigh(f: seq<nat>, b: seq<nat>, n: nat, d: seq<nat>, h: seq<nat>, p: nat)
    requires Merges(f, b, n) && Depths(f, b, n, d) && Heights(f, b, n, h) && p < |f|
    ensures p < |d| && p < |h| && d[p] + h[p] <= h[0]
    decreases p
  {
    hide *;
    MergesSize(f, b, n);
    HeightsSize(f, b, n, h);
    DepthsSize(f, b, n, d);
    if p > 0 {
      var k := StepOf(n, p);
      var q := MergedParts(f, b, n, k);
      DepthAt(f, b, n, d, k, q);
      HeightAt(f, b, n, h, k, q);
      HigherIs(h[Left(n, k) - 2], h[Left(n, k) - 1]);
      DeepIsHigh(f, b, n, d, h, q);
    }
  }

  lemma DepthsSize(f: seq<nat>, b: seq<nat>, n: nat, d: seq<nat>)
    requires Depths(f, b, n, d)
    ensures |d| == |f| == |b| == 2 * n - 1 && d[0] == 0
  {
    hide NewNode;
  }

  lemma DepthAt(f: seq<nat>, b: seq<nat>, n: nat, d: seq<nat>, k: nat, q: nat)
    requires Depths(f, b, n, d) && k + 1 < n && q < |f| && NewNode(f, b, n, k, q)
    ensures 3 <= Left(n, k) <= |d| && q < |d| && d[Left(n, k) - 1] == d[q] + 1 && d[Left(n, k) - 2] == d[q] + 1
  {
    hide NewNode;
  }

  /** The depths are lengths of a code: they fill the Kraft sum. */
  lemma {:induction false} DepthsFill(f: seq<nat>, b: seq<nat>, n: nat, k: nat, d: seq<nat>, top: nat)
    requires Merges(f, b, n) && k < n && Depths(f, b, n, d) && b[0] <= n - 1 && forall p :: 0 <= p < |d| ==> d[p] <= top
    ensures |d| == |b| && Left(n, k) <= |b| && Sum(Spaces(b, k, d, top, Left(n, k))) == Pow2(top)
    decreases n - k
  {
    hide *;
    MergesSize(f, b, n);
    DepthsSize(f, b, n, d);
    if k + 1 < n {
      var q := MergedParts(f, b, n, k);
      DepthsFill(f, b, n, k + 1, d, top);
      DepthAt(f, b, n, d, k, q);
      var m := Left(n, k);
      assert d == d[q := d[q]];
      JoiningJoin(f, b, n, k, q, d);
      TailSpaces(f, b, n, k, q, d, d, top);
      TwiceRoom(top, d[q]);
    } else {
      LastStep(n, k);
      OneSpace(b, k, d, top);
    }
  }

  lemma JoiningJoin(f: seq<nat>, b: seq<nat>, n: nat, k: nat, q: nat, d: seq<nat>)
    requires |f| == |b| == |d| == 2 * n - 1 && k + 1 < n && q < |d| && NewNode(f, b, n, k, q)
    requires b[Left(n, k) - 1] <= k && b[Left(n, k) - 2] <= k && d[Left(n, k) - 1] == d[Left(n, k) - 2]
    ensures Joining(f, b, n, k, q, d, d)
  {
    hide NewNode;
    assert d == d[q := d[q]];
  }

  lemma TwiceRoom(top: nat, len: nat)
    requires len + 1 <= top
    ensures Pow2(top - len) == 2 * Pow2(top - (len + 1))
  {
  }

  lemma OneSpace(b: seq<nat>, k: nat, d: seq<nat>, top: nat)
    requires |b| == |d| && |b| >= 1 && b[0] <= k && d[0] == 0
    ensures Sum(Spaces(b, k, d, top, 1)) == Pow2(top)
  {
    var s := Spaces(b, k, d, top, 1);
    assert s[..0] == [];
  }

  // The list of a tree

  /** Frequency and depth in one number: comparing these is what `SMALLER` does. */
  function Keys(freq: seq<nat>, depth: seq<nat>): (keys: seq<nat>)
    ensures |keys| == |freq|
    ensures forall x :: 0 <= x < |freq| ==> keys[x] == 0x100 * freq[x] + if x < |depth| then depth[x] else 0
  {
    seq(|freq|, x requires 0 <= x < |freq| => 0x100 * freq[x] + if x < |depth| then depth[x] else 0)
  }

  /** The list is in this order; leaves have depth 0, and a father's is one more than the larger one of his sons. */
  ghost predicate TieList(list: seq<nat>, freq: seq<nat>, depth: seq<nat>, elems: nat, n: nat) {
    && 2 <= n && |list| == 2 * n - 1 && elems + n - 1 <= |depth|
    && OrderedByFrequency(list, Keys(freq, depth))
    && (forall p :: 0 <= p < |list| && list[p] < elems ==> depth[list[p]] == 0)
    && forall i :: 1 <= i && i + 1 < |list| && i % 2 == 1 ==> FatherDeeper(list, depth, elems, n, i)
  }

  ghost predicate FatherDeeper(list: seq<nat>, depth: seq<nat>, elems: nat, n: nat, i: nat) {
    && i + 1 < |list| && i <= 2 * n - 2 && list[i] < |depth| && list[i + 1] < |depth| && Father(elems, n, i) < |depth|
    && depth[Father(elems, n, i)] == (Higher(depth[list[i]], depth[list[i + 1]]) + 1) % 0x100
  }

  lemma TieSize(list: seq<nat>, freq: seq<nat>, depth: seq<nat>, elems: nat, n: nat)
    requires TieList(list, freq, depth, elems, n)
    ensures 2 <= n && |list| == 2 * n - 1 && elems + n - 1 <= |depth| && OrderedByFrequency(list, Keys(freq, depth))
  {
    hide FatherDeeper;
  }

  lemma TieJoin(list: seq<nat>, freq: seq<nat>, depth: seq<nat>, elems: nat, n: nat)
    requires 2 <= n && |list| == 2 * n - 1 && elems + n - 1 <= |depth| && OrderedByFrequency(list, Keys(freq, depth))
    requires forall p :: 0 <= p < |list| && list[p] < elems ==> depth[list[p]] == 0
    requires forall i :: 1 <= i && i + 1 < |list| && i % 2 == 1 ==> FatherDeeper(list, depth, elems, n, i)
    ensures TieList(list, freq, depth, elems, n)
  {
    hide FatherDeeper, OrderedByFrequency;
  }

  lemma TieFather(list: seq<nat>, freq: seq<nat>, depth: seq<nat>, elems: nat, n: nat, i: nat)
    requires TieList(list, freq, depth, elems, n) && 1 <= i && i + 1 < |list| && i % 2 == 1
    ensures FatherDeeper(list, depth, elems, n, i)
  {
    hide FatherDeeper;
  }

  /** Depths of nodes fit one byte. */
  lemma TieBytes(list: seq<nat>, freq: seq<nat>, dad: seq<nat>, depth: seq<nat>, elems: nat, n: nat, p: nat)
    requires TreeList(list, freq, dad, elems, n) && TieList(list, freq, depth, elems, n) && p < |list|
    ensures list[p] < |depth| && list[p] < |freq| && depth[list[p]] < 0x100
  {
    hide OrderedByFrequency, Keys;
    assert list[p] in list;
    assert IsNode(freq, elems, n - 1, list[p]);
    if list[p] >= elems {
      var k := list[p] - elems;
      PairAt(elems, n, k);
      TieFather(list, freq, depth, elems, n, Left(n, k) - 2);
    }
  }

  lemma ListTies(list: seq<nat>, freq: seq<nat>, dad: seq<nat>, depth: seq<nat>, elems: nat, n: nat)
    requires TreeList(list, freq, dad, elems, n) && TieList(list, freq, depth, elems, n)
    ensures TieOrder(Frequencies(list, freq), Along(list, depth))
  {
    var f, h := Frequencies(list, freq), Along(list, depth);
    TieSize(list, freq, depth, elems, n);
    hide TreeList, TieList, OrderedByFrequency;
    forall p, q | 0 <= p < q < |f| ensures f[q] < f[p] || (f[q] == f[p] && h[q] <= h[p]) {
      TieBytes(list, freq, dad, depth, elems, n, p);
      TieBytes(list, freq, dad, depth, elems, n, q);
      InFront(list, Keys(freq, depth), p, q);
    }
  }

  lemma ListCounted(list: seq<nat>, freq: seq<nat>, dad: seq<nat>, depth: seq<nat>, elems: nat, n: nat)
    requires TreeList(list, freq, dad, elems, n) && TieList(list, freq, depth, elems, n)
    ensures Counted(Frequencies(list, freq), Births(list, elems), n, Along(list, depth))
  {
    hide *;
    var f, b, g := Frequencies(list, freq), Births(list, elems), Along(list, depth);
    TieSize(list, freq, depth, elems, n);
    LeavesFlat(list, freq, dad, depth, elems, n);
    forall k: nat, q: nat | k + 1 < n && q < |f| && NewNode(f, b, n, k, q) ensures CountedNode(g, n, k, q) {
      CountedHere(list, freq, depth, elems, n, k, q);
    }
    CountedJoin(f, b, n, g);
  }

  /** The height of a node made in step k, as the source computes it. */
  ghost predicate CountedNode(g: seq<nat>, n: nat, k: nat, q: nat) {
    && k + 1 < n && 3 <= Left(n, k) <= |g| && q < |g|
    && g[q] == (Higher(g[Left(n, k) - 2], g[Left(n, k) - 1]) + 1) % 0x100
  }

  lemma CountedJoin(f: seq<nat>, b: seq<nat>, n: nat, g: seq<nat>)
    requires |g| == |f| == |b| == 2 * n - 1 && forall p :: 0 <= p < |b| && b[p] == 0 ==> g[p] == 0
    requires forall k: nat, q: nat :: k + 1 < n && q < |f| && NewNode(f, b, n, k, q) ==> CountedNode(g, n, k, q)
    ensures Counted(f, b, n, g)
  {
    hide NewNode, Higher;
    forall k, q | 0 <= k && k + 1 < n && 0 <= q < |f| && NewNode(f, b, n, k, q)
      ensures g[q] == (Higher(g[Left(n, k) - 2], g[Left(n, k) - 1]) + 1) % 0x100
    {
      assert CountedNode(g, n, k, q);
    }
  }

  lemma CountedHere(list: seq<nat>, freq: seq<nat>, depth: seq<nat>, elems: nat, n: nat, k: nat, q: nat)
    requires TieList(list, freq, depth, elems, n) && |list| == 2 * n - 1 && k + 1 < n && q < |list|
    requires NewNode(Frequencies(list, freq), Births(list, elems), n, k, q)
    ensures CountedNode(Along(list, depth), n, k, q)
  {
    hide NewNode, TieList, Frequencies, Births, Higher;
    BornAt(list, freq, elems, n, k, q);
    PairAt(elems, n, k);
    TieFather(list, freq, depth, elems, n, Left(n, k) - 2);
  }

  lemma LeavesFlat(list: seq<nat>, freq: seq<nat>, dad: seq<nat>, depth: seq<nat>, elems: nat, n: nat)
    requires TreeList(list, freq, dad, elems, n) && TieList(list, freq, depth, elems, n)
    ensures var b, g := Births(list, elems), Along(list, depth); forall p :: 0 <= p < |b| && b[p] == 0 ==> g[p] == 0
  {
  }

  /** The depths of the symbols in use, and 0 for the others. */
  function TreeDepths(list: seq<nat>, dad: seq<nat>, elems: nat, n: nat): (d: seq<nat>)
    requires 2 <= n
    ensures |d| == elems + n - 1
    ensures forall x: nat :: x < |d| ==> d[x] == if x in list then DepthOf(dad, elems + n - 2, x) else 0
  {
    seq(elems + n - 1, x requires 0 <= x < elems + n - 1 => if x in list then DepthOf(dad, elems + n - 2, x) else 0)
  }

  lemma TreeDepthsHold(list: seq<nat>, freq: seq<nat>, dad: seq<nat>, elems: nat, n: nat)
    requires TreeList(list, freq, dad, elems, n)
    ensures AtDepth(list, |list|, TreeDepths(list, dad, elems, n), dad, elems, n)
  {
    forall p | 0 <= p < |list| ensures list[p] < elems + n - 1 {
      assert list[p] in list;
      assert IsNode(freq, elems, n - 1, list[p]);
    }
    hide DepthOf, TreeList;
    ListSizes(list, freq, dad, elems, n);
  }

  /** They are lengths of a code. */
  lemma TreeDepthsCode(list: seq<nat>, freq: seq<nat>, dad: seq<nat>, elems: nat, n: nat, top: nat)
    requires TreeList(list, freq, dad, elems, n) && HuffmanList(list, freq, elems, n)
    requires forall p :: 0 <= p < |list| ==> DepthOf(dad, elems + n - 2, list[p]) <= top
    ensures elems <= |freq| && 2 <= n && Codes(TreeDepths(list, dad, elems, n)[..elems], freq, top)
  {
    hide *;
    ListSizes(list, freq, dad, elems, n);
    TreeListed(list, freq, dad, elems, n);
    var d := TreeDepths(list, dad, elems, n);
    var l := d[..elems];
    var f, b := Frequencies(list, freq), Births(list, elems);
    TreeDepthsHold(list, freq, dad, elems, n);
    ListMerges(list, freq, dad, elems, n);
    ListDepths(list, freq, dad, elems, n, d);
    RootBorn(list, freq, dad, elems, n);
    AlongLow(list, d, dad, elems, n, top);
    DepthsFill(f, b, n, 0, Along(list, d), top);
    WholeList(n);
    LeavesDeep(list, freq, dad, elems, n, top);
    SpacesAreKraft(list, freq, elems, l, top);
    LeavesOnly(list, elems, d, top);
    CodesJoin(l, freq, top);
  }

  lemma RootBorn(list: seq<nat>, freq: seq<nat>, dad: seq<nat>, elems: nat, n: nat)
    requires TreeList(list, freq, dad, elems, n)
    ensures |Births(list, elems)| == |list| && |list| > 0 && Births(list, elems)[0] <= n - 1
  {
  }

  lemma AlongLow(list: seq<nat>, d: seq<nat>, dad: seq<nat>, elems: nat, n: nat, top: nat)
    requires AtDepth(list, |list|, d, dad, elems, n) && forall p :: 0 <= p < |list| ==> DepthOf(dad, elems + n - 2, list[p]) <= top
    ensures forall p :: 0 <= p < |Along(list, d)| ==> Along(list, d)[p] <= top
  {
    hide DepthOf;
  }

  lemma LeavesDeep(list: seq<nat>, freq: seq<nat>, dad: seq<nat>, elems: nat, n: nat, top: nat)
    requires TreeList(list, freq, dad, elems, n) && elems <= |freq|
    requires forall p :: 0 <= p < |list| ==> DepthOf(dad, elems + n - 2, list[p]) <= top
    ensures var l := TreeDepths(list, dad, elems, n)[..elems];
            forall x :: 0 <= x < elems ==> (l[x] == 0 <==> freq[x] == 0) && l[x] <= top
  {
    forall x: nat | x < elems ensures x in list <==> freq[x] != 0 {
      assert x in list <==> IsNode(freq, elems, n - 1, x);
    }
    forall x: nat | x < elems && x in list ensures 1 <= DepthOf(dad, elems + n - 2, x) <= top {
      var p :| 0 <= p < |list| && list[p] == x;
      assert p != 0;
      SonDepth(list, freq, dad, elems, n, p);
    }
  }

  /** In the first step only leaves take room. */
  lemma LeavesOnly(list: seq<nat>, elems: nat, d: seq<nat>, top: nat)
    requires elems <= |d|
    ensures Spaces(Births(list, elems), 0, Along(list, d), top, |list|) == Spaces(Births(list, elems), 0, Along(list, d[..elems]), top, |list|)
  {
    hide Pow2;
  }

  lemma CodesJoin(l: seq<nat>, freq: seq<nat>, top: nat)
    requires |l| <= |freq| && (forall x :: 0 <= x < |l| ==> (l[x] == 0 <==> freq[x] == 0) && l[x] <= top) && Kraft(l, top) <= Pow2(top)
    ensures Codes(l, freq, top)
  {
    hide Kraft, Pow2;
  }

  // Optimal within a limit

  /** Lengths within a limit are optimal only if no node of the tree lies deeper. */
  lemma OptimalIsShallow(list: seq<nat>, freq: seq<nat>, dad: seq<nat>, depth: seq<nat>, elems: nat, n: nat, lens: seq<nat>, max: nat)
    requires TreeList(list, freq, dad, elems, n) && HuffmanList(list, freq, elems, n) && TieList(list, freq, depth, elems, n)
    requires |lens| == elems <= |freq| && Sum(freq[..elems]) < 0x1_0000
    requires Codes(lens, freq, max) && Optimal(lens, freq)
    ensures Shallow(list, dad, elems, n, max)
  {
    hide *;
    ListSizes(list, freq, dad, elems, n);
    var f, b, h := Frequencies(list, freq), Births(list, elems), Along(list, depth);
    TreeListed(list, freq, dad, elems, n);
    ListMerges(list, freq, dad, elems, n);
    TreeHeights(list, freq, dad, depth, elems, n);
    ListTies(list, freq, dad, depth, elems, n);
    CodesFit(list, freq, elems, lens, max);
    StartLow(list, freq, depth, elems, n, lens, max);
    CheapAsTree(list, freq, dad, elems, n, lens);
    WholeList(n);
    RootBorn(list, freq, dad, elems, n);
    FitSize(b, 0, Along(list, lens), max, |list|);
    MergesSize(f, b, n);
    NoHigher(f, b, n, 0, Along(list, lens), max, h, max);
    HeightsSize(f, b, n, h);
    ShallowJoin(list, freq, dad, depth, elems, n, max);
  }

  lemma TreeHeights(list: seq<nat>, freq: seq<nat>, dad: seq<nat>, depth: seq<nat>, elems: nat, n: nat)
    requires TreeList(list, freq, dad, elems, n) && HuffmanList(list, freq, elems, n) && TieList(list, freq, depth, elems, n)
    requires elems <= |freq| && Sum(freq[..elems]) < 0x1_0000
    ensures Heights(Frequencies(list, freq), Births(list, elems), n, Along(list, depth))
  {
    hide *;
    var f, b := Frequencies(list, freq), Births(list, elems);
    ListSizes(list, freq, dad, elems, n);
    ListMerges(list, freq, dad, elems, n);
    ListCounted(list, freq, dad, depth, elems, n);
    RootIsSum(list, freq, dad, elems, n);
    forall p | 0 <= p < |list| ensures list[p] < |freq| && freq[list[p]] >= 1 {
      NodesCount(list, freq, dad, elems, n, p);
    }
    FrequenciesAre(list, freq);
    CountedHeights(f, b, n, Along(list, depth));
  }

  lemma FrequenciesAre(list: seq<nat>, freq: seq<nat>)
    requires forall p :: 0 <= p < |list| ==> list[p] < |freq|
    ensures var f := Frequencies(list, freq); |f| == |list| && forall p :: 0 <= p < |list| ==> f[p] == freq[list[p]]
  {
  }

  lemma StartLow(list: seq<nat>, freq: seq<nat>, depth: seq<nat>, elems: nat, n: nat, lens: seq<nat>, max: nat)
    requires TieList(list, freq, depth, elems, n) && |lens| == elems <= |freq| && Codes(lens, freq, max)
    ensures Low(Births(list, elems), 0, Along(list, lens), Along(list, depth), |list|, max)
  {
    hide FatherDeeper, OrderedByFrequency, Kraft;
  }

  /** Optimal lengths cost no more than the depths, which cost what the tree costs. */
  lemma CheapAsTree(list: seq<nat>, freq: seq<nat>, dad: seq<nat>, elems: nat, n: nat, lens: seq<nat>)
    requires TreeList(list, freq, dad, elems, n) && HuffmanList(list, freq, elems, n)
    requires |lens| == elems <= |freq| && Optimal(lens, freq)
    ensures |Frequencies(list, freq)| == 2 * n - 1 && |list| == 2 * n - 1 && 2 <= n
    ensures Sum(Costs(Frequencies(list, freq), Births(list, elems), 0, Along(list, lens), |list|)) <= MergeSum(Frequencies(list, freq), n, 0)
  {
    hide *;
    ListSizes(list, freq, dad, elems, n);
    TreeListed(list, freq, dad, elems, n);
    var d, f, b := TreeDepths(list, dad, elems, n), Frequencies(list, freq), Births(list, elems);
    var top := Deepest(list, dad, elems + n - 2);
    TreeDepthsCode(list, freq, dad, elems, n, top);
    OptimalAt(lens, freq, d[..elems], top);
    CostsAreBits(list, freq, elems, d);
    CostsAreBits(list, freq, elems, lens);
    assert lens[..elems] == lens;
    ListMerges(list, freq, dad, elems, n);
    MergesSize(f, b, n);
    TreeDepthsHold(list, freq, dad, elems, n);
    ListDepths(list, freq, dad, elems, n, d);
    DepthsCost(f, b, n, 0, Along(list, d));
    WholeList(n);
  }

  lemma OptimalAt(lens: seq<nat>, freq: seq<nat>, l: seq<nat>, top: nat)
    requires |lens| == |l| <= |freq| && Optimal(lens, freq) && Codes(l, freq, top)
    ensures Sum(Bits(lens, freq)) <= Sum(Bits(l, freq))
  {
    hide Codes, Sum, Bits;
  }

  lemma {:induction false} Deepest(list: seq<nat>, dad: seq<nat>, root: nat) returns (top: nat)
    ensures forall p :: 0 <= p < |list| ==> DepthOf(dad, root, list[p]) <= top
  {
    hide DepthOf;
    top := 0;
    for i := 0 to |list|
      invariant forall p :: 0 <= p < i ==> DepthOf(dad, root, list[p]) <= top
    {
      if DepthOf(dad, root, list[i]) > top {
        top := DepthOf(dad, root, list[i]);
      }
    }
  }

  lemma ShallowJoin(list: seq<nat>, freq: seq<nat>, dad: seq<nat>, depth: seq<nat>, elems: nat, n: nat, max: nat)
    requires TreeList(list, freq, dad, elems, n) && HuffmanList(list, freq, elems, n)
    requires Heights(Frequencies(list, freq), Births(list, elems), n, Along(list, depth))
    requires |Along(list, depth)| > 0 && Along(list, depth)[0] <= max
    ensures Shallow(list, dad, elems, n, max)
  {
    hide *;
    ListSizes(list, freq, dad, elems, n);
    var d, f, b := TreeDepths(list, dad, elems, n), Frequencies(list, freq), Births(list, elems);
    ListMerges(list, freq, dad, elems, n);
    MergesSize(f, b, n);
    TreeDepthsHold(list, freq, dad, elems, n);
    ListDepths(list, freq, dad, elems, n, d);
    forall p | 0 <= p < |list| ensures DepthOf(dad, elems + n - 2, list[p]) <= max {
      DeepIsHigh(f, b, n, Along(list, d), Along(list, depth), p);
      AtDepthAt(list, |list|, d, dad, elems, n, p);
      AlongAt(list, d, p);
    }
    ShallowIs(list, dad, elems, n, max);
  }

  lemma AlongAt(list: seq<nat>, d: seq<nat>, p: nat)
    requires p < |list| && list[p] < |d|
    ensures |Along(list, d)| == |list| && Along(list, d)[p] == d[list[p]]
  {
  }

  lemma ShallowIs(list: seq<nat>, dad: seq<nat>, elems: nat, n: nat, max: nat)
    requires 2 <= n && forall p :: 0 <= p < |list| ==> DepthOf(dad, elems + n - 2, list[p]) <= max
    ensures Shallow(list, dad, elems, n, max)
  {
    hide DepthOf;
  }
}
