/** Why joining the two least frequent nodes again and again gives code lengths that are optimal, as the head of
    `gen_bitlen` promises: no lengths that fit the Kraft inequality make the message shorter. */
module HuffmanOptimal {
  import opened Sums
  import opened HuffmanLengths

  // A run of merges, by list positions

  /** Nodes of the list that step k has not joined yet, or that do not exist yet. */
  function Left(n: nat, k: nat): nat
    requires k < n
  {
    2 * n - 1 - 2 * k
  }

  /** `f` holds the frequencies along the list, `b` the step behind which a node exists: 0 for a leaf, k + 1 for the
      node made in step k. Step k joins the last two nodes that are left; they exist, and the new node has their
      sum and lies before them. */
  ghost predicate Merges(f: seq<nat>, b: seq<nat>, n: nat) {
    && 2 <= n && |f| == |b| == 2 * n - 1
    && (forall p, q :: 0 <= p < q < |f| ==> f[q] <= f[p])
    && forall k: nat :: k + 1 < n ==> Merged(f, b, n, k)
  }

  ghost predicate Merged(f: seq<nat>, b: seq<nat>, n: nat, k: nat)
    requires |f| == |b| == 2 * n - 1
  {
    && k + 1 < n && b[Left(n, k) - 1] <= k && b[Left(n, k) - 2] <= k
    && exists q :: NewNode(f, b, n, k, q)
  }

  ghost predicate NewNode(f: seq<nat>, b: seq<nat>, n: nat, k: nat, q: int)
    requires |f| == |b| == 2 * n - 1
  {
    && k + 1 < n && 0 <= q < Left(n, k) - 2 && b[q] == k + 1 && f[q] == f[Left(n, k) - 2] + f[Left(n, k) - 1]
    && forall p :: 0 <= p < Left(n, k) - 2 && b[p] == k + 1 ==> p == q
  }

  function Times(a: nat, b: nat): nat {
    a * b
  }

  /** What the nodes that exist in step k cost with given lengths. */
  function Costs(f: seq<nat>, b: seq<nat>, k: nat, l: seq<nat>, m: nat): (s: seq<int>)
    requires m <= |f| == |b| == |l|
    ensures |s| == m && forall p :: 0 <= p < m ==> s[p] == if b[p] <= k then Times(f[p], l[p]) else 0
  {
    seq(m, p requires 0 <= p < m => if b[p] <= k then Times(f[p], l[p]) else 0)
  }

  /** The room they take in the Kraft sum, in units of 2^-top. */
  function Spaces(b: seq<nat>, k: nat, l: seq<nat>, top: nat, m: nat): (s: seq<int>)
    requires m <= |b| == |l|
    ensures |s| == m && forall p :: 0 <= p < m ==> s[p] == if b[p] <= k && l[p] <= top then Pow2(top - l[p]) else 0
  {
    seq(m, p requires 0 <= p < m => if b[p] <= k && l[p] <= top then Pow2(top - l[p]) else 0)
  }

  /** Lengths that some prefix code has. */
  ghost predicate Fit(b: seq<nat>, k: nat, l: seq<nat>, top: nat, m: nat) {
    && m <= |b| == |l| && (forall p :: 0 <= p < m && b[p] <= k ==> l[p] <= top)
    && Sum(Spaces(b, k, l, top, m)) <= Pow2(top)
  }

  function Higher(a: nat, b: nat): nat {
    if a > b then a else b
  }

  /** Of two nodes the one farther back is rarer, or as frequent and no higher. */
  ghost predicate TieOrder(f: seq<nat>, h: seq<nat>) {
    |h| == |f| && forall p, q :: 0 <= p < q < |f| ==> f[q] < f[p] || (f[q] == f[p] && h[q] <= h[p])
  }

  /** With these lengths no node that exists in step k reaches below `bound`; `h` is how far it reaches by itself. */
  ghost predicate Low(b: seq<nat>, k: nat, l: seq<nat>, h: seq<nat>, m: nat, bound: nat) {
    m <= |b| == |l| == |h| && forall p :: 0 <= p < m && b[p] <= k ==> l[p] + h[p] <= bound
  }

  // Exchanging two lengths

  function Swapped(l: seq<nat>, x: nat, z: nat): (r: seq<nat>)
    requires x < |l| && z < |l|
    ensures |r| == |l|
  {
    l[x := l[z]][z := l[x]]
  }

  /** The longer of two codes goes to the rarer node: nothing gets longer. */
  lemma SwapDown(f: seq<nat>, b: seq<nat>, k: nat, l: seq<nat>, top: nat, m: nat, x: nat, z: nat)
    requires |f| == |b| && Fit(b, k, l, top, m) && x < m && z < m && b[x] <= k && b[z] <= k
    requires f[x] <= f[z] && l[x] <= l[z]
    ensures Fit(b, k, Swapped(l, x, z), top, m)
    ensures Sum(Costs(f, b, k, Swapped(l, x, z), m)) <= Sum(Costs(f, b, k, l, m))
  {
    hide Sum, Pow2, Times;
    var l' := Swapped(l, x, z);
    var s, s' := Spaces(b, k, l, top, m), Spaces(b, k, l', top, m);
    var c, c' := Costs(f, b, k, l, m), Costs(f, b, k, l', m);
    if x != z {
      assert s' == s[x := s[z]][z := s[x]];
      SumUpdate(s, x, s[z]);
      SumUpdate(s[x := s[z]], z, s[x]);
      assert c' == c[x := Times(f[x], l[z])][z := Times(f[z], l[x])];
      SumUpdate(c, x, Times(f[x], l[z]));
      SumUpdate(c[x := Times(f[x], l[z])], z, Times(f[z], l[x]));
      Rearranged(f[x], f[z], l[x], l[z]);
    } else {
      assert l' == l;
    }
  }

  /** If it gets no shorter either, no node reaches further down than before. */
  lemma SwapLow(f: seq<nat>, b: seq<nat>, k: nat, l: seq<nat>, h: seq<nat>, m: nat, x: nat, z: nat, bound: nat)
    requires |f| == |b| && Low(b, k, l, h, m, bound) && x < m && z < m && b[x] <= k && b[z] <= k
    requires f[x] <= f[z] && l[x] <= l[z] && (f[x] == f[z] ==> h[x] <= h[z])
    requires Sum(Costs(f, b, k, Swapped(l, x, z), m)) >= Sum(Costs(f, b, k, l, m))
    ensures Low(b, k, Swapped(l, x, z), h, m, bound)
  {
    hide Sum, Times;
    var c, c' := Costs(f, b, k, l, m), Costs(f, b, k, Swapped(l, x, z), m);
    if x != z {
      assert c' == c[x := Times(f[x], l[z])][z := Times(f[z], l[x])];
      SumUpdate(c, x, Times(f[x], l[z]));
      SumUpdate(c[x := Times(f[x], l[z])], z, Times(f[z], l[x]));
      Rearranged(f[x], f[z], l[x], l[z]);
    } else {
      assert Swapped(l, x, z) == l;
    }
  }

  lemma Rearranged(f: nat, g: nat, l: nat, m: nat)
    requires f <= g && l <= m
    ensures Times(f, m) + Times(g, l) <= Times(f, l) + Times(g, m)
    ensures f < g && l < m ==> Times(f, m) + Times(g, l) < Times(f, l) + Times(g, m)
  {
    hide *;
    Rectangles(f, g - f, l, m - l);
    TimesOfBoth(g - f, m - l);
  }

  lemma Rectangles(f: nat, d: nat, l: nat, e: nat)
    ensures Times(f + d, l + e) + Times(f, l) == Times(f, l + e) + Times(f + d, l) + Times(d, e)
  {
    assert (f + d) * (l + e) == (f + d) * l + (f + d) * e;
    assert (f + d) * e == f * e + d * e;
    assert f * (l + e) == f * l + f * e;
  }

  lemma TimesOfBoth(d: nat, e: nat)
    ensures d > 0 && e > 0 ==> Times(d, e) > 0
  {
  }

  /** A longest code among the first m nodes. */
  lemma {:induction false} LongestAt(b: seq<nat>, k: nat, l: seq<nat>, m: nat) returns (z: nat)
    requires 1 <= m <= |b| == |l| && b[m - 1] <= k
    ensures z < m && b[z] <= k && forall p :: 0 <= p < m && b[p] <= k ==> l[p] <= l[z]
  {
    z := m - 1;
    for i := 0 to m
      invariant z < m && b[z] <= k && forall p :: 0 <= p < i && b[p] <= k ==> l[p] <= l[z]
    {
      if b[i] <= k && l[i] > l[z] {
        z := i;
      }
    }
  }

  /** Without getting longer, the two rarest nodes have the two longest codes; and if nothing gets shorter, no node
      reaches further down. */
  lemma Arranged(f: seq<nat>, b: seq<nat>, k: nat, l: seq<nat>, top: nat, m: nat, h: seq<nat>, bound: nat) returns (l': seq<nat>)
    requires |f| == |b| && Fit(b, k, l, top, m) && 2 <= m && b[m - 1] <= k && b[m - 2] <= k && TieOrder(f, h)
    ensures Fit(b, k, l', top, m) && Sum(Costs(f, b, k, l', m)) <= Sum(Costs(f, b, k, l, m))
    ensures |l'| == |l| && l'[m - 2] <= l'[m - 1] && forall p :: 0 <= p < m - 1 && b[p] <= k ==> l'[p] <= l'[m - 2]
    ensures Low(b, k, l, h, m, bound) && Sum(Costs(f, b, k, l', m)) >= Sum(Costs(f, b, k, l, m)) ==> Low(b, k, l', h, m, bound)
  {
    hide *;
    FitSize(b, k, l, top, m);
    var z := LongestAt(b, k, l, m);
    FallsAlong(f, h, z, m - 1);
    SwapDown(f, b, k, l, top, m, m - 1, z);
    var l1 := Swapped(l, m - 1, z);
    SwapIs(l, m - 1, z);
    FitSize(b, k, l1, top, m);
    var w := LongestAt(b, k, l1, m - 1);
    FallsAlong(f, h, w, m - 2);
    SwapDown(f, b, k, l1, top, m, m - 2, w);
    l' := Swapped(l1, m - 2, w);
    SwapIs(l1, m - 2, w);
    if Low(b, k, l, h, m, bound) && Sum(Costs(f, b, k, l', m)) >= Sum(Costs(f, b, k, l, m)) {
      SwapLow(f, b, k, l, h, m, m - 1, z, bound);
      SwapLow(f, b, k, l1, h, m, m - 2, w, bound);
    }
  }

  lemma FallsAlong(f: seq<nat>, h: seq<nat>, p: nat, q: nat)
    requires p <= q < |f| && TieOrder(f, h)
    ensures |h| == |f| && f[q] <= f[p] && (f[q] == f[p] ==> h[q] <= h[p])
  {
  }

  lemma SwapIs(l: seq<nat>, x: nat, z: nat)
    requires x < |l| && z < |l|
    ensures |Swapped(l, x, z)| == |l|
    ensures forall p :: 0 <= p < |l| ==> Swapped(l, x, z)[p] == if p == x then l[z] else if p == z then l[x] else l[p]
  {
  }

  lemma FitSize(b: seq<nat>, k: nat, l: seq<nat>, top: nat, m: nat)
    requires Fit(b, k, l, top, m)
    ensures m <= |b| == |l|
  {
  }

  // The longest code shortened

  ghost predicate IsMultiple(x: int, d: nat) {
    exists q: int :: Multiple(x, q, d)
  }

  ghost predicate Multiple(x: int, q: int, d: nat) {
    x == q * d
  }

  lemma {:induction false} SumOfMultiples(s: seq<int>, d: nat)
    requires d > 0 && forall p :: 0 <= p < |s| ==> IsMultiple(s[p], d)
    ensures IsMultiple(Sum(s), d)
    decreases |s|
  {
    if s == [] {
      assert Multiple(0, 0, d);
    } else {
      var i := |s| - 1;
      SumOfMultiples(s[..i], d);
      TwoMultiples(Sum(s[..i]), s[i], d);
    }
  }

  lemma TwoMultiples(x: int, y: int, d: nat)
    requires IsMultiple(x, d) && IsMultiple(y, d)
    ensures IsMultiple(x + y, d)
  {
    var q: int :| Multiple(x, q, d);
    var r: int :| Multiple(y, r, d);
    assert (q + r) * d == q * d + r * d;
    assert Multiple(x + y, q + r, d);
  }

  /** A code that is longer than all others takes less than is left for one as long as the next. */
  lemma Levelled(f: seq<nat>, b: seq<nat>, k: nat, l: seq<nat>, top: nat, m: nat)
    requires |f| == |b| && Fit(b, k, l, top, m) && 2 <= m && b[m - 1] <= k && b[m - 2] <= k
    requires l[m - 2] <= l[m - 1] && forall p :: 0 <= p < m - 1 && b[p] <= k ==> l[p] <= l[m - 2]
    ensures Fit(b, k, l[m - 1 := l[m - 2]], top, m)
    ensures Sum(Costs(f, b, k, l[m - 1 := l[m - 2]], m)) <= Sum(Costs(f, b, k, l, m))
  {
    LevelledSpace(b, k, l, top, m);
    LevelledCost(f, b, k, l, m);
  }

  lemma LevelledSpace(b: seq<nat>, k: nat, l: seq<nat>, top: nat, m: nat)
    requires Fit(b, k, l, top, m) && 2 <= m && b[m - 1] <= k && b[m - 2] <= k
    requires l[m - 2] <= l[m - 1] && forall p :: 0 <= p < m - 1 && b[p] <= k ==> l[p] <= l[m - 2]
    ensures Fit(b, k, l[m - 1 := l[m - 2]], top, m)
  {
    hide Pow2, IsMultiple;
    var len, l' := l[m - 2], l[m - 1 := l[m - 2]];
    var s, s' := Spaces(b, k, l, top, m), Spaces(b, k, l', top, m);
    var d := Pow2(top - len);
    assert s' == s[m - 1 := d];
    var others := s[..m - 1];
    forall p | 0 <= p < |others| ensures IsMultiple(others[p], d) {
      SpaceMultiple(b, k, l, top, m, p, len);
    }
    SumOfMultiples(others, d);
    Pow2Add(len, top - len);
    assert Sum(s) == Sum(s[..m - 1]) + s[m - 1];
    assert s'[..m - 1] == s[..m - 1];
    assert Sum(s') == Sum(s[..m - 1]) + d;
    RoomForOne(Sum(s[..m - 1]), Pow2(len), d, s[m - 1], Pow2(top));
  }

  lemma LevelledCost(f: seq<nat>, b: seq<nat>, k: nat, l: seq<nat>, m: nat)
    requires 2 <= m <= |f| == |b| == |l| && b[m - 1] <= k && l[m - 2] <= l[m - 1]
    ensures Sum(Costs(f, b, k, l[m - 1 := l[m - 2]], m)) <= Sum(Costs(f, b, k, l, m))
  {
    hide Sum, Times;
    var len := l[m - 2];
    var c, c' := Costs(f, b, k, l, m), Costs(f, b, k, l[m - 1 := len], m);
    assert c' == c[m - 1 := Times(f[m - 1], len)];
    SumUpdate(c, m - 1, Times(f[m - 1], len));
    Grows(len, l[m - 1], f[m - 1]);
  }

  lemma Grows(a: nat, b: nat, f: nat)
    requires a <= b
    ensures Times(f, a) <= Times(f, b)
  {
    assert f * (b - a) >= 0;
    assert f * (b - a) == f * b - f * a;
  }

  lemma SpaceMultiple(b: seq<nat>, k: nat, l: seq<nat>, top: nat, m: nat, p: nat, len: nat)
    requires p < m <= |b| == |l| && len <= top && (b[p] <= k ==> l[p] <= len)
    ensures IsMultiple(Spaces(b, k, l, top, m)[p], Pow2(top - len))
  {
    var x := Spaces(b, k, l, top, m)[p];
    if b[p] <= k {
      Pow2Add(len - l[p], top - len);
      assert top - l[p] == (len - l[p]) + (top - len);
      assert Multiple(x, Pow2(len - l[p]), Pow2(top - len));
    } else {
      assert Multiple(x, 0, Pow2(top - len));
    }
  }

  lemma RoomForOne(sum: int, whole: nat, d: nat, x: int, all: int)
    requires d > 0 && x > 0 && IsMultiple(sum, d) && sum + x <= all && all == whole * d
    ensures sum + d <= all
  {
    var t: int :| Multiple(sum, t, d);
    if t >= whole {
      MultipleGrows(whole, t, d);
    } else {
      MultipleGrows(t + 1, whole, d);
      NextMultiple(t, d);
    }
  }

  lemma MultipleGrows(a: int, b: int, d: nat)
    requires a <= b
    ensures a * d <= b * d
  {
    var e: nat := b - a;
    assert e * d >= 0;
    assert (a + e) * d == a * d + e * d;
  }

  lemma NextMultiple(t: int, d: nat)
    ensures (t + 1) * d == t * d + d
  {
  }

  // The two joined

  /** What is the same before and after step k. */
  ghost predicate Joining(f: seq<nat>, b: seq<nat>, n: nat, k: nat, q: nat, l: seq<nat>, l': seq<nat>) {
    && |f| == |b| == |l| == |l'| == 2 * n - 1 && NewNode(f, b, n, k, q) && q < |l| && l' == l[q := l'[q]]
    && b[Left(n, k) - 1] <= k && b[Left(n, k) - 2] <= k && l[Left(n, k) - 1] == l[Left(n, k) - 2]
  }

  lemma TailCosts(f: seq<nat>, b: seq<nat>, n: nat, k: nat, q: nat, l: seq<nat>, l': seq<nat>)
    requires Joining(f, b, n, k, q, l, l')
    ensures var m := Left(n, k);
            Sum(Costs(f, b, k + 1, l', m - 2)) == Sum(Costs(f, b, k, l, m)) - Times(f[q], l[m - 2]) + Times(f[q], l'[q])
  {
    hide Times;
    var m := Left(n, k);
    var c, c' := Costs(f, b, k, l, m), Costs(f, b, k + 1, l', m - 2);
    assert c' == c[..m - 2][q := Times(f[q], l'[q])];
    hide Costs;
    SumUpdate(c[..m - 2], q, Times(f[q], l'[q]));
    LastTwo(c);
    TimesBoth(f[m - 2], f[m - 1], l[m - 2]);
  }

  lemma TimesBoth(f: nat, g: nat, len: nat)
    ensures Times(f, len) + Times(g, len) == Times(f + g, len)
  {
  }

  lemma TailSpaces(f: seq<nat>, b: seq<nat>, n: nat, k: nat, q: nat, l: seq<nat>, l': seq<nat>, top: nat)
    requires Joining(f, b, n, k, q, l, l') && l[Left(n, k) - 2] <= top && l'[q] <= top
    ensures var m := Left(n, k);
            Sum(Spaces(b, k + 1, l', top, m - 2)) == Sum(Spaces(b, k, l, top, m)) - 2 * Pow2(top - l[m - 2]) + Pow2(top - l'[q])
  {
    hide Pow2;
    var m := Left(n, k);
    var s, s' := Spaces(b, k, l, top, m), Spaces(b, k + 1, l', top, m - 2);
    assert s' == s[..m - 2][q := Pow2(top - l'[q])];
    hide Spaces;
    SumUpdate(s[..m - 2], q, Pow2(top - l'[q]));
    LastTwo(s);
  }

  lemma LastTwo(s: seq<int>)
    requires |s| >= 2
    ensures Sum(s) == Sum(s[..|s| - 2]) + s[|s| - 2] + s[|s| - 1]
  {
    assert s[..|s| - 1][..|s| - 2] == s[..|s| - 2];
  }

  lemma {:induction false} SpacesPositive(s: seq<int>)
    requires forall p :: 0 <= p < |s| ==> s[p] >= 0
    ensures Sum(s) >= 0
    decreases |s|
  {
    if s != [] {
      SpacesPositive(s[..|s| - 1]);
    }
  }

  /** Two codes of equal length are the sons of one that is shorter by one. */
  lemma JoinedFit(f: seq<nat>, b: seq<nat>, n: nat, k: nat, q: nat, l: seq<nat>, top: nat)
    requires |f| == |b| == 2 * n - 1 && NewNode(f, b, n, k, q) && Fit(b, k, l, top, Left(n, k))
    requires b[Left(n, k) - 1] <= k && b[Left(n, k) - 2] <= k && l[Left(n, k) - 1] == l[Left(n, k) - 2]
    ensures |l| == |b| && l[Left(n, k) - 2] >= 1
    ensures var l' := l[q := l[Left(n, k) - 2] - 1];
            && Fit(b, k + 1, l', top, Left(n, k + 1))
            && Sum(Costs(f, b, k + 1, l', Left(n, k + 1)))
               == Sum(Costs(f, b, k, l, Left(n, k))) - (f[Left(n, k) - 2] + f[Left(n, k) - 1])
  {
    var m := Left(n, k);
    NotEmpty(b, k, l, top, m);
    var len := l[m - 2];
    var l' := l[q := len - 1];
    hide Sum, Costs, Spaces;
    TailCosts(f, b, n, k, q, l, l');
    TailSpaces(f, b, n, k, q, l, l', top);
    assert Pow2(top - (len - 1)) == 2 * Pow2(top - len);
    OneLess(f[q], len);
  }

  lemma OneLess(f: nat, len: nat)
    requires len >= 1
    ensures Times(f, len - 1) == Times(f, len) - f
  {
  }

  /** Two codes leave no room for one of no length. */
  lemma NotEmpty(b: seq<nat>, k: nat, l: seq<nat>, top: nat, m: nat)
    requires Fit(b, k, l, top, m) && 2 <= m && b[m - 1] <= k && b[m - 2] <= k && l[m - 1] == l[m - 2]
    ensures 1 <= l[m - 2] <= top
  {
    hide Pow2, Sum;
    var s := Spaces(b, k, l, top, m);
    LastTwo(s);
    SpacesPositive(s[..m - 2]);
  }

  // The bound

  /** The frequencies of the nodes that the steps from k on make. */
  function MergeSum(f: seq<nat>, n: nat, k: nat): nat
    requires |f| == 2 * n - 1
    decreases n - k
  {
    if k + 1 >= n then 0 else f[Left(n, k) - 2] + f[Left(n, k) - 1] + MergeSum(f, n, k + 1)
  }

  /** Whatever lengths fit cost at least that. */
  lemma {:induction false} AtLeast(f: seq<nat>, b: seq<nat>, n: nat, k: nat, l: seq<nat>, top: nat)
    requires Merges(f, b, n) && k < n && Fit(b, k, l, top, Left(n, k))
    ensures |l| == |f| && Sum(Costs(f, b, k, l, Left(n, k))) >= MergeSum(f, n, k)
    decreases n - k
  {
    hide *;
    FitSize(b, k, l, top, Left(n, k));
    MergesSize(f, b, n);
    if k + 1 < n {
      var q := MergedParts(f, b, n, k);
      var l' := Joined(f, b, n, k, q, l, top);
      AtLeast(f, b, n, k + 1, l', top);
    } else {
      LastStep(n, k);
      OneLeft(f, b, k, l);
    }
  }

  /** Lengths that fit before step k give lengths that fit behind it and cost less by the frequency of the new node. */
  lemma Joined(f: seq<nat>, b: seq<nat>, n: nat, k: nat, q: nat, l: seq<nat>, top: nat) returns (l': seq<nat>)
    requires Merges(f, b, n) && k + 1 < n && |f| == |b| == 2 * n - 1
    requires q < Left(n, k) - 2 && NewNode(f, b, n, k, q)
    requires Fit(b, k, l, top, Left(n, k))
    ensures Fit(b, k + 1, l', top, Left(n, k + 1))
    ensures Sum(Costs(f, b, k + 1, l', Left(n, k + 1)))
            <= Sum(Costs(f, b, k, l, Left(n, k))) - (f[Left(n, k) - 2] + f[Left(n, k) - 1])
  {
    hide *;
    var m := Left(n, k);
    FitSize(b, k, l, top, m);
    ListFalls(f, b, n);
    var _ := MergedParts(f, b, n, k);
    var h: seq<nat> := seq(|f|, _ => 0);
    AnyTie(f, h);
    var l1 := Arranged(f, b, k, l, top, m, h, 0);
    Levelled(f, b, k, l1, top, m);
    var l2 := l1[m - 1 := l1[m - 2]];
    JoinedFit(f, b, n, k, q, l2, top);
    l' := l2[q := l2[m - 2] - 1];
  }

  lemma AnyTie(f: seq<nat>, h: seq<nat>)
    requires |h| == |f| && (forall p, q :: 0 <= p < q < |f| ==> f[q] <= f[p]) && forall p :: 0 <= p < |h| ==> h[p] == 0
    ensures TieOrder(f, h)
  {
  }

  lemma ListFalls(f: seq<nat>, b: seq<nat>, n: nat)
    requires Merges(f, b, n)
    ensures forall p, q :: 0 <= p < q < |f| ==> f[q] <= f[p]
  {
  }

  lemma MergedParts(f: seq<nat>, b: seq<nat>, n: nat, k: nat) returns (q: nat)
    requires Merges(f, b, n) && k + 1 < n
    ensures |f| == |b| == 2 * n - 1 && 3 <= Left(n, k) <= |f| && Left(n, k + 1) == Left(n, k) - 2
    ensures b[Left(n, k) - 1] <= k && b[Left(n, k) - 2] <= k && NewNode(f, b, n, k, q) && q < Left(n, k) - 2
    ensures MergeSum(f, n, k) == f[Left(n, k) - 2] + f[Left(n, k) - 1] + MergeSum(f, n, k + 1)
  {
    assert Merged(f, b, n, k);
    q :| NewNode(f, b, n, k, q);
  }

  lemma LastStep(n: nat, k: nat)
    requires k + 1 == n
    ensures Left(n, k) == 1
    ensures forall f: seq<nat> :: |f| == 2 * n - 1 ==> MergeSum(f, n, k) == 0
  {
  }

  lemma OneLeft(f: seq<nat>, b: seq<nat>, k: nat, l: seq<nat>)
    requires |f| == |b| == |l| && |f| >= 1
    ensures Sum(Costs(f, b, k, l, 1)) == if b[0] <= k then Times(f[0], l[0]) else 0
    ensures Sum(Costs(f, b, k, l, 1)) >= 0 && (l[0] == 0 ==> Times(f[0], l[0]) == 0)
  {
    var c := Costs(f, b, k, l, 1);
    assert c[..0] == [];
  }

  /** Depths: the root has none, and two nodes that were joined are one deeper than the node made of them. */
  ghost predicate Depths(f: seq<nat>, b: seq<nat>, n: nat, d: seq<nat>) {
    && |d| == |f| == |b| == 2 * n - 1 && 1 <= n && d[0] == 0
    && forall k, q :: 0 <= k && k + 1 < n && 0 <= q < |f| && NewNode(f, b, n, k, q) ==>
         d[Left(n, k) - 1] == d[q] + 1 && d[Left(n, k) - 2] == d[q] + 1
  }

  /** They cost exactly that. */
  lemma {:induction false} DepthsCost(f: seq<nat>, b: seq<nat>, n: nat, k: nat, d: seq<nat>)
    requires Merges(f, b, n) && k < n && Depths(f, b, n, d)
    ensures Sum(Costs(f, b, k, d, Left(n, k))) == MergeSum(f, n, k)
    decreases n - k
  {
    hide Sum, Costs, Spaces, Times;
    if k + 1 < n {
      assert Merged(f, b, n, k);
      var q :| NewNode(f, b, n, k, q);
      DepthsCost(f, b, n, k + 1, d);
      var m := Left(n, k);
      assert d == d[q := d[q]];
      TailCosts(f, b, n, k, q, d, d);
      OneLess(f[q], d[m - 2]);
    } else {
      LastStep(n, k);
      OneLeft(f, b, k, d);
    }
  }

  /** Nothing that fits is cheaper than the depths in the tree. */
  lemma DepthsLeast(f: seq<nat>, b: seq<nat>, n: nat, d: seq<nat>, l: seq<nat>, top: nat)
    requires Merges(f, b, n) && Depths(f, b, n, d) && Fit(b, 0, l, top, 2 * n - 1)
    ensures |l| == |f| && Sum(Costs(f, b, 0, d, 2 * n - 1)) <= Sum(Costs(f, b, 0, l, 2 * n - 1))
  {
    hide *;
    MergesSize(f, b, n);
    assert Left(n, 0) == 2 * n - 1 by {
      WholeList(n);
    }
    DepthsCost(f, b, n, 0, d);
    AtLeast(f, b, n, 0, l, top);
  }

  lemma MergesSize(f: seq<nat>, b: seq<nat>, n: nat)
    requires Merges(f, b, n)
    ensures 2 <= n && |f| == |b| == 2 * n - 1
  {
  }

  lemma WholeList(n: nat)
    requires 0 < n
    ensures Left(n, 0) == 2 * n - 1
  {
  }

  // The list of a tree as such a run

  function Frequencies(list: seq<nat>, freq: seq<nat>): (f: seq<nat>)
    ensures |f| == |list| && forall p :: 0 <= p < |list| && list[p] < |freq| ==> f[p] == freq[list[p]]
  {
    seq(|list|, p requires 0 <= p < |list| => if list[p] < |freq| then freq[list[p]] else 0)
  }

  function Births(list: seq<nat>, elems: nat): (b: seq<nat>)
    ensures |b| == |list| && forall p :: 0 <= p < |list| ==> b[p] == if list[p] < elems then 0 else list[p] - elems + 1
  {
    seq(|list|, p requires 0 <= p < |list| => if list[p] < elems then 0 else list[p] - elems + 1)
  }

  /** The lengths of the nodes along the list. */
  function Along(list: seq<nat>, lens: seq<nat>): (l: seq<nat>)
    ensures |l| == |list| && forall p :: 0 <= p < |list| ==> l[p] == if list[p] < |lens| then lens[list[p]] else 0
  {
    seq(|list|, p requires 0 <= p < |list| => if list[p] < |lens| then lens[list[p]] else 0)
  }

  lemma ListMerges(list: seq<nat>, freq: seq<nat>, dad: seq<nat>, elems: nat, n: nat)
    requires TreeList(list, freq, dad, elems, n) && HuffmanList(list, freq, elems, n)
    ensures Merges(Frequencies(list, freq), Births(list, elems), n)
  {
    var f, b := Frequencies(list, freq), Births(list, elems);
    ListInOrder(list, freq);
    forall k: nat | k + 1 < n ensures Merged(f, b, n, k) {
      StepMerged(list, freq, dad, elems, n, k);
    }
  }

  lemma ListInOrder(list: seq<nat>, freq: seq<nat>)
    requires OrderedByFrequency(list, freq)
    ensures var f := Frequencies(list, freq); forall p, q :: 0 <= p < q < |f| ==> f[q] <= f[p]
  {
    var f := Frequencies(list, freq);
    forall p, q | 0 <= p < q < |f| ensures f[q] <= f[p] {
      InFront(list, freq, p, q);
    }
  }

  lemma StepMerged(list: seq<nat>, freq: seq<nat>, dad: seq<nat>, elems: nat, n: nat, k: nat)
    requires TreeList(list, freq, dad, elems, n) && HuffmanList(list, freq, elems, n) && k + 1 < n
    ensures Merged(Frequencies(list, freq), Births(list, elems), n, k)
  {
    hide *;
    var f, b, a := Frequencies(list, freq), Births(list, elems), Left(n, k) - 2;
    PairAt(elems, n, k);
    ListSizes(list, freq, dad, elems, n);
    FatherDone(list, freq, dad, elems, n, a);
    FatherDone(list, freq, dad, elems, n, a + 1);
    var q := FatherAt(list, freq, dad, elems, n, a);
    HuffmanSums(list, freq, elems, n);
    SumOfPair(list, freq, elems, n, a);
    NewNodeAt(list, freq, dad, elems, n, k, q);
    MergedJoin(f, b, n, k, q);
  }

  lemma PairAt(elems: nat, n: nat, k: nat)
    requires k + 1 < n
    ensures var a := Left(n, k) - 2;
            && 1 <= a && a + 1 < 2 * n - 1 && a % 2 == 1 && Left(n, k) == a + 2
            && Father(elems, n, a) == elems + k && Father(elems, n, a + 1) == elems + k
  {
  }

  lemma HuffmanSums(list: seq<nat>, freq: seq<nat>, elems: nat, n: nat)
    requires HuffmanList(list, freq, elems, n)
    ensures FathersSum(list, freq, elems, n)
  {
  }

  lemma NewNodeAt(list: seq<nat>, freq: seq<nat>, dad: seq<nat>, elems: nat, n: nat, k: nat, q: nat)
    requires TreeList(list, freq, dad, elems, n) && k + 1 < n && q < Left(n, k) - 2 && list[q] == elems + k < |freq|
    requires list[Left(n, k) - 2] < |freq| && list[Left(n, k) - 1] < |freq|
    requires freq[elems + k] == freq[list[Left(n, k) - 2]] + freq[list[Left(n, k) - 1]]
    ensures NewNode(Frequencies(list, freq), Births(list, elems), n, k, q)
  {
    var b := Births(list, elems);
    forall p | 0 <= p < Left(n, k) - 2 && b[p] == k + 1 ensures p == q {
      assert list[p] == elems + k;
    }
  }

  lemma MergedJoin(f: seq<nat>, b: seq<nat>, n: nat, k: nat, q: nat)
    requires |f| == |b| == 2 * n - 1 && k + 1 < n && NewNode(f, b, n, k, q)
    requires b[Left(n, k) - 1] <= k && b[Left(n, k) - 2] <= k
    ensures Merged(f, b, n, k)
  {
    hide NewNode;
  }

  lemma ListDepths(list: seq<nat>, freq: seq<nat>, dad: seq<nat>, elems: nat, n: nat, lens: seq<nat>)
    requires TreeList(list, freq, dad, elems, n) && |lens| == elems + n - 1 && AtDepth(list, |list|, lens, dad, elems, n)
    ensures Depths(Frequencies(list, freq), Births(list, elems), n, Along(list, lens))
  {
    var f, b, d := Frequencies(list, freq), Births(list, elems), Along(list, lens);
    AtDepthRoot(list, freq, dad, elems, n, lens);
    ListSizes(list, freq, dad, elems, n);
    hide TreeList, AtDepth, NewNode;
    forall k, q | 0 <= k && k + 1 < n && 0 <= q < |f| && NewNode(f, b, n, k, q)
      ensures d[Left(n, k) - 1] == d[q] + 1 && d[Left(n, k) - 2] == d[q] + 1
    {
      SonsDeeper(list, freq, dad, elems, n, lens, k, q);
    }
  }

  lemma SonsDeeper(list: seq<nat>, freq: seq<nat>, dad: seq<nat>, elems: nat, n: nat, lens: seq<nat>, k: nat, q: nat)
    requires TreeList(list, freq, dad, elems, n) && |lens| == elems + n - 1 && AtDepth(list, |list|, lens, dad, elems, n)
    requires |list| == 2 * n - 1 && k + 1 < n && q < |list| && NewNode(Frequencies(list, freq), Births(list, elems), n, k, q)
    ensures var d := Along(list, lens); d[Left(n, k) - 1] == d[q] + 1 && d[Left(n, k) - 2] == d[q] + 1
  {
    hide TreeList, AtDepth, NewNode, Frequencies, Births;
    PairAt(elems, n, k);
    BornAt(list, freq, elems, n, k, q);
    AtDepthSon(list, freq, dad, elems, n, lens, Left(n, k) - 2);
    AtDepthSon(list, freq, dad, elems, n, lens, Left(n, k) - 1);
  }

  lemma BornAt(list: seq<nat>, freq: seq<nat>, elems: nat, n: nat, k: nat, q: nat)
    requires |list| == 2 * n - 1 && NewNode(Frequencies(list, freq), Births(list, elems), n, k, q)
    ensures q < |list| && list[q] == elems + k
  {
  }

  lemma AtDepthRoot(list: seq<nat>, freq: seq<nat>, dad: seq<nat>, elems: nat, n: nat, lens: seq<nat>)
    requires TreeList(list, freq, dad, elems, n) && |lens| == elems + n - 1 && AtDepth(list, |list|, lens, dad, elems, n)
    ensures list[0] < |lens| && lens[list[0]] == 0
  {
    AtDepthAt(list, |list|, lens, dad, elems, n, 0);
  }

  lemma AtDepthSon(list: seq<nat>, freq: seq<nat>, dad: seq<nat>, elems: nat, n: nat, lens: seq<nat>, i: nat)
    requires TreeList(list, freq, dad, elems, n) && |lens| == elems + n - 1 && AtDepth(list, |list|, lens, dad, elems, n)
    requires 1 <= i < |list|
    ensures list[i] < |lens| && Father(elems, n, i) < |lens| && lens[list[i]] == lens[Father(elems, n, i)] + 1
  {
    FatherDone(list, freq, dad, elems, n, i);
    var p := FatherAt(list, freq, dad, elems, n, i);
    AtDepthAt(list, |list|, lens, dad, elems, n, i);
    AtDepthAt(list, |list|, lens, dad, elems, n, p);
  }

  // By symbol

  /** What each symbol of the first i nodes contributes. */
  function BySymbol(list: seq<nat>, i: nat, g: seq<int>): (s: seq<int>)
    requires i <= |list|
    ensures |s| == |g| && forall x: nat :: x < |g| ==> s[x] == if x in list[..i] then g[x] else 0
  {
    seq(|g|, x requires 0 <= x < |g| => if x in list[..i] then g[x] else 0)
  }

  function ByPosition(list: seq<nat>, i: nat, g: seq<int>): (s: seq<int>)
    requires i <= |list|
    ensures |s| == i && forall p :: 0 <= p < i ==> s[p] == if list[p] < |g| then g[list[p]] else 0
  {
    seq(i, p requires 0 <= p < i => if list[p] < |g| then g[list[p]] else 0)
  }

  lemma {:induction false} SameSum(list: seq<nat>, i: nat, g: seq<int>)
    requires i <= |list| && forall p, q :: 0 <= p < q < |list| ==> list[p] != list[q]
    ensures Sum(ByPosition(list, i, g)) == Sum(BySymbol(list, i, g))
    decreases i
  {
    hide Sum;
    if i == 0 {
      SumZero(BySymbol(list, 0, g));
      SumZero(ByPosition(list, 0, g));
    } else {
      SameSum(list, i - 1, g);
      SumLast(ByPosition(list, i, g));
      var x, s := list[i - 1], BySymbol(list, i - 1, g);
      assert ByPosition(list, i, g)[..i - 1] == ByPosition(list, i - 1, g);
      assert list[..i] == list[..i - 1] + [x];
      if x < |g| {
        assert x !in list[..i - 1];
        assert BySymbol(list, i, g) == s[x := g[x]];
        SumUpdate(s, x, g[x]);
      } else {
        assert BySymbol(list, i, g) == s;
      }
    }
  }

  lemma SumLast(s: seq<int>)
    requires s != []
    ensures Sum(s) == Sum(s[..|s| - 1]) + s[|s| - 1]
  {
  }

  /** The length of the message, in bits. */
  function Bits(lens: seq<nat>, freq: seq<nat>): (s: seq<int>)
    requires |lens| <= |freq|
    ensures |s| == |lens| && forall x :: 0 <= x < |lens| ==> s[x] == Times(freq[x], lens[x])
  {
    seq(|lens|, x requires 0 <= x < |lens| => Times(freq[x], lens[x]))
  }

  function WeightsOf(lens: seq<nat>, top: nat): (s: seq<int>)
    ensures |s| == |lens| && forall x :: 0 <= x < |lens| ==> s[x] == Weight(lens[x], top)
  {
    seq(|lens|, x requires 0 <= x < |lens| => Weight(lens[x], top))
  }

  lemma {:induction false} KraftIsSum(lens: seq<nat>, top: nat)
    ensures Sum(WeightsOf(lens, top)) == Kraft(lens, top)
    decreases |lens|
  {
    if lens != [] {
      KraftIsSum(lens[..|lens| - 1], top);
      assert WeightsOf(lens, top)[..|lens| - 1] == WeightsOf(lens[..|lens| - 1], top);
    }
  }

  /** Exactly the symbols in use have a length, and some prefix code has these lengths. */
  ghost predicate Codes(l: seq<nat>, freq: seq<nat>, top: nat)
    requires |l| <= |freq|
  {
    && (forall x :: 0 <= x < |l| ==> (l[x] == 0 <==> freq[x] == 0) && l[x] <= top)
    && Kraft(l, top) <= Pow2(top)
  }

  /** No code gives a shorter message. */
  ghost predicate Optimal(lens: seq<nat>, freq: seq<nat>)
    requires |lens| <= |freq|
  {
    forall l: seq<nat>, top: nat :: |l| == |lens| && Codes(l, freq, top) ==> Sum(Bits(lens, freq)) <= Sum(Bits(l, freq))
  }

  /** A list of different nodes, of which the leaves are the symbols in use. */
  ghost predicate Listed(list: seq<nat>, freq: seq<nat>, elems: nat) {
    && elems <= |freq| && (forall p :: 0 <= p < |list| ==> list[p] < |freq|)
    && (forall p, q :: 0 <= p < q < |list| ==> list[p] != list[q])
    && forall x: nat :: x < elems ==> (x in list <==> freq[x] != 0)
  }

  lemma TreeListed(list: seq<nat>, freq: seq<nat>, dad: seq<nat>, elems: nat, n: nat)
    requires TreeList(list, freq, dad, elems, n)
    ensures Listed(list, freq, elems)
  {
    forall p | 0 <= p < |list| ensures list[p] < |freq| {
      assert list[p] in list;
      assert IsNode(freq, elems, n - 1, list[p]);
    }
    forall x: nat | x < elems ensures x in list <==> freq[x] != 0 {
      assert x in list <==> IsNode(freq, elems, n - 1, x);
    }
  }

  /** Costs along the list are those of the symbols. */
  lemma CostsAreBits(list: seq<nat>, freq: seq<nat>, elems: nat, lens: seq<nat>)
    requires Listed(list, freq, elems) && elems <= |lens|
    ensures Sum(Costs(Frequencies(list, freq), Births(list, elems), 0, Along(list, lens), |list|)) == Sum(Bits(lens[..elems], freq))
  {
    hide Times, Sum;
    var g := Bits(lens[..elems], freq);
    var c := Costs(Frequencies(list, freq), Births(list, elems), 0, Along(list, lens), |list|);
    forall p | 0 <= p < |list| ensures c[p] == ByPosition(list, |list|, g)[p] {
      assert list[p] < |freq|;
    }
    assert c == ByPosition(list, |list|, g);
    SameSum(list, |list|, g);
    forall x: nat | x < elems ensures BySymbol(list, |list|, g)[x] == g[x] {
      UnusedFree(list, freq, elems, x, lens[x]);
    }
    assert BySymbol(list, |list|, g) == g;
  }

  lemma UnusedFree(list: seq<nat>, freq: seq<nat>, elems: nat, x: nat, len: nat)
    requires Listed(list, freq, elems) && x < elems
    ensures list[..|list|] == list && (x in list <==> freq[x] != 0) && (x !in list ==> Times(freq[x], len) == 0)
  {
    assert list[..|list|] == list;
  }

  /** And the room that codes take along the list is their Kraft sum. */
  lemma SpacesAreKraft(list: seq<nat>, freq: seq<nat>, elems: nat, l: seq<nat>, top: nat)
    requires Listed(list, freq, elems) && |l| == elems && forall x :: 0 <= x < elems ==> (l[x] == 0 <==> freq[x] == 0) && l[x] <= top
    ensures Sum(Spaces(Births(list, elems), 0, Along(list, l), top, |list|)) == Kraft(l, top)
    ensures forall p :: 0 <= p < |list| && Births(list, elems)[p] <= 0 ==> Along(list, l)[p] <= top
  {
    hide Sum, Pow2, Kraft;
    var b, a := Births(list, elems), Along(list, l);
    var g, s := WeightsOf(l, top), Spaces(b, 0, a, top, |list|);
    forall p | 0 <= p < |list| ensures s[p] == ByPosition(list, |list|, g)[p] && (b[p] <= 0 ==> a[p] <= top) {
      if list[p] < elems {
        assert list[p] in list;
        UnusedFree(list, freq, elems, list[p], 0);
      }
    }
    assert s == ByPosition(list, |list|, g);
    SameSum(list, |list|, g);
    forall x: nat | x < elems ensures BySymbol(list, |list|, g)[x] == g[x] {
      UnusedFree(list, freq, elems, x, 0);
    }
    assert BySymbol(list, |list|, g) == g;
    KraftIsSum(l, top);
  }

  /** Lengths of some code fit along the list. */
  lemma CodesFit(list: seq<nat>, freq: seq<nat>, elems: nat, l: seq<nat>, top: nat)
    requires Listed(list, freq, elems) && |l| == elems && Codes(l, freq, top)
    ensures Fit(Births(list, elems), 0, Along(list, l), top, |list|)
  {
    hide Sum, Pow2, Kraft, Listed;
    SpacesAreKraft(list, freq, elems, l, top);
  }

  /** The depths of the leaves of such a tree are optimal code lengths. */
  lemma DepthsOptimal(list: seq<nat>, freq: seq<nat>, dad: seq<nat>, elems: nat, n: nat, lens: seq<nat>)
    requires TreeList(list, freq, dad, elems, n) && HuffmanList(list, freq, elems, n)
    requires |lens| == elems + n - 1 && AtDepth(list, |list|, lens, dad, elems, n)
    ensures Optimal(lens[..elems], freq)
  {
    ListSizes(list, freq, dad, elems, n);
    forall l: seq<nat>, top: nat | |l| == elems && Codes(l, freq, top) ensures Sum(Bits(lens[..elems], freq)) <= Sum(Bits(l, freq)) {
      hide *;
      ListMerges(list, freq, dad, elems, n);
      ListDepths(list, freq, dad, elems, n, lens);
      TreeListed(list, freq, dad, elems, n);
      CodesFit(list, freq, elems, l, top);
      DepthsLeast(Frequencies(list, freq), Births(list, elems), n, Along(list, lens), Along(list, l), top);
      CostsAreBits(list, freq, elems, lens);
      CostsAreBits(list, freq, elems, l);
      assert l[..elems] == l;
    }
  }

  lemma ListSizes(list: seq<nat>, freq: seq<nat>, dad: seq<nat>, elems: nat, n: nat)
    requires TreeList(list, freq, dad, elems, n)
    ensures 2 <= n && elems <= |freq| && |list| == 2 * n - 1
  {
  }

  // How deep such a tree may be

  function Fib(n: nat): nat {
    if n < 2 then n else Fib(n - 1) + Fib(n - 2)
  }

  lemma {:induction false} FibGrows(a: nat, b: nat)
    requires a <= b
    ensures Fib(a) <= Fib(b)
    decreases b
  {
    if a < b {
      FibGrows(a, b - 1);
      FibNext(b);
    }
  }

  lemma FibNext(b: nat)
    requires b >= 1
    ensures Fib(b - 1) <= Fib(b)
  {
  }

  /** Every node is in use. */
  lemma NodesCount(list: seq<nat>, freq: seq<nat>, dad: seq<nat>, elems: nat, n: nat, i: nat)
    requires TreeList(list, freq, dad, elems, n) && HuffmanList(list, freq, elems, n) && i < |list|
    ensures list[i] < |freq| && freq[list[i]] >= 1
  {
    var last := |list| - 1;
    FatherDone(list, freq, dad, elems, n, last);
    assert list[last] in list;
    assert IsNode(freq, elems, n - 1, list[last]);
    InFront(list, freq, i, last);
  }

  /** The other node of a pair. */
  function Brother(i: nat): nat
    requires 1 <= i
  {
    if i % 2 == 1 then i + 1 else i - 1
  }

  lemma BrothersSum(list: seq<nat>, freq: seq<nat>, elems: nat, n: nat, i: nat)
    requires |list| == 2 * n - 1 && FathersSum(list, freq, elems, n) && 1 <= i < |list|
    ensures 1 <= Brother(i) < |list| && list[i] < |freq| && list[Brother(i)] < |freq| && Father(elems, n, i) < |freq|
    ensures freq[Father(elems, n, i)] == freq[list[i]] + freq[list[Brother(i)]]
  {
    PairFather(elems, n, i);
    SumOfPair(list, freq, elems, n, Elder(i));
  }

  /** On the way up, the brother of a node was there before its sons were joined, or came later, so that it is no
      rarer than they are: frequencies grow as the Fibonacci numbers do. */
  lemma {:induction false} UpwardGrowth(list: seq<nat>, freq: seq<nat>, dad: seq<nat>, elems: nat, n: nat, i: nat, h: nat, j: nat)
    requires TreeList(list, freq, dad, elems, n) && HuffmanList(list, freq, elems, n) && i < |list|
    requires list[i] < |freq| && freq[list[i]] >= Fib(h + 2)
    requires h > 0 ==> 1 <= j < |list| && Father(elems, n, j) == list[i] && list[j] < |freq| && freq[list[j]] >= Fib(h + 1)
    ensures list[0] < |freq| && freq[list[0]] >= Fib(h + DepthOf(dad, elems + n - 2, list[i]) + 2)
    decreases i
  {
    hide *;
    ListSizes(list, freq, dad, elems, n);
    if i == 0 {
      RootDepth(list, freq, dad, elems, n);
    } else {
      HuffmanSums(list, freq, elems, n);
      BrothersSum(list, freq, elems, n, i);
      SonDepth(list, freq, dad, elems, n, i);
      var p := FatherAt(list, freq, dad, elems, n, i);
      if h == 0 {
        NodesCount(list, freq, dad, elems, n, Brother(i));
        SmallFibs();
      } else {
        BrotherFirst(list, freq, dad, elems, n, i, j);
        OrderOf(list, freq, elems, n);
        InFront(list, freq, Brother(i), j);
        FibStep(h);
      }
      UpwardGrowth(list, freq, dad, elems, n, p, h + 1, i);
    }
  }

  lemma RootDepth(list: seq<nat>, freq: seq<nat>, dad: seq<nat>, elems: nat, n: nat)
    requires TreeList(list, freq, dad, elems, n)
    ensures list[0] < |freq| && DepthOf(dad, elems + n - 2, list[0]) == 0
  {
  }

  lemma SmallFibs()
    ensures Fib(1) == 1 && Fib(2) == 1 && Fib(3) == 2
  {
  }

  lemma FibStep(h: nat)
    ensures Fib(h + 3) == Fib(h + 2) + Fib(h + 1)
  {
  }

  lemma OrderOf(list: seq<nat>, freq: seq<nat>, elems: nat, n: nat)
    requires HuffmanList(list, freq, elems, n)
    ensures OrderedByFrequency(list, freq)
  {
  }

  lemma BrotherFirst(list: seq<nat>, freq: seq<nat>, dad: seq<nat>, elems: nat, n: nat, i: nat, j: nat)
    requires TreeList(list, freq, dad, elems, n) && 1 <= i < |list| && 1 <= j < |list| && Father(elems, n, j) == list[i]
    ensures Brother(i) < j
  {
    FatherDone(list, freq, dad, elems, n, i);
    var q := FatherAt(list, freq, dad, elems, n, j);
    assert q == i;
    PairsApart(elems, n, i, j);
  }

  /** A node at depth d needs a total frequency of the (d + 2)nd Fibonacci number. */
  lemma DepthNeeds(list: seq<nat>, freq: seq<nat>, dad: seq<nat>, elems: nat, n: nat, k: nat)
    requires TreeList(list, freq, dad, elems, n) && HuffmanList(list, freq, elems, n) && k < |list|
    ensures elems <= |freq| && Sum(freq[..elems]) >= Fib(DepthOf(dad, elems + n - 2, list[k]) + 2)
  {
    hide *;
    ListSizes(list, freq, dad, elems, n);
    NodesCount(list, freq, dad, elems, n, k);
    SmallFibs();
    UpwardGrowth(list, freq, dad, elems, n, k, 0, 0);
    RootIsSum(list, freq, dad, elems, n);
  }

  /** With fewer symbols than that no node lies deeper than `max`. */
  lemma FewAreShallow(list: seq<nat>, freq: seq<nat>, dad: seq<nat>, elems: nat, n: nat, max: nat)
    requires TreeList(list, freq, dad, elems, n) && HuffmanList(list, freq, elems, n)
    requires elems <= |freq| && Sum(freq[..elems]) < Fib(max + 3)
    ensures Shallow(list, dad, elems, n, max)
  {
    ListSizes(list, freq, dad, elems, n);
    hide TreeList, HuffmanList, DepthOf, Fib, Sum;
    forall k | 0 <= k < |list| ensures DepthOf(dad, elems + n - 2, list[k]) <= max {
      DepthNeeds(list, freq, dad, elems, n, k);
      if DepthOf(dad, elems + n - 2, list[k]) > max {
        FibGrows(max + 3, DepthOf(dad, elems + n - 2, list[k]) + 2);
      }
    }
  }

  // The root's frequency is that of all symbols

  /** Joining two nodes keeps the sum of the frequencies. */
  lemma {:induction false} SumStays(f: seq<nat>, b: seq<nat>, n: nat, k: nat, ones: seq<nat>)
    requires Merges(f, b, n) && k < n && |ones| == |f| && forall p :: 0 <= p < |f| ==> ones[p] == 1
    ensures Sum(Costs(f, b, k, ones, Left(n, k))) == if b[0] <= n - 1 then f[0] else 0
    decreases n - k
  {
    hide Sum, Costs, Times;
    if k + 1 < n {
      assert Merged(f, b, n, k);
      var q :| NewNode(f, b, n, k, q);
      SumStays(f, b, n, k + 1, ones);
      assert ones == ones[q := ones[q]];
      TailCosts(f, b, n, k, q, ones, ones);
    } else {
      OneLeft(f, b, k, ones);
      OneTimes(f[0]);
      assert Left(n, k) == 1;
    }
  }

  lemma OneTimes(f: nat)
    ensures Times(f, 1) == f
  {
  }

  lemma RootIsSum(list: seq<nat>, freq: seq<nat>, dad: seq<nat>, elems: nat, n: nat)
    requires TreeList(list, freq, dad, elems, n) && HuffmanList(list, freq, elems, n)
    ensures list[0] < |freq| && elems <= |freq| && freq[list[0]] == Sum(freq[..elems])
  {
    hide *;
    ListSizes(list, freq, dad, elems, n);
    RootDepth(list, freq, dad, elems, n);
    ListMerges(list, freq, dad, elems, n);
    var ones: seq<nat> := seq(elems + n - 1, _ => 1);
    AlongOnes(list, freq, dad, elems, n, ones);
    WholeList(n);
    SumStays(Frequencies(list, freq), Births(list, elems), n, 0, Along(list, ones));
    TreeListed(list, freq, dad, elems, n);
    CostsAreBits(list, freq, elems, ones);
    OnesBits(freq, elems, ones[..elems]);
  }

  lemma AlongOnes(list: seq<nat>, freq: seq<nat>, dad: seq<nat>, elems: nat, n: nat, ones: seq<nat>)
    requires TreeList(list, freq, dad, elems, n) && |ones| == elems + n - 1 && forall x :: 0 <= x < |ones| ==> ones[x] == 1
    ensures var l := Along(list, ones); |l| == |list| && forall p :: 0 <= p < |list| ==> l[p] == 1
    ensures Frequencies(list, freq)[0] == freq[list[0]] && Births(list, elems)[0] <= n - 1
  {
    forall p | 0 <= p < |list| ensures list[p] < |ones| {
      assert list[p] in list;
      assert IsNode(freq, elems, n - 1, list[p]);
    }
  }

  lemma OnesBits(freq: seq<nat>, elems: nat, ones: seq<nat>)
    requires |ones| == elems <= |freq| && forall x :: 0 <= x < elems ==> ones[x] == 1
    ensures Sum(Bits(ones, freq)) == Sum(freq[..elems])
  {
    var bits: seq<int>, plain: seq<int> := Bits(ones, freq), freq[..elems];
    forall x | 0 <= x < elems ensures bits[x] == plain[x] {
      OneTimes(freq[x]);
    }
    assert bits == plain;
  }

  /** While the symbols are so few, the depths of the tree are lengths, and optimal. */
  lemma FewOptimal(list: seq<nat>, freq: seq<nat>, dad: seq<nat>, elems: nat, n: nat, max: nat, lens: seq<nat>)
    requires TreeList(list, freq, dad, elems, n) && HuffmanList(list, freq, elems, n) && |lens| == elems <= |freq|
    requires Shallow(list, dad, elems, n, max) ==> Optimal(lens, freq)
    ensures Sum(freq[..elems]) < Fib(max + 3) ==> Optimal(lens, freq)
  {
    hide *;
    if Sum(freq[..elems]) < Fib(max + 3) {
      FewAreShallow(list, freq, dad, elems, n, max);
    }
  }
}
