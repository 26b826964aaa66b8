/** `gen_bitlen`: code lengths from a Huffman tree, limited to a maximum length.

    The tree arrives as the tail of the builder's heap array: the root first and, behind it,
    pairs of siblings. The pair that was merged j-th has father node elems + j and sits at
    positions 2n-3-2j and 2n-2-2j of the list, where n is the number of leaves. */
module HuffmanLengths {
  import opened Sums

  /** A leaf is a symbol of non-zero frequency, an inner node one of the n-1 merges. */
  predicate IsNode(freq: seq<nat>, elems: nat, inner: nat, x: nat)
    requires elems <= |freq|
  {
    (x < elems && freq[x] != 0) || elems <= x < elems + inner
  }

  /** Father of the node at position i of the list of a tree with n leaves. */
  function Father(elems: nat, n: nat, i: nat): nat
    requires i <= 2 * n - 2
  {
    elems + (2 * n - 2 - i) / 2
  }

  /** `list` holds each node of a full binary tree with n leaves exactly once, root first,
      siblings adjacent, fathers before sons, and `dad` links each node to its father. */
  ghost predicate TreeList(list: seq<nat>, freq: seq<nat>, dad: seq<nat>, elems: nat, n: nat) {
    && 2 <= n && elems + n - 1 <= |freq| == |dad|
    && |list| == 2 * n - 1
    && (forall i, k :: 0 <= i < k < |list| ==> list[i] != list[k])
    && (forall x: nat :: x in list <==> IsNode(freq, elems, n - 1, x))
    && list[0] == elems + n - 2
    && (forall i {:trigger list[i]} :: 1 <= i < |list| ==>
          list[i] < |dad| && dad[list[i]] == Father(elems, n, i) && list[i] < dad[list[i]])
  }

  /** Frequencies fall from the root on. */
  ghost predicate OrderedByFrequency(list: seq<nat>, freq: seq<nat>) {
    && (forall i :: 0 <= i < |list| ==> list[i] < |freq|)
    && forall i, k :: 0 <= i < k < |list| ==> freq[list[k]] <= freq[list[i]]
  }

  /** A father is as frequent as his two sons together. */
  ghost predicate FathersSum(list: seq<nat>, freq: seq<nat>, elems: nat, n: nat) {
    forall i {:trigger list[i]} :: 1 <= i && i + 1 < |list| && i % 2 == 1 && i <= 2 * n - 2 ==>
      && list[i] < |freq| && list[i + 1] < |freq| && Father(elems, n, i) < |freq|
      && freq[Father(elems, n, i)] == freq[list[i]] + freq[list[i + 1]]
  }

  /** The list of a tree that was made by joining the two least frequent nodes again and again. */
  ghost predicate HuffmanList(list: seq<nat>, freq: seq<nat>, elems: nat, n: nat) {
    OrderedByFrequency(list, freq) && FathersSum(list, freq, elems, n)
  }

  /** No symbol has a longer code than a less frequent one. */
  ghost predicate RarerLonger(lens: seq<nat>, freq: seq<nat>)
    requires |lens| <= |freq|
  {
    forall x, y :: 0 <= x < |lens| && 0 <= y < |lens| && 0 < freq[x] < freq[y] ==> lens[x] >= lens[y]
  }

  /** The first i nodes of the list have their father's length and one more, cut at the longest. */
  ghost predicate Following(list: seq<nat>, i: nat, lens: seq<nat>, max: nat, elems: nat, n: nat) {
    && 1 <= i <= |list| == 2 * n - 1 && list[0] < |lens| && lens[list[0]] == 0
    && forall k {:trigger list[k]} :: 1 <= k < i ==>
         list[k] < |lens| && Father(elems, n, k) < |lens| && lens[list[k]] == CutLength(lens[Father(elems, n, k)], max)
  }

  lemma FollowingStep(list: seq<nat>, freq: seq<nat>, dad: seq<nat>, elems: nat, n: nat, i: nat, lens: seq<nat>, max: nat)
    requires TreeList(list, freq, dad, elems, n) && i < |list| && |lens| == elems + n - 1
    requires Following(list, i, lens, max, elems, n)
    ensures list[i] < Father(elems, n, i) < |lens|
    ensures Following(list, i + 1, lens[list[i] := CutLength(lens[Father(elems, n, i)], max)], max, elems, n)
  {
    FatherDone(list, freq, dad, elems, n, i);
    forall k | 1 <= k < i ensures list[k] != list[i] && Father(elems, n, k) != list[i] {
      FatherDone(list, freq, dad, elems, n, k);
      InShorter(list[..k], list[..i], Father(elems, n, k));
    }
    assert list[0] != list[i];
  }

  lemma InShorter(a: seq<nat>, b: seq<nat>, x: nat)
    requires a <= b && x in a
    ensures x in b
  {
  }

  /** In such a list the less frequent of two nodes lies at least as deep: its father is the less frequent one
      too, as long as they have two. */
  lemma {:induction false} Deeper(list: seq<nat>, freq: seq<nat>, dad: seq<nat>, elems: nat, n: nat, lens: seq<nat>, max: nat, i: nat, k: nat)
    requires TreeList(list, freq, dad, elems, n) && HuffmanList(list, freq, elems, n)
    requires Following(list, |list|, lens, max, elems, n)
    requires i < k < |list| && list[i] < |freq| && list[k] < |freq| && freq[list[k]] < freq[list[i]]
    ensures list[i] < |lens| && list[k] < |lens| && lens[list[k]] >= lens[list[i]]
    decreases k
  {
    if i > 0 && Father(elems, n, i) != Father(elems, n, k) {
      var p := FatherAt(list, freq, dad, elems, n, i);
      var q := FatherAt(list, freq, dad, elems, n, k);
      LessTogether(list, freq, elems, n, i, k);
      InFront(list, freq, p, q);
      Deeper(list, freq, dad, elems, n, lens, max, p, q);
    }
  }

  /** How deep node x lies below the root, by the links of `dad`. */
  function DepthOf(dad: seq<nat>, root: nat, x: nat): nat
    decreases if x < root then root - x else 0
  {
    if x >= root || x >= |dad| || dad[x] <= x then 0 else 1 + DepthOf(dad, root, dad[x])
  }

  /** The tree is no deeper than the longest code may be. */
  ghost predicate Shallow(list: seq<nat>, dad: seq<nat>, elems: nat, n: nat, max: nat) {
    2 <= n && forall k :: 0 <= k < |list| ==> DepthOf(dad, elems + n - 2, list[k]) <= max
  }

  /** The first i nodes of the list have their depths for lengths. */
  ghost predicate AtDepth(list: seq<nat>, i: nat, lens: seq<nat>, dad: seq<nat>, elems: nat, n: nat) {
    && 2 <= n && i <= |list|
    && forall k :: 0 <= k < i ==> list[k] < |lens| && lens[list[k]] == DepthOf(dad, elems + n - 2, list[k])
  }

  lemma AtDepthAt(list: seq<nat>, i: nat, lens: seq<nat>, dad: seq<nat>, elems: nat, n: nat, k: nat)
    requires AtDepth(list, i, lens, dad, elems, n) && k < i
    ensures list[k] < |lens| && lens[list[k]] == DepthOf(dad, elems + n - 2, list[k])
  {
    hide DepthOf;
  }

  lemma SonDepth(list: seq<nat>, freq: seq<nat>, dad: seq<nat>, elems: nat, n: nat, i: nat)
    requires TreeList(list, freq, dad, elems, n) && 1 <= i < |list|
    ensures DepthOf(dad, elems + n - 2, list[i]) == 1 + DepthOf(dad, elems + n - 2, Father(elems, n, i))
  {
    FatherDone(list, freq, dad, elems, n, i);
  }

  /** As long as no node lies too deep, none has been cut off. */
  ghost predicate Unlimited(list: seq<nat>, i: nat, lens: seq<nat>, dad: seq<nat>, elems: nat, n: nat, max: nat, overflow: nat) {
    Shallow(list, dad, elems, n, max) ==> overflow == 0 && AtDepth(list, i, lens, dad, elems, n)
  }

  lemma UnlimitedStart(list: seq<nat>, freq: seq<nat>, dad: seq<nat>, elems: nat, n: nat, lens: seq<nat>, max: nat)
    requires TreeList(list, freq, dad, elems, n) && list[0] < |lens| && lens[list[0]] == 0
    ensures Unlimited(list, 1, lens, dad, elems, n, max, 0)
  {
  }

  lemma UnlimitedStep(list: seq<nat>, freq: seq<nat>, dad: seq<nat>, elems: nat, n: nat, i: nat, lens: seq<nat>, max: nat, overflow: nat)
    requires TreeList(list, freq, dad, elems, n) && 1 <= i < |list| && |lens| == elems + n - 1
    requires Unlimited(list, i, lens, dad, elems, n, max, overflow)
    ensures list[i] < Father(elems, n, i) < |lens|
    ensures var len := lens[Father(elems, n, i)];
            Unlimited(list, i + 1, lens[list[i] := CutLength(len, max)], dad, elems, n, max, overflow + if len + 1 > max then 1 else 0)
  {
    FatherDone(list, freq, dad, elems, n, i);
    if Shallow(list, dad, elems, n, max) {
      var p := FatherAt(list, freq, dad, elems, n, i);
      AtDepthAt(list, i, lens, dad, elems, n, p);
      SonDepth(list, freq, dad, elems, n, i);
      ShallowAt(list, dad, elems, n, max, i);
      hide DepthOf, Shallow;
      forall k | 0 <= k < i ensures list[k] != list[i] {
      }
    }
  }

  lemma ShallowAt(list: seq<nat>, dad: seq<nat>, elems: nat, n: nat, max: nat, k: nat)
    requires Shallow(list, dad, elems, n, max) && k < |list|
    ensures DepthOf(dad, elems + n - 2, list[k]) <= max
  {
    hide DepthOf;
  }

  lemma FatherAt(list: seq<nat>, freq: seq<nat>, dad: seq<nat>, elems: nat, n: nat, i: nat) returns (p: nat)
    requires TreeList(list, freq, dad, elems, n) && 1 <= i < |list|
    ensures p < i && list[p] == Father(elems, n, i)
  {
    FatherDone(list, freq, dad, elems, n, i);
    p :| 0 <= p < i && list[..i][p] == Father(elems, n, i);
  }

  lemma InFront(list: seq<nat>, freq: seq<nat>, i: nat, k: nat)
    requires OrderedByFrequency(list, freq) && i < |list| && k < |list|
    ensures list[i] < |freq| && list[k] < |freq| && (freq[list[k]] < freq[list[i]] ==> i < k)
    ensures i <= k ==> freq[list[k]] <= freq[list[i]]
  {
  }

  lemma LessTogether(list: seq<nat>, freq: seq<nat>, elems: nat, n: nat, i: nat, k: nat)
    requires |list| == 2 * n - 1 && HuffmanList(list, freq, elems, n)
    requires 1 <= i < k < |list| && list[i] < |freq| && list[k] < |freq|
    requires freq[list[k]] < freq[list[i]] && Father(elems, n, i) != Father(elems, n, k)
    ensures Father(elems, n, i) < |freq| && Father(elems, n, k) < |freq|
    ensures freq[Father(elems, n, k)] < freq[Father(elems, n, i)]
  {
    hide OrderedByFrequency, FathersSum;
    PairFather(elems, n, i);
    PairFather(elems, n, k);
    PairsApart(elems, n, i, k);
    var a, c := Elder(i), Elder(k);
    SumOfPair(list, freq, elems, n, a);
    SumOfPair(list, freq, elems, n, c);
    hide Father, Elder;
    InFront(list, freq, a + 1, c);
    InFront(list, freq, a, a + 1);
    InFront(list, freq, c, c + 1);
    assert freq[list[c + 1]] <= freq[list[c]] <= freq[list[a + 1]] <= freq[list[a]];
  }

  /** The first of the two brothers at or around position i. */
  function Elder(i: nat): nat
    requires 1 <= i
  {
    if i % 2 == 1 then i else i - 1
  }

  lemma PairFather(elems: nat, n: nat, i: nat)
    requires 1 <= i < 2 * n - 1
    ensures Elder(i) % 2 == 1 && Elder(i) + 1 < 2 * n - 1 && (i == Elder(i) || i == Elder(i) + 1)
    ensures Father(elems, n, Elder(i)) == Father(elems, n, i)
  {
  }

  lemma PairsApart(elems: nat, n: nat, i: nat, k: nat)
    requires 1 <= i < k < 2 * n - 1 && Father(elems, n, i) != Father(elems, n, k)
    ensures Elder(i) + 1 < Elder(k)
  {
  }

  lemma SumOfPair(list: seq<nat>, freq: seq<nat>, elems: nat, n: nat, i: nat)
    requires FathersSum(list, freq, elems, n) && 1 <= i && i + 1 < |list| && i % 2 == 1 && i <= 2 * n - 2
    ensures list[i] < |freq| && list[i + 1] < |freq| && Father(elems, n, i) < |freq|
    ensures freq[Father(elems, n, i)] == freq[list[i]] + freq[list[i + 1]]
  {
    assert list[i] == list[i];
  }

  /** So rarer symbols have codes that are no shorter. */
  lemma FollowingIsRarerLonger(list: seq<nat>, freq: seq<nat>, dad: seq<nat>, elems: nat, n: nat, lens: seq<nat>, max: nat)
    requires TreeList(list, freq, dad, elems, n) && HuffmanList(list, freq, elems, n) && |lens| == elems + n - 1
    requires Following(list, |list|, lens, max, elems, n)
    ensures RarerLonger(lens[..elems], freq)
  {
    forall x, y | 0 <= x < elems && 0 <= y < elems && 0 < freq[x] < freq[y] ensures lens[x] >= lens[y] {
      assert IsNode(freq, elems, n - 1, x) && IsNode(freq, elems, n - 1, y);
      assert x in list && y in list;
      var k :| 0 <= k < |list| && list[k] == x;
      var i :| 0 <= i < |list| && list[i] == y;
      hide TreeList, FathersSum, Following;
      InFront(list, freq, i, k);
      Deeper(list, freq, dad, elems, n, lens, max, i, k);
    }
  }

  /** How many sons of node x are among the first i nodes of the list. */
  function SonsDone(elems: nat, n: nat, i: nat, x: nat): nat
    requires elems <= x <= elems + n - 2
  {
    var first := 2 * n - 3 - 2 * (x - elems);
    if i <= first then 0 else if i == first + 1 then 1 else 2
  }

  function At(weight: seq<nat>, len: nat): nat {
    if len < |weight| then weight[len] else 0
  }

  /** What node x contributes after the first i nodes got their lengths, in half units of the
      weight of its length: a leaf keeps both halves, an inner node hands one half to each son. */
  function Share(list: seq<nat>, i: nat, lens: seq<nat>, weight: seq<nat>, elems: nat, n: nat, x: nat): int
    requires i <= |list| && x < |lens| <= elems + n - 1
  {
    if x !in list[..i] then 0
    else if x < elems then 2 * At(weight, lens[x])
    else (2 - SonsDone(elems, n, i, x)) * At(weight, lens[x])
  }

  function Shares(list: seq<nat>, i: nat, lens: seq<nat>, weight: seq<nat>, elems: nat, n: nat): (s: seq<int>)
    requires i <= |list| && |lens| <= elems + n - 1
  {
    seq(|lens|, x requires 0 <= x < |lens| => Share(list, i, lens, weight, elems, n, x))
  }

  /** The father of the node at position i precedes it. */
  lemma FatherDone(list: seq<nat>, freq: seq<nat>, dad: seq<nat>, elems: nat, n: nat, i: nat)
    requires TreeList(list, freq, dad, elems, n) && 1 <= i < |list|
    ensures Father(elems, n, i) in list[..i] && list[i] !in list[..i]
    ensures list[i] < Father(elems, n, i) < elems + n - 1
  {
    var p := Father(elems, n, i);
    assert IsNode(freq, elems, n - 1, p);
    assert p in list;
    var k :| 0 <= k < |list| && list[k] == p;
    if k != 0 {
      assert p < Father(elems, n, k);
    }
    assert k < i;
    assert list[..i][k] == p;
  }

  /** Only the node at position i and its father change their share in step i. */
  lemma OtherShares(list: seq<nat>, elems: nat, n: nat, i: nat, lens: seq<nat>, weight: seq<nat>, len: nat, y: nat)
    requires 2 <= n && 1 <= i < |list| == 2 * n - 1 && |lens| == elems + n - 1
    requires y < |lens| && list[i] < |lens| && y != list[i] && y != Father(elems, n, i)
    ensures Share(list, i + 1, lens[list[i] := len], weight, elems, n, y) == Share(list, i, lens, weight, elems, n, y)
  {
    assert list[..i + 1] == list[..i] + [list[i]];
    if y >= elems {
      assert SonsDone(elems, n, i, y) == SonsDone(elems, n, i + 1, y);
    }
  }

  /** The father's share drops by half a unit, the son gets a full one. */
  lemma FamilyShares(list: seq<nat>, freq: seq<nat>, dad: seq<nat>, elems: nat, n: nat,
                     i: nat, lens: seq<nat>, weight: seq<nat>, len: nat)
    requires TreeList(list, freq, dad, elems, n) && 1 <= i < |list|
    requires |lens| == elems + n - 1
    ensures var x, p := list[i], Father(elems, n, i);
            && x < |lens| && p < |lens| && x != p
            && Share(list, i, lens, weight, elems, n, x) == 0
            && Share(list, i + 1, lens[x := len], weight, elems, n, x) == 2 * At(weight, len)
            && Share(list, i + 1, lens[x := len], weight, elems, n, p)
               == Share(list, i, lens, weight, elems, n, p) - At(weight, lens[p])
  {
    FatherDone(list, freq, dad, elems, n, i);
    var x, p := list[i], Father(elems, n, i);
    assert list[..i + 1] == list[..i] + [x];
    var done, w := SonsDone(elems, n, i, p), At(weight, lens[p]);
    assert done + 1 == SonsDone(elems, n, i + 1, p);
    assert (2 - done) * w - w == (2 - (done + 1)) * w;
    if x >= elems {
      assert SonsDone(elems, n, i + 1, x) == 0;
    }
  }

  /** Giving the node at position i a length moves one half share from its father to it. */
  lemma ShareStep(list: seq<nat>, freq: seq<nat>, dad: seq<nat>, elems: nat, n: nat,
                  i: nat, lens: seq<nat>, weight: seq<nat>, len: nat)
    requires TreeList(list, freq, dad, elems, n) && 1 <= i < |list|
    requires |lens| == elems + n - 1
    ensures list[i] < Father(elems, n, i) < |lens|
    ensures Sum(Shares(list, i + 1, lens[list[i] := len], weight, elems, n))
         == Sum(Shares(list, i, lens, weight, elems, n)) - At(weight, lens[Father(elems, n, i)]) + 2 * At(weight, len)
  {
    FatherDone(list, freq, dad, elems, n, i);
    FamilyShares(list, freq, dad, elems, n, i, lens, weight, len);
    var x, p := list[i], Father(elems, n, i);
    var s := Shares(list, i, lens, weight, elems, n);
    var s' := Shares(list, i + 1, lens[x := len], weight, elems, n);
    var middle := s[p := s[p] - At(weight, lens[p])];
    forall y | 0 <= y < |s| ensures s'[y] == middle[x := 2 * At(weight, len)][y] {
      if y != x && y != p {
        OtherShares(list, elems, n, i, lens, weight, len, y);
      }
    }
    assert s' == middle[x := 2 * At(weight, len)];
    SumUpdate(s, p, s[p] - At(weight, lens[p]));
    SumUpdate(middle, x, 2 * At(weight, len));
  }

  /** Before the first step only the root has a share, and it is a full one. */
  lemma FirstShares(list: seq<nat>, elems: nat, n: nat, lens: seq<nat>, weight: seq<nat>)
    requires 2 <= n && |list| == 2 * n - 1 && |lens| == elems + n - 1
    requires list[0] == elems + n - 2
    ensures Sum(Shares(list, 1, lens, weight, elems, n)) == 2 * At(weight, lens[list[0]])
  {
    var s := Shares(list, 1, lens, weight, elems, n);
    var zeros := seq(|lens|, _ => 0);
    assert list[..1] == [list[0]];
    SumZero(zeros);
    SumUpdate(zeros, list[0], 2 * At(weight, lens[list[0]]));
    forall y | 0 <= y < |s| ensures s[y] == zeros[list[0] := 2 * At(weight, lens[list[0]])][y] {
      if y in list[..1] {
        assert y == list[0] && SonsDone(elems, n, 1, y) == 0;
      }
    }
    assert s == zeros[list[0] := 2 * At(weight, lens[list[0]])];
  }

  /** After the last step exactly the leaves keep a share, each a full one. */
  lemma LastShares(list: seq<nat>, freq: seq<nat>, dad: seq<nat>, elems: nat, n: nat, lens: seq<nat>, weight: seq<nat>, x: nat)
    requires TreeList(list, freq, dad, elems, n) && x < |lens| == elems + n - 1
    ensures Share(list, 2 * n - 1, lens, weight, elems, n, x)
         == if x < elems && freq[x] != 0 then 2 * At(weight, lens[x]) else 0
  {
    assert list[..2 * n - 1] == list;
    assert x in list <==> IsNode(freq, elems, n - 1, x);
    if x >= elems {
      assert SonsDone(elems, n, 2 * n - 1, x) == 2;
    }
  }

  /** Weight of each length in the Kraft sum, and the indicator of the longest length. */
  function Weights(max: nat): seq<nat> {
    seq(max + 1, len requires 0 <= len <= max => Pow2(max - len))
  }

  function Longest(max: nat): seq<nat> {
    seq(max + 1, len => if len == max then 1 else 0)
  }

  /** The shares exceed a full binary tree's by half a unit per node cut off at the longest length. */
  ghost predicate KraftBalance(list: seq<nat>, i: nat, lens: seq<nat>, overflow: nat, max: nat, elems: nat, n: nat)
    requires i <= |list| && |lens| <= elems + n - 1
  {
    Sum(Shares(list, i, lens, Weights(max), elems, n)) == 2 * Pow2(max) + overflow
  }

  /** Once there are nodes of the longest length, they outnumber half the nodes cut off. */
  ghost predicate Surplus(list: seq<nat>, i: nat, lens: seq<nat>, overflow: nat, max: nat, elems: nat, n: nat)
    requires i <= |list| && |lens| <= elems + n - 1
  {
    var surplus := Sum(Shares(list, i, lens, Longest(max), elems, n)) - overflow;
    surplus >= 2 || (surplus >= 0 && overflow == 0 && forall x: nat :: x < |lens| && x in list[..i] ==> lens[x] != max)
  }

  ghost predicate Balanced(list: seq<nat>, i: nat, lens: seq<nat>, overflow: nat, max: nat, elems: nat, n: nat)
    requires i <= |list| && |lens| <= elems + n - 1
  {
    KraftBalance(list, i, lens, overflow, max, elems, n) && Surplus(list, i, lens, overflow, max, elems, n)
  }

  /** The first i nodes of the list have their lengths, the others still their fathers. */
  ghost predicate Assigned(list: seq<nat>, i: nat, dad: seq<nat>, dl: seq<nat>, lens: seq<nat>, max: nat)
    requires i <= |list| && |lens| <= |dad| == |dl|
  {
    forall x: nat {:trigger lens[x]} :: x < |lens| ==>
      if x in list[..i] then dl[x] == lens[x] <= max && (x != list[0] ==> lens[x] >= 1)
      else dl[x] == dad[x] && lens[x] == 0
  }

  function CutLength(fatherLen: nat, max: nat): nat {
    if fatherLen + 1 > max then max else fatherLen + 1
  }

  lemma KraftStep(list: seq<nat>, freq: seq<nat>, dad: seq<nat>, elems: nat, n: nat,
                  i: nat, lens: seq<nat>, overflow: nat, max: nat)
    requires TreeList(list, freq, dad, elems, n) && 1 <= i < |list|
    requires |lens| == elems + n - 1 && list[i] < Father(elems, n, i) < |lens| && lens[Father(elems, n, i)] <= max
    requires KraftBalance(list, i, lens, overflow, max, elems, n)
    ensures var p := lens[Father(elems, n, i)];
            KraftBalance(list, i + 1, lens[list[i] := CutLength(p, max)], overflow + (if p + 1 > max then 1 else 0), max, elems, n)
  {
    var p := lens[Father(elems, n, i)];
    var len := CutLength(p, max);
    assert At(Weights(max), p) == Pow2(max - p) && At(Weights(max), len) == Pow2(max - len);
    assert p < max ==> Pow2(max - p) == 2 * Pow2(max - len);
    hide TreeList, Shares, Weights, Sum;
    ShareStep(list, freq, dad, elems, n, i, lens, Weights(max), len);
  }

  lemma SurplusStep(list: seq<nat>, freq: seq<nat>, dad: seq<nat>, elems: nat, n: nat,
                    i: nat, lens: seq<nat>, overflow: nat, max: nat)
    requires TreeList(list, freq, dad, elems, n) && 1 <= i < |list|
    requires |lens| == elems + n - 1 && list[i] < Father(elems, n, i) < |lens| && lens[Father(elems, n, i)] <= max
    requires Father(elems, n, i) in list[..i]
    requires Surplus(list, i, lens, overflow, max, elems, n)
    ensures var p := lens[Father(elems, n, i)];
            Surplus(list, i + 1, lens[list[i] := CutLength(p, max)], overflow + (if p + 1 > max then 1 else 0), max, elems, n)
  {
    var p := lens[Father(elems, n, i)];
    var len := CutLength(p, max);
    assert At(Longest(max), p) == (if p == max then 1 else 0) && At(Longest(max), len) == (if len == max then 1 else 0);
    assert list[..i + 1] == list[..i] + [list[i]];
    hide TreeList, Shares, Longest, Sum;
    ShareStep(list, freq, dad, elems, n, i, lens, Longest(max), len);
  }

  lemma BalanceStep(list: seq<nat>, freq: seq<nat>, dad: seq<nat>, elems: nat, n: nat,
                    i: nat, lens: seq<nat>, overflow: nat, max: nat)
    requires TreeList(list, freq, dad, elems, n) && 1 <= i < |list|
    requires |lens| == elems + n - 1 && 1 <= max
    requires forall x: nat :: x < |lens| ==> lens[x] <= max
    requires Balanced(list, i, lens, overflow, max, elems, n)
    ensures list[i] < Father(elems, n, i) < |lens|
    ensures var p := lens[Father(elems, n, i)];
            Balanced(list, i + 1, lens[list[i] := CutLength(p, max)], overflow + (if p + 1 > max then 1 else 0), max, elems, n)
  {
    FatherDone(list, freq, dad, elems, n, i);
    hide TreeList, KraftBalance, Surplus;
    KraftStep(list, freq, dad, elems, n, i, lens, overflow, max);
    SurplusStep(list, freq, dad, elems, n, i, lens, overflow, max);
  }

  lemma AssignedStep(list: seq<nat>, freq: seq<nat>, dad: seq<nat>, elems: nat, n: nat,
                     i: nat, dl: seq<nat>, lens: seq<nat>, max: nat, len: nat)
    requires TreeList(list, freq, dad, elems, n) && 1 <= i < |list|
    requires |lens| == elems + n - 1 && |dl| == |dad| && 1 <= len <= max
    requires Assigned(list, i, dad, dl, lens, max)
    ensures list[i] < |lens| && dl[list[i]] == Father(elems, n, i) && lens[list[i]] == 0
    ensures Assigned(list, i + 1, dad, dl[list[i] := len], lens[list[i] := len], max)
  {
    FatherDone(list, freq, dad, elems, n, i);
    assert list[..i + 1] == list[..i] + [list[i]];
    assert lens[list[i]] == 0;
    var x, dl', lens' := list[i], dl[list[i] := len], lens[list[i] := len];
    assert x != list[0];
    hide TreeList;
    forall y: nat | y < |lens'|
      ensures if y in list[..i + 1] then dl'[y] == lens'[y] <= max && (y != list[0] ==> lens'[y] >= 1)
              else dl'[y] == dad[y] && lens'[y] == 0
    {
      assert lens[y] == lens[y];
      if y != x {
        assert y in list[..i + 1] <==> y in list[..i];
        assert lens'[y] == lens[y] && dl'[y] == dl[y];
      }
    }
  }

  /** What the first pass leaves: cut lengths for the leaves, and a Kraft excess of half the overflow. */
  lemma PassDone(list: seq<nat>, freq: seq<nat>, dad: seq<nat>, elems: nat, n: nat,
                 dl: seq<nat>, lens: seq<nat>, overflow: nat, max: nat)
    requires TreeList(list, freq, dad, elems, n) && |lens| == elems + n - 1 && |dl| == |dad|
    requires Assigned(list, |list|, dad, dl, lens, max) && 1 <= max
    requires Balanced(list, |list|, lens, overflow, max, elems, n)
    ensures 2 * Kraft(lens[..elems], max) == 2 * Pow2(max) + overflow
    ensures overflow > 0 ==> 2 * Count(lens[..elems], max) >= overflow + 2
    ensures forall x: nat :: x < elems ==> (lens[x] == 0 <==> freq[x] == 0) && lens[x] <= max
  {
    assert list[..|list|] == list;
    forall x: nat | x < elems ensures (lens[x] == 0 <==> freq[x] == 0) && lens[x] <= max {
      assert x in list <==> IsNode(freq, elems, n - 1, x);
      assert lens[x] <= max;
    }
    forall x: nat | x < |lens| ensures Share(list, |list|, lens, Weights(max), elems, n, x) == if x < elems then 2 * Weight(lens[x], max) else 0 {
      LastShares(list, freq, dad, elems, n, lens, Weights(max), x);
    }
    KraftFromShares(Shares(list, |list|, lens, Weights(max), elems, n), lens, elems, max);
    forall x: nat | x < |lens| ensures Share(list, |list|, lens, Longest(max), elems, n, x) == if x < elems && lens[x] == max then 2 else 0 {
      LastShares(list, freq, dad, elems, n, lens, Longest(max), x);
    }
    CountFromShares(Shares(list, |list|, lens, Longest(max), elems, n), lens, elems, max);
  }

  lemma {:induction false} KraftFromShares(shares: seq<int>, lens: seq<nat>, elems: nat, max: nat)
    requires |shares| == |lens| >= elems
    requires forall x: nat :: x < |lens| ==> shares[x] == if x < elems then 2 * Weight(lens[x], max) else 0
    ensures Sum(shares) == 2 * Kraft(lens[..elems], max)
    decreases |lens|
  {
    if |lens| > elems {
      KraftFromShares(shares[..|shares| - 1], lens[..|lens| - 1], elems, max);
      assert lens[..|lens| - 1][..elems] == lens[..elems];
    } else if elems > 0 {
      KraftFromShares(shares[..|shares| - 1], lens[..|lens| - 1], elems - 1, max);
      assert lens[..elems][..elems - 1] == lens[..|lens| - 1][..elems - 1];
    }
  }

  lemma {:induction false} CountFromShares(shares: seq<int>, lens: seq<nat>, elems: nat, max: nat)
    requires |shares| == |lens| >= elems
    requires forall x: nat :: x < |lens| ==> shares[x] == if x < elems && lens[x] == max then 2 else 0
    ensures Sum(shares) == 2 * Count(lens[..elems], max)
    decreases |lens|
  {
    if |lens| > elems {
      CountFromShares(shares[..|shares| - 1], lens[..|lens| - 1], elems, max);
      assert lens[..|lens| - 1][..elems] == lens[..elems];
    } else if elems > 0 {
      CountFromShares(shares[..|shares| - 1], lens[..|lens| - 1], elems - 1, max);
      assert lens[..elems][..elems - 1] == lens[..|lens| - 1][..elems - 1];
    }
  }
}
