/** Frequencies for which `build_tree` of gzip.c does not make optimal lengths: nine symbols of the code-length tree whose
    counts are Fibonacci numbers. Their tree has depth 8, and codes of at most 7 bits cost more. */
module HuffmanWitness {
  import opened Sums
  import opened Common
  import opened HuffmanLengths
  import opened HuffmanOptimal
  import opened HuffmanHeights
  import opened HuffmanBitLengths
  import opened HuffmanBuild

  const COUNTS: seq<nat> := [1, 1, 2, 3, 5, 8, 13, 21, 34, 0, 0, 0, 0, 0, 0, 0, 0, 0, 0]

  /** The tree: the eight joined nodes are numbered from 19. */
  const TABLE: seq<nat> := COUNTS + [2, 4, 7, 12, 20, 33, 54, 88]
  const LIST: seq<nat> := [26, 25, 8, 24, 7, 23, 6, 22, 5, 21, 4, 20, 3, 19, 2, 1, 0]
  const ALONG: seq<nat> := [88, 54, 34, 33, 21, 20, 13, 12, 8, 7, 5, 4, 3, 2, 2, 1, 1]
  const HEIGHTS: seq<nat> := [8, 7, 0, 6, 0, 5, 0, 4, 0, 3, 0, 2, 0, 1, 0, 0, 0]

  /** Lengths up to 8 that make the message 220 bits long. */
  const LONG: seq<nat> := [8, 8, 7, 6, 5, 4, 3, 2, 1, 0, 0, 0, 0, 0, 0, 0, 0, 0, 0]

  lemma TablesAre()
    ensures Frequencies(LIST, TABLE) == ALONG && Births(LIST, 19) == HEIGHTS
    ensures Listed(LIST, TABLE, 19) && |LIST| == 17 && |TABLE| == 27 && TABLE[..19] == COUNTS
  {
    hide *;
    FrequenciesHere();
    BirthsHere();
    InUse();
    AllDifferent();
    ListedJoin();
  }

  lemma FrequenciesHere()
    ensures Frequencies(LIST, TABLE) == ALONG
  {
  }

  lemma BirthsHere()
    ensures Births(LIST, 19) == HEIGHTS
  {
  }

  lemma AllDifferent()
    ensures forall p, q :: 0 <= p < q < |LIST| ==> LIST[p] != LIST[q]
  {
    var places := [16, 15, 14, 12, 10, 8, 6, 4, 2, 0, 0, 0, 0, 0, 0, 0, 0, 0, 0, 13, 11, 9, 7, 5, 3, 1, 0];
    forall p | 0 <= p < |LIST| ensures LIST[p] < |places| && places[LIST[p]] == p {
    }
  }

  lemma ListedJoin()
    requires (forall p, q :: 0 <= p < q < |LIST| ==> LIST[p] != LIST[q])
    requires |TABLE| >= 19 && forall x: nat :: x < 19 ==> (x in LIST <==> TABLE[x] != 0)
    ensures Listed(LIST, TABLE, 19) && |LIST| == 17 && |TABLE| == 27 && TABLE[..19] == COUNTS
  {
  }

  lemma InUse()
    ensures |TABLE| == 27 && forall x: nat :: x < 19 ==> (x in LIST <==> TABLE[x] != 0)
  {
    forall x: nat | x < 9 ensures x in LIST && TABLE[x] != 0 {
      assert LIST[[16, 15, 14, 12, 10, 8, 6, 4, 2][x]] == x;
    }
    forall x: nat | 9 <= x < 19 ensures x !in LIST && TABLE[x] == 0 {
    }
  }

  lemma TableMerges()
    ensures Merges(ALONG, HEIGHTS, 9)
  {
    hide *;
    TableFalls();
    forall k: nat | k + 1 < 9 ensures |ALONG| == |HEIGHTS| == 17 && Merged(ALONG, HEIGHTS, 9, k) {
      TableMerged(k);
    }
    MergesJoin(ALONG, HEIGHTS, 9);
  }

  lemma MergesJoin(f: seq<nat>, b: seq<nat>, n: nat)
    requires 2 <= n && |f| == |b| == 2 * n - 1 && forall p, q :: 0 <= p < q < |f| ==> f[q] <= f[p]
    requires forall k: nat :: k + 1 < n ==> Merged(f, b, n, k)
    ensures Merges(f, b, n)
  {
    hide Merged;
  }

  lemma TableFalls()
    ensures |ALONG| == |HEIGHTS| == 17 && forall p, q :: 0 <= p < q < |ALONG| ==> ALONG[q] <= ALONG[p]
  {
    FallsByStep(ALONG);
  }

  lemma FallsByStep(f: seq<nat>)
    requires forall p :: 0 <= p && p + 1 < |f| ==> f[p + 1] <= f[p]
    ensures forall p, q :: 0 <= p < q < |f| ==> f[q] <= f[p]
  {
    forall p, q | 0 <= p < q < |f| ensures f[q] <= f[p] {
      FallsFrom(f, p, q);
    }
  }

  lemma {:induction false} FallsFrom(f: seq<nat>, p: nat, q: nat)
    requires p < q < |f| && forall p :: 0 <= p && p + 1 < |f| ==> f[p + 1] <= f[p]
    ensures f[q] <= f[p]
    decreases q
  {
    if p + 1 < q {
      FallsFrom(f, p, q - 1);
      assert f[(q - 1) + 1] <= f[q - 1];
    }
  }

  /** Where the node that step k makes stands in the list. */
  function Place(k: nat): (p: nat)
    requires k < 8
    ensures p < 17
  {
    [13, 11, 9, 7, 5, 3, 1, 0][k]
  }

  lemma TableMerged(k: nat)
    requires k < 8
    ensures |ALONG| == |HEIGHTS| == 17 && Merged(ALONG, HEIGHTS, 9, k)
  {
    hide *;
    PlaceSum(k);
    PlaceAlone(k);
    NewJoin(ALONG, HEIGHTS, 9, k, Place(k));
    MergedJoin(ALONG, HEIGHTS, 9, k, Place(k));
  }

  lemma PlaceSum(k: nat)
    requires k < 8
    ensures |ALONG| == |HEIGHTS| == 17 && 3 <= Left(9, k) <= 17 && Place(k) < Left(9, k) - 2
    ensures HEIGHTS[Place(k)] == k + 1 && ALONG[Place(k)] == ALONG[Left(9, k) - 2] + ALONG[Left(9, k) - 1]
    ensures HEIGHTS[Left(9, k) - 1] <= k && HEIGHTS[Left(9, k) - 2] <= k
  {
  }

  lemma PlaceAlone(k: nat)
    requires k < 8
    ensures |HEIGHTS| == 17 && forall p :: 0 <= p < 17 && HEIGHTS[p] == k + 1 ==> p == Place(k)
  {
  }

  lemma NewJoin(f: seq<nat>, b: seq<nat>, n: nat, k: nat, q: nat)
    requires |f| == |b| == 2 * n - 1 && k + 1 < n && 3 <= Left(n, k) <= |f| && q < Left(n, k) - 2
    requires b[q] == k + 1 && f[q] == f[Left(n, k) - 2] + f[Left(n, k) - 1]
    requires forall p :: 0 <= p < |b| && b[p] == k + 1 ==> p == q
    ensures NewNode(f, b, n, k, q)
  {
  }

  lemma TableHeights()
    ensures Heights(ALONG, HEIGHTS, 9, HEIGHTS) && TieOrder(ALONG, HEIGHTS)
  {
    forall k, q | 0 <= k && k + 1 < 9 && 0 <= q < 17 && NewNode(ALONG, HEIGHTS, 9, k, q)
      ensures HEIGHTS[q] == Higher(HEIGHTS[Left(9, k) - 2], HEIGHTS[Left(9, k) - 1]) + 1
    {
    }
  }

  lemma TableSum()
    ensures MergeSum(ALONG, 9, 0) == 220
  {
    assert MergeSum(ALONG, 9, 7) == 88;
    assert MergeSum(ALONG, 9, 6) == 142;
    assert MergeSum(ALONG, 9, 5) == 175;
    assert MergeSum(ALONG, 9, 4) == 195;
    assert MergeSum(ALONG, 9, 3) == 207;
    assert MergeSum(ALONG, 9, 2) == 214;
    assert MergeSum(ALONG, 9, 1) == 218;
  }

  /** A sum by its partial sums. */
  lemma {:induction false} SumBySteps(s: seq<int>, sums: seq<int>)
    requires |sums| == |s| + 1 && sums[0] == 0 && forall i :: 0 <= i < |s| ==> sums[i + 1] == sums[i] + s[i]
    ensures Sum(s) == sums[|s|]
    decreases |s|
  {
    if s != [] {
      SumBySteps(s[..|s| - 1], sums[..|s|]);
    }
  }

  lemma LongCosts()
    ensures |LONG| <= |TABLE| && Sum(Bits(LONG, TABLE)) == 220
  {
    hide Sum;
    var bits: seq<int> := [8, 8, 14, 18, 25, 32, 39, 42, 34, 0, 0, 0, 0, 0, 0, 0, 0, 0, 0];
    assert Bits(LONG, TABLE) == bits;
    SumBySteps(bits, [0, 8, 16, 30, 48, 73, 105, 144, 186, 220, 220, 220, 220, 220, 220, 220, 220, 220, 220, 220]);
  }

  lemma LongIsCode()
    ensures |LONG| <= |TABLE| && Codes(LONG, TABLE, 8)
  {
    hide *;
    LongSize();
    SmallPowers();
    LongWeights();
    SumBySteps([1, 1, 2, 4, 8, 16, 32, 64, 128, 0, 0, 0, 0, 0, 0, 0, 0, 0, 0],
               [0, 1, 2, 4, 8, 16, 32, 64, 128, 256, 256, 256, 256, 256, 256, 256, 256, 256, 256, 256]);
    KraftIsSum(LONG, 8);
    LongUsed();
    CodesJoin(LONG, TABLE, 8);
  }

  lemma LongWeights()
    ensures WeightsOf(LONG, 8) == [1, 1, 2, 4, 8, 16, 32, 64, 128, 0, 0, 0, 0, 0, 0, 0, 0, 0, 0]
  {
    SmallPowers();
    hide Pow2;
  }

  lemma LongUsed()
    ensures |LONG| <= |TABLE| && forall x :: 0 <= x < |LONG| ==> (LONG[x] == 0 <==> TABLE[x] == 0) && LONG[x] <= 8
  {
  }

  lemma SmallPowers()
    ensures Pow2(0) == 1 && Pow2(1) == 2 && Pow2(2) == 4 && Pow2(3) == 8 && Pow2(4) == 16
    ensures Pow2(5) == 32 && Pow2(6) == 64 && Pow2(7) == 128 && Pow2(8) == 256
  {
    assert Pow2(1) == 2;
    assert Pow2(2) == 4;
    assert Pow2(3) == 8;
    assert Pow2(4) == 16;
    assert Pow2(5) == 32;
    assert Pow2(6) == 64;
    assert Pow2(7) == 128;
  }

  lemma LeavesLow(lens: seq<nat>)
    requires |lens| == 19 && forall x :: 0 <= x < 19 ==> lens[x] <= 7
    ensures Low(HEIGHTS, 0, Along(LIST, lens), HEIGHTS, 17, 7)
  {
  }

  /** No code of at most 7 bits is optimal for these counts. */
  lemma NotOptimal(lens: seq<nat>, freq: seq<nat>)
    requires |lens| == 19 <= |freq| && freq[..19] == COUNTS && Codes(lens, freq, 7)
    ensures !Optimal(lens, freq)
  {
    hide *;
    if Optimal(lens, freq) {
      TablesAre();
      SameCounts(lens, freq);
      LongIsCode();
      LongSize();
      OptimalAt(lens, TABLE, LONG, 8);
      LongCosts();
      CodesLow(lens, TABLE);
      CodesFit(LIST, TABLE, 19, lens, 7);
      CostsAreBits(LIST, TABLE, 19, lens);
      assert lens[..19] == lens;
      TableMerges();
      TableHeights();
      TableSum();
      LeavesLow(lens);
      WholeList(9);
      FitSize(HEIGHTS, 0, Along(LIST, lens), 7, 17);
      MergesSize(ALONG, HEIGHTS, 9);
      NoHigher(ALONG, HEIGHTS, 9, 0, Along(LIST, lens), 7, HEIGHTS, 7);
      RootHigh();
      assert false;
    }
  }

  lemma LongSize()
    ensures |LONG| == 19 && |TABLE| == 27
  {
  }

  lemma RootHigh()
    ensures |HEIGHTS| == 17 && HEIGHTS[0] == 8
  {
  }

  lemma CodesLow(lens: seq<nat>, freq: seq<nat>)
    requires |lens| == 19 <= |freq| && Codes(lens, freq, 7)
    ensures forall x :: 0 <= x < 19 ==> lens[x] <= 7
  {
    hide Kraft, Pow2;
  }

  /** Only the counts of the symbols matter. */
  lemma SameCounts(lens: seq<nat>, freq: seq<nat>)
    requires |lens| == 19 <= |freq| && |TABLE| == 27 && freq[..19] == COUNTS && TABLE[..19] == COUNTS
    requires Codes(lens, freq, 7) && Optimal(lens, freq)
    ensures Codes(lens, TABLE, 7) && Optimal(lens, TABLE)
  {
    hide Kraft, Pow2, Sum;
    forall x | 0 <= x < 19 ensures freq[x] == TABLE[x] {
      assert freq[..19][x] == TABLE[..19][x];
    }
    forall l: seq<nat>, top: nat | |l| == 19 && Codes(l, TABLE, top) ensures Sum(Bits(lens, TABLE)) <= Sum(Bits(l, TABLE)) {
      assert Codes(l, freq, top);
      assert Bits(l, TABLE) == Bits(l, freq) && Bits(lens, TABLE) == Bits(lens, freq);
    }
  }

  /** `build_tree` on these counts: its lengths are complete and within 7 bits, and not optimal. */
  method Limited() returns (c: Coder, t: TreeDesc, ghost freq: seq<nat>)
    ensures c.Separate(t) && t.elems == 19 && t.maxLength == 7
    ensures |freq| >= 19 && freq[..19] == COUNTS
    ensures CompleteLengths(t.dl[..19], freq, c.blCount[..], 7) && !Optimal(t.dl[..19], freq)
  {
    hide *;
    c := new Coder();
    var fc, dl := new nat[39](_ => 0), new nat[39](_ => 0);
    CountsSize();
    for i := 0 to 19
      invariant |COUNTS| == 19 && forall x :: 0 <= x < i ==> fc[x] == COUNTS[x]
    {
      fc[i] := COUNTS[i];
    }
    t := new TreeDesc(fc, dl, None, seq(19, _ => 0), 0, 19, 7);
    TreeFits(c, t);
    ghost var before := fc[..];
    ghost var forced, list, dad;
    freq, forced, list, dad := BuildTree(c, t);
    NothingForced(before, forced);
    CompleteCodes(t.dl[..19], freq, c.blCount[..], 7);
    NotOptimal(t.dl[..19], freq);
  }

  lemma CountsSize()
    ensures |COUNTS| == 19
  {
  }

  lemma TreeFits(c: Coder, t: TreeDesc)
    requires c.Valid() && t.fc != t.dl && {t.fc, t.dl} !! {c.heap, c.depth, c.blCount}
    requires t.fc.Length == t.dl.Length == 39 && t.elems == 19 && t.maxLength == 7 && t.extraBase == 0 && |t.extraBits| == 19
    requires t.staticLens.None?
    ensures c.Separate(t)
  {
    SmallPowers();
  }

  /** Nine symbols are in use already. */
  lemma NothingForced(freq: seq<nat>, forced: seq<nat>)
    requires |freq| == 39 && |COUNTS| == 19 && (forall x :: 0 <= x < 19 ==> freq[x] == COUNTS[x]) && RightlyForced(freq, 19, forced)
    ensures forced == [] && WithForced(freq, forced)[..19] == COUNTS
  {
    assert freq[0] == 1 && freq[1] == 1;
    assert freq[..19] == COUNTS;
  }
}
