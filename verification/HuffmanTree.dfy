/** `build_tree`: Huffman's algorithm on the heap array, from frequencies to codes. */
module HuffmanTree {
  import opened Sums
  import opened HuffmanHeap
  import opened HuffmanLengths
  import HuffmanOptimal
  import HuffmanHeights
  import opened HuffmanBitLengths
  import opened HuffmanCodes

  /** The nodes in heap slots 1..len. */
  function Waiting(h: seq<nat>, len: nat): multiset<nat>
    requires len < |h|
  {
    multiset(h[1..len + 1])
  }

  /** Nodes waiting in heap slots 1..len and nodes already merged, from slot `top` on. */
  function Nodes(h: seq<nat>, len: nat, top: nat): multiset<nat>
    requires len < top <= |h|
  {
    Waiting(h, len) + multiset(h[top..])
  }

  /** After k merges of n leaves: the heap and the list of merged nodes hold every leaf and every
      inner node made so far exactly once, and each merged node is linked to its father. */
  ghost predicate Forest(h: seq<nat>, len: nat, top: nat, freq: seq<nat>, dad: seq<nat>, elems: nat, n: nat, k: nat) {
    && |h| == HEAP_SIZE && elems <= L_CODES && 2 * elems + 1 <= |freq| == |dad|
    && k < n <= elems && len + k == n && top == HEAP_SIZE - 2 * k
    && (forall x: nat :: Nodes(h, len, top)[x] == if IsNode(freq, elems, k, x) then 1 else 0)
    && (forall q {:trigger h[q]} :: top <= q < HEAP_SIZE ==>
          h[q] < |dad| && dad[h[q]] == elems + (HEAP_SIZE - 1 - q) / 2 && h[q] < dad[h[q]])
  }

  lemma NodesInRange(h: seq<nat>, len: nat, top: nat, freq: seq<nat>, dad: seq<nat>, elems: nat, n: nat, k: nat, j: nat)
    requires Forest(h, len, top, freq, dad, elems, n, k) && 1 <= j <= len
    ensures IsNode(freq, elems, k, h[j]) && h[j] < elems + k
  {
    assert h[1..len + 1][j - 1] == h[j];
    assert h[j] in Waiting(h, len);
    assert Nodes(h, len, top)[h[j]] > 0;
  }

  /** What PQREMOVE does before sifting: the last heap node moves to the root. */
  lemma RemoveRoot(h: seq<nat>, len: nat)
    requires 2 <= len < |h|
    ensures Waiting(h[1 := h[len]], len - 1) + multiset{h[1]} == Waiting(h, len)
  {
    assert h[1..len + 1] == [h[1]] + h[2..len] + [h[len]];
    assert h[1 := h[len]][1..len] == [h[len]] + h[2..len];
  }

  lemma ReplaceRoot(h: seq<nat>, len: nat, x: nat)
    requires 1 <= len < |h|
    ensures Waiting(h[1 := x], len) + multiset{h[1]} == Waiting(h, len) + multiset{x}
  {
    assert h[1..len + 1] == [h[1]] + h[2..len + 1];
    assert h[1 := x][1..len + 1] == [x] + h[2..len + 1];
  }

  /** Sifting the root restores the heap and keeps the waiting nodes. */
  lemma SiftRoot(h: seq<nat>, len: nat, freq: seq<nat>, depth: seq<nat>)
    requires InTables(h, len, freq, depth) && 1 <= len && HeapFrom(h, 2, len, freq, depth)
    ensures var r := Sift(h, 1, len, freq, depth);
            && Waiting(r, len) == Waiting(h, len)
            && HeapFrom(r, 1, len, freq, depth)
            && forall j :: len < j < |h| ==> r[j] == h[j]
  {
    SiftRestoresHeap(h, 1, 1, len, freq, depth);
    SiftPermutes(h, 1, len, freq, depth);
  }

  /** `PQREMOVE`. */
  method PqRemove(c: Coder, freq: array<nat>) returns (least: nat)
    requires c.Valid() && freq != c.heap && 2 <= c.heapLen < HEAP_SIZE
    requires InTables(c.heap[..], c.heapLen, freq[..], c.depth[..])
    requires HeapFrom(c.heap[..], 1, c.heapLen, freq[..], c.depth[..])
    modifies c.heap, c`heapLen
    ensures c.heapLen == old(c.heapLen) - 1
    ensures least == old(c.heap[1])
    ensures Waiting(c.heap[..], c.heapLen) + multiset{least} == Waiting(old(c.heap[..]), old(c.heapLen))
    ensures forall j :: old(c.heapLen) <= j < HEAP_SIZE ==> c.heap[j] == old(c.heap[j])
    ensures InTables(c.heap[..], c.heapLen, freq[..], c.depth[..])
    ensures HeapFrom(c.heap[..], 1, c.heapLen, freq[..], c.depth[..])
  {
    ghost var h, len, f, d := c.heap[..], c.heapLen, freq[..], c.depth[..];
    hide Waiting, Smaller;
    least := c.heap[1];
    RemoveRoot(h, len);
    c.heap[1] := c.heap[c.heapLen];
    c.heapLen := c.heapLen - 1;
    ghost var h1 := h[1 := h[len]];
    assert c.heap[..] == h1;
    SiftRoot(h1, len - 1, f, d);
    PqDownHeap(c.heap, c.heapLen, freq, c.depth, 1);
  }

  /** The heap after taking out the two least nodes x and y and putting their new father in:
      `h2` is the heap after PQREMOVE took x, y is its root. */
  function Joined(h2: seq<nat>, top: nat, x: nat, node: nat): seq<nat>
    requires 4 <= top <= |h2|
  {
    h2[top - 1 := x][top - 2 := h2[1]][1 := node]
  }

  lemma JoinedNodes(h: seq<nat>, len: nat, top: nat, h2: seq<nat>, node: nat)
    requires 2 <= len && len + 3 <= top <= |h| == |h2|
    requires Waiting(h2, len - 1) + multiset{h[1]} == Waiting(h, len)
    requires forall j :: len <= j < |h| ==> h2[j] == h[j]
    ensures Nodes(Joined(h2, top, h[1], node), len - 1, top - 2) == Nodes(h, len, top) + multiset{node}
  {
    var x, y := h[1], h2[1];
    var h3 := Joined(h2, top, x, node);
    assert h3[top - 2..] == [y] + [x] + h[top..];
    assert h3[1..len] == h2[1 := node][1..len];
    assert Waiting(h3, len - 1) == Waiting(h2[1 := node], len - 1);
    ReplaceRoot(h2, len - 1, node);
    AddUp(Waiting(h, len), Waiting(h2, len - 1), Waiting(h3, len - 1), multiset(h[top..]), multiset(h3[top - 2..]), x, y, node);
  }

  lemma AddUp(w: multiset<nat>, w2: multiset<nat>, w3: multiset<nat>, tail: multiset<nat>, tail3: multiset<nat>, x: nat, y: nat, node: nat)
    requires w2 + multiset{x} == w && w3 + multiset{y} == w2 + multiset{node} && tail3 == multiset{y} + multiset{x} + tail
    ensures w3 + tail3 == w + tail + multiset{node}
  {
    forall z: nat ensures (w3 + tail3)[z] == (w + tail + multiset{node})[z] {
      assert (w2 + multiset{x})[z] == w[z];
      assert (w3 + multiset{y})[z] == (w2 + multiset{node})[z];
    }
  }

  lemma ForestStep(h: seq<nat>, len: nat, top: nat, freq: seq<nat>, dad: seq<nat>, elems: nat, n: nat, k: nat,
                   h2: seq<nat>, freq': seq<nat>, h4: seq<nat>)
    requires len >= 2 && len + 3 <= top <= |h| && elems + k < |freq| == |dad|
    requires Forest(h, len, top, freq, dad, elems, n, k)
    requires |h2| == |h| == |h4| && |freq'| == |freq|
    requires Waiting(h2, len - 1) + multiset{h[1]} == Waiting(h, len)
    requires forall j :: len <= j < |h| ==> h2[j] == h[j]
    requires forall x :: 0 <= x < elems ==> freq'[x] == freq[x]
    requires var h3 := Joined(h2, top, h[1], elems + k);
             && Waiting(h4, len - 1) == Waiting(h3, len - 1)
             && forall j :: len <= j < |h| ==> h4[j] == h3[j]
    ensures h[1] < |dad| && h2[1] < |dad| && h[1] != h2[1]
    ensures IsNode(freq, elems, k, h[1]) && IsNode(freq, elems, k, h2[1])
    ensures Forest(h4, len - 1, top - 2, freq', dad[h[1] := elems + k][h2[1] := elems + k], elems, n, k + 1)
  {
    hide Nodes, IsNode, Waiting;
    var x, y, node := h[1], h2[1], elems + k;
    TwoLeast(h, len, top, freq, dad, elems, n, k, h2);
    NodesInRange(h, len, top, freq, dad, elems, n, k, 1);
    var h3 := Joined(h2, top, x, node);
    SameNodes(h3, h4, len - 1, top - 2);
    JoinedNodes(h, len, top, h2, node);
    NodeAdded(Nodes(h, len, top), Nodes(h4, len - 1, top - 2), freq, freq', elems, k);
    LinksStep(h, len, top, freq, dad, elems, n, k, h4, x, y);
  }

  lemma SameNodes(a: seq<nat>, b: seq<nat>, len: nat, top: nat)
    requires len < top <= |a| == |b|
    requires Waiting(a, len) == Waiting(b, len)
    requires forall j :: top <= j < |a| ==> a[j] == b[j]
    ensures Nodes(a, len, top) == Nodes(b, len, top)
  {
    assert a[top..] == b[top..];
  }

  lemma NodeAdded(before: multiset<nat>, after: multiset<nat>, freq: seq<nat>, freq': seq<nat>, elems: nat, k: nat)
    requires elems <= |freq| == |freq'| && forall x :: 0 <= x < elems ==> freq'[x] == freq[x]
    requires forall z: nat :: before[z] == if IsNode(freq, elems, k, z) then 1 else 0
    requires after == before + multiset{elems + k}
    ensures forall z: nat :: after[z] == if IsNode(freq', elems, k + 1, z) then 1 else 0
  {
  }

  lemma LinksStep(h: seq<nat>, len: nat, top: nat, freq: seq<nat>, dad: seq<nat>, elems: nat, n: nat, k: nat,
                  h4: seq<nat>, x: nat, y: nat)
    requires Forest(h, len, top, freq, dad, elems, n, k) && |h4| == |h|
    requires x < elems + k && y < elems + k
    requires x in Waiting(h, len) && y in Waiting(h, len)
    requires h4[top - 1] == x && h4[top - 2] == y && forall j :: top <= j < |h| ==> h4[j] == h[j]
    ensures var dad' := dad[x := elems + k][y := elems + k];
            forall q {:trigger h4[q]} :: top - 2 <= q < HEAP_SIZE ==>
              h4[q] < |dad'| && dad'[h4[q]] == elems + (HEAP_SIZE - 1 - q) / 2 && h4[q] < dad'[h4[q]]
  {
    var dad' := dad[x := elems + k][y := elems + k];
    forall q | top - 2 <= q < HEAP_SIZE
      ensures h4[q] < |dad'| && dad'[h4[q]] == elems + (HEAP_SIZE - 1 - q) / 2 && h4[q] < dad'[h4[q]]
    {
      if q >= top {
        assert h4[q] == h[q];
        NotWaiting(h, len, top, freq, dad, elems, n, k, q, x);
        NotWaiting(h, len, top, freq, dad, elems, n, k, q, y);
      }
    }
  }

  /** A merged node is not one that waits. */
  lemma NotWaiting(h: seq<nat>, len: nat, top: nat, freq: seq<nat>, dad: seq<nat>, elems: nat, n: nat, k: nat, q: nat, x: nat)
    requires Forest(h, len, top, freq, dad, elems, n, k) && top <= q < HEAP_SIZE
    requires x in Waiting(h, len)
    ensures h[q] != x
  {
    assert h[top..][q - top] == h[q];
    assert h[q] in multiset(h[top..]);
    assert Nodes(h, len, top)[x] <= 1;
  }

  lemma TwoLeast(h: seq<nat>, len: nat, top: nat, freq: seq<nat>, dad: seq<nat>, elems: nat, n: nat, k: nat, h2: seq<nat>)
    requires Forest(h, len, top, freq, dad, elems, n, k) && len >= 2 && |h2| == |h|
    requires Waiting(h2, len - 1) + multiset{h[1]} == Waiting(h, len)
    ensures h[1] in Waiting(h, len) && h2[1] in Waiting(h, len)
    ensures h2[1] != h[1] && IsNode(freq, elems, k, h2[1]) && h2[1] < elems + k
  {
    assert h2[1] == h2[1..len][0];
    assert h2[1] in Waiting(h2, len - 1);
    var w := Waiting(h, len);
    assert w[h2[1]] > 0;
    assert Nodes(h, len, top)[h2[1]] > 0;
    assert Nodes(h, len, top)[h2[1]] <= 1;
  }

  /** Sum of the frequencies of the nodes in `w`. */
  ghost function FreqSum(w: multiset<nat>, freq: seq<nat>): int {
    Sum(seq(|freq|, x requires 0 <= x < |freq| => if x in w then freq[x] else 0))
  }

  /** The merged nodes lie in order of frequency and no waiting node is less frequent than any of them. */
  ghost predicate InOrder(h: seq<nat>, len: nat, top: nat, freq: seq<nat>)
    requires len < top <= |h|
  {
    && (forall q :: top <= q < |h| ==> h[q] < |freq|)
    && (forall q, r :: top <= q < r < |h| ==> freq[h[r]] <= freq[h[q]])
    && (top < |h| ==> forall z: nat :: z in Waiting(h, len) && z < |freq| ==> freq[h[top]] <= freq[z])
  }

  /** Each node made so far is as frequent as the two it was made of. */
  ghost predicate PairSums(h: seq<nat>, top: nat, freq: seq<nat>, elems: nat) {
    forall q: nat :: top <= q && q + 1 < |h| && (|h| - q) % 2 == 0 ==> PairSum(h, freq, elems, q)
  }

  ghost predicate PairSum(h: seq<nat>, freq: seq<nat>, elems: nat, q: nat) {
    && q + 1 < |h| && h[q] < |freq| && h[q + 1] < |freq| && elems + (|h| - 2 - q) / 2 < |freq|
    && freq[elems + (|h| - 2 - q) / 2] == freq[h[q]] + freq[h[q + 1]]
  }

  /** Each node made so far is deeper by one than the deeper of the two it was made of; depths are kept in a byte. */
  ghost predicate PairDepths(h: seq<nat>, top: nat, depth: seq<nat>, elems: nat) {
    forall q: nat :: top <= q && q + 1 < |h| && (|h| - q) % 2 == 0 ==> PairDepth(h, depth, elems, q)
  }

  ghost predicate PairDepth(h: seq<nat>, depth: seq<nat>, elems: nat, q: nat) {
    && q + 1 < |h| && h[q] < |depth| && h[q + 1] < |depth| && elems + (|h| - 2 - q) / 2 < |depth|
    && depth[elems + (|h| - 2 - q) / 2] == OneDeeper(depth[h[q]], depth[h[q + 1]])
  }

  function OneDeeper(a: nat, b: nat): nat {
    (HuffmanOptimal.Higher(a, b) + 1) % 0x100
  }

  /** Leaves have depth 0. */
  ghost predicate Flat(freq: seq<nat>, depth: seq<nat>, upto: nat) {
    forall x: nat :: x < upto && x < |freq| && freq[x] != 0 ==> x < |depth| && depth[x] == 0
  }

  ghost predicate PositiveBytes(w: multiset<nat>, freq: seq<nat>, depth: seq<nat>) {
    forall z: nat :: z in w && z < |freq| ==> freq[z] >= 1 && z < |depth| && depth[z] < 0x100
  }

  /** The merged nodes lie in the order of `SMALLER`, ties included. */
  ghost predicate Ranked(h: seq<nat>, len: nat, top: nat, freq: seq<nat>, depth: seq<nat>, elems: nat)
    requires len < top <= |h|
  {
    && PositiveBytes(Waiting(h, len), freq, depth) && InOrder(h, len, top, HuffmanHeights.Keys(freq, depth))
    && PairDepths(h, top, depth, elems) && Flat(freq, depth, elems)
  }

  /** The order and the sums, while the waiting frequencies leave 16-bit sums without wrap-around. */
  ghost predicate Tame(h: seq<nat>, len: nat, top: nat, freq: seq<nat>, depth: seq<nat>, elems: nat)
    requires len < top <= |h|
  {
    && FreqSum(Waiting(h, len), freq) < 0x1_0000 && InOrder(h, len, top, freq) && PairSums(h, top, freq, elems)
    && Ranked(h, len, top, freq, depth, elems)
  }

  lemma SumNonNegative(s: seq<int>)
    requires forall i :: 0 <= i < |s| ==> s[i] >= 0
    ensures Sum(s) >= 0
    decreases |s|
  {
    if s != [] {
      SumNonNegative(s[..|s| - 1]);
    }
  }

  /** What each node contributes to that sum. */
  ghost function Shares(w: multiset<nat>, freq: seq<nat>): (s: seq<int>)
    ensures |s| == |freq| && forall x: nat :: x < |s| ==> s[x] == if x in w then freq[x] else 0
  {
    seq(|freq|, x requires 0 <= x < |freq| => if x in w then freq[x] else 0)
  }

  lemma FreqSumIs(w: multiset<nat>, freq: seq<nat>)
    ensures FreqSum(w, freq) == Sum(Shares(w, freq))
  {
    assert Shares(w, freq) == seq(|freq|, x requires 0 <= x < |freq| => if x in w then freq[x] else 0);
  }

  /** Merging x and y moves their frequencies to the new node; the sum stays. */
  lemma FreqSumStep(w: multiset<nat>, w2: multiset<nat>, w': multiset<nat>, freq: seq<nat>, x: nat, y: nat, node: nat)
    requires x < |freq| && y < |freq| && node < |freq| && x != y && x != node && y != node
    requires w[x] == 1 && w[y] == 1 && w[node] == 0
    requires w2 + multiset{x} == w && w' == w2 - multiset{y} + multiset{node}
    ensures freq[x] + freq[y] <= FreqSum(w, freq)
    ensures FreqSum(w', freq[node := freq[x] + freq[y]]) == FreqSum(w, freq)
  {
    hide *;
    var s, freq' := Shares(w, freq), freq[node := freq[x] + freq[y]];
    FreqSumIs(w, freq);
    FreqSumIs(w', freq');
    var without := s[x := 0][y := 0];
    SumUpdate(s, x, 0);
    SumUpdate(s[x := 0], y, 0);
    SumNonNegative(without);
    SumUpdate(without, node, freq[x] + freq[y]);
    SharesMoved(w, w2, w', freq, x, y, node);
  }

  lemma SharesMoved(w: multiset<nat>, w2: multiset<nat>, w': multiset<nat>, freq: seq<nat>, x: nat, y: nat, node: nat)
    requires x < |freq| && y < |freq| && node < |freq| && x != y && x != node && y != node
    requires w[x] == 1 && w[y] == 1 && w[node] == 0
    requires w2 + multiset{x} == w && w' == w2 - multiset{y} + multiset{node}
    ensures Shares(w', freq[node := freq[x] + freq[y]]) == Shares(w, freq)[x := 0][y := 0][node := freq[x] + freq[y]]
  {
    hide Shares;
    forall z: nat | z < |freq| ensures z in w' <==> (z == node || (z in w && z != x && z != y)) {
    }
  }

  lemma LeastWaiting(h: seq<nat>, len: nat, freq: seq<nat>, depth: seq<nat>, z: nat)
    requires InTables(h, len, freq, depth) && HeapFrom(h, 1, len, freq, depth) && z in Waiting(h, len)
    ensures len >= 1 && z < |freq| && freq[h[1]] <= freq[z]
  {
    assert z in h[1..len + 1];
    var i :| 0 <= i < len && h[1..len + 1][i] == z;
    assert h[i + 1] == z;
    RootIsSmallest(h, len, freq, depth, i + 1);
  }

  /** The least two waiting nodes wait once each, the new node not yet, and all nodes so far are older than it. */
  lemma MergeCounts(h: seq<nat>, len: nat, top: nat, freq: seq<nat>, dad: seq<nat>, elems: nat, n: nat, k: nat, h2: seq<nat>)
    requires Forest(h, len, top, freq, dad, elems, n, k) && len >= 2 && |h2| == |h|
    requires Waiting(h2, len - 1) + multiset{h[1]} == Waiting(h, len)
    ensures var w, x, y, node := Waiting(h, len), h[1], h2[1], elems + k;
            && w[x] == 1 && w[y] == 1 && w[node] == 0 && x != y && x < node && y < node < |freq|
            && y in Waiting(h2, len - 1)
    ensures forall q :: top <= q < |h| ==> h[q] < elems + k
  {
    TwoLeast(h, len, top, freq, dad, elems, n, k, h2);
    NodesInRange(h, len, top, freq, dad, elems, n, k, 1);
    var w := Nodes(h, len, top);
    assert w[h[1]] <= 1 && w[h2[1]] <= 1 && w[elems + k] == 0;
    assert h2[1..len][0] == h2[1];
    forall q | top <= q < |h| ensures h[q] < elems + k {
      assert h[top..][q - top] == h[q];
      assert w[h[q]] > 0;
    }
  }

  /** `h2` lacks the root of `h`; `w4` also lacks the root of `h2` and has the new node instead. */
  ghost predicate TwoForOne(h: seq<nat>, len: nat, h2: seq<nat>, w4: multiset<nat>, node: nat) {
    && 2 <= len < |h| == |h2|
    && Waiting(h2, len - 1) + multiset{h[1]} == Waiting(h, len)
    && w4 == Waiting(h2, len - 1) - multiset{h2[1]} + multiset{node}
  }

  /** All waiting nodes are at least as frequent as the root. */
  ghost predicate RootLeast(h: seq<nat>, len: nat, freq: seq<nat>) {
    && 1 <= len < |h| && h[1] < |freq|
    && forall z: nat :: z in Waiting(h, len) && z < |freq| ==> freq[h[1]] <= freq[z]
  }

  /** The frequencies of the waiting nodes after a merge. */
  lemma TameSum(h: seq<nat>, len: nat, top: nat, freq: seq<nat>, dad: seq<nat>, elems: nat, n: nat, k: nat,
                h2: seq<nat>, w4: multiset<nat>)
    requires Forest(h, len, top, freq, dad, elems, n, k) && TwoForOne(h, len, h2, w4, elems + k)
    ensures h[1] < elems + k && h2[1] < elems + k && elems + k < |freq|
    ensures freq[h[1]] + freq[h2[1]] <= FreqSum(Waiting(h, len), freq)
    ensures FreqSum(w4, freq[elems + k := freq[h[1]] + freq[h2[1]]]) == FreqSum(Waiting(h, len), freq)
  {
    MergeCounts(h, len, top, freq, dad, elems, n, k, h2);
    hide Forest, FreqSum, IsNode, Nodes, Waiting;
    FreqSumStep(Waiting(h, len), Waiting(h2, len - 1), w4, freq, h[1], h2[1], elems + k);
  }

  lemma TameStep(h: seq<nat>, len: nat, top: nat, freq: seq<nat>, depth: seq<nat>, dad: seq<nat>, elems: nat, n: nat, k: nat,
                 h2: seq<nat>, h4: seq<nat>)
    requires Forest(h, len, top, freq, dad, elems, n, k) && 1 <= len < top <= |h| && Tame(h, len, top, freq, depth, elems)
    requires |h4| == |h| && len + 2 < top && elems + k < |depth|
    requires TwoForOne(h, len, h2, Waiting(h4, len - 1), elems + k)
    requires h4[top - 1] == h[1] && h4[top - 2] == h2[1] && forall j :: top <= j < |h| ==> h4[j] == h[j]
    requires RootLeast(h, len, freq) && RootLeast(h2, len - 1, freq)
    requires RootLeast(h, len, HuffmanHeights.Keys(freq, depth)) && RootLeast(h2, len - 1, HuffmanHeights.Keys(freq, depth))
    requires h[1] < |depth| && h2[1] < |depth|
    ensures h[1] < |freq| && h2[1] < |freq| && elems + k < |freq| && freq[h[1]] + freq[h2[1]] < 0x1_0000
    ensures Tame(h4, len - 1, top - 2, freq[elems + k := freq[h[1]] + freq[h2[1]]],
                 depth[elems + k := OneDeeper(depth[h[1]], depth[h2[1]])], elems)
  {
    hide Waiting, Nodes, Forest, FreqSum, IsNode, InOrder, TwoForOne, RootLeast, PairSums, Ranked, OneDeeper;
    TameSum(h, len, top, freq, dad, elems, n, k, h2, Waiting(h4, len - 1));
    TwoForOneParts(h, len, h2, Waiting(h4, len - 1), elems + k);
    OrderStep(h, len, top, freq, dad, elems, n, k, h2, h4, freq, freq[h[1]] + freq[h2[1]]);
    PairsStep(h, len, top, freq, dad, elems, n, k, h2, h4);
    RankStep(h, len, top, freq, depth, dad, elems, n, k, h2, h4);
  }

  /** The new node is more frequent than all before it, so that only the order of those matters. */
  lemma RankStep(h: seq<nat>, len: nat, top: nat, freq: seq<nat>, depth: seq<nat>, dad: seq<nat>, elems: nat, n: nat, k: nat,
                 h2: seq<nat>, h4: seq<nat>)
    requires Forest(h, len, top, freq, dad, elems, n, k) && 1 <= len < top <= |h| && Ranked(h, len, top, freq, depth, elems)
    requires |h4| == |h| && len + 2 < top && elems + k < |depth|
    requires TwoForOne(h, len, h2, Waiting(h4, len - 1), elems + k)
    requires h4[top - 1] == h[1] && h4[top - 2] == h2[1] && forall j :: top <= j < |h| ==> h4[j] == h[j]
    requires RootLeast(h, len, HuffmanHeights.Keys(freq, depth)) && RootLeast(h2, len - 1, HuffmanHeights.Keys(freq, depth))
    requires h[1] < |depth| && h2[1] < |depth|
    ensures h[1] < elems + k && h2[1] < elems + k && elems + k < |freq|
    ensures Ranked(h4, len - 1, top - 2, freq[elems + k := freq[h[1]] + freq[h2[1]]],
                   depth[elems + k := OneDeeper(depth[h[1]], depth[h2[1]])], elems)
  {
    hide *;
    TwoForOneParts(h, len, h2, Waiting(h4, len - 1), elems + k);
    MergeCounts(h, len, top, freq, dad, elems, n, k, h2);
    ForestTop(h, len, top, freq, dad, elems, n, k);
    RankedParts(h, len, top, freq, depth, elems);
    var x, y, node, keys := h[1], h2[1], elems + k, HuffmanHeights.Keys(freq, depth);
    var deeper, sum := OneDeeper(depth[x], depth[y]), freq[x] + freq[y];
    KeysAt(freq, depth, y);
    KeysChanged(freq, depth, node, sum, deeper);
    WaitingFrom(h, len, h2, Waiting(h4, len - 1), node);
    PositiveAt(Waiting(h, len), freq, depth, x);
    PositiveAt(Waiting(h, len), freq, depth, y);
    OneDeeperByte(depth[x], depth[y]);
    OrderStep(h, len, top, freq, dad, elems, n, k, h2, h4, keys, 0x100 * sum + deeper);
    PositiveNext(Waiting(h, len), Waiting(h4, len - 1), freq, depth, node, sum, deeper);
    NewPairDepth(h, top, depth, elems, k, x, y, h4);
    FlatNext(freq, depth, elems, node, sum, deeper);
    RankedJoin(h4, len - 1, top - 2, freq[node := sum], depth[node := deeper], elems);
  }

  lemma ForestTop(h: seq<nat>, len: nat, top: nat, freq: seq<nat>, dad: seq<nat>, elems: nat, n: nat, k: nat)
    requires Forest(h, len, top, freq, dad, elems, n, k)
    ensures top == |h| - 2 * k
  {
    hide Nodes, IsNode;
  }

  lemma RankedParts(h: seq<nat>, len: nat, top: nat, freq: seq<nat>, depth: seq<nat>, elems: nat)
    requires len < top <= |h| && Ranked(h, len, top, freq, depth, elems)
    ensures PositiveBytes(Waiting(h, len), freq, depth) && InOrder(h, len, top, HuffmanHeights.Keys(freq, depth))
    ensures PairDepths(h, top, depth, elems) && Flat(freq, depth, elems)
  {
    hide PositiveBytes, InOrder, PairDepths, Flat, Waiting;
  }

  lemma RankedJoin(h: seq<nat>, len: nat, top: nat, freq: seq<nat>, depth: seq<nat>, elems: nat)
    requires len < top <= |h| && PositiveBytes(Waiting(h, len), freq, depth) && InOrder(h, len, top, HuffmanHeights.Keys(freq, depth))
    requires PairDepths(h, top, depth, elems) && Flat(freq, depth, elems)
    ensures Ranked(h, len, top, freq, depth, elems)
  {
    hide PositiveBytes, InOrder, PairDepths, Flat, Waiting;
  }

  lemma KeysAt(freq: seq<nat>, depth: seq<nat>, x: nat)
    requires x < |freq| && x < |depth|
    ensures |HuffmanHeights.Keys(freq, depth)| == |freq| && HuffmanHeights.Keys(freq, depth)[x] == 0x100 * freq[x] + depth[x]
  {
  }

  lemma KeysChanged(freq: seq<nat>, depth: seq<nat>, node: nat, sum: nat, deeper: nat)
    requires node < |freq| && node < |depth|
    ensures |HuffmanHeights.Keys(freq, depth)| == |freq|
    ensures HuffmanHeights.Keys(freq[node := sum], depth[node := deeper]) == HuffmanHeights.Keys(freq, depth)[node := 0x100 * sum + deeper]
  {
  }

  lemma WaitingFrom(h: seq<nat>, len: nat, h2: seq<nat>, w4: multiset<nat>, node: nat)
    requires TwoForOne(h, len, h2, w4, node) && h2[1] in Waiting(h2, len - 1)
    ensures h[1] in Waiting(h, len) && h2[1] in Waiting(h, len)
    ensures forall z: nat :: z in w4 && z != node ==> z in Waiting(h, len)
  {
    hide Waiting;
    assert (Waiting(h2, len - 1) + multiset{h[1]})[h[1]] > 0;
  }

  lemma PositiveAt(w: multiset<nat>, freq: seq<nat>, depth: seq<nat>, x: nat)
    requires PositiveBytes(w, freq, depth) && x in w && x < |freq|
    ensures freq[x] >= 1 && x < |depth| && depth[x] < 0x100
  {
  }

  lemma OneDeeperByte(a: nat, b: nat)
    ensures OneDeeper(a, b) < 0x100
  {
  }

  lemma PositiveNext(w: multiset<nat>, w4: multiset<nat>, freq: seq<nat>, depth: seq<nat>, node: nat, sum: nat, deeper: nat)
    requires PositiveBytes(w, freq, depth) && node < |freq| && node < |depth| && sum >= 1 && deeper < 0x100
    requires forall z: nat :: z in w4 && z != node ==> z in w
    ensures PositiveBytes(w4, freq[node := sum], depth[node := deeper])
  {
  }

  lemma FlatNext(freq: seq<nat>, depth: seq<nat>, elems: nat, node: nat, sum: nat, deeper: nat)
    requires Flat(freq, depth, elems) && elems <= node < |freq| && node < |depth|
    ensures Flat(freq[node := sum], depth[node := deeper], elems)
  {
  }

  lemma NewPairDepth(h: seq<nat>, top: nat, depth: seq<nat>, elems: nat, k: nat, x: nat, y: nat, h4: seq<nat>)
    requires PairDepths(h, top, depth, elems) && |h4| == |h| && 2 <= top && top == |h| - 2 * k
    requires x < elems + k && y < elems + k < |depth| && forall q :: top <= q < |h| ==> h[q] < elems + k
    requires h4[top - 1] == x && h4[top - 2] == y && forall j :: top <= j < |h| ==> h4[j] == h[j]
    ensures PairDepths(h4, top - 2, depth[elems + k := OneDeeper(depth[x], depth[y])], elems)
  {
    hide OneDeeper;
    var depth' := depth[elems + k := OneDeeper(depth[x], depth[y])];
    EitherWay(depth[x], depth[y]);
    forall q: nat | top - 2 <= q && q + 1 < |h4| && (|h4| - q) % 2 == 0 ensures PairDepth(h4, depth', elems, q) {
      if q == top - 2 {
        assert (|h4| - 2 - q) / 2 == k;
      } else {
        assert PairDepth(h, depth, elems, q);
        assert h4[q] == h[q] && h4[q + 1] == h[q + 1];
        assert (|h4| - 2 - q) / 2 < k;
      }
    }
  }

  lemma EitherWay(a: nat, b: nat)
    ensures OneDeeper(a, b) == OneDeeper(b, a)
  {
  }

  /** The pair just joined has its sum; older pairs keep theirs. */
  lemma PairsStep(h: seq<nat>, len: nat, top: nat, freq: seq<nat>, dad: seq<nat>, elems: nat, n: nat, k: nat,
                  h2: seq<nat>, h4: seq<nat>)
    requires Forest(h, len, top, freq, dad, elems, n, k) && 1 <= len < top <= |h| && PairSums(h, top, freq, elems)
    requires |h4| == |h| && len + 2 < top && TwoForOne(h, len, h2, Waiting(h4, len - 1), elems + k)
    requires h4[top - 1] == h[1] && h4[top - 2] == h2[1] && forall j :: top <= j < |h| ==> h4[j] == h[j]
    ensures h[1] < |freq| && h2[1] < |freq| && elems + k < |freq|
    ensures PairSums(h4, top - 2, freq[elems + k := freq[h[1]] + freq[h2[1]]], elems)
  {
    hide FreqSum, IsNode, Nodes, Waiting, PairSums;
    MergeCounts(h, len, top, freq, dad, elems, n, k, h2);
    NewPair(h, top, freq, elems, k, h[1], h2[1], h4);
  }

  lemma NewPair(h: seq<nat>, top: nat, freq: seq<nat>, elems: nat, k: nat, x: nat, y: nat, h4: seq<nat>)
    requires PairSums(h, top, freq, elems) && |h4| == |h| && 2 <= top && top == |h| - 2 * k
    requires x < elems + k && y < elems + k < |freq| && forall q :: top <= q < |h| ==> h[q] < elems + k
    requires h4[top - 1] == x && h4[top - 2] == y && forall j :: top <= j < |h| ==> h4[j] == h[j]
    ensures PairSums(h4, top - 2, freq[elems + k := freq[x] + freq[y]], elems)
  {
    var freq' := freq[elems + k := freq[x] + freq[y]];
    forall q: nat | top - 2 <= q && q + 1 < |h4| && (|h4| - q) % 2 == 0 ensures PairSum(h4, freq', elems, q) {
      if q == top - 2 {
        assert (|h4| - 2 - q) / 2 == k;
      } else {
        assert PairSum(h, freq, elems, q);
        assert h4[q] == h[q] && h4[q + 1] == h[q + 1];
        assert (|h4| - 2 - q) / 2 < k;
      }
    }
  }

  lemma OrderStep(h: seq<nat>, len: nat, top: nat, freq: seq<nat>, dad: seq<nat>, elems: nat, n: nat, k: nat,
                  h2: seq<nat>, h4: seq<nat>, keys: seq<nat>, key: nat)
    requires Forest(h, len, top, freq, dad, elems, n, k) && 1 <= len < top <= |h| && InOrder(h, len, top, keys) && |keys| == |freq|
    requires |h4| == |h| && len + 2 < top
    requires TwoForOne(h, len, h2, Waiting(h4, len - 1), elems + k)
    requires h4[top - 1] == h[1] && h4[top - 2] == h2[1] && forall j :: top <= j < |h| ==> h4[j] == h[j]
    requires RootLeast(h, len, keys) && RootLeast(h2, len - 1, keys) && h2[1] < |keys| && key >= keys[h2[1]]
    ensures elems + k < |freq| && InOrder(h4, len - 1, top - 2, keys[elems + k := key])
  {
    hide Nodes, Forest, FreqSum, IsNode, InOrder;
    MergeCounts(h, len, top, freq, dad, elems, n, k, h2);
    forall z: nat | z in Waiting(h4, len - 1) && z != elems + k && z < |keys| ensures keys[h2[1]] <= keys[z] {
      assert z in Waiting(h2, len - 1);
    }
    assert h2[1] in Waiting(h, len);
    hide Waiting, TwoForOne;
    TameOrder(h, len, top, keys, h4, h[1], h2[1], elems + k, key);
  }

  lemma TameOrder(h: seq<nat>, len: nat, top: nat, freq: seq<nat>, h4: seq<nat>, x: nat, y: nat, node: nat, key: nat)
    requires 2 <= len && len + 2 < top <= |h| == |h4| && InOrder(h, len, top, freq)
    requires x in Waiting(h, len) && x < node && y < node < |freq| && freq[x] <= freq[y] <= key
    requires h4[top - 1] == x && h4[top - 2] == y && forall j :: top <= j < |h| ==> h4[j] == h[j]
    requires forall q :: top <= q < |h| ==> h[q] < node
    requires forall z: nat :: z in Waiting(h4, len - 1) && z != node && z < |freq| ==> freq[y] <= freq[z]
    ensures InOrder(h4, len - 1, top - 2, freq[node := key])
  {
    var freq' := freq[node := key];
    hide Waiting;
    forall q | top - 2 <= q < |h| ensures h4[q] < node {
      assert q >= top ==> h4[q] == h[q];
    }
    forall q, r | top - 2 <= q < r < |h| ensures freq'[h4[r]] <= freq'[h4[q]] {
      TailOrder(h, len, top, freq, h4, x, y, q, r);
    }
  }

  lemma TailOrder(h: seq<nat>, len: nat, top: nat, freq: seq<nat>, h4: seq<nat>, x: nat, y: nat, q: nat, r: nat)
    requires len + 2 < top <= |h| == |h4| && InOrder(h, len, top, freq)
    requires x in Waiting(h, len) && x < |freq| && y < |freq| && freq[x] <= freq[y]
    requires h4[top - 1] == x && h4[top - 2] == y && forall j :: top <= j < |h| ==> h4[j] == h[j]
    requires top - 2 <= q < r < |h|
    ensures h4[q] < |freq| && h4[r] < |freq| && freq[h4[r]] <= freq[h4[q]]
  {
    if r >= top {
      assert freq[h[r]] <= freq[h[top]];
      assert freq[h[top]] <= freq[x];
    }
  }

  lemma JoinedWaiting(h2: seq<nat>, len: nat, top: nat, x: nat, node: nat)
    requires 2 <= len && len + 3 <= top <= |h2|
    ensures Waiting(Joined(h2, top, x, node), len - 1) == Waiting(h2, len - 1) - multiset{h2[1]} + multiset{node}
  {
    assert Joined(h2, top, x, node)[1..len] == h2[1 := node][1..len];
    assert Waiting(Joined(h2, top, x, node), len - 1) == Waiting(h2[1 := node], len - 1);
    ReplaceRoot(h2, len - 1, node);
    assert h2[1..len][0] == h2[1];
  }

  /** The new node at the root is the only one that may break the heap property. */
  lemma JoinedHeap(h2: seq<nat>, len: nat, top: nat, x: nat, node: nat,
                   freq: seq<nat>, depth: seq<nat>, freq': seq<nat>, depth': seq<nat>)
    requires 2 <= len && len + 3 <= top <= |h2|
    requires InTables(h2, len - 1, freq, depth) && HeapFrom(h2, 1, len - 1, freq, depth)
    requires forall j :: 1 <= j < len ==> h2[j] < node
    requires node < |freq| == |freq'| && node < |depth| == |depth'|
    requires forall z :: 0 <= z < node ==> freq'[z] == freq[z] && depth'[z] == depth[z]
    ensures InTables(Joined(h2, top, x, node), len - 1, freq', depth')
    ensures HeapFrom(Joined(h2, top, x, node), 2, len - 1, freq', depth')
  {
    var h3 := Joined(h2, top, x, node);
    forall j | 2 <= j <= len - 1 && 2 <= j / 2 ensures Smaller(freq', depth', h3[j / 2], h3[j]) {
      assert h3[j] == h2[j] && h3[j / 2] == h2[j / 2];
      assert Smaller(freq, depth, h2[j / 2], h2[j]);
    }
  }

  /** The assignments of one merge, between PQREMOVE and the final sift. */
  method JoinTwo(c: Coder, t: TreeDesc, x: nat, node: nat)
    requires c.Separate(t) && 4 <= c.heapMax <= HEAP_SIZE
    requires node < t.fc.Length && node < HEAP_SIZE && x < node && c.heap[1] < node
    modifies c.heap, c.depth, t.fc, t.dl, c`heapMax
    ensures c.heapMax == old(c.heapMax) - 2
    ensures var y := old(c.heap[1]);
            && c.heap[..] == Joined(old(c.heap[..]), old(c.heapMax), x, node)
            && t.fc[..] == old(t.fc[..])[node := (old(t.fc[x]) + old(t.fc[y])) % 0x1_0000]
            && t.dl[..] == old(t.dl[..])[x := node][y := node]
    ensures c.depth.Length == HEAP_SIZE
    ensures c.depth[..] == old(c.depth[..])[node := OneDeeper(old(c.depth[x]), old(c.depth[c.heap[1]]))]
  {
    var y := c.heap[1];
    c.heapMax := c.heapMax - 1;
    c.heap[c.heapMax] := x;
    c.heapMax := c.heapMax - 1;
    c.heap[c.heapMax] := y;
    t.fc[node] := (t.fc[x] + t.fc[y]) % 0x1_0000;
    var deeper := if c.depth[x] > c.depth[y] then c.depth[x] else c.depth[y];
    c.depth[node] := (deeper + 1) % 0x100;
    t.dl[x] := node;
    t.dl[y] := node;
    c.heap[1] := node;
  }

  /** State between two merges. */
  ghost predicate Merging(c: Coder, t: TreeDesc, n: nat, k: nat)
    requires c.Separate(t)
    reads c, c.heap, c.depth, t.fc, t.dl
  {
    && Forest(c.heap[..], c.heapLen, c.heapMax, t.fc[..], t.dl[..], t.elems, n, k)
    && InTables(c.heap[..], c.heapLen, t.fc[..], c.depth[..])
    && HeapFrom(c.heap[..], 1, c.heapLen, t.fc[..], c.depth[..])
  }

  lemma ForestBounds(h: seq<nat>, len: nat, top: nat, freq: seq<nat>, dad: seq<nat>, elems: nat, n: nat, k: nat)
    requires Forest(h, len, top, freq, dad, elems, n, k) && len >= 2
    ensures |h| == HEAP_SIZE && len + 3 <= top <= HEAP_SIZE && top == HEAP_SIZE - 2 * k
    ensures elems + k + 1 < |freq| == |dad| && elems + k < HEAP_SIZE
  {
  }

  lemma MergeStep(h: seq<nat>, len: nat, top: nat, freq: seq<nat>, depth: seq<nat>, dad: seq<nat>, elems: nat, n: nat, k: nat,
                  h2: seq<nat>, freq': seq<nat>, depth': seq<nat>)
    requires Forest(h, len, top, freq, dad, elems, n, k) && len >= 2 && |depth| == |depth'| == HEAP_SIZE
    requires InTables(h, len, freq, depth) && HeapFrom(h, 1, len, freq, depth)
    requires |h2| == |h| && Waiting(h2, len - 1) + multiset{h[1]} == Waiting(h, len)
    requires forall j :: len <= j < |h| ==> h2[j] == h[j]
    requires InTables(h2, len - 1, freq, depth) && HeapFrom(h2, 1, len - 1, freq, depth)
    requires h[1] < elems + k && h2[1] < elems + k
    requires freq' == freq[elems + k := (freq[h[1]] + freq[h2[1]]) % 0x1_0000]
    requires forall z :: 0 <= z < elems + k ==> depth'[z] == depth[z]
    ensures elems + k < HEAP_SIZE && len + 3 <= top && IsNode(freq, elems, k, h[1]) && IsNode(freq, elems, k, h2[1])
    ensures var h3 := Joined(h2, top, h[1], elems + k);
            && InTables(h3, len - 1, freq', depth')
            && var h4 := Sift(h3, 1, len - 1, freq', depth');
            && Forest(h4, len - 1, top - 2, freq', dad[h[1] := elems + k][h2[1] := elems + k], elems, n, k + 1)
            && InTables(h4, len - 1, freq', depth') && HeapFrom(h4, 1, len - 1, freq', depth')
            && Waiting(h4, len - 1) == Waiting(h3, len - 1)
            && forall j :: len <= j < |h| ==> h4[j] == h3[j]
  {
    ForestBounds(h, len, top, freq, dad, elems, n, k);
    hide Waiting, Smaller, FreqSum, Nodes, IsNode, Forest, HeapFrom, Tame, Sift, Joined;
    MergedHeap(h, len, top, freq, depth, dad, elems, n, k, h2, freq', depth');
    var h4 := Sift(Joined(h2, top, h[1], elems + k), 1, len - 1, freq', depth');
    ForestStep(h, len, top, freq, dad, elems, n, k, h2, freq', h4);
  }

  lemma MergedHeap(h: seq<nat>, len: nat, top: nat, freq: seq<nat>, depth: seq<nat>, dad: seq<nat>, elems: nat, n: nat, k: nat,
                   h2: seq<nat>, freq': seq<nat>, depth': seq<nat>)
    requires Forest(h, len, top, freq, dad, elems, n, k) && len >= 2 && |depth| == |depth'| == HEAP_SIZE
    requires |h2| == |h| && Waiting(h2, len - 1) + multiset{h[1]} == Waiting(h, len)
    requires InTables(h2, len - 1, freq, depth) && HeapFrom(h2, 1, len - 1, freq, depth)
    requires |freq'| == |freq| && elems + k < |freq| && forall z :: 0 <= z < elems + k ==> freq'[z] == freq[z]
    requires forall z :: 0 <= z < elems + k ==> depth'[z] == depth[z]
    ensures elems + k < HEAP_SIZE && len + 3 <= top <= |h|
    ensures var h3 := Joined(h2, top, h[1], elems + k);
            && InTables(h3, len - 1, freq', depth')
            && var h4 := Sift(h3, 1, len - 1, freq', depth');
            && InTables(h4, len - 1, freq', depth') && HeapFrom(h4, 1, len - 1, freq', depth')
            && Waiting(h4, len - 1) == Waiting(h3, len - 1)
            && forall j :: len <= j < |h| ==> h4[j] == h3[j]
  {
    ForestBounds(h, len, top, freq, dad, elems, n, k);
    forall j | 1 <= j < len ensures h2[j] < elems + k {
      RestOlder(h, len, top, freq, dad, elems, n, k, h2, j);
    }
    hide Waiting, Smaller, Nodes, IsNode, Forest, HeapFrom, Sift;
    JoinedHeap(h2, len, top, h[1], elems + k, freq, depth, freq', depth');
    SiftRoot(Joined(h2, top, h[1], elems + k), len - 1, freq', depth');
  }

  /** What `Joined` makes of the waiting nodes and of the slots in front of the merged ones. */
  lemma JoinedTwoForOne(h: seq<nat>, h2: seq<nat>, len: nat, top: nat, node: nat, h4: seq<nat>)
    requires len >= 2 && len + 3 <= top <= |h| == |h2| == |h4|
    requires Waiting(h2, len - 1) + multiset{h[1]} == Waiting(h, len)
    requires forall j :: len <= j < |h| ==> h2[j] == h[j]
    requires Waiting(h4, len - 1) == Waiting(Joined(h2, top, h[1], node), len - 1)
    requires forall j :: len <= j < |h| ==> h4[j] == Joined(h2, top, h[1], node)[j]
    ensures TwoForOne(h, len, h2, Waiting(h4, len - 1), node)
    ensures h4[top - 1] == h[1] && h4[top - 2] == h2[1] && forall j :: top <= j < |h| ==> h4[j] == h[j]
  {
    JoinedSlots(h, h2, len, top, h[1], node, h4);
    hide Waiting, Joined;
    JoinedWaiting(h2, len, top, h[1], node);
  }

  /** The two nodes merged are the least frequent ones, so the order survives. */
  lemma MergeStepTame(h: seq<nat>, len: nat, top: nat, freq: seq<nat>, depth: seq<nat>, dad: seq<nat>, elems: nat, n: nat, k: nat,
                      h2: seq<nat>, h4: seq<nat>)
    requires Forest(h, len, top, freq, dad, elems, n, k) && 2 <= len < top <= |h| && Tame(h, len, top, freq, depth, elems)
    requires elems + k < |depth| && InTables(h, len, freq, depth) && HeapFrom(h, 1, len, freq, depth)
    requires InTables(h2, len - 1, freq, depth) && HeapFrom(h2, 1, len - 1, freq, depth)
    requires |h4| == |h| && len + 2 < top && TwoForOne(h, len, h2, Waiting(h4, len - 1), elems + k)
    requires h4[top - 1] == h[1] && h4[top - 2] == h2[1] && forall j :: top <= j < |h| ==> h4[j] == h[j]
    ensures h[1] < |freq| && h2[1] < |freq| && h[1] < |depth| && h2[1] < |depth| && elems + k < |freq|
    ensures freq[h[1]] + freq[h2[1]] < 0x1_0000
    ensures Tame(h4, len - 1, top - 2, freq[elems + k := freq[h[1]] + freq[h2[1]]],
                 depth[elems + k := OneDeeper(depth[h[1]], depth[h2[1]])], elems)
  {
    hide *;
    TameParts(h, len, top, freq, depth, elems);
    RankedParts(h, len, top, freq, depth, elems);
    MergeCounts(h, len, top, freq, dad, elems, n, k, h2) by {
      TwoForOneParts(h, len, h2, Waiting(h4, len - 1), elems + k);
    }
    AllWaiting(h, len, freq, depth);
    AllWaiting(h2, len - 1, freq, depth);
    AllKeys(h, len, freq, depth, Waiting(h, len));
    FewerWaiting(h, len, h2, Waiting(h4, len - 1), elems + k);
    AllKeys(h2, len - 1, freq, depth, Waiting(h, len));
    TameStep(h, len, top, freq, depth, dad, elems, n, k, h2, h4);
  }

  lemma JoinedSlots(h: seq<nat>, h2: seq<nat>, len: nat, top: nat, x: nat, node: nat, h4: seq<nat>)
    requires 2 <= len && len + 3 <= top <= |h| == |h2| == |h4|
    requires forall j :: len <= j < |h| ==> h2[j] == h[j] && h4[j] == Joined(h2, top, x, node)[j]
    ensures h4[top - 1] == x && h4[top - 2] == h2[1] && forall j :: top <= j < |h| ==> h4[j] == h[j]
  {
  }

  lemma AllWaiting(h: seq<nat>, len: nat, freq: seq<nat>, depth: seq<nat>)
    requires InTables(h, len, freq, depth) && HeapFrom(h, 1, len, freq, depth) && 1 <= len
    ensures RootLeast(h, len, freq)
  {
    forall z: nat | z in Waiting(h, len) && z < |freq| ensures freq[h[1]] <= freq[z] {
      LeastWaiting(h, len, freq, depth, z);
    }
  }

  lemma TameParts(h: seq<nat>, len: nat, top: nat, freq: seq<nat>, depth: seq<nat>, elems: nat)
    requires len < top <= |h| && Tame(h, len, top, freq, depth, elems)
    ensures FreqSum(Waiting(h, len), freq) < 0x1_0000 && InOrder(h, len, top, freq) && PairSums(h, top, freq, elems)
    ensures Ranked(h, len, top, freq, depth, elems)
  {
    hide FreqSum, InOrder, PairSums, Ranked, Waiting;
  }

  lemma TwoForOneParts(h: seq<nat>, len: nat, h2: seq<nat>, w4: multiset<nat>, node: nat)
    requires TwoForOne(h, len, h2, w4, node)
    ensures 2 <= len < |h| == |h2| && Waiting(h2, len - 1) + multiset{h[1]} == Waiting(h, len)
  {
    hide Waiting;
  }

  lemma FewerWaiting(h: seq<nat>, len: nat, h2: seq<nat>, w4: multiset<nat>, node: nat)
    requires TwoForOne(h, len, h2, w4, node)
    ensures 2 <= len < |h2| && forall z: nat :: z in Waiting(h2, len - 1) ==> z in Waiting(h, len)
  {
    hide Waiting;
    forall z: nat | z in Waiting(h2, len - 1) ensures z in Waiting(h, len) {
      assert (Waiting(h2, len - 1) + multiset{h[1]})[z] > 0;
    }
  }

  /** The root comes first, ties included. */
  lemma AllKeys(h: seq<nat>, len: nat, freq: seq<nat>, depth: seq<nat>, w: multiset<nat>)
    requires InTables(h, len, freq, depth) && HeapFrom(h, 1, len, freq, depth) && 1 <= len
    requires PositiveBytes(w, freq, depth) && forall z: nat :: z in Waiting(h, len) ==> z in w
    ensures h[1] < |depth| && RootLeast(h, len, HuffmanHeights.Keys(freq, depth))
  {
    assert h[1..len + 1][0] == h[1];
    assert h[1] in Waiting(h, len);
    forall z: nat | z in Waiting(h, len) && z < |freq|
      ensures HuffmanHeights.Keys(freq, depth)[h[1]] <= HuffmanHeights.Keys(freq, depth)[z]
    {
      SmallestWaiting(h, len, freq, depth, z);
    }
  }

  lemma SmallestWaiting(h: seq<nat>, len: nat, freq: seq<nat>, depth: seq<nat>, z: nat)
    requires InTables(h, len, freq, depth) && HeapFrom(h, 1, len, freq, depth) && z in Waiting(h, len)
    ensures len >= 1 && z < |freq| && z < |depth| && Smaller(freq, depth, h[1], z)
  {
    assert z in h[1..len + 1];
    var i :| 0 <= i < len && h[1..len + 1][i] == z;
    assert h[i + 1] == z;
    RootIsSmallest(h, len, freq, depth, i + 1);
  }

  lemma RestOlder(h: seq<nat>, len: nat, top: nat, freq: seq<nat>, dad: seq<nat>, elems: nat, n: nat, k: nat, h2: seq<nat>, j: nat)
    requires Forest(h, len, top, freq, dad, elems, n, k) && |h2| == |h| && 1 <= j < len
    requires Waiting(h2, len - 1) + multiset{h[1]} == Waiting(h, len)
    ensures h2[j] < elems + k
  {
    assert h2[1..len][j - 1] == h2[j];
    assert h2[j] in Waiting(h2, len - 1);
    assert Waiting(h, len)[h2[j]] > 0;
    assert Nodes(h, len, top)[h2[j]] > 0;
  }

  /** Values of the builder's arrays between two merges, with the counts that go with them. */
  datatype Snapshot = Snapshot(h: seq<nat>, len: nat, top: nat, freq: seq<nat>, depth: seq<nat>, dad: seq<nat>, elems: nat, n: nat, k: nat) {
    ghost predicate Ready() {
      && Forest(h, len, top, freq, dad, elems, n, k) && len >= 2 && |depth| == HEAP_SIZE
      && InTables(h, len, freq, depth) && HeapFrom(h, 1, len, freq, depth)
    }

    /** `h2` is the heap after PQREMOVE. */
    ghost predicate Removed(h2: seq<nat>) {
      && |h2| == |h| && len >= 2 && len < |h| && Waiting(h2, len - 1) + multiset{h[1]} == Waiting(h, len)
      && (forall j :: len <= j < |h| ==> h2[j] == h[j])
      && InTables(h2, len - 1, freq, depth) && HeapFrom(h2, 1, len - 1, freq, depth)
    }
  }

  lemma BeforeJoin(s: Snapshot, h2: seq<nat>)
    requires s.Ready() && s.Removed(h2)
    ensures |h2| == HEAP_SIZE && s.len + 3 <= s.top <= HEAP_SIZE && |s.depth| == HEAP_SIZE
    ensures s.elems + s.k < HEAP_SIZE && s.elems + s.k < |s.freq| == |s.dad|
    ensures s.h[1] < s.elems + s.k && h2[1] < s.elems + s.k
  {
    RestOlder(s.h, s.len, s.top, s.freq, s.dad, s.elems, s.n, s.k, h2, 1);
    NodesInRange(s.h, s.len, s.top, s.freq, s.dad, s.elems, s.n, s.k, 1);
    ForestBounds(s.h, s.len, s.top, s.freq, s.dad, s.elems, s.n, s.k);
  }

  /** The values after a merge. */
  ghost predicate MergedFrom(s: Snapshot, h4: seq<nat>, freq': seq<nat>, depth': seq<nat>, dad': seq<nat>) {
    && 1 <= s.len <= s.top <= |s.h| && 2 <= s.top && s.len - 1 < s.top - 2 <= |h4|
    && Forest(h4, s.len - 1, s.top - 2, freq', dad', s.elems, s.n, s.k + 1)
    && InTables(h4, s.len - 1, freq', depth') && HeapFrom(h4, 1, s.len - 1, freq', depth')
    && s.elems <= |s.freq| && |dad'| == |s.dad|
    && (forall z: nat :: z < |s.dad| && !IsNode(s.freq, s.elems, s.k, z) ==> dad'[z] == s.dad[z])
    && (Tame(s.h, s.len, s.top, s.freq, s.depth, s.elems) ==> Tame(h4, s.len - 1, s.top - 2, freq', depth', s.elems))
  }

  lemma AfterJoin(s: Snapshot, h2: seq<nat>, freq': seq<nat>, depth': seq<nat>)
    requires s.Ready() && s.Removed(h2) && |depth'| == HEAP_SIZE
    requires |h2| == HEAP_SIZE && s.len + 3 <= s.top <= HEAP_SIZE && s.elems + s.k < |s.freq| == |s.dad|
    requires s.h[1] < s.elems + s.k && h2[1] < s.elems + s.k && s.elems + s.k < |s.depth|
    requires freq' == s.freq[s.elems + s.k := (s.freq[s.h[1]] + s.freq[h2[1]]) % 0x1_0000]
    requires depth' == s.depth[s.elems + s.k := OneDeeper(s.depth[s.h[1]], s.depth[h2[1]])]
    ensures InTables(Joined(h2, s.top, s.h[1], s.elems + s.k), s.len - 1, freq', depth')
    ensures MergedFrom(s, Sift(Joined(h2, s.top, s.h[1], s.elems + s.k), 1, s.len - 1, freq', depth'), freq', depth',
                       s.dad[s.h[1] := s.elems + s.k][h2[1] := s.elems + s.k])
  {
    hide Forest, Waiting, HeapFrom, IsNode, Nodes, Tame, Smaller, Sift, InTables, OneDeeper;
    MergeStep(s.h, s.len, s.top, s.freq, s.depth, s.dad, s.elems, s.n, s.k, h2, freq', depth');
    var h4 := Sift(Joined(h2, s.top, s.h[1], s.elems + s.k), 1, s.len - 1, freq', depth');
    JoinedTwoForOne(s.h, h2, s.len, s.top, s.elems + s.k, h4);
    hide *;
    if Tame(s.h, s.len, s.top, s.freq, s.depth, s.elems) {
      MergeStepTame(s.h, s.len, s.top, s.freq, s.depth, s.dad, s.elems, s.n, s.k, h2, h4);
    }
  }

  /** The rest of a round after PQREMOVE took node x. */
  method FinishMerge(c: Coder, t: TreeDesc, x: nat, node: nat, ghost s: Snapshot)
    requires c.Separate(t) && s.Ready() && s.Removed(c.heap[..]) && x == s.h[1]
    requires c.heapLen == s.len - 1 && c.heapMax == s.top && s.elems == t.elems && node == t.elems + s.k
    requires s.freq == t.fc[..] && s.depth == c.depth[..] && s.dad == t.dl[..]
    modifies c.heap, c.depth, t.fc, t.dl, c`heapMax
    ensures c.heapMax == s.top - 2 && node < |s.freq| && t.fc[..] == s.freq[node := t.fc[node]]
    ensures MergedFrom(s, c.heap[..], t.fc[..], c.depth[..], t.dl[..])
  {
    ghost var h2 := c.heap[..];
    BeforeJoin(s, h2);
    hide Forest, Waiting, HeapFrom, IsNode, Nodes, Tame, Smaller, Sift, MergedFrom, InTables, Joined, OneDeeper;
    JoinTwo(c, t, x, node);
    AfterJoin(s, h2, t.fc[..], c.depth[..]);
    PqDownHeap(c.heap, c.heapLen, t.fc, c.depth, 1);
  }

  /** One round of the main loop of `build_tree`; `s` holds the values before it. */
  method Merge(c: Coder, t: TreeDesc, node: nat, ghost n: nat, ghost k: nat) returns (ghost s: Snapshot)
    requires c.Separate(t) && Merging(c, t, n, k) && 2 <= c.heapLen && node == t.elems + k
    modifies c.heap, c.depth, t.fc, t.dl, c`heapLen, c`heapMax
    ensures s == old(Snapshot(c.heap[..], c.heapLen, c.heapMax, t.fc[..], c.depth[..], t.dl[..], t.elems, n, k))
    ensures c.heapLen == s.len - 1 && c.heapMax == s.top - 2 && node < |s.freq| && t.fc[..] == s.freq[node := t.fc[node]]
    ensures MergedFrom(s, c.heap[..], t.fc[..], c.depth[..], t.dl[..])
  {
    s := Snapshot(c.heap[..], c.heapLen, c.heapMax, t.fc[..], c.depth[..], t.dl[..], t.elems, n, k);
    hide Forest, Waiting, HeapFrom, MergedFrom;
    var x := PqRemove(c, t.fc);
    assert s.freq == t.fc[..] && s.depth == c.depth[..] && s.dad == t.dl[..];
    FinishMerge(c, t, x, node, s);
  }
}
