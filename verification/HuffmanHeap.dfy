/** The priority queue of the Huffman tree builder: `SMALLER`, `pqdownheap` and `PQREMOVE`. */
module HuffmanHeap {

  /** Nodes are compared by frequency, subtree depth breaking ties. */
  predicate Smaller(freq: seq<nat>, depth: seq<nat>, n: nat, m: nat)
    requires n < |freq| && m < |freq| && n < |depth| && m < |depth|
  {
    freq[n] < freq[m] || (freq[n] == freq[m] && depth[n] <= depth[m])
  }

  /** `SMALLER` on the tree's own arrays. */
  predicate SmallerIn(freq: array<nat>, depth: array<nat>, n: nat, m: nat)
    requires n < freq.Length && m < freq.Length && n < depth.Length && m < depth.Length
    reads freq, depth
    ensures SmallerIn(freq, depth, n, m) == Smaller(freq[..], depth[..], n, m)
  {
    freq[n] < freq[m] || (freq[n] == freq[m] && depth[n] <= depth[m])
  }

  /** Slots 1..len of `h` name nodes that the frequency and depth tables know. */
  predicate InTables(h: seq<nat>, len: nat, freq: seq<nat>, depth: seq<nat>) {
    len < |h| && forall j :: 1 <= j <= len ==> h[j] < |freq| && h[j] < |depth|
  }

  /** Every father from slot `lo` on is smaller than its sons. */
  ghost predicate HeapFrom(h: seq<nat>, lo: nat, len: nat, freq: seq<nat>, depth: seq<nat>)
    requires InTables(h, len, freq, depth)
  {
    forall j :: 2 <= j <= len && lo <= j / 2 ==> Smaller(freq, depth, h[j / 2], h[j])
  }

  /** The root of a heap is smaller than all its members. */
  lemma {:induction false} RootIsSmallest(h: seq<nat>, len: nat, freq: seq<nat>, depth: seq<nat>, j: nat)
    requires InTables(h, len, freq, depth)
    requires HeapFrom(h, 1, len, freq, depth)
    requires 1 <= j <= len
    ensures Smaller(freq, depth, h[1], h[j])
    decreases j
  {
    if j > 1 {
      RootIsSmallest(h, len, freq, depth, j / 2);
      assert Smaller(freq, depth, h[j / 2], h[j]);
    }
  }

  /** The heap property from slot `lo` on, except that the node in slot k may be larger than its sons. */
  ghost predicate HeapButFor(h: seq<nat>, lo: nat, k: nat, len: nat, freq: seq<nat>, depth: seq<nat>)
    requires InTables(h, len, freq, depth)
    requires lo <= k <= len
  {
    && (forall i :: 2 <= i <= len && lo <= i / 2 && i / 2 != k ==> Smaller(freq, depth, h[i / 2], h[i]))
    && (forall i :: 2 <= i <= len && i / 2 == k && 1 <= lo <= k / 2 ==> Smaller(freq, depth, h[k / 2], h[i]))
  }

  /** The smaller son of slot k, the left one when they are equal in rank but for the tie rule of `SMALLER`. */
  function SmallerSon(h: seq<nat>, k: nat, len: nat, freq: seq<nat>, depth: seq<nat>): (j: nat)
    requires InTables(h, len, freq, depth) && 1 <= k && 2 * k <= len
    ensures 2 <= j <= len && j / 2 == k
    ensures forall i :: 2 <= i <= len && i / 2 == k ==> Smaller(freq, depth, h[j], h[i])
  {
    if 2 * k < len && Smaller(freq, depth, h[2 * k + 1], h[2 * k]) then 2 * k + 1 else 2 * k
  }

  /** What sifting the node of slot k down makes of the heap. */
  function Sift(h: seq<nat>, k: nat, len: nat, freq: seq<nat>, depth: seq<nat>): (r: seq<nat>)
    requires InTables(h, len, freq, depth) && 1 <= k <= len
    ensures |r| == |h| && InTables(r, len, freq, depth)
    decreases len - k
  {
    if 2 * k > len then h
    else
      var j := SmallerSon(h, k, len, freq, depth);
      if Smaller(freq, depth, h[k], h[j]) then h
      else Sift(h[k := h[j]][j := h[k]], j, len, freq, depth)
  }

  /** One step of the sift: exchanging slot k with its smaller son moves the exception to the son. */
  lemma SiftStep(h: seq<nat>, lo: nat, k: nat, len: nat, freq: seq<nat>, depth: seq<nat>)
    requires InTables(h, len, freq, depth) && 1 <= lo <= k && 2 * k <= len
    requires HeapButFor(h, lo, k, len, freq, depth)
    requires !Smaller(freq, depth, h[k], h[SmallerSon(h, k, len, freq, depth)])
    ensures var j := SmallerSon(h, k, len, freq, depth); var h' := h[k := h[j]][j := h[k]];
            InTables(h', len, freq, depth) && HeapButFor(h', lo, j, len, freq, depth)
  {
    var j := SmallerSon(h, k, len, freq, depth);
    var h' := h[k := h[j]][j := h[k]];
    assert Smaller(freq, depth, h[j], h[k]);
    forall i | 2 <= i <= len && lo <= i / 2 && i / 2 != j ensures Smaller(freq, depth, h'[i / 2], h'[i]) {
      if i == k {
        assert Smaller(freq, depth, h[k / 2], h[j]);
      }
    }
    forall i | 2 <= i <= len && i / 2 == j ensures Smaller(freq, depth, h'[j / 2], h'[i]) {
      assert Smaller(freq, depth, h[i / 2], h[i]);
    }
  }

  /** Sifting restores the heap property from `lo` on when only slot k may break it. */
  lemma {:induction false} SiftRestoresHeap(h: seq<nat>, lo: nat, k: nat, len: nat, freq: seq<nat>, depth: seq<nat>)
    requires InTables(h, len, freq, depth) && 1 <= lo <= k <= len
    requires HeapButFor(h, lo, k, len, freq, depth)
    ensures HeapFrom(Sift(h, k, len, freq, depth), lo, len, freq, depth)
    decreases len - k
  {
    if 2 * k <= len {
      var j := SmallerSon(h, k, len, freq, depth);
      if Smaller(freq, depth, h[k], h[j]) {
        forall i | 2 <= i <= len && i / 2 == k ensures Smaller(freq, depth, h[k], h[i]) {
          assert Smaller(freq, depth, h[j], h[i]);
        }
      } else {
        SiftStep(h, lo, k, len, freq, depth);
        SiftRestoresHeap(h[k := h[j]][j := h[k]], lo, j, len, freq, depth);
      }
    }
  }

  /** Sifting permutes slots k..len and touches no other slot. */
  lemma {:induction false} SiftPermutes(h: seq<nat>, k: nat, len: nat, freq: seq<nat>, depth: seq<nat>)
    requires InTables(h, len, freq, depth) && 1 <= k <= len
    ensures var r := Sift(h, k, len, freq, depth);
            && multiset(r[1..len + 1]) == multiset(h[1..len + 1])
            && (forall i :: 0 <= i < |h| && !(k <= i <= len) ==> r[i] == h[i])
    decreases len - k
  {
    if 2 * k <= len {
      var j := SmallerSon(h, k, len, freq, depth);
      if !Smaller(freq, depth, h[k], h[j]) {
        var h' := h[k := h[j]][j := h[k]];
        SiftPermutes(h', j, len, freq, depth);
        assert h'[1..len + 1] == h[1..len + 1][k - 1 := h[j]][j - 1 := h[k]];
      }
    }
  }

  /** `pqdownheap`: sift the node in slot `start` down until the heap property holds from `start` on. */
  method PqDownHeap(heap: array<nat>, heapLen: nat, freq: array<nat>, depth: array<nat>, start: nat)
    requires heap != freq && heap != depth
    requires InTables(heap[..], heapLen, freq[..], depth[..]) && 1 <= start <= heapLen
    modifies heap
    ensures heap[..] == Sift(old(heap[..]), start, heapLen, freq[..], depth[..])
  {
    ghost var f, d := freq[..], depth[..];
    var k := start;
    var v := heap[k];
    var j := 2 * k;
    ghost var target := Sift(heap[..], start, heapLen, f, d);
    assert heap[..][k := v] == heap[..];
    while j <= heapLen
      invariant 1 <= k <= heapLen && j == 2 * k
      invariant f == freq[..] && d == depth[..]
      invariant InTables(heap[..][k := v], heapLen, f, d) && v < |f| && v < |d|
      invariant Sift(heap[..][k := v], k, heapLen, f, d) == target
      decreases heapLen - k
    {
      ghost var g := heap[..][k := v];
      var up;
      j, up := SonToRise(heap, heapLen, freq, depth, k, v);
      if !up {
        break;
      }
      heap[k] := heap[j];
      assert heap[..][j := v] == g[k := g[j]][j := g[k]];
      k := j;
      j := 2 * j;
    }
    heap[k] := v;
  }

  /** The choice in the loop body: the smaller son of slot k, and whether it has to rise over node v. */
  method SonToRise(heap: array<nat>, heapLen: nat, freq: array<nat>, depth: array<nat>, k: nat, v: nat) returns (j: nat, up: bool)
    requires 1 <= k && 2 * k <= heapLen < heap.Length
    requires InTables(heap[..][k := v], heapLen, freq[..], depth[..]) && v < freq.Length && v < depth.Length
    ensures j == SmallerSon(heap[..][k := v], k, heapLen, freq[..], depth[..])
    ensures up == !Smaller(freq[..], depth[..], v, heap[..][k := v][j])
  {
    ghost var g := heap[..][k := v];
    j := 2 * k;
    assert g[k] == v && g[j] == heap[j] && (j < heapLen ==> g[j + 1] == heap[j + 1]);
    if j < heapLen && SmallerIn(freq, depth, heap[j + 1], heap[j]) {
      j := j + 1;
    }
    up := !SmallerIn(freq, depth, v, heap[j]);
  }
}
