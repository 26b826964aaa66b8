/** The bitmaps of easy-fs (easy-fs/src/bitmap.rs): first-fit allocation over blocks of 64-bit words.
    A word is a number below 2^64 whose bits are taken by halving. */
module EfsBitmap {
  import opened Common

  const WORD_BITS: nat := 64
  const WORDS: nat := 64
  const BLOCK_BITS: nat := 4096

  // One word

  function Pow(i: nat): (p: nat)
    ensures p > 0
  {
    if i == 0 then 1 else 2 * Pow(i - 1)
  }

  function BitOf(w: nat, i: nat): bool {
    if i == 0 then w % 2 == 1 else BitOf(w / 2, i - 1)
  }

  /** Bit i counts 2^i. */
  lemma {:induction false} BitIsDigit(w: nat, i: nat)
    ensures BitOf(w, i) <==> w / Pow(i) % 2 == 1
    decreases i
  {
    if i > 0 {
      BitIsDigit(w / 2, i - 1);
      HalfFirst(w, Pow(i - 1));
    }
  }

  lemma EightMore(i: nat)
    ensures Pow(i + 8) == 256 * Pow(i)
  {
    assert Pow(i + 1) == 2 * Pow(i) && Pow(i + 2) == 4 * Pow(i) && Pow(i + 3) == 8 * Pow(i);
    assert Pow(i + 4) == 16 * Pow(i) && Pow(i + 5) == 32 * Pow(i) && Pow(i + 6) == 64 * Pow(i);
    assert Pow(i + 7) == 128 * Pow(i);
  }

  lemma WordBound()
    ensures Pow(WORD_BITS) == U64
  {
    EightMore(0); EightMore(8); EightMore(16); EightMore(24);
    EightMore(32); EightMore(40); EightMore(48); EightMore(56);
  }

  /** `w | 1u64 << i` and `w - (1u64 << i)` change one bit only, in the direction that the bit allows. */
  lemma {:induction false} AddedBit(w: nat, i: nat, j: nat)
    requires !BitOf(w, i)
    ensures BitOf(w + Pow(i), j) == (BitOf(w, j) || j == i)
  {
    if i > 0 {
      assert (w + Pow(i)) / 2 == w / 2 + Pow(i - 1) && (w + Pow(i)) % 2 == w % 2;
      if j > 0 {
        AddedBit(w / 2, i - 1, j - 1);
      }
    } else if j > 0 {
      assert (w + 1) / 2 == w / 2;
    }
  }

  lemma {:induction false} RemovedBit(w: nat, i: nat, j: nat)
    requires BitOf(w, i)
    ensures w >= Pow(i) && BitOf(w - Pow(i), j) == (BitOf(w, j) && j != i)
  {
    if i > 0 {
      RemovedBit(w / 2, i - 1, if j > 0 then j - 1 else 0);
      assert (w - Pow(i)) / 2 == w / 2 - Pow(i - 1) && (w - Pow(i)) % 2 == w % 2;
    } else if j > 0 {
      assert (w - 1) / 2 == w / 2;
    }
  }

  lemma {:induction false} AddedBelow(w: nat, i: nat, n: nat)
    requires !BitOf(w, i) && w < Pow(n) && i < n
    ensures w + Pow(i) < Pow(n)
  {
    if i > 0 {
      AddedBelow(w / 2, i - 1, n - 1);
    } else {
      assert Pow(n) % 2 == 0;
    }
  }

  /** `w.trailing_ones()`: a word below 2^n that is not all ones has a clear bit, and this is the first. */
  function TrailingOnes(w: nat): (i: nat)
    ensures !BitOf(w, i) && forall j: nat :: j < i ==> BitOf(w, j)
  {
    if w % 2 == 0 then 0 else
      assert forall j: nat :: 0 < j ==> BitOf(w, j) == BitOf(w / 2, j - 1);
      1 + TrailingOnes(w / 2)
  }

  lemma {:induction false} OnesInside(w: nat, n: nat)
    requires w < Pow(n)
    ensures TrailingOnes(w) < n <==> w != Pow(n) - 1
    ensures TrailingOnes(w) <= n
  {
    if n > 0 && w % 2 == 1 {
      OnesInside(w / 2, n - 1);
    }
  }

  lemma {:induction false} AllOnes(n: nat, j: nat)
    requires j < n
    ensures BitOf(Pow(n) - 1, j)
  {
    assert (Pow(n) - 1) % 2 == 1 && (Pow(n) - 1) / 2 == Pow(n - 1) - 1;
    if j > 0 {
      AllOnes(n - 1, j - 1);
    }
  }

  // Blocks of words

  type Words = seq<nat>

  ghost predicate BlockOk(block: Words) {
    |block| == WORDS && forall p :: 0 <= p < WORDS ==> block[p] < U64
  }

  ghost predicate BlocksOk(blocks: seq<Words>) {
    forall b :: 0 <= b < |blocks| ==> BlockOk(blocks[b])
  }

  /** `decomposition`: block, word in the block, bit in the word. */
  function Decomposition(bit: nat): (r: (nat, nat, nat))
    ensures r.1 < WORDS && r.2 < WORD_BITS && bit == r.0 * BLOCK_BITS + r.1 * WORD_BITS + r.2
  {
    (bit / BLOCK_BITS, bit % BLOCK_BITS / WORD_BITS, bit % WORD_BITS)
  }

  lemma DecompositionUnique(b: nat, p: nat, i: nat)
    requires p < WORDS && i < WORD_BITS
    ensures Decomposition(b * BLOCK_BITS + p * WORD_BITS + i) == (b, p, i)
  {
    DivideBlock(b, p * WORD_BITS + i);
    DivideWord(p, i);
    DivideWord(b * WORDS + p, i);
  }

  lemma DivideBlock(q: nat, r: nat)
    requires r < BLOCK_BITS
    ensures (q * BLOCK_BITS + r) / BLOCK_BITS == q && (q * BLOCK_BITS + r) % BLOCK_BITS == r
  {
  }

  lemma DivideWord(q: nat, r: nat)
    requires r < WORD_BITS
    ensures (q * WORD_BITS + r) / WORD_BITS == q && (q * WORD_BITS + r) % WORD_BITS == r
  {
  }

  ghost predicate IsSet(blocks: seq<Words>, bit: nat)
    requires BlocksOk(blocks) && bit < |blocks| * BLOCK_BITS
  {
    var (b, p, i) := Decomposition(bit);
    BitOf(blocks[b][p], i)
  }

  /** The numbers whose bits are set. */
  ghost function Taken(blocks: seq<Words>): set<nat>
    requires BlocksOk(blocks)
  {
    set bit: nat | bit < |blocks| * BLOCK_BITS && IsSet(blocks, bit)
  }

  /** Number n stands for bit n mod 64 of word n / 64, 64 words to a block. */
  lemma PlaceOfBit(blocks: seq<Words>, n: nat)
    requires BlocksOk(blocks) && n < |blocks| * 4096
    ensures n / 4096 < |blocks| && |blocks[n / 4096]| == 64 && n / 64 % 64 < 64
    ensures n in Taken(blocks) <==> blocks[n / 4096][n / 64 % 64] / Pow(n % 64) % 2 == 1
  {
    hide Pow, BitOf;
    assert Decomposition(n).1 == n / 64 % 64;
    BitIsDigit(blocks[n / 4096][n / 64 % 64], n % 64);
  }

  /** The blocks after one word has changed. */
  ghost function WithWord(blocks: seq<Words>, b: nat, p: nat, w: nat): (r: seq<Words>)
    requires BlocksOk(blocks) && b < |blocks| && p < WORDS && w < U64
    ensures BlocksOk(r)
  {
    var block: Words := blocks[b][p := w];
    blocks[b := block]
  }

  lemma SetBitAt(blocks: seq<Words>, bit: nat, n: nat)
    requires BlocksOk(blocks) && bit < |blocks| * BLOCK_BITS && !IsSet(blocks, bit) && n < |blocks| * BLOCK_BITS
    ensures var (b, p, i) := Decomposition(bit);
            b < |blocks| && blocks[b][p] + Pow(i) < U64
            && IsSet(WithWord(blocks, b, p, blocks[b][p] + Pow(i)), n) == (IsSet(blocks, n) || n == bit)
  {
    hide Pow, BitOf;
    var (b, p, i) := Decomposition(bit);
    WordBound();
    AddedBelow(blocks[b][p], i, WORD_BITS);
    AddedBit(blocks[b][p], i, Decomposition(n).2);
  }

  lemma SetOne(blocks: seq<Words>, bit: nat)
    requires BlocksOk(blocks) && bit < |blocks| * BLOCK_BITS && !IsSet(blocks, bit)
    ensures var (b, p, i) := Decomposition(bit);
            b < |blocks| && |blocks[b]| == WORDS && blocks[b][p] + Pow(i) < U64
            && Taken(WithWord(blocks, b, p, blocks[b][p] + Pow(i))) == Taken(blocks) + {bit}
  {
    hide IsSet, Decomposition, Pow;
    SetBitAt(blocks, bit, bit);
    forall n: nat | n < |blocks| * BLOCK_BITS
      ensures var (b, p, i) := Decomposition(bit);
              b < |blocks| && blocks[b][p] + Pow(i) < U64
              && IsSet(WithWord(blocks, b, p, blocks[b][p] + Pow(i)), n) == (IsSet(blocks, n) || n == bit)
    {
      SetBitAt(blocks, bit, n);
    }
  }

  lemma ClearedOne(blocks: seq<Words>, bit: nat)
    requires BlocksOk(blocks) && bit < |blocks| * BLOCK_BITS && IsSet(blocks, bit)
    ensures var (b, p, i) := Decomposition(bit);
            blocks[b][p] >= Pow(i) && Taken(WithWord(blocks, b, p, blocks[b][p] - Pow(i))) == Taken(blocks) - {bit}
  {
    var (b, p, i) := Decomposition(bit);
    RemovedBit(blocks[b][p], i, i);
    var blocks' := WithWord(blocks, b, p, blocks[b][p] - Pow(i));
    forall n: nat | n < |blocks| * BLOCK_BITS ensures IsSet(blocks', n) == (IsSet(blocks, n) && n != bit) {
      RemovedBit(blocks[b][p], i, Decomposition(n).2);
    }
  }

  /** Every bit of the first `b` blocks and of the first `p` words of block `b` is set. */
  ghost predicate FullTo(blocks: seq<Words>, b: nat, p: nat)
    requires BlocksOk(blocks) && b <= |blocks| && p <= WORDS
  {
    && (forall c, q :: 0 <= c < b && 0 <= q < WORDS ==> blocks[c][q] == U64 - 1)
    && (b < |blocks| ==> forall q :: 0 <= q < p ==> blocks[b][q] == U64 - 1)
  }

  lemma FullBits(blocks: seq<Words>, b: nat, p: nat)
    requires BlocksOk(blocks) && b <= |blocks| && p <= WORDS && FullTo(blocks, b, p)
    ensures forall n: nat :: n < b * BLOCK_BITS + p * WORD_BITS && n < |blocks| * BLOCK_BITS ==> n in Taken(blocks)
  {
    forall n: nat | n < b * BLOCK_BITS + p * WORD_BITS && n < |blocks| * BLOCK_BITS ensures n in Taken(blocks) {
      var (c, q, i) := Decomposition(n);
      WordBound();
      AllOnes(WORD_BITS, i);
    }
  }

  lemma NothingFull(blocks: seq<Words>)
    requires BlocksOk(blocks)
    ensures FullTo(blocks, 0, 0)
  {
  }

  lemma FullNext(blocks: seq<Words>, b: nat, p: nat)
    requires BlocksOk(blocks) && b < |blocks| && p <= WORDS && FullTo(blocks, b, p)
    ensures |blocks[b]| == WORDS && (p == WORDS ==> FullTo(blocks, b + 1, 0))
  {
  }

  /** The least number whose bit is clear, if there is one. */
  ghost predicate FirstFit(blocks: seq<Words>, r: Option<nat>)
    requires BlocksOk(blocks)
  {
    match r
    case Some(n) => n < |blocks| * BLOCK_BITS && n !in Taken(blocks) && forall m: nat :: m < n ==> m in Taken(blocks)
    case None => forall m: nat :: m < |blocks| * BLOCK_BITS ==> m in Taken(blocks)
  }

  lemma FoundFirst(blocks: seq<Words>, b: nat, p: nat)
    requires BlocksOk(blocks) && b < |blocks| && p < WORDS && FullTo(blocks, b, p) && blocks[b][p] != U64 - 1
    ensures var i := TrailingOnes(blocks[b][p]);
            i < WORD_BITS && FirstFit(blocks, Some(b * BLOCK_BITS + p * WORD_BITS + i))
            && Decomposition(b * BLOCK_BITS + p * WORD_BITS + i) == (b, p, i)
  {
    var w := blocks[b][p];
    var i := TrailingOnes(w);
    WordBound();
    OnesInside(w, WORD_BITS);
    DecompositionUnique(b, p, i);
    FullBits(blocks, b, p);
    forall m: nat | m < b * BLOCK_BITS + p * WORD_BITS + i ensures m in Taken(blocks) {
      if m >= b * BLOCK_BITS + p * WORD_BITS {
        DecompositionUnique(b, p, m - b * BLOCK_BITS - p * WORD_BITS);
      }
    }
  }

  lemma AllFull(blocks: seq<Words>)
    requires BlocksOk(blocks) && FullTo(blocks, |blocks|, 0)
    ensures FirstFit(blocks, None)
  {
    hide FullTo, Taken;
    FullBits(blocks, |blocks|, 0);
  }

  lemma TakenFirst(blocks: seq<Words>, b: nat, p: nat)
    requires BlocksOk(blocks) && b < |blocks| && p < WORDS && FullTo(blocks, b, p) && blocks[b][p] != U64 - 1
    ensures |blocks[b]| == WORDS && blocks[b][p] < U64
    ensures var i := TrailingOnes(blocks[b][p]);
            var bit := b * BLOCK_BITS + p * WORD_BITS + i;
            var block: Words := blocks[b][p := blocks[b][p] + Pow(i)];
            && FirstFit(blocks, Some(bit)) && BlocksOk(blocks[b := block])
            && Taken(blocks[b := block]) == Taken(blocks) + {bit}
  {
    hide Pow, BitOf, Decomposition, FullTo, TrailingOnes;
    FoundFirst(blocks, b, p);
    var i := TrailingOnes(blocks[b][p]);
    SetOne(blocks, b * BLOCK_BITS + p * WORD_BITS + i);
  }

  function UpTo(n: nat): (r: set<nat>)
    ensures |r| == n && forall m: nat :: m in r <==> m < n
  {
    if n == 0 then {} else UpTo(n - 1) + {n - 1}
  }

  /** When only numbers below `n` are taken, first fit stays below `n` exactly while fewer than `n` are taken. */
  lemma FirstFitStaysBelow(blocks: seq<Words>, n: nat, r: Option<nat>)
    requires BlocksOk(blocks) && n <= |blocks| * BLOCK_BITS && FirstFit(blocks, r)
    requires forall m :: m in Taken(blocks) ==> m < n
    ensures r.Some? && r.value < n <==> |Taken(blocks)| < n
  {
    hide Taken;
    if |Taken(blocks)| < n {
      if r.None? || r.value >= n {
        SubsetSize(UpTo(n), Taken(blocks));
      }
    } else {
      assert Taken(blocks) <= UpTo(n);
      SubsetFull(Taken(blocks), UpTo(n));
    }
  }

  lemma SubsetFull(a: set<nat>, b: set<nat>)
    requires a <= b && |a| >= |b|
    ensures a == b
  {
    if x :| x in b && x !in a {
      SubsetSize(a, b - {x});
    }
  }

  lemma {:induction false} SubsetSize(a: set<nat>, b: set<nat>)
    requires a <= b
    ensures |a| <= |b|
    decreases |a|
  {
    if a != {} {
      var x :| x in a;
      SubsetSize(a - {x}, b - {x});
    }
  }

  /** `Bitmap`: the blocks are those of the disk from `start_block_id` on. */
  class Bitmap {
    var blocks: seq<Words>

    ghost predicate Valid()
      reads this
    {
      BlocksOk(blocks)
    }

    ghost function Set(): set<nat>
      requires Valid()
      reads this
    {
      Taken(blocks)
    }

    constructor (count: nat)
      ensures Valid() && |blocks| == count && Set() == {}
    {
      blocks := seq(count, b => seq(WORDS, p => 0));
      new;
      forall n: nat | n < |blocks| * BLOCK_BITS ensures !IsSet(blocks, n) {
        NoBits(Decomposition(n).2);
      }
    }

    /** The first word of a block that is not all ones. */
    method FindWord(b: nat) returns (p: nat)
      requires Valid() && b < |blocks| && FullTo(blocks, b, 0)
      ensures p <= WORDS && FullTo(blocks, b, p) && (p < WORDS ==> blocks[b][p] != U64 - 1)
    {
      p := 0;
      while p < WORDS && blocks[b][p] == U64 - 1
        invariant p <= WORDS && FullTo(blocks, b, p)
      {
        p := p + 1;
      }
    }

    /** `alloc` takes the least number whose bit is clear and sets that bit only. */
    method Alloc() returns (bit: Option<nat>)
      requires Valid()
      modifies this
      ensures Valid() && |blocks| == old(|blocks|) && FirstFit(old(blocks), bit)
      ensures Set() == if bit.Some? then old(Set()) + {bit.value} else old(Set())
    {
      hide Pow, BitOf, IsSet, Taken, FirstFit, Decomposition, FullTo, BlocksOk, TrailingOnes;
      NothingFull(blocks);
      for b := 0 to |blocks|
        invariant BlocksOk(blocks) && blocks == old(blocks) && FullTo(blocks, b, 0)
      {
        var p := FindWord(b);
        FullNext(blocks, b, p);
        if p < WORDS {
          TakenFirst(blocks, b, p);
          var i := TrailingOnes(blocks[b][p]);
          var block: Words := blocks[b][p := blocks[b][p] + Pow(i)];
          blocks := blocks[b := block];
          return Some(b * BLOCK_BITS + p * WORD_BITS + i);
        }
      }
      AllFull(blocks);
      return None;
    }

    /** `dealloc` of a number whose bit is set, which the source asserts, clears that bit only. */
    method Dealloc(bit: nat)
      requires Valid() && bit in Set()
      modifies this
      ensures Valid() && |blocks| == old(|blocks|) && Set() == old(Set()) - {bit}
    {
      var (b, p, i) := Decomposition(bit);
      ClearedOne(blocks, bit);
      var block: Words := blocks[b][p := blocks[b][p] - Pow(i)];
      blocks := blocks[b := block];
    }
  }

  lemma {:induction false} NoBits(i: nat)
    ensures !BitOf(0, i)
  {
    if i > 0 {
      NoBits(i - 1);
    }
  }
}
