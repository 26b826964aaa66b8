/** Where an ext4 inode is kept: `get_inode_pos` of ext4-fs/src/ext4.rs. */
module Ext4InodeTable {
  import opened Common

  const BLOCK_SZ: nat := 4096

  /** What the super block and the group descriptors say; `tables` are the first blocks of the inode tables. */
  datatype Layout = Layout(perGroup: nat, inodeSize: nat, tables: seq<nat>) {
    ghost predicate Valid() {
      0 < perGroup && 0 < inodeSize <= BLOCK_SZ
    }

    function PerBlock(): (n: nat)
      requires Valid()
      ensures n > 0
    {
      AtLeastOne(inodeSize);
      BLOCK_SZ / inodeSize
    }

    /** Blocks of one group's table. */
    function TableBlocks(): (n: nat)
      requires Valid()
      ensures forall k: nat :: k >= n <==> k * PerBlock() >= perGroup
    {
      RoundedUp(perGroup, PerBlock());
      (perGroup - 1) / PerBlock() + 1
    }

    ghost predicate TablesApart()
      requires Valid()
    {
      forall g, h :: 0 <= g < |tables| && 0 <= h < |tables| && g != h ==>
        tables[g] + TableBlocks() <= tables[h] || tables[h] + TableBlocks() <= tables[g]
    }

    function GroupOf(num: nat): nat
      requires Valid() && num > 0
    {
      (num - 1) / perGroup
    }

    /** `get_inode_pos`: block and offset. */
    function InodePos(num: nat): (nat, nat)
      requires Valid() && num > 0 && GroupOf(num) < |tables|
    {
      var local := (num - 1) % perGroup;
      (tables[GroupOf(num)] + local / PerBlock(), local % PerBlock() * inodeSize)
    }
  }

  lemma AtLeastOne(size: nat)
    requires 0 < size <= BLOCK_SZ
    ensures BLOCK_SZ / size > 0 && BLOCK_SZ / size * size <= BLOCK_SZ
  {
    assert BLOCK_SZ == BLOCK_SZ / size * size + BLOCK_SZ % size;
  }

  lemma RoundedUp(n: nat, d: nat)
    requires n > 0 && d > 0
    ensures forall k: nat :: k >= (n - 1) / d + 1 <==> k * d >= n
  {
    var q := (n - 1) / d;
    assert n - 1 == q * d + (n - 1) % d;
    forall k: nat ensures k >= q + 1 <==> k * d >= n {
      if k > q {
        Ordered(q, k, d);
      } else if k < q {
        Ordered(k, q, d);
      }
    }
  }

  lemma OneMore(a: nat, size: nat)
    ensures (a + 1) * size == a * size + size
  {
  }

  lemma {:induction false} Ordered(a: nat, b: nat, size: nat)
    requires a < b
    ensures a * size + size <= b * size
    decreases b
  {
    OneMore(b - 1, size);
    if a < b - 1 {
      Ordered(a, b - 1, size);
    }
  }

  lemma QuotientsOrdered(a: nat, b: nat, d: nat)
    requires a <= b && d > 0
    ensures a / d <= b / d
  {
    assert b == b / d * d + b % d && a == a / d * d + a % d;
    if a / d > b / d {
      Ordered(b / d, a / d, d);
    }
  }

  lemma SameQuotient(a: nat, b: nat, d: nat)
    requires d > 0 && a / d == b / d && a % d == b % d
    ensures a == b
  {
    assert b == d * (b / d) + b % d && a == d * (a / d) + a % d;
  }

  lemma RecordsApart(x: nat, y: nat, perBlock: nat, size: nat)
    requires perBlock > 0 && x != y && x / perBlock == y / perBlock
    ensures x % perBlock * size + size <= y % perBlock * size || y % perBlock * size + size <= x % perBlock * size
  {
    if x % perBlock < y % perBlock {
      Ordered(x % perBlock, y % perBlock, size);
    } else if y % perBlock < x % perBlock {
      Ordered(y % perBlock, x % perBlock, size);
    } else {
      SameQuotient(x, y, perBlock);
    }
  }

  /** An inode's record lies in one block of its group's table. */
  lemma InodeInside(l: Layout, num: nat)
    requires l.Valid() && num > 0 && l.GroupOf(num) < |l.tables|
    ensures var (b, at) := l.InodePos(num);
            && l.tables[l.GroupOf(num)] <= b < l.tables[l.GroupOf(num)] + l.TableBlocks()
            && at + l.inodeSize <= BLOCK_SZ
  {
    var local := (num - 1) % l.perGroup;
    QuotientsOrdered(local, l.perGroup - 1, l.PerBlock());
    Ordered(local % l.PerBlock(), l.PerBlock(), l.inodeSize);
    AtLeastOne(l.inodeSize);
  }

  /** Numbers start at 1: the table of group g holds the records of the next `perGroup` numbers one after the other, as
      long as the size of a record divides that of a block. */
  lemma InodeAddress(l: Layout, g: nat, local: nat)
    requires l.Valid() && g < |l.tables| && local < l.perGroup && BLOCK_SZ % l.inodeSize == 0
    ensures l.GroupOf(1 + g * l.perGroup + local) == g
    ensures var (b, at) := l.InodePos(1 + g * l.perGroup + local);
            b >= l.tables[g] && 4096 * (b - l.tables[g]) + at == local * l.inodeSize
  {
    Unique(g * l.perGroup + local, l.perGroup, g, local);
    var q, r := local / l.PerBlock(), local % l.PerBlock();
    Address(l.PerBlock(), q, r, l.inodeSize, local);
  }

  lemma Unique(n: nat, per: nat, g: nat, local: nat)
    requires per > 0 && local < per && n == g * per + local
    ensures n / per == g && n % per == local
  {
    if n / per < g {
      Ordered(n / per, g, per);
    } else if n / per > g {
      Ordered(g, n / per, per);
    }
    assert n == n / per * per + n % per;
  }

  lemma Address(per: nat, q: nat, r: nat, size: nat, local: nat)
    requires per * size == 4096 && local == per * q + r
    ensures 4096 * q + r * size == local * size
  {
    assert (per * q + r) * size == per * q * size + r * size;
    assert per * q * size == per * size * q;
  }

  /** Records of different inodes do not overlap, so that `write_inode` changes one inode only. */
  lemma InodesApart(l: Layout, i: nat, k: nat)
    requires l.Valid() && l.TablesApart() && 0 < i && 0 < k && i != k
    requires l.GroupOf(i) < |l.tables| && l.GroupOf(k) < |l.tables|
    ensures var ((b, at), (c, at')) := (l.InodePos(i), l.InodePos(k));
            b != c || at + l.inodeSize <= at' || at' + l.inodeSize <= at
  {
    InodeInside(l, i);
    InodeInside(l, k);
    if l.GroupOf(i) == l.GroupOf(k) && l.InodePos(i).0 == l.InodePos(k).0 {
      OtherPlace(i - 1, k - 1, l.perGroup);
      RecordsApart((i - 1) % l.perGroup, (k - 1) % l.perGroup, l.PerBlock(), l.inodeSize);
    }
  }

  lemma OtherPlace(a: nat, b: nat, d: nat)
    requires d > 0 && a != b && a / d == b / d
    ensures a % d != b % d
  {
    if a % d == b % d {
      SameQuotient(a, b, d);
    }
  }
}
