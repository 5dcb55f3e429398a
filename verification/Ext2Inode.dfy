/** fs/ext2/inode.c and fs/ext2/super.c: where an inode is on the disk, computed once by sectors for
    reading and once by blocks for writing. */
module Ext2Inode {
  import opened Division
  import opened Ext2Disk

  const INODE_SZ := 128

  /** blk_sz, inodes_per_grp and the first block of each group's inode table. */
  datatype Layout = Layout(bs: int, perGroup: int, tables: seq<int>)

  predicate Sensible(l: Layout) {
    && BlockSize(l.bs) && l.perGroup > 0
    && (forall g :: 0 <= g < |l.tables| ==> l.tables[g] >= 0)
    && (forall g, h :: 0 <= g < h < |l.tables| ==> l.tables[g] < l.tables[h])
  }

  function BgIdx(l: Layout, num: int): int
    requires l.perGroup > 0
  {
    (num - 1) % l.perGroup
  }

  function Bg(l: Layout, num: int): int
    requires l.perGroup > 0
  {
    (num - 1) / l.perGroup
  }

  /** Where inode num belongs. */
  function Place(l: Layout, num: int): int
    requires l.perGroup > 0 && 0 <= Bg(l, num) < |l.tables|
  {
    l.tables[Bg(l, num)] * l.bs + BgIdx(l, num) * INODE_SZ
  }

  /** ext2_inode_lba, in 32-bit arithmetic. */
  function InodeLba(l: Layout, num: int): int
    requires l.perGroup > 0 && 0 <= Bg(l, num) < |l.tables|
  {
    Place(l, num) % UINT32 / SECTOR
  }

  /** The byte ext2_read_inode reads from. */
  function ReadPos(l: Layout, num: int): int
    requires l.perGroup > 0 && 0 <= Bg(l, num) < |l.tables|
  {
    InodeLba(l, num) * SECTOR + BgIdx(l, num) * INODE_SZ % SECTOR
  }

  function WriteGroup(l: Layout, num: int): int
    requires l.perGroup > 0
  {
    num / l.perGroup
  }

  /** The block of the table, and the byte inside it, that ext2_write_inode computes in 32 bits. */
  function WriteOffset(l: Layout, num: int): int
    requires l.bs > 0
  {
    (num - 1) * INODE_SZ % UINT32 / l.bs
  }

  function WriteByte(l: Layout, num: int): int
    requires l.bs >= INODE_SZ
  {
    ((num - 1) - WriteOffset(l, num) * (l.bs / INODE_SZ)) * INODE_SZ % UINT32
  }

  /** The byte ext2_write_inode writes to. */
  function WritePos(l: Layout, num: int): int
    requires l.perGroup > 0 && l.bs >= INODE_SZ && 0 <= WriteGroup(l, num) < |l.tables|
  {
    (l.tables[WriteGroup(l, num)] + WriteOffset(l, num)) * l.bs + WriteByte(l, num)
  }

  /** The inode is in one of the groups. */
  predicate Known(l: Layout, num: int) {
    l.perGroup > 0 && num >= 1 && Bg(l, num) < |l.tables|
  }

  /** ext2_write_inode finds a group descriptor and writes where the inode belongs. */
  predicate WriteHits(l: Layout, num: int)
    requires l.bs >= INODE_SZ && l.perGroup > 0 && 0 <= Bg(l, num) < |l.tables|
  {
    0 <= WriteGroup(l, num) < |l.tables| && WritePos(l, num) == Place(l, num)
  }

  /** No inode table runs into the next. */
  predicate Spread(l: Layout) {
    forall g, h :: 0 <= g < h < |l.tables| ==> l.tables[g] * l.bs + l.perGroup * INODE_SZ <= l.tables[h] * l.bs
  }

  // ---------------------------------------------------------------- the two positions

  /** Inodes count from one; inode i of group g is the i-th of 128 bytes each in that group's table. */
  lemma GroupPlace(l: Layout, g: int, i: int)
    requires l.perGroup > 0 && 0 <= g < |l.tables| && 0 <= i < l.perGroup
    ensures var num := g * l.perGroup + i + 1;
      Known(l, num) && Bg(l, num) == g && Place(l, num) == l.tables[g] * l.bs + i * 128
  {
    Locate(l.perGroup, g, i);
  }

  lemma BlockSectors(bs: int, t: int)
    requires BlockSize(bs)
    ensures t * bs % SECTOR == 0
  {
    var m := bs / 1024;
    assert bs == m * 1024;
    assert t * bs == t * m * 2 * SECTOR by { assert t * (m * 1024) == t * m * 1024; }
  }

  /** The read goes to the right byte exactly when that byte lies below 4 GiB; otherwise it is off by
      a multiple of 4 GiB. */
  lemma ReadWraps(l: Layout, num: int)
    requires Sensible(l) && num >= 1 && 0 <= Bg(l, num) < |l.tables|
    ensures ReadPos(l, num) == Place(l, num) % UINT32
    ensures ReadPos(l, num) == Place(l, num) <==> Place(l, num) < UINT32
  {
    var t, y := l.tables[Bg(l, num)] * l.bs, BgIdx(l, num) * INODE_SZ;
    BlockSectors(l.bs, l.tables[Bg(l, num)]);
    NonNegative(l.tables[Bg(l, num)], l.bs);
    SectorSplit(t, y);
    Truncated(t + y);
  }

  lemma Truncated(x: int)
    requires x >= 0
    ensures x % UINT32 == x <==> x < UINT32
  {
  }

  lemma ModSectors(x: int)
    requires x >= 0
    ensures x % UINT32 % SECTOR == x % SECTOR
  {
    var q, r := x / UINT32, x % UINT32;
    Multiples(q * 8388608, SECTOR, r);
  }

  lemma AddSectors(t: int, y: int)
    requires t % SECTOR == 0
    ensures (t + y) % SECTOR == y % SECTOR
  {
    assert t == t / SECTOR * SECTOR;
  }

  lemma SectorSplit(t: int, y: int)
    requires t >= 0 && y >= 0 && t % SECTOR == 0
    ensures (t + y) % UINT32 / SECTOR * SECTOR + y % SECTOR == (t + y) % UINT32
  {
    ModSectors(t + y);
    AddSectors(t, y);
  }

  lemma WriteByteBounds(l: Layout, num: int)
    requires BlockSize(l.bs) && num >= 1
    ensures 0 <= WriteByte(l, num) && WriteByte(l, num) + INODE_SZ <= l.bs && WriteOffset(l, num) >= 0
    ensures WriteOffset(l, num) * l.bs + WriteByte(l, num) == (num - 1) * INODE_SZ % UINT32
  {
    var x := (num - 1) * INODE_SZ;
    var p := x % UINT32;
    BlockInodes(l.bs);
    Quotient(p, l.bs);
    Nonneg(p, l.bs);
    NonNegative(p / l.bs, l.bs);
    SlotInBlock(num - 1, l.bs, l.bs / INODE_SZ, x / UINT32, p / l.bs, p % l.bs);
  }

  lemma BlockInodes(bs: int)
    requires BlockSize(bs)
    ensures bs == bs / INODE_SZ * INODE_SZ
  {
  }

  /** When a block holds k inodes, the truncated product names a byte of block o that starts an inode. */
  lemma SlotInBlock(y: int, bs: int, k: int, q: int, o: int, r: int)
    requires bs == k * INODE_SZ && y >= 0 && y * INODE_SZ == q * UINT32 + (o * bs + r) && 0 <= r < bs && r < UINT32
    ensures (y - o * k) * INODE_SZ % UINT32 == r && r + INODE_SZ <= bs
  {
    assert o * bs == o * k * INODE_SZ;
    assert (y - o * k) * INODE_SZ == q * UINT32 + r;
    var z := y - o * k - q * 0x200_0000;
    assert z * INODE_SZ == r;
  }

  lemma Nonneg(x: int, n: int)
    requires x >= 0 && n > 0
    ensures x / n >= 0
  {
  }

  lemma WritePlain(l: Layout, num: int)
    requires Sensible(l) && Known(l, num) && WriteGroup(l, num) < |l.tables|
    ensures 0 <= WriteGroup(l, num)
    ensures WritePos(l, num) == l.tables[WriteGroup(l, num)] * l.bs + (num - 1) * INODE_SZ % UINT32
  {
    Nonneg(num, l.perGroup);
    WriteByteBounds(l, num);
    var t, o := l.tables[WriteGroup(l, num)], WriteOffset(l, num);
    assert (t + o) * l.bs == t * l.bs + o * l.bs;
  }

  /** The group ext2_write_inode takes is the next one exactly for the last inode of a group. */
  lemma GroupOff(num: int, q: int)
    requires q > 0 && num >= 1
    ensures num / q == (num - 1) / q + if num % q == 0 then 1 else 0
    ensures num % q == 0 ==> (num - 1) % q == q - 1
  {
    var g, i := (num - 1) / q, (num - 1) % q;
    Nonneg(num - 1, q);
    assert num - 1 == g * q + i;
    if i == q - 1 {
      assert num == (g + 1) * q + 0;
      Locate(q, g + 1, 0);
    } else {
      Locate(q, g, i + 1);
    }
  }

  lemma SameRest(a: int, b: int)
    requires a >= 0 && b >= 0
    ensures (a + b) % UINT32 == b <==> a % UINT32 == 0 && b < UINT32
  {
  }

  /** Where the write goes, by the group of the inode and its place there. */
  lemma WriteCases(l: Layout, num: int)
    requires Sensible(l) && Known(l, num)
    ensures Bg(l, num) >= 0
    ensures num % l.perGroup != 0 ==>
      (WriteHits(l, num) <==> Bg(l, num) * l.perGroup * INODE_SZ % UINT32 == 0 && BgIdx(l, num) * INODE_SZ < UINT32)
    ensures num % l.perGroup == 0 && Spread(l) ==> !WriteHits(l, num)
  {
    var q, g, i := l.perGroup, Bg(l, num), BgIdx(l, num);
    Nonneg(num - 1, q);
    GroupOff(num, q);
    NonNegative(g, q);
    assert (num - 1) * INODE_SZ == g * q * INODE_SZ + i * INODE_SZ;
    if WriteGroup(l, num) < |l.tables| {
      WritePlain(l, num);
      SameRest(g * q * INODE_SZ, i * INODE_SZ);
    }
  }

  /** The write goes where the inode belongs exactly for the inodes that are not the last of their
      group and whose group starts a multiple of 4 GiB into the tables put end to end; below 4 GiB
      these are the inodes of the first group but its last. */
  lemma WriteMisplaces(l: Layout, num: int)
    requires Sensible(l) && Known(l, num)
    ensures Bg(l, num) >= 0
    ensures Spread(l) ==>
      (WriteHits(l, num) <==> num % l.perGroup != 0 && Bg(l, num) * l.perGroup * INODE_SZ % UINT32 == 0
                              && BgIdx(l, num) * INODE_SZ < UINT32)
    ensures (num - 1) * INODE_SZ < UINT32 ==> (WriteHits(l, num) <==> num < l.perGroup)
  {
    WriteCases(l, num);
    if (num - 1) * INODE_SZ < UINT32 {
      BelowWrap(l, num);
    }
  }

  lemma BelowWrap(l: Layout, num: int)
    requires Sensible(l) && Known(l, num) && (num - 1) * INODE_SZ < UINT32
    ensures Bg(l, num) >= 0 && (WriteHits(l, num) <==> num < l.perGroup)
  {
    WriteCases(l, num);
    SmallQuotients(num, l.perGroup);
    if num < l.perGroup {
      assert num % l.perGroup == num;
    } else if num % l.perGroup == 0 {
      NextTable(l, num);
    } else {
      LaterGroup(num, l.perGroup);
    }
  }

  lemma LaterGroup(num: int, q: int)
    requires q > 0 && num >= q && num % q != 0 && (num - 1) * INODE_SZ < UINT32
    ensures (num - 1) / q * q * INODE_SZ % UINT32 != 0
  {
    var g := (num - 1) / q;
    GroupOff(num, q);
    SmallQuotients(num, q);
    Quotient(num - 1, q);
    BlocksApart(q, 0, g);
    Small(g * q * INODE_SZ);
  }

  lemma Small(x: int)
    requires 0 < x < UINT32
    ensures x % UINT32 != 0
  {
  }

  lemma NextTable(l: Layout, num: int)
    requires Sensible(l) && Known(l, num) && num % l.perGroup == 0 && (num - 1) * INODE_SZ < UINT32
    ensures Bg(l, num) >= 0 && !WriteHits(l, num)
  {
    var g := Bg(l, num);
    GroupOff(num, l.perGroup);
    IndexBelow(num - 1, l.perGroup);
    if g + 1 < |l.tables| {
      WritePlain(l, num);
      Truncated((num - 1) * INODE_SZ);
      TablesApart(l, g, g + 1);
      Further(l.tables[g] * l.bs, l.tables[g + 1] * l.bs, BgIdx(l, num), num - 1);
    }
  }

  lemma IndexBelow(x: int, q: int)
    requires x >= 0 && q > 0
    ensures x / q >= 0 && x % q <= x
  {
    Nonneg(x, q);
    Quotient(x, q);
    NonNegative(x / q, q);
  }

  lemma Further(a: int, b: int, i: int, j: int)
    requires a < b && i <= j
    ensures a + i * INODE_SZ != b + j * INODE_SZ
  {
  }

  lemma SmallQuotients(num: int, q: int)
    requires q > 0 && num >= 1
    ensures num < q ==> (num - 1) / q == 0 && num / q == 0
    ensures num / q == 0 ==> num < q
  {
    assert num == num / q * q + num % q;
  }

  /** Later groups have their tables in later blocks. */
  lemma TablesApart(l: Layout, g: int, h: int)
    requires Sensible(l) && 0 <= g <= h < |l.tables|
    ensures g < h ==> l.tables[g] * l.bs + l.bs <= l.tables[h] * l.bs
  {
    if g < h {
      BlocksApart(l.bs, l.tables[g], l.tables[h]);
    }
  }

  // ---------------------------------------------------------------- reading and writing

  /** An inode does not cross a sector. */
  lemma InSector(i: int)
    requires i >= 0
    ensures 0 <= i * INODE_SZ % SECTOR <= SECTOR - INODE_SZ
  {
    var q, r := i / 4, i % 4;
    assert i * INODE_SZ == q * SECTOR + r * INODE_SZ;
  }

  lemma SubSlice(d: Disk, a: int, b: int, s: int, n: int)
    requires 0 <= a && 0 <= s && 0 <= n && a + s + n <= b <= |d|
    ensures d[a..b][s..s + n] == d[a + s..a + s + n]
  {
    var x, y := d[a..b][s..s + n], d[a + s..a + s + n];
    assert forall i :: 0 <= i < n ==> x[i] == d[a..b][s + i] && y[i] == d[a + s + i];
  }

  class InodeStore {
    var disk: Disk
    const l: Layout

    /** ext2_read_inode: one sector is read, 128 bytes are copied out of it. */
    method ReadInode(num: int) returns (inode: seq<Byte>)
      requires Sensible(l) && Known(l, num) && InodeLba(l, num) * SECTOR + SECTOR <= |disk|
      ensures ReadPos(l, num) >= 0 && ReadPos(l, num) + INODE_SZ <= |disk|
      ensures inode == disk[ReadPos(l, num)..ReadPos(l, num) + INODE_SZ]
    {
      Nonneg(num - 1, l.perGroup);
      ReadWraps(l, num);
      var buf := DevRead(disk, InodeLba(l, num), 1);
      var start := BgIdx(l, num) * INODE_SZ % SECTOR;
      InSector(BgIdx(l, num));
      inode := buf[start..start + INODE_SZ];
      SubSlice(disk, InodeLba(l, num) * SECTOR, (InodeLba(l, num) + 1) * SECTOR, start, INODE_SZ);
    }

    /** ext2_write_inode: the block is read, changed and written back. */
    method WriteInode(num: int, inode: seq<Byte>)
      requires Sensible(l) && Known(l, num) && |inode| == INODE_SZ
      requires 0 <= WriteGroup(l, num) < |l.tables|
      requires OnDisk(disk, l.bs, l.tables[WriteGroup(l, num)] + WriteOffset(l, num))
      modifies this
      ensures WritePos(l, num) >= 0 && WritePos(l, num) + INODE_SZ <= |old(disk)|
      ensures disk == old(disk)[..WritePos(l, num)] + inode + old(disk)[WritePos(l, num) + INODE_SZ..]
    {
      WriteByteBounds(l, num);
      var blk := l.tables[WriteGroup(l, num)] + WriteOffset(l, num);
      NonNegative(blk, l.bs);
      BlockBySectors(disk, l.bs, blk, Block(disk, l.bs, blk));
      var buf := DevRead(disk, BlkToLba(l.bs, blk), l.bs / SECTOR);
      var at := WriteByte(l, num);
      buf := buf[..at] + inode + buf[at + INODE_SZ..];
      BlockBySectors(disk, l.bs, blk, buf);
      Patched(disk, l.bs, blk, at, inode);
      disk := DevWrite(disk, BlkToLba(l.bs, blk), l.bs / SECTOR, buf);
    }
  }

  /** Changing bytes of a block in a copy and writing it back changes those bytes of the disk. */
  lemma Patched(d: Disk, bs: int, blk: int, at: int, inode: seq<Byte>)
    requires BlockSize(bs) && OnDisk(d, bs, blk) && 0 <= at && at + |inode| <= bs
    ensures 0 <= blk * bs + at && blk * bs + at + |inode| <= |d|
    ensures var b := Block(d, bs, blk);
      var p := blk * bs + at;
      WithBlock(d, bs, blk, b[..at] + inode + b[at + |inode|..]) == d[..p] + inode + d[p + |inode|..]
  {
    NonNegative(blk, bs);
  }

  /** For the inodes of the first group but its last, on a table below 4 GiB: a read after a write
      returns the inode written, and every other such inode is as it was. */
  lemma ReadAfterWrite(l: Layout, d: Disk, num: int, inode: seq<Byte>, other: int)
    requires Sensible(l) && Known(l, num) && Known(l, other) && |inode| == INODE_SZ
    requires num < l.perGroup && other < l.perGroup && l.tables[0] * l.bs + l.perGroup * INODE_SZ < UINT32
    requires l.tables[0] * l.bs + l.perGroup * INODE_SZ <= |d|
    ensures Bg(l, num) == 0 && Bg(l, other) == 0 && WriteGroup(l, num) == 0
    ensures var w, r := WritePos(l, num), ReadPos(l, other);
      && 0 <= w && w + INODE_SZ <= |d| && 0 <= r && r + INODE_SZ <= |d|
      && var e := d[..w] + inode + d[w + INODE_SZ..];
      && e[r..r + INODE_SZ] == if other == num then inode else d[r..r + INODE_SZ]
  {
    FirstGroup(l, num);
    FirstGroup(l, other);
    NonNegative(l.tables[0], l.bs);
    Slots(d, l.tables[0] * l.bs, num - 1, other - 1, inode);
  }

  lemma FirstGroup(l: Layout, num: int)
    requires Sensible(l) && Known(l, num) && num < l.perGroup && l.tables[0] * l.bs + l.perGroup * INODE_SZ < UINT32
    ensures Bg(l, num) == 0 && WriteGroup(l, num) == 0
    ensures WritePos(l, num) == l.tables[0] * l.bs + (num - 1) * INODE_SZ == ReadPos(l, num)
  {
    SmallQuotients(num, l.perGroup);
    Quotient(num - 1, l.perGroup);
    assert BgIdx(l, num) == num - 1;
    NonNegative(l.tables[0], l.bs);
    WriteMisplaces(l, num);
    ReadWraps(l, num);
  }

  /** Different slots of a table do not overlap. */
  lemma Slots(d: Disk, base: int, a: int, b: int, inode: seq<Byte>)
    requires base >= 0 && a >= 0 && b >= 0 && |inode| == INODE_SZ
    requires base + a * INODE_SZ + INODE_SZ <= |d| && base + b * INODE_SZ + INODE_SZ <= |d|
    ensures var w, r := base + a * INODE_SZ, base + b * INODE_SZ;
      (d[..w] + inode + d[w + INODE_SZ..])[r..r + INODE_SZ] == if b == a then inode else d[r..r + INODE_SZ]
  {
    var w, r := base + a * INODE_SZ, base + b * INODE_SZ;
    var e := d[..w] + inode + d[w + INODE_SZ..];
    if b == a {
      assert e[w..w + INODE_SZ] == inode;
    } else {
      assert forall k :: r <= k < r + INODE_SZ ==> e[k] == d[k];
      assert e[r..r + INODE_SZ] == d[r..r + INODE_SZ];
    }
  }
}
