/** fs/ext2/file.c and fs/ext2/inode.c: a file as one flat sequence of bytes, reached block by block
    through direct, single and double indirect pointers. */
module Ext2File {
  import opened Division
  import opened Ext2Disk

  const SIND := 12
  const DIND := 13

  /** An inode's block pointers, on a volume with blocks of bs bytes. */
  datatype File = File(bs: int, blocks: seq<int>)

  predicate Shaped(f: File) {
    BlockSize(f.bs) && |f.blocks| == 15
  }

  // ---------------------------------------------------------------- where a logical block is recorded

  datatype Slot =
    | Direct(i: int)            // entry of the inode
    | Single(i: int)            // entry of the single indirect block
    | Double(i: int, j: int)    // entry j of the block that entry i of the double indirect block names
    | TooHigh

  function SlotOf(bpp: int, idx: int): Slot
    requires bpp > 0
  {
    if idx < SIND then Direct(idx)
    else if idx < SIND + bpp then Single(idx - SIND)
    else if idx < SIND + bpp + bpp * bpp then Double((idx - SIND - bpp) / bpp, (idx - SIND - bpp) % bpp)
    else TooHigh
  }

  lemma DivBound(x: int, n: int)
    requires n > 0 && 0 <= x < n * n
    ensures 0 <= x / n < n && x == x / n * n + x % n
  {
    Grows(x / n, n);
  }

  lemma Grows(q: int, n: int)
    requires n > 0
    ensures q >= n ==> q * n >= n * n
  {
    if q >= n {
      NonNegative(q - n, n);
      assert q * n == (q - n) * n + n * n;
    }
  }

  /** Logical blocks below the limit have distinct slots, all inside their tables. */
  lemma SlotsDistinct(bpp: int, a: int, b: int)
    requires bpp > 0 && 0 <= a && 0 <= b && a < SIND + bpp + bpp * bpp && b < SIND + bpp + bpp * bpp
    ensures SlotOf(bpp, a) == SlotOf(bpp, b) <==> a == b
    ensures match SlotOf(bpp, a)
            case Direct(i) => 0 <= i < SIND
            case Single(i) => 0 <= i < bpp
            case Double(i, j) => 0 <= i < bpp && 0 <= j < bpp
            case TooHigh => false
  {
    if a >= SIND + bpp {
      DivBound(a - SIND - bpp, bpp);
    }
    if b >= SIND + bpp {
      DivBound(b - SIND - bpp, bpp);
    }
  }

  /** Entry k of a block of little-endian 32-bit pointers. */
  function Pointer(block: seq<Byte>, k: int): int
    requires 0 <= k && 4 * k + 4 <= |block|
  {
    var b0: int, b1: int, b2: int, b3: int := block[4 * k], block[4 * k + 1], block[4 * k + 2], block[4 * k + 3];
    b0 + 0x100 * b1 + 0x1_0000 * b2 + 0x100_0000 * b3
  }

  /** Entry k of pointer block b; -1 when b is not on the disk. */
  function Entry(d: Disk, bs: int, b: int, k: int): int
    requires BlockSize(bs)
  {
    if OnDisk(d, bs, b) && 0 <= k < bs / 4 then Pointer(Block(d, bs, b), k) else -1
  }

  /** The disk block recorded for logical block idx; 0 above the limit. */
  function BlkOf(d: Disk, f: File, idx: int): int
    requires Shaped(f)
  {
    match SlotOf(f.bs / 4, idx)
    case Direct(i) => if 0 <= i then f.blocks[i] else -1
    case Single(i) => Entry(d, f.bs, f.blocks[SIND], i)
    case Double(i, j) => Entry(d, f.bs, Entry(d, f.bs, f.blocks[DIND], i), j)
    case TooHigh => 0
  }

  // ---------------------------------------------------------------- the same on the bytes of the disk

  lemma EntryNamed(d: Disk, bs: int, b: int, k: int)
    requires BlockSize(bs) && OnDisk(d, bs, b) && 0 <= k < bs / 4
    ensures Names(d, b * bs + 4 * k, Entry(d, bs, b, k))
  {
    NonNegative(b, bs);
    var p, buf := b * bs + 4 * k, Block(d, bs, b);
    assert buf[4 * k] == d[p] && buf[4 * k + 1] == d[p + 1] && buf[4 * k + 2] == d[p + 2] && buf[4 * k + 3] == d[p + 3];
    BytesOf(d[p], d[p + 1], d[p + 2], d[p + 3]);
  }

  lemma BytesOf(b0: Byte, b1: Byte, b2: Byte, b3: Byte)
    ensures var b := b0 + 0x100 * b1 + 0x1_0000 * b2 + 0x100_0000 * b3;
      && 0 <= b < UINT32 && b0 == b % 0x100 && b1 == b / 0x100 % 0x100
      && b2 == b / 0x1_0000 % 0x100 && b3 == b / 0x100_0000
  {
    Locate(0x100, b1 + 0x100 * b2 + 0x1_0000 * b3, b0);
    Locate(0x100, b2 + 0x100 * b3, b1);
    Locate(0x1_0000, b2 + 0x100 * b3, b0 + 0x100 * b1);
    Locate(0x100, b3, b2);
    Locate(0x100_0000, b3, b0 + 0x100 * b1 + 0x1_0000 * b2);
  }

  /** Logical block a < 12 is the one the inode names. */
  lemma DirectBlock(d: Disk, f: File, a: int)
    requires Shaped(f) && 0 <= a < 12
    ensures BlkOf(d, f, a) == f.blocks[a]
  {
  }

  /** Logical block 12 + a is named at byte 4a of block blocks[12]. */
  lemma SingleBlock(d: Disk, f: File, a: int)
    requires Shaped(f) && OnDisk(d, f.bs, f.blocks[12]) && 0 <= a < f.bs / 4
    ensures Names(d, f.blocks[12] * f.bs + 4 * a, BlkOf(d, f, 12 + a))
  {
    EntryNamed(d, f.bs, f.blocks[12], a);
  }

  /** With bpp pointers in a block, logical block 12 + bpp + a * bpp + b is named at byte 4b of the block
      that is named at byte 4a of block blocks[13]. */
  lemma DoubleBlock(d: Disk, f: File, a: int, b: int, mid: int)
    requires Shaped(f) && OnDisk(d, f.bs, f.blocks[13]) && 0 <= a < f.bs / 4 && 0 <= b < f.bs / 4
    requires Names(d, f.blocks[13] * f.bs + 4 * a, mid) && OnDisk(d, f.bs, mid)
    ensures Names(d, mid * f.bs + 4 * b, BlkOf(d, f, 12 + f.bs / 4 + a * (f.bs / 4) + b))
  {
    var bpp := f.bs / 4;
    EntryNamed(d, f.bs, f.blocks[13], a);
    NamesOne(d, f.blocks[13] * f.bs + 4 * a, mid, Entry(d, f.bs, f.blocks[13], a));
    EntryNamed(d, f.bs, mid, b);
    Locate(bpp, a, b);
    BlocksApart(bpp, a, bpp);
  }

  /** Above that there is nothing, and the answer is block 0. */
  lemma NoBlock(d: Disk, f: File, idx: int)
    requires Shaped(f) && idx >= 12 + f.bs / 4 + f.bs / 4 * (f.bs / 4)
    ensures BlkOf(d, f, idx) == 0
  {
  }

  // ---------------------------------------------------------------- a file that owns its blocks

  /** Looking up logical block idx reads pointer block b. */
  predicate Consults(d: Disk, f: File, idx: int, b: int)
    requires Shaped(f)
  {
    match SlotOf(f.bs / 4, idx)
    case Single(_) => b == f.blocks[SIND]
    case Double(i, _) => b == f.blocks[DIND] || b == Entry(d, f.bs, f.blocks[DIND], i)
    case _ => false
  }

  predicate Present(d: Disk, f: File, idx: int)
    requires Shaped(f)
  {
    OnDisk(d, f.bs, BlkOf(d, f, idx))
  }

  /** The first n logical blocks are on the disk, distinct, and none of them holds pointers. */
  ghost predicate Owns(d: Disk, f: File, n: int) {
    && Shaped(f)
    && (forall i :: 0 <= i < n ==> Present(d, f, i))
    && (forall i, j :: 0 <= i < j < n ==> BlkOf(d, f, i) != BlkOf(d, f, j))
    && (forall i, k :: 0 <= i < n && 0 <= k < n ==> !Consults(d, f, k, BlkOf(d, f, i)))
  }

  /** Logical block idx of the file. */
  function Contents(d: Disk, f: File, idx: int): seq<Byte>
    requires Shaped(f) && Present(d, f, idx)
  {
    Block(d, f.bs, BlkOf(d, f, idx))
  }

  lemma SameEntry(d: Disk, e: Disk, bs: int, b: int, k: int)
    requires BlockSize(bs) && |e| == |d| && (OnDisk(d, bs, b) ==> Block(e, bs, b) == Block(d, bs, b))
    ensures Entry(e, bs, b, k) == Entry(d, bs, b, k)
  {
  }

  /** Looking up a logical block gives the same answer on disks that agree on its pointer blocks. */
  lemma SameLookup(d: Disk, e: Disk, f: File, idx: int)
    requires Shaped(f) && |e| == |d|
    requires forall b :: Consults(d, f, idx, b) && OnDisk(d, f.bs, b) ==> Block(e, f.bs, b) == Block(d, f.bs, b)
    ensures BlkOf(e, f, idx) == BlkOf(d, f, idx)
    ensures forall b :: Consults(e, f, idx, b) <==> Consults(d, f, idx, b)
  {
    match SlotOf(f.bs / 4, idx) {
      case Direct(_) =>
      case Single(i) =>
        assert Consults(d, f, idx, f.blocks[SIND]);
        SameEntry(d, e, f.bs, f.blocks[SIND], i);
      case Double(i, j) =>
        assert Consults(d, f, idx, f.blocks[DIND]);
        SameEntry(d, e, f.bs, f.blocks[DIND], i);
        var p := Entry(d, f.bs, f.blocks[DIND], i);
        assert Consults(d, f, idx, p);
        SameEntry(d, e, f.bs, p, j);
      case TooHigh =>
    }
  }

  /** Logical block k is where it was, reached the same way, and is the same unless k == i. */
  ghost predicate OnlyBlock(d: Disk, e: Disk, f: File, i: int, buf: seq<Byte>, k: int)
    requires Shaped(f)
  {
    && BlkOf(e, f, k) == BlkOf(d, f, k) && Present(e, f, k) && Present(d, f, k)
    && Contents(e, f, k) == (if k == i then buf else Contents(d, f, k))
    && (forall b :: Consults(e, f, k, b) <==> Consults(d, f, k, b))
  }

  lemma OverwriteOne(d: Disk, f: File, n: int, i: int, buf: seq<Byte>, k: int)
    requires Owns(d, f, n) && 0 <= i < n && |buf| == f.bs && 0 <= k < n
    ensures Present(d, f, i) && |WithBlock(d, f.bs, BlkOf(d, f, i), buf)| == |d|
    ensures OnlyBlock(d, WithBlock(d, f.bs, BlkOf(d, f, i), buf), f, i, buf, k)
  {
    assert Present(d, f, i) && Present(d, f, k);
    var t := BlkOf(d, f, i);
    var e := WithBlock(d, f.bs, t, buf);
    WriteBlock(d, f.bs, t, buf, BlkOf(d, f, k));
    forall b | Consults(d, f, k, b) && OnDisk(d, f.bs, b) ensures Block(e, f.bs, b) == Block(d, f.bs, b) {
      WriteBlock(d, f.bs, t, buf, b);
    }
    SameLookup(d, e, f, k);
    if k < i {
      assert BlkOf(d, f, k) != t;
    } else if i < k {
      assert t != BlkOf(d, f, k);
    }
  }

  lemma OwnsKept(d: Disk, e: Disk, f: File, n: int, i: int, buf: seq<Byte>)
    requires Owns(d, f, n) && forall k :: 0 <= k < n ==> OnlyBlock(d, e, f, i, buf, k)
    ensures Owns(e, f, n)
  {
    forall a, b | 0 <= a < b < n ensures BlkOf(e, f, a) != BlkOf(e, f, b) {
      assert OnlyBlock(d, e, f, i, buf, a) && OnlyBlock(d, e, f, i, buf, b);
    }
    forall a, b | 0 <= a < n && 0 <= b < n ensures !Consults(e, f, b, BlkOf(e, f, a)) {
      assert OnlyBlock(d, e, f, i, buf, a) && OnlyBlock(d, e, f, i, buf, b);
      assert !Consults(d, f, b, BlkOf(d, f, a));
    }
    forall a | 0 <= a < n ensures Present(e, f, a) {
      assert OnlyBlock(d, e, f, i, buf, a);
    }
  }

  /** Overwriting one block of the file changes that block and nothing else of the file. */
  lemma Overwrite(d: Disk, f: File, n: int, i: int, buf: seq<Byte>)
    requires Owns(d, f, n) && 0 <= i < n && |buf| == f.bs
    ensures Present(d, f, i)
    ensures var e := WithBlock(d, f.bs, BlkOf(d, f, i), buf);
      |e| == |d| && Owns(e, f, n) && forall k :: 0 <= k < n ==> OnlyBlock(d, e, f, i, buf, k)
  {
    OverwriteOne(d, f, n, i, buf, i);
    var e := WithBlock(d, f.bs, BlkOf(d, f, i), buf);
    forall k | 0 <= k < n ensures OnlyBlock(d, e, f, i, buf, k) {
      OverwriteOne(d, f, n, i, buf, k);
    }
    OwnsKept(d, e, f, n, i, buf);
  }

  // ---------------------------------------------------------------- the flat file

  /** Byte p of the file. */
  function ByteAt(d: Disk, f: File, p: int): Byte
    requires Shaped(f) && p >= 0 && Present(d, f, p / f.bs)
  {
    Contents(d, f, p / f.bs)[p % f.bs]
  }
}
