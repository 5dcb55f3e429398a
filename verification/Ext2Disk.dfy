/** fs/ext2/super.c: blocks of a volume on a device that reads and writes 512-byte sectors. */
module Ext2Disk {
  import opened Division

  const SECTOR := 512

  type Byte = x: int | 0 <= x < 256
  type Disk = seq<Byte>

  /** A block size: 1024 << log_block_sz. */
  predicate BlockSize(bs: int) {
    bs >= 1024 && bs % 1024 == 0
  }

  /** ext2_blk_to_lba */
  function BlkToLba(bs: int, blk: int): int {
    blk * (bs / SECTOR)
  }

  /** dev->read */
  function DevRead(d: Disk, lba: int, cnt: int): seq<Byte>
    requires 0 <= lba && 0 <= cnt && (lba + cnt) * SECTOR <= |d|
  {
    d[lba * SECTOR..(lba + cnt) * SECTOR]
  }

  /** dev->write */
  function DevWrite(d: Disk, lba: int, cnt: int, buf: seq<Byte>): Disk
    requires 0 <= lba && 0 <= cnt && (lba + cnt) * SECTOR <= |d| && |buf| == cnt * SECTOR
  {
    d[..lba * SECTOR] + buf + d[(lba + cnt) * SECTOR..]
  }

  /** Block b lies on the disk. */
  predicate OnDisk(d: Disk, bs: int, b: int) {
    0 <= b && b * bs + bs <= |d|
  }

  function Block(d: Disk, bs: int, b: int): seq<Byte>
    requires BlockSize(bs) && OnDisk(d, bs, b)
  {
    NonNegative(b, bs);
    d[b * bs..b * bs + bs]
  }

  function WithBlock(d: Disk, bs: int, b: int, buf: seq<Byte>): Disk
    requires BlockSize(bs) && OnDisk(d, bs, b) && |buf| == bs
  {
    NonNegative(b, bs);
    d[..b * bs] + buf + d[b * bs + bs..]
  }

  lemma LbaBytes(bs: int, b: int)
    requires BlockSize(bs) && b >= 0
    ensures BlkToLba(bs, b) * SECTOR == b * bs && (BlkToLba(bs, b) + bs / SECTOR) * SECTOR == b * bs + bs
    ensures BlkToLba(bs, b) >= 0
  {
    var n := bs / SECTOR;
    assert bs == n * SECTOR;
    assert b * (n * SECTOR) == b * n * SECTOR;
  }

  /** Reading or writing bs / 512 sectors at the block's address is reading or writing the block. */
  lemma BlockBySectors(d: Disk, bs: int, b: int, buf: seq<Byte>)
    requires BlockSize(bs) && OnDisk(d, bs, b) && |buf| == bs
    ensures BlkToLba(bs, b) >= 0 && (BlkToLba(bs, b) + bs / SECTOR) * SECTOR <= |d| && bs / SECTOR * SECTOR == bs
    ensures DevRead(d, BlkToLba(bs, b), bs / SECTOR) == Block(d, bs, b)
    ensures DevWrite(d, BlkToLba(bs, b), bs / SECTOR, buf) == WithBlock(d, bs, b, buf)
  {
    LbaBytes(bs, b);
  }

  /** A block write changes that block and no other. */
  lemma WriteBlock(d: Disk, bs: int, b: int, buf: seq<Byte>, c: int)
    requires BlockSize(bs) && OnDisk(d, bs, b) && OnDisk(d, bs, c) && |buf| == bs
    ensures |WithBlock(d, bs, b, buf)| == |d| && OnDisk(WithBlock(d, bs, b, buf), bs, c)
    ensures Block(WithBlock(d, bs, b, buf), bs, c) == if c == b then buf else Block(d, bs, c)
  {
    NonNegative(b, bs);
    NonNegative(c, bs);
    var e, x, y := WithBlock(d, bs, b, buf), b * bs, c * bs;
    assert e == d[..x] + buf + d[x + bs..];
    if c < b {
      BlocksApart(bs, c, b);
      assert e[y..y + bs] == d[y..y + bs];
    } else if b < c {
      BlocksApart(bs, b, c);
      assert e[y..y + bs] == d[y..y + bs];
    } else {
      assert e[x..x + bs] == buf;
    }
  }

  lemma WriteSame(d: Disk, bs: int, b: int)
    requires BlockSize(bs) && OnDisk(d, bs, b)
    ensures WithBlock(d, bs, b, Block(d, bs, b)) == d
  {
    NonNegative(b, bs);
  }

  /** Bytes p to p + 3 are the 32-bit number b, least significant byte first. */
  predicate Names(d: Disk, p: int, b: int) {
    && 0 <= p && p + 4 <= |d| && 0 <= b < UINT32
    && d[p] == b % 0x100 && d[p + 1] == b / 0x100 % 0x100
    && d[p + 2] == b / 0x1_0000 % 0x100 && d[p + 3] == b / 0x100_0000
  }

  lemma NamesOne(d: Disk, p: int, b: int, c: int)
    requires Names(d, p, b) && Names(d, p, c)
    ensures b == c
  {
    assert b / 0x1_0000 == b / 0x100 / 0x100 && b / 0x100_0000 == b / 0x1_0000 / 0x100;
    assert c / 0x1_0000 == c / 0x100 / 0x100 && c / 0x100_0000 == c / 0x1_0000 / 0x100;
  }
}
