/** fs/ext2/file.c: ext2_read and ext2_write, block by block as written, against the flat file. */
module Ext2ReadWrite {
  import opened Division
  import opened Ext2Disk
  import opened Ext2File

  // ---------------------------------------------------------------- the chunk taken from each block

  /** A request for size bytes at off, with the numbers the two loops compute. */
  datatype Request = Request(bs: int, off: int, size: int)

  function StartBlk(r: Request): int requires r.bs > 0 { r.off / r.bs }
  function EndBlk(r: Request): int requires r.bs > 0 { (r.size + r.off) / r.bs }
  function ModOff(r: Request): int requires r.bs > 0 { r.off % r.bs }
  function ModEnd(r: Request): int requires r.bs > 0 { (r.size + r.off) % r.bs }

  function ChunkStart(r: Request, i: int): int
    requires r.bs > 0
  {
    if i == StartBlk(r) then ModOff(r) else 0
  }

  function ChunkLen(r: Request, i: int): int
    requires r.bs > 0
  {
    if i == EndBlk(r) then ModEnd(r) else if i == StartBlk(r) then r.bs - ModOff(r) else r.bs
  }

  predicate Sensible(r: Request) {
    BlockSize(r.bs) && r.off >= 0 && r.size >= 0
  }

  /** The request starts on a block boundary or crosses one. */
  predicate Fine(r: Request)
    requires r.bs > 0
  {
    ModOff(r) == 0 || StartBlk(r) < EndBlk(r)
  }

  /** Bytes moved by the blocks before i. */
  function Done(r: Request, i: int): int
    requires r.bs > 0
  {
    if i <= StartBlk(r) then 0
    else if i <= EndBlk(r) then i * r.bs - r.off
    else if StartBlk(r) < EndBlk(r) then r.size else ModEnd(r)
  }

  lemma Parts(r: Request)
    requires Sensible(r)
    ensures r.off == StartBlk(r) * r.bs + ModOff(r) && 0 <= ModOff(r) < r.bs
    ensures r.off + r.size == EndBlk(r) * r.bs + ModEnd(r) && 0 <= ModEnd(r) < r.bs
    ensures 0 <= StartBlk(r) <= EndBlk(r)
  {
    DivMono(r.bs, r.off, r.off + r.size);
    DivMono(r.bs, 0, r.off);
  }

  lemma DivMono(bs: int, a: int, b: int)
    requires bs > 0 && a <= b
    ensures a / bs <= b / bs
  {
    if b / bs < a / bs {
      BlocksApart(bs, b / bs, a / bs);
    }
  }

  /** Each block's chunk continues where the one before stopped; the total is size exactly when the
      request is fine, and otherwise the offset too much. */
  lemma ChunkSteps(r: Request, i: int)
    requires Sensible(r) && StartBlk(r) <= i <= EndBlk(r)
    ensures r.off + Done(r, i) == i * r.bs + ChunkStart(r, i)
    ensures Done(r, i + 1) == Done(r, i) + ChunkLen(r, i) && ChunkLen(r, i) >= 0 && ChunkStart(r, i) >= 0
    ensures Done(r, EndBlk(r) + 1) == if Fine(r) then r.size else r.size + ModOff(r)
    ensures Fine(r) ==> ChunkStart(r, i) + ChunkLen(r, i) <= r.bs
    ensures Done(r, i) >= 0
  {
    Parts(r);
    if StartBlk(r) < i {
      BlocksApart(r.bs, StartBlk(r), i);
    }
  }

  /** A copy leaves its buffers exactly when the request is not fine, and then at the first block. */
  lemma ChunkFits(r: Request, i: int)
    requires Sensible(r) && StartBlk(r) <= i <= EndBlk(r)
    ensures ChunkStart(r, i) + ChunkLen(r, i) > r.bs || Done(r, i) + ChunkLen(r, i) > r.size <==> !Fine(r)
    ensures !Fine(r) ==> Done(r, i) == 0
    ensures Fine(r) ==> 0 <= Done(r, i + 1) <= r.size && Done(r, EndBlk(r) + 1) == r.size
  {
    Parts(r);
    ChunkSteps(r, i);
    if i < EndBlk(r) {
      BlocksApart(r.bs, i, EndBlk(r));
    }
  }

  // ---------------------------------------------------------------- slices of the file

  /** out is what the file holds from byte p on. */
  ghost predicate Slice(d: Disk, f: File, p: int, out: seq<Byte>)
    requires Shaped(f) && p >= 0
  {
    forall q :: 0 <= q < |out| ==> HoldsAt(d, f, p + q, out[q])
  }

  ghost predicate HoldsAt(d: Disk, f: File, p: int, b: Byte)
    requires Shaped(f) && p >= 0
  {
    Present(d, f, p / f.bs) && b == ByteAt(d, f, p)
  }

  lemma SliceConcat(d: Disk, f: File, p: int, a: seq<Byte>, b: seq<Byte>)
    requires Shaped(f) && p >= 0 && Slice(d, f, p, a) && Slice(d, f, p + |a|, b)
    ensures Slice(d, f, p, a + b)
  {
    forall q | 0 <= q < |a + b| ensures HoldsAt(d, f, p + q, (a + b)[q]) {
      if q < |a| {
        assert (a + b)[q] == a[q];
      } else {
        assert (a + b)[q] == b[q - |a|] && HoldsAt(d, f, p + |a| + (q - |a|), b[q - |a|]);
      }
    }
  }

  lemma HoldsChunk(d: Disk, f: File, i: int, q: int)
    requires Shaped(f) && i >= 0 && Present(d, f, i) && 0 <= q < f.bs
    ensures i * f.bs + q >= 0 && HoldsAt(d, f, i * f.bs + q, Contents(d, f, i)[q])
  {
    NonNegative(i, f.bs);
    Locate(f.bs, i, q);
  }

  lemma ChunkSlice(d: Disk, f: File, i: int, start: int, len: int)
    requires Shaped(f) && i >= 0 && Present(d, f, i) && 0 <= start && 0 <= len && start + len <= f.bs
    ensures i * f.bs + start >= 0 && Slice(d, f, i * f.bs + start, Contents(d, f, i)[start..start + len])
  {
    NonNegative(i, f.bs);
    var c := Contents(d, f, i)[start..start + len];
    forall q | 0 <= q < |c| ensures HoldsAt(d, f, i * f.bs + start + q, c[q]) {
      HoldsChunk(d, f, i, start + q);
    }
  }

  /** The file in e is the file in d with data put in at byte off. */
  ghost predicate Splice(d: Disk, e: Disk, f: File, n: int, off: int, data: seq<Byte>)
    requires Owns(d, f, n) && Owns(e, f, n)
  {
    forall p :: 0 <= p && p / f.bs < n ==> SpliceAt(d, e, f, off, data, p)
  }

  ghost predicate SpliceAt(d: Disk, e: Disk, f: File, off: int, data: seq<Byte>, p: int)
    requires Shaped(f) && p >= 0
  {
    && Present(d, f, p / f.bs) && Present(e, f, p / f.bs)
    && ByteAt(e, f, p) == if off <= p < off + |data| then data[p - off] else ByteAt(d, f, p)
  }

  /** Disk blocks the file does not own are the same. */
  ghost predicate RestSame(d: Disk, e: Disk, f: File, n: int)
    requires Shaped(f)
  {
    && |e| == |d|
    && forall b :: OnDisk(d, f.bs, b) && (forall i :: 0 <= i < n ==> BlkOf(d, f, i) != b) ==>
         Block(e, f.bs, b) == Block(d, f.bs, b)
  }

  /** A block with some bytes replaced. */
  function Patched(c: seq<Byte>, start: int, chunk: seq<Byte>): (w: seq<Byte>)
    requires 0 <= start && start + |chunk| <= |c|
    ensures |w| == |c|
  {
    c[..start] + chunk + c[start + |chunk|..]
  }

  lemma PatchedAt(c: seq<Byte>, start: int, chunk: seq<Byte>, x: int)
    requires 0 <= start && start + |chunk| <= |c| && 0 <= x < |c|
    ensures Patched(c, start, chunk)[x] == if start <= x < start + |chunk| then chunk[x - start] else c[x]
  {
  }

  lemma Position(bs: int, i: int, p: int)
    requires bs > 0
    ensures p / bs < i ==> p < i * bs
    ensures p / bs > i ==> p >= i * bs + bs
    ensures p / bs == i ==> p == i * bs + p % bs
  {
    assert p == p / bs * bs + p % bs;
    if p / bs < i {
      BlocksApart(bs, p / bs, i);
    } else if i < p / bs {
      BlocksApart(bs, i, p / bs);
    }
  }

  lemma SpliceByte(d: Disk, e: Disk, g: Disk, f: File, off: int, data: seq<Byte>, i: int, start: int, chunk: seq<Byte>,
                   p: int)
    requires Shaped(f) && i >= 0 && Present(e, f, i) && 0 <= start && start + |chunk| <= f.bs
    requires off + |data| == i * f.bs + start && p >= 0 && off >= 0
    requires SpliceAt(d, e, f, off, data, p)
    requires OnlyBlock(e, g, f, i, Patched(Contents(e, f, i), start, chunk), p / f.bs)
    ensures SpliceAt(d, g, f, off, data + chunk, p)
  {
    Position(f.bs, i, p);
    PatchedAt(Contents(e, f, i), start, chunk, p % f.bs);
    var q, x := p / f.bs, p % f.bs;
    if q == i && start <= x < start + |chunk| {
      assert p - off == |data| + (x - start);
      assert (data + chunk)[p - off] == chunk[x - start];
    } else {
      assert off <= p < off + |data + chunk| <==> off <= p < off + |data|;
      assert off <= p < off + |data| ==> (data + chunk)[p - off] == data[p - off];
    }
  }

  lemma SpliceStep(d: Disk, e: Disk, g: Disk, f: File, n: int, off: int, data: seq<Byte>, i: int, start: int,
                   chunk: seq<Byte>, w: seq<Byte>)
    requires Owns(d, f, n) && Owns(e, f, n) && Owns(g, f, n) && Splice(d, e, f, n, off, data) && off >= 0
    requires 0 <= i < n && 0 <= start && start + |chunk| <= f.bs && off + |data| == i * f.bs + start
    requires Present(e, f, i) && w == Patched(Contents(e, f, i), start, chunk)
    requires forall k :: 0 <= k < n ==> OnlyBlock(e, g, f, i, w, k)
    ensures Splice(d, g, f, n, off, data + chunk)
  {
    forall p | 0 <= p && p / f.bs < n ensures SpliceAt(d, g, f, off, data + chunk, p) {
      DivMono(f.bs, 0, p);
      SpliceByte(d, e, g, f, off, data, i, start, chunk, p);
    }
  }

  lemma SpliceRefl(d: Disk, f: File, n: int, off: int)
    requires Owns(d, f, n)
    ensures Splice(d, d, f, n, off, [])
  {
    forall p | 0 <= p && p / f.bs < n ensures SpliceAt(d, d, f, off, [], p) {
      DivMono(f.bs, 0, p);
      assert Present(d, f, p / f.bs);
    }
  }

  lemma RestStep(d: Disk, e: Disk, f: File, n: int, i: int, buf: seq<Byte>)
    requires Owns(d, f, n) && Owns(e, f, n) && RestSame(d, e, f, n) && 0 <= i < n && |buf| == f.bs
    requires forall k :: 0 <= k < n ==> BlkOf(e, f, k) == BlkOf(d, f, k)
    ensures Present(e, f, i) && RestSame(d, WithBlock(e, f.bs, BlkOf(e, f, i), buf), f, n)
  {
    assert Present(e, f, i);
    var t := BlkOf(e, f, i);
    var g := WithBlock(e, f.bs, t, buf);
    WriteBlock(e, f.bs, t, buf, t);
    forall b | OnDisk(d, f.bs, b) && (forall k :: 0 <= k < n ==> BlkOf(d, f, k) != b)
      ensures Block(g, f.bs, b) == Block(d, f.bs, b)
    {
      assert BlkOf(d, f, i) != b;
      WriteBlock(e, f.bs, t, buf, b);
    }
  }

  // ---------------------------------------------------------------- the code

  class Volume {
    var disk: Disk
    const bs: int

    /** ext2_get_inode_blk */
    method GetInodeBlk(f: File, idx: int) returns (blk: int)
      requires Shaped(f) && f.bs == bs && idx >= 0 && BlkOf(disk, f, idx) >= 0
      ensures blk == BlkOf(disk, f, idx)
    {
      var bpp := bs / 4;
      var sindStart := SIND;
      var dindStart := sindStart + bpp;
      var tindStart := dindStart + bpp * bpp;
      if idx < sindStart {
        blk := f.blocks[idx];
      } else if idx < dindStart {
        var buf := ReadBlk(f.blocks[SIND]);
        blk := Pointer(buf, idx - SIND);
      } else if idx < tindStart {
        DivBound(idx - dindStart, bpp);
        var blkPtrs := ReadBlk(f.blocks[DIND]);
        var blkPtr := Pointer(blkPtrs, (idx - dindStart) / bpp);
        var buf := ReadBlk(blkPtr);
        blk := Pointer(buf, (idx - dindStart) % bpp);
      } else {
        blk := 0;
      }
    }

    /** bs / 512 sectors at the address of a block. */
    method ReadBlk(b: int) returns (buf: seq<Byte>)
      requires BlockSize(bs) && OnDisk(disk, bs, b)
      ensures buf == Block(disk, bs, b) && |buf| == bs
    {
      BlockBySectors(disk, bs, b, Block(disk, bs, b));
      buf := DevRead(disk, BlkToLba(bs, b), bs / SECTOR);
    }

    /** ext2_read_inode_blk */
    method ReadInodeBlk(f: File, idx: int) returns (buf: seq<Byte>)
      requires Shaped(f) && f.bs == bs && idx >= 0 && Present(disk, f, idx)
      ensures buf == Contents(disk, f, idx)
    {
      var blk := GetInodeBlk(f, idx);
      buf := ReadBlk(blk);
    }

    /** ext2_write_inode_blk */
    method WriteInodeBlk(f: File, idx: int, buf: seq<Byte>)
      requires Shaped(f) && f.bs == bs && idx >= 0 && Present(disk, f, idx) && |buf| == bs
      modifies this
      ensures disk == WithBlock(old(disk), bs, BlkOf(old(disk), f, idx), buf)
    {
      var blk := GetInodeBlk(f, idx);
      BlockBySectors(disk, bs, blk, buf);
      disk := DevWrite(disk, BlkToLba(bs, blk), bs / SECTOR, buf);
    }

    /** ext2_read. ok is false when the copy runs past the block buffer; out is all that is copied. */
    method Read(f: File, off: int, size: int) returns (ok: bool, out: seq<Byte>)
      requires Shaped(f) && f.bs == bs && off >= 0 && size >= 0
      requires forall i :: off / bs <= i <= (size + off) / bs ==> Present(disk, f, i)
      ensures ok && |out| == size <==> Fine(Request(bs, off, size))
      ensures ok ==> Slice(disk, f, off, out)
    {
      ghost var r := Request(bs, off, size);
      Parts(r);
      var startblk, endblk := off / bs, (size + off) / bs;
      var modoff, modend := off % bs, (size + off) % bs;
      out := [];
      for i := startblk to endblk + 1
        invariant |out| == Done(r, i) && Slice(disk, f, off, out)
      {
        ChunkSteps(r, i);
        var buf := ReadInodeBlk(f, i);
        var start, len := 0, bs;
        if i == startblk {
          start := modoff;
          len := bs - start;
        }
        if i == endblk {
          len := modend;
        }
        if start + len > bs {
          return false, out;
        }
        ChunkSlice(disk, f, i, start, len);
        SliceConcat(disk, f, off, out, buf[start..start + len]);
        out := out + buf[start..start + len];
      }
      ChunkSteps(r, endblk);
      ok := true;
    }

    /** ext2_write of bytes the file already has room for. ok is false when the copy runs past the
        block buffer or past the caller's data. */
    method Write(f: File, off: int, data: seq<Byte>, ghost n: int) returns (ok: bool)
      requires f.bs == bs && off >= 0 && Owns(disk, f, n) && Covers(disk, f, n, Request(f.bs, off, |data|))
      modifies this
      ensures ok <==> Fine(Request(bs, off, |data|))
      ensures Owns(disk, f, n) && RestSame(old(disk), disk, f, n)
      ensures Splice(old(disk), disk, f, n, off, if ok then data else [])
    {
      ghost var d, r := disk, Request(bs, off, |data|);
      Parts(r);
      SpliceRefl(disk, f, n, off);
      var startblk, endblk := off / bs, (|data| + off) / bs;
      var modoff, modend := off % bs, (|data| + off) % bs;
      var ptroff := 0;
      for i := startblk to endblk + 1
        invariant 0 <= ptroff == Done(r, i) <= |data|
        invariant i > startblk ==> Fine(r)
        invariant Owns(disk, f, n) && RestSame(d, disk, f, n) && SameMap(d, disk, f, n)
        invariant Splice(d, disk, f, n, off, data[..ptroff])
      {
        ChunkSteps(r, i);
        ChunkFits(r, i);
        CoveredPresent(d, disk, f, n, r, i);
        var buf := ReadInodeBlk(f, i);
        var start, len := 0, bs;
        if i == startblk {
          start := modoff;
          len := bs - start;
        }
        if i == endblk {
          len := modend;
        }
        assert start == ChunkStart(r, i) && len == ChunkLen(r, i);
        if start + len > bs || ptroff + len > |data| {
          assert data[..0] == [];
          return false;
        }
        PutChunk(f, i, start, data[ptroff..ptroff + len], buf, off, data[..ptroff], d, n);
        assert data[..ptroff] + data[ptroff..ptroff + len] == data[..ptroff + len];
        ptroff := ptroff + len;
      }
      ChunkFits(r, endblk);
      assert data[..|data|] == data;
      ok := true;
    }

    /** One block of ext2_write: the chunk goes into the buffer, the buffer back to the disk. */
    method PutChunk(f: File, i: int, start: int, chunk: seq<Byte>, buf: seq<Byte>, ghost off: int,
                    ghost before: seq<Byte>, ghost d: Disk, ghost n: int)
      requires f.bs == bs && Owns(d, f, n) && Owns(disk, f, n) && Present(disk, f, i) && buf == Contents(disk, f, i)
      requires 0 <= i && 0 <= start && start + |chunk| <= bs && off >= 0 && off + |before| == i * bs + start
      requires i < n || chunk == []
      requires RestSame(d, disk, f, n) && SameMap(d, disk, f, n) && Splice(d, disk, f, n, off, before)
      modifies this
      ensures Owns(disk, f, n) && RestSame(d, disk, f, n) && SameMap(d, disk, f, n)
      ensures Splice(d, disk, f, n, off, before + chunk)
    {
      var w := Patched(buf, start, chunk);
      ghost var e := disk;
      WriteInodeBlk(f, i, w);
      if chunk == [] {
        assert w == buf && before + chunk == before;
        WriteSame(e, bs, BlkOf(e, f, i));
      } else {
        Overwrite(e, f, n, i, w);
        RestStep(d, e, f, n, i, w);
        SpliceStep(d, e, disk, f, n, off, before, i, start, chunk, w);
        assert SameMap(d, disk, f, n) by {
          forall k | 0 <= k < n ensures BlkOf(disk, f, k) == BlkOf(d, f, k) {
            assert OnlyBlock(e, disk, f, i, w, k);
          }
        }
      }
    }
  }

  /** The request stays in the first n blocks; when it ends on their end, the block after them is
      read and written back too, so it has to be on the disk and found without the file's data. */
  ghost predicate Covers(d: Disk, f: File, n: int, r: Request)
    requires Shaped(f) && r.bs > 0
  {
    || EndBlk(r) < n
    || (EndBlk(r) == n && ModEnd(r) == 0 && Present(d, f, n) &&
        forall i :: 0 <= i < n ==> !Consults(d, f, n, BlkOf(d, f, i)))
  }

  ghost predicate SameMap(d: Disk, e: Disk, f: File, n: int)
    requires Shaped(f)
  {
    forall k :: 0 <= k < n ==> BlkOf(e, f, k) == BlkOf(d, f, k)
  }

  lemma CoveredPresent(d: Disk, e: Disk, f: File, n: int, r: Request, i: int)
    requires Owns(d, f, n) && Owns(e, f, n) && RestSame(d, e, f, n) && r.bs == f.bs && Covers(d, f, n, r)
    requires 0 <= i <= EndBlk(r)
    ensures Present(e, f, i) && (i < n || ChunkLen(r, i) == 0)
  {
    if i == n {
      forall b | Consults(d, f, n, b) && OnDisk(d, f.bs, b) ensures Block(e, f.bs, b) == Block(d, f.bs, b) {
      }
      SameLookup(d, e, f, n);
    }
  }

  // ---------------------------------------------------------------- write, then read

  /** After a write, a read of any range gives the new bytes inside the written range and the old
      ones outside it. */
  lemma ReadAfterWrite(d: Disk, e: Disk, f: File, n: int, off: int, data: seq<Byte>, p: int, out: seq<Byte>, q: int)
    requires Owns(d, f, n) && Owns(e, f, n) && Splice(d, e, f, n, off, data) && p >= 0 && Slice(e, f, p, out)
    requires 0 <= q < |out| && (p + q) / f.bs < n
    ensures Present(d, f, (p + q) / f.bs)
    ensures out[q] == if off <= p + q < off + |data| then data[p + q - off] else ByteAt(d, f, p + q)
  {
    assert SpliceAt(d, e, f, off, data, p + q);
  }

  /** ext2_write followed by ext2_read of the same range returns what was written. */
  lemma ReadBack(d: Disk, e: Disk, f: File, n: int, off: int, data: seq<Byte>, out: seq<Byte>)
    requires Owns(d, f, n) && Owns(e, f, n) && Splice(d, e, f, n, off, data) && off >= 0
    requires Slice(e, f, off, out) && |out| == |data| && off + |data| <= n * f.bs
    ensures out == data
  {
    forall q | 0 <= q < |data| ensures out[q] == data[q] {
      Position(f.bs, n, off + q);
      ReadAfterWrite(d, e, f, n, off, data, off, out, q);
    }
  }

  /** The bytes of the blocks a file of this size has. */
  function Allocated(size: int, bs: int): int
    requires bs > 0
  {
    (size + bs - 1) / bs * bs
  }

  /** ext2_write goes without new blocks when the request ends by size + size % bs. Every such
      request stays in the file's own blocks exactly when the last block is at most half full. */
  lemma GrowthGuard(size: int, bs: int)
    requires size >= 0 && bs > 0
    ensures (forall end :: 0 <= end <= size + size % bs ==> Within(end, size, bs)) <==> 2 * (size % bs) <= bs
  {
    var k, m := size / bs, size % bs;
    assert size == k * bs + m;
    if m == 0 {
      DivMono(bs, 0, size);
      Locate(bs, k, bs - 1);
    } else {
      DivMono(bs, 0, size);
      Locate(bs, k + 1, m - 1);
      assert (k + 1) * bs == k * bs + bs;
    }
    assert Within(size + m, size, bs) <==> 2 * m <= bs;
  }

  predicate Within(end: int, size: int, bs: int)
    requires bs > 0
  {
    end <= Allocated(size, bs)
  }
}
