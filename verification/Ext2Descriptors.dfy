/** fs/ext2/ext2.h: block group descriptors and the bytes they are kept as. */
module Ext2Descriptors {
  import opened Division
  import opened Ext2Disk

  const BGD_SZ := 38  // sizeof(ext2_bgd_t), packed

  /** bitmap is block_bitmap_addr and free is free_blocks; the fields between and after them are bytes. */
  datatype Group = Group(bitmap: int, between: seq<Byte>, free: int, after: seq<Byte>)

  predicate Sized(g: Group) {
    0 <= g.bitmap < UINT32 && |g.between| == 8 && 0 <= g.free < UINT32 && |g.after| == 22
  }

  /** A uint32_t in memory. */
  function Word(x: int): (w: seq<Byte>)
    requires 0 <= x < UINT32
    ensures |w| == 4
  {
    [x % 256, x / 256 % 256, x / 65536 % 256, x / 16777216]
  }

  function Value(w: seq<Byte>): int
    requires |w| == 4
  {
    var (a: int, b: int, c: int, d: int) := (w[0], w[1], w[2], w[3]);
    a + 256 * b + 65536 * c + 16777216 * d
  }

  lemma WordValue(x: int)
    requires 0 <= x < UINT32
    ensures Value(Word(x)) == x
  {
    var a, b := x / 256, x / 65536;
    assert x == 256 * a + x % 256;
    assert a == 256 * b + a % 256 by { assert a / 256 == b; }
    assert b == 256 * (x / 16777216) + b % 256 by { assert b / 256 == x / 16777216; }
  }

  function Encode(g: Group): (e: seq<Byte>)
    requires Sized(g)
    ensures |e| == BGD_SZ
  {
    Word(g.bitmap) + g.between + Word(g.free) + g.after
  }

  function Decode(e: seq<Byte>): Group
    requires |e| == BGD_SZ
  {
    Group(Value(e[..4]), e[4..12], Value(e[12..16]), e[16..])
  }

  lemma DecodeEncode(g: Group)
    requires Sized(g)
    ensures Decode(Encode(g)) == g
  {
    var e := Encode(g);
    assert e[..4] == Word(g.bitmap) && e[4..12] == g.between && e[12..16] == Word(g.free) && e[16..] == g.after;
    WordValue(g.bitmap);
    WordValue(g.free);
  }

  /** The array blk_grps in memory. */
  function Image(gs: seq<Group>): (b: seq<Byte>)
    requires forall k :: 0 <= k < |gs| ==> Sized(gs[k])
    ensures |b| == BGD_SZ * |gs|
  {
    if gs == [] then [] else Image(gs[..|gs| - 1]) + Encode(gs[|gs| - 1])
  }

  /** Descriptor k of a block. */
  function Loaded(block: seq<Byte>, k: nat): Group
    requires BGD_SZ * (k + 1) <= |block|
  {
    Decode(block[BGD_SZ * k..BGD_SZ * (k + 1)])
  }

  /** A block that starts with the array gives every descriptor back. */
  lemma {:induction false} ImageLoads(gs: seq<Group>, block: seq<Byte>, k: nat)
    requires (forall k :: 0 <= k < |gs| ==> Sized(gs[k])) && k < |gs| && Image(gs) <= block
    ensures Loaded(block, k) == gs[k]
    decreases |gs|
  {
    var front, last := gs[..|gs| - 1], gs[|gs| - 1];
    assert Image(front) <= Image(gs) <= block;
    if k == |gs| - 1 {
      assert block[BGD_SZ * k..BGD_SZ * (k + 1)] == Image(gs)[BGD_SZ * k..] == Encode(last);
      DecodeEncode(last);
    } else {
      ImageLoads(front, block, k);
    }
  }

  lemma {:induction false} ImageHolds(gs: seq<Group>, k: nat)
    requires (forall k :: 0 <= k < |gs| ==> Sized(gs[k])) && k < |gs|
    ensures Image(gs)[BGD_SZ * k..BGD_SZ * (k + 1)] == Encode(gs[k])
    decreases |gs|
  {
    var front := gs[..|gs| - 1];
    if k < |gs| - 1 {
      ImageHolds(front, k);
      assert Image(gs)[BGD_SZ * k..BGD_SZ * (k + 1)] == Image(front)[BGD_SZ * k..BGD_SZ * (k + 1)];
    }
  }

  lemma EncodeBytes(g: Group)
    requires Sized(g)
    ensures Names(Encode(g), 0, g.bitmap) && Names(Encode(g), 12, g.free)
  {
    var e, w, v := Encode(g), Word(g.bitmap), Word(g.free);
    assert e[0] == w[0] && e[1] == w[1] && e[2] == w[2] && e[3] == w[3];
    assert e[12] == v[0] && e[13] == v[1] && e[14] == v[2] && e[15] == v[3];
  }

  lemma NamesInside(b: seq<Byte>, a: int, c: int, p: int, x: int)
    requires 0 <= a <= c <= |b| && Names(b[a..c], p, x)
    ensures Names(b, a + p, x)
  {
    var e := b[a..c];
    assert e[p] == b[a + p] && e[p + 1] == b[a + p + 1] && e[p + 2] == b[a + p + 2] && e[p + 3] == b[a + p + 3];
  }

  /** Descriptor k starts at byte 38k; its bitmap's block and its count of free blocks are little-endian
      numbers at bytes 0 and 12 of it. */
  lemma ImageBytes(gs: seq<Group>, k: nat)
    requires (forall k :: 0 <= k < |gs| ==> Sized(gs[k])) && k < |gs|
    ensures Names(Image(gs), 38 * k, gs[k].bitmap) && Names(Image(gs), 38 * k + 12, gs[k].free)
  {
    ImageHolds(gs, k);
    EncodeBytes(gs[k]);
    NamesInside(Image(gs), 38 * k, 38 * (k + 1), 0, gs[k].bitmap);
    NamesInside(Image(gs), 38 * k, 38 * (k + 1), 12, gs[k].free);
  }
}
