/** mem/pmm.c: physical frames, one bit each, most significant bit first. */
module Frames {
  import opened PageEntries

  const BUFFER_SIZE := 2097952

  /** 0b10000000 >> k */
  function Mask(k: int): bv8
    requires 0 <= k < 8
  {
    if k == 0 then 0x80 else if k == 1 then 0x40 else if k == 2 then 0x20 else if k == 3 then 0x10
    else if k == 4 then 0x08 else if k == 5 then 0x04 else if k == 6 then 0x02 else 0x01
  }

  predicate Bit(b: bv8, k: int)
    requires 0 <= k < 8
  {
    b & Mask(k) != 0
  }

  /** The two stores of bitmap_set: clear the bit, then set it again if asked. */
  function WithBit(b: bv8, k: int, v: bool): bv8
    requires 0 <= k < 8
  {
    var cleared := b & !Mask(k);
    if v then cleared | Mask(k) else cleared
  }

  lemma WithBitOnly(b: bv8, k: int, v: bool, j: int)
    requires 0 <= k < 8 && 0 <= j < 8
    ensures Bit(WithBit(b, k, v), j) == if j == k then v else Bit(b, j)
  {
  }

  /** The frames a bitmap marks as in use. */
  ghost function Marked(m: seq<bv8>): set<int> {
    set i | 0 <= i < 8 * |m| && Bit(m[i / 8], i % 8)
  }

  /** Frame 8j + k is the bit k places behind the most significant one of byte j. */
  lemma MarkedPlace(m: seq<bv8>, j: int, k: int)
    requires 0 <= j < |m| && 0 <= k < 8
    ensures 8 * j + k in Marked(m) <==> m[j] & (0x80 as bv8 >> k) != 0
  {
    assert (8 * j + k) / 8 == j && (8 * j + k) % 8 == k;
    MaskShifts(k);
  }

  lemma MaskShifts(k: int)
    requires 0 <= k < 8
    ensures Mask(k) == 0x80 as bv8 >> k
  {
    assert k == 0 || k == 1 || k == 2 || k == 3 || k == 4 || k == 5 || k == 6 || k == 7;
  }

  lemma SetBitMarks(m: seq<bv8>, idx: int, v: bool)
    requires 0 <= idx < 8 * |m|
    ensures var m' := m[idx / 8 := WithBit(m[idx / 8], idx % 8, v)];
      Marked(m') == if v then Marked(m) + {idx} else Marked(m) - {idx}
  {
    var m' := m[idx / 8 := WithBit(m[idx / 8], idx % 8, v)];
    forall i | 0 <= i < 8 * |m| ensures Bit(m'[i / 8], i % 8) == if i == idx then v else Bit(m[i / 8], i % 8) {
      WithBitOnly(m[idx / 8], idx % 8, v, i % 8);
    }
  }

  /** The frames covered by cnt pages from addr on. */
  ghost function Span(addr: int, cnt: int): set<int> {
    set i | addr / PAGE_SIZE_4K <= i < addr / PAGE_SIZE_4K + cnt && Covers(addr, cnt, i)
  }

  predicate Covers(addr: int, cnt: int, i: int) {
    addr / PAGE_SIZE_4K <= i < addr / PAGE_SIZE_4K + cnt
  }

  class FrameMap {
    const map_: array<bv8>

    ghost function Used(): set<int>
      reads map_
    {
      Marked(map_[..])
    }

    /** pmm_init: the first BUFFER_SIZE / 8 frames are reserved. */
    constructor ()
      ensures fresh(map_) && map_.Length == BUFFER_SIZE
      ensures Used() == Span(0, BUFFER_SIZE / 8)
    {
      map_ := new bv8[BUFFER_SIZE](_ => 0);
      new;
      assert Used() == {};
      ReserveMany(0, BUFFER_SIZE / 8);
    }

    /** bitmap_get */
    method Get(idx: int) returns (v: bool)
      requires 0 <= idx < 8 * map_.Length
      ensures v <==> idx in Used()
    {
      v := map_[idx / 8] & Mask(idx % 8) != 0;
    }

    /** bitmap_set */
    method Set(idx: int, v: bool)
      requires 0 <= idx < 8 * map_.Length
      modifies map_
      ensures Used() == if v then old(Used()) + {idx} else old(Used()) - {idx}
    {
      ghost var m := map_[..];
      SetBitMarks(m, idx, v);
      map_[idx / 8] := WithBit(map_[idx / 8], idx % 8, v);
      assert map_[..] == m[idx / 8 := WithBit(m[idx / 8], idx % 8, v)];
    }

    /** pmm_alloc and pmm_reserve */
    method Reserve(addr: int)
      requires 0 <= addr < 8 * map_.Length * PAGE_SIZE_4K
      modifies map_
      ensures Used() == old(Used()) + {addr / PAGE_SIZE_4K}
    {
      Set(addr / PAGE_SIZE_4K, true);
    }

    /** pmm_free and pmm_release */
    method Release(addr: int)
      requires 0 <= addr < 8 * map_.Length * PAGE_SIZE_4K
      modifies map_
      ensures Used() == old(Used()) - {addr / PAGE_SIZE_4K}
    {
      Set(addr / PAGE_SIZE_4K, false);
    }

    /** pmm_alloc_m and pmm_reserve_m */
    method ReserveMany(addr: int, cnt: int)
      requires 0 <= addr && 0 <= cnt && addr / PAGE_SIZE_4K + cnt <= 8 * map_.Length
      modifies map_
      ensures Used() == old(Used()) + Span(addr, cnt)
    {
      for i := 0 to cnt
        invariant Used() == old(Used()) + Span(addr, i)
      {
        Reserve(addr + i * PAGE_SIZE_4K);
      }
    }

    /** pmm_free_m and pmm_release_m */
    method ReleaseMany(addr: int, cnt: int)
      requires 0 <= addr && 0 <= cnt && addr / PAGE_SIZE_4K + cnt <= 8 * map_.Length
      modifies map_
      ensures Used() == old(Used()) - Span(addr, cnt)
    {
      for i := 0 to cnt
        invariant Used() == old(Used()) - Span(addr, i)
      {
        Release(addr + i * PAGE_SIZE_4K);
      }
    }

    /** pmm_request: the lowest frame not in use, or null when every frame is. */
    method Request() returns (addr: int)
      modifies map_
      ensures addr % PAGE_SIZE_4K == 0
      ensures (forall i :: 0 <= i < 8 * map_.Length ==> i in old(Used())) ==> addr == 0 && Used() == old(Used())
      ensures (exists i :: 0 <= i < 8 * map_.Length && i !in old(Used())) ==>
        && var f := addr / PAGE_SIZE_4K;
        && 0 <= f < 8 * map_.Length && f !in old(Used())
        && (forall i :: 0 <= i < f ==> i in old(Used()))
        && Used() == old(Used()) + {f}
    {
      for i := 0 to 8 * map_.Length
        invariant forall k :: 0 <= k < i ==> k in Used()
        invariant Used() == old(Used())
      {
        var v := Get(i);
        if !v {
          Reserve(i * PAGE_SIZE_4K);
          return i * PAGE_SIZE_4K;
        }
      }
      return 0;
    }
  }
}
