/** fs/ext2/super.c: allocating blocks from the groups' bitmaps. */
module Ext2Alloc {
  import opened Options
  import opened Division
  import opened Ext2Descriptors
  import opened Ext2Disk
  import opened Runs

  // ---------------------------------------------------------------- bits, least significant first

  function Pow2(k: nat): (p: int)
    ensures p > 0
  {
    if k == 0 then 1 else 2 * Pow2(k - 1)
  }

  /** b & (1 << k) */
  predicate BitSet(b: int, k: nat)
    decreases k
  {
    if k == 0 then b % 2 == 1 else BitSet(b / 2, k - 1)
  }

  lemma {:induction false} BelowPow(b: int, n: nat, k: nat)
    requires 0 <= b < Pow2(n) && k < n && !BitSet(b, k)
    ensures b + Pow2(k) < Pow2(n)
  {
    if k > 0 {
      BelowPow(b / 2, n - 1, k - 1);
    }
  }

  /** Setting a clear bit changes that bit only. */
  lemma {:induction false} SetBitOnly(b: int, k: nat, j: nat)
    requires b >= 0 && !BitSet(b, k)
    ensures BitSet(b + Pow2(k), j) <==> j == k || BitSet(b, j)
  {
    if k > 0 && j > 0 {
      assert (b + Pow2(k)) / 2 == b / 2 + Pow2(k - 1);
      SetBitOnly(b / 2, k - 1, j - 1);
    }
  }

  lemma {:induction false} OnesSet(n: nat, k: nat)
    requires k < n
    ensures BitSet(Pow2(n) - 1, k)
  {
    if k > 0 {
      assert (Pow2(n) - 1) / 2 == Pow2(n - 1) - 1;
      OnesSet(n - 1, k - 1);
    }
  }

  /** A number of n bits that is not the largest has a clear bit. */
  lemma {:induction false} SomeClear(b: int, n: nat) returns (k: nat)
    requires 0 <= b < Pow2(n) - 1
    ensures k < n && !BitSet(b, k)
  {
    if b % 2 == 0 {
      k := 0;
    } else {
      k := SomeClear(b / 2, n - 1);
      k := k + 1;
    }
  }

  lemma Pow8()
    ensures Pow2(8) == 256
  {
    assert Pow2(4) == 16;
    assert Pow2(8) == 16 * Pow2(4);
  }

  /** Bit m of a bitmap. */
  predicate BitAt(map_: seq<Byte>, m: nat)
    requires m < 8 * |map_|
  {
    BitSet(map_[m / 8], m % 8)
  }

  /** b | (1 << k) */
  function Marked(map_: seq<Byte>, m: nat): (r: seq<Byte>)
    requires m < 8 * |map_| && !BitAt(map_, m)
    ensures |r| == |map_|
  {
    Pow8();
    BelowPow(map_[m / 8], 8, m % 8);
    map_[m / 8 := map_[m / 8] + Pow2(m % 8)]
  }

  lemma MarkedOnly(map_: seq<Byte>, m: nat, l: nat)
    requires m < 8 * |map_| && !BitAt(map_, m) && l < 8 * |map_|
    ensures BitAt(Marked(map_, m), l) <==> l == m || BitAt(map_, l)
  {
    if l / 8 == m / 8 {
      SetBitOnly(map_[m / 8], m % 8, l % 8);
    }
  }

  // What 1 << k is, for the bits of a byte
  const BIT_VALUES := [1, 2, 4, 8, 16, 32, 64, 128]

  lemma {:induction false} BitValue(b: int, k: nat)
    requires b >= 0
    ensures BitSet(b, k) <==> b / Pow2(k) % 2 == 1
  {
    if k > 0 {
      BitValue(b / 2, k - 1);
      HalfThenShift(b, Pow2(k - 1));
    }
  }

  lemma HalfThenShift(b: int, p: int)
    requires b >= 0 && p > 0
    ensures b / 2 / p == b / (2 * p)
  {
    var q, r := b / 2 / p, b / 2 % p;
    assert b / 2 == q * p + r;
    NonNegative(q, p);
    assert q * (2 * p) == 2 * (q * p);
    Locate(2 * p, q, 2 * r + b % 2);
  }

  lemma Powers(k: nat)
    requires k < 8
    ensures Pow2(k) == BIT_VALUES[k]
  {
    assert Pow2(2) == 4 && Pow2(3) == 8 && Pow2(4) == 2 * Pow2(3) && Pow2(5) == 4 * Pow2(3);
    assert Pow2(6) == 2 * Pow2(5) && Pow2(7) == 4 * Pow2(5);
  }

  /** Bit 8j + k of a bitmap is the bit worth 2^k of its byte j, and setting it adds just that. */
  lemma BitPlace(map_: seq<Byte>, j: nat, k: nat)
    requires j < |map_| && k < 8
    ensures BitAt(map_, 8 * j + k) <==> map_[j] / BIT_VALUES[k] % 2 == 1
    ensures !BitAt(map_, 8 * j + k) ==> Marked(map_, 8 * j + k) == map_[j := map_[j] + BIT_VALUES[k]]
  {
    Powers(k);
    BitValue(map_[j], k);
  }

  // ---------------------------------------------------------------- counting

  /** How many of the first n bits are clear. */
  function ClearBits(map_: seq<Byte>, n: nat): nat
    requires n <= 8 * |map_|
  {
    if n == 0 then 0 else ClearBits(map_, n - 1) + if BitAt(map_, n - 1) then 0 else 1
  }

  lemma {:induction false} MarkedCount(map_: seq<Byte>, m: nat, n: nat)
    requires m < 8 * |map_| && !BitAt(map_, m) && n <= 8 * |map_|
    ensures ClearBits(map_, n) == ClearBits(Marked(map_, m), n) + if m < n then 1 else 0
  {
    if n > 0 {
      MarkedCount(map_, m, n - 1);
      MarkedOnly(map_, m, n - 1);
    }
  }

  // ---------------------------------------------------------------- groups

  // ext2_rewrite_bgds writes to sector 2 * (blk_sz / 512)
  const DESCRIPTORS := 2

  /** The block ext2_init reads the descriptors from: the one after the superblock. */
  function LoadBlock(log: nat): int {
    1024 / Pow2(log) / 1024 + 1
  }

  /** Descriptors are written back where they were read exactly on volumes with 1024-byte blocks. */
  lemma RewriteBlock(log: nat)
    ensures LoadBlock(log) == DESCRIPTORS <==> log == 0
  {
    if log > 0 {
      assert Pow2(log) >= 2;
      QuotientBound(1024, Pow2(log));
    }
  }

  lemma QuotientBound(a: int, b: int)
    requires a > 0 && b >= 2
    ensures 0 <= a / b < a
  {
    var q := a / b;
    assert a == q * b + a % b;
    assert q * b == 2 * q + q * (b - 2);
    NonNegative(q, b - 2);
  }

  /** Bitmap blocks are on the disk, distinct, and none is the descriptor block. */
  ghost predicate Laid(d: Disk, bs: int, gs: seq<Group>) {
    && BlockSize(bs) && OnDisk(d, bs, DESCRIPTORS)
    && (forall i :: 0 <= i < |gs| ==> OnDisk(d, bs, gs[i].bitmap) && gs[i].bitmap != DESCRIPTORS)
    && (forall i, j :: 0 <= i < j < |gs| ==> gs[i].bitmap != gs[j].bitmap)
  }

  /** The descriptors fit in one block, which is all ext2_rewrite_bgds saves. */
  ghost predicate OneBlock(bs: int, gs: seq<Group>) {
    BGD_SZ * |gs| <= bs && forall k :: 0 <= k < |gs| ==> Sized(gs[k])
  }

  /** What would be loaded from the descriptor block is what is in memory. */
  ghost predicate Saved(d: Disk, bs: int, gs: seq<Group>) {
    && BlockSize(bs) && OnDisk(d, bs, DESCRIPTORS) && BGD_SZ * |gs| <= bs
    && forall k :: 0 <= k < |gs| ==> BGD_SZ * (k + 1) <= bs && Loaded(Block(d, bs, DESCRIPTORS), k) == gs[k]
  }

  lemma SavedBy(d: Disk, bs: int, gs: seq<Group>)
    requires BlockSize(bs) && OnDisk(d, bs, DESCRIPTORS) && OneBlock(bs, gs) && Image(gs) <= Block(d, bs, DESCRIPTORS)
    ensures Saved(d, bs, gs)
  {
    forall k | 0 <= k < |gs| ensures BGD_SZ * (k + 1) <= bs && Loaded(Block(d, bs, DESCRIPTORS), k) == gs[k] {
      ImageLoads(gs, Block(d, bs, DESCRIPTORS), k);
    }
  }

  function Map(d: Disk, bs: int, g: Group): seq<Byte>
    requires BlockSize(bs) && OnDisk(d, bs, g.bitmap)
  {
    Block(d, bs, g.bitmap)
  }

  ghost predicate Full(map_: seq<Byte>) {
    forall m: nat :: m < 8 * |map_| ==> BitAt(map_, m)
  }

  /** The first clear bit of a bitmap. */
  ghost predicate FirstClear(map_: seq<Byte>, m: nat) {
    m < 8 * |map_| && !BitAt(map_, m) && forall l: nat :: l < m ==> BitAt(map_, l)
  }

  function LowerFree(gs: seq<Group>, i: nat): seq<Group>
    requires i < |gs|
  {
    gs[i := gs[i].(free := (gs[i].free - 1) % UINT32)]
  }

  lemma LoweredFits(bs: int, gs: seq<Group>, i: nat)
    requires OneBlock(bs, gs) && i < |gs|
    ensures OneBlock(bs, LowerFree(gs, i))
  {
  }

  /** One allocation: bit m of group i, the first clear bit of the first group that has one. */
  ghost predicate Takes(d: Disk, bs: int, gs: seq<Group>, e: Disk, hs: seq<Group>, i: nat, m: nat)
    requires Laid(d, bs, gs)
  {
    && i < |gs| && FirstClear(Map(d, bs, gs[i]), m)
    && (forall k :: 0 <= k < i ==> Full(Map(d, bs, gs[k])))
    && hs == LowerFree(gs, i)
    && Laid(e, bs, hs)
    && (forall k :: 0 <= k < |gs| ==>
          Map(e, bs, hs[k]) == if k == i then Marked(Map(d, bs, gs[i]), m) else Map(d, bs, gs[k]))
  }

  ghost predicate NothingLeft(d: Disk, bs: int, gs: seq<Group>)
    requires Laid(d, bs, gs)
  {
    forall k :: 0 <= k < |gs| ==> Full(Map(d, bs, gs[k]))
  }

  // ---------------------------------------------------------------- the code

  class GroupAllocator {
    var disk: Disk
    var groups: seq<Group>
    const bs: int
    const perGroup: int

    /** The two inner loops: the first clear bit of a bitmap, bytes of 0xff being skipped. */
    method FindClear(buf: seq<Byte>) returns (m: Option<nat>)
      ensures m.None? ==> Full(buf)
      ensures m.Some? ==> FirstClear(buf, m.value)
      ensures m.Some? ==> buf[m.value / 8] / BIT_VALUES[m.value % 8] % 2 == 0
    {
      Pow8();
      for j := 0 to |buf|
        invariant forall l: nat :: l < 8 * j ==> BitAt(buf, l)
      {
        if buf[j] == 0xff {
          forall l: nat | l < 8 * (j + 1) ensures BitAt(buf, l) {
            if l >= 8 * j {
              OnesSet(8, l % 8);
            }
          }
          continue;
        }
        for k := 0 to 8
          invariant forall l: nat :: l < 8 * j + k ==> BitAt(buf, l)
        {
          if !BitSet(buf[j], k) {
            assert (8 * j + k) / 8 == j && (8 * j + k) % 8 == k;
            BitPlace(buf, j, k);
            return Some(8 * j + k);
          }
        }
        ghost var k := SomeClear(buf[j], 8);
        assert BitAt(buf, 8 * j + k);
      }
      return None;
    }

    /** ext2_rewrite_bgds: the descriptors go over the start of their block. */
    method RewriteBgds()
      requires BlockSize(bs) && OnDisk(disk, bs, DESCRIPTORS) && OneBlock(bs, groups)
      modifies this`disk
      ensures |disk| == |old(disk)| && Saved(disk, bs, groups)
      ensures Block(disk, bs, DESCRIPTORS) == Image(groups) + Block(old(disk), bs, DESCRIPTORS)[BGD_SZ * |groups|..]
      ensures forall b :: OnDisk(disk, bs, b) && b != DESCRIPTORS ==> Block(disk, bs, b) == Block(old(disk), bs, b)
    {
      ghost var d := disk;
      BlockBySectors(disk, bs, DESCRIPTORS, Block(disk, bs, DESCRIPTORS));
      var buffer := DevRead(disk, BlkToLba(bs, DESCRIPTORS), bs / SECTOR);
      buffer := Image(groups) + buffer[BGD_SZ * |groups|..];
      BlockBySectors(disk, bs, DESCRIPTORS, buffer);
      disk := DevWrite(disk, BlkToLba(bs, DESCRIPTORS), bs / SECTOR, buffer);
      WriteBlock(d, bs, DESCRIPTORS, buffer, DESCRIPTORS);
      forall b | OnDisk(d, bs, b) && b != DESCRIPTORS ensures Block(disk, bs, b) == Block(d, bs, b) {
        WriteBlock(d, bs, DESCRIPTORS, buffer, b);
      }
      SavedBy(disk, bs, groups);
    }

    /** ext2_alloc_block */
    method AllocBlock() returns (blk: int, ghost hit: Option<(nat, nat)>)
      requires Laid(disk, bs, groups) && OneBlock(bs, groups)
      modifies this
      ensures Laid(disk, bs, groups) && OneBlock(bs, groups) && (hit.Some? ==> Saved(disk, bs, groups))
      ensures hit.None? ==> blk == 0 && disk == old(disk) && groups == old(groups) && NothingLeft(disk, bs, groups)
      ensures hit.Some? ==>
        && Takes(old(disk), bs, old(groups), disk, groups, hit.value.0, hit.value.1)
        && blk == hit.value.0 * perGroup + hit.value.1
    {
      for i := 0 to |groups|
        invariant disk == old(disk) && groups == old(groups)
        invariant forall k :: 0 <= k < i ==> Full(Map(disk, bs, groups[k]))
      {
        BlockBySectors(disk, bs, groups[i].bitmap, Block(disk, bs, groups[i].bitmap));
        var buf := DevRead(disk, BlkToLba(bs, groups[i].bitmap), bs / SECTOR);
        var m := FindClear(buf);
        if m.Some? {
          TakeBit(i, m.value, buf);
          return i * perGroup + m.value, Some((i, m.value));
        }
      }
      return 0, None;
    }

    /** The bit is set, the bitmap written back, the free count lowered and the descriptors saved. */
    method TakeBit(i: nat, m: nat, buf: seq<Byte>)
      requires Laid(disk, bs, groups) && OneBlock(bs, groups) && i < |groups|
      requires buf == Map(disk, bs, groups[i]) && FirstClear(buf, m)
      requires forall k :: 0 <= k < i ==> Full(Map(disk, bs, groups[k]))
      modifies this
      ensures Laid(disk, bs, groups) && Takes(old(disk), bs, old(groups), disk, groups, i, m)
      ensures OneBlock(bs, groups) && Saved(disk, bs, groups)
    {
      var blk := groups[i].bitmap;
      var new_ := Marked(buf, m);
      BlockBySectors(disk, bs, blk, new_);
      WriteBlock(disk, bs, blk, new_, DESCRIPTORS);
      disk := DevWrite(disk, BlkToLba(bs, blk), bs / SECTOR, new_);
      LoweredFits(bs, groups, i);
      groups := LowerFree(groups, i);
      RewriteBgds();
      TakesAfter(old(disk), bs, old(groups), disk, i, m);
    }
  }

  /** One bitmap has been written and then the descriptors. */
  lemma TakesAfter(d: Disk, bs: int, gs: seq<Group>, e: Disk, i: nat, m: nat)
    requires Laid(d, bs, gs) && i < |gs| && FirstClear(Map(d, bs, gs[i]), m)
    requires forall k :: 0 <= k < i ==> Full(Map(d, bs, gs[k]))
    requires var w := WithBlock(d, bs, gs[i].bitmap, Marked(Map(d, bs, gs[i]), m));
      |e| == |w| && forall b :: OnDisk(e, bs, b) && b != DESCRIPTORS ==> Block(e, bs, b) == Block(w, bs, b)
    ensures Laid(e, bs, LowerFree(gs, i)) && Takes(d, bs, gs, e, LowerFree(gs, i), i, m)
  {
    var new_ := Marked(Map(d, bs, gs[i]), m);
    WriteBlock(d, bs, gs[i].bitmap, new_, DESCRIPTORS);
    forall k | 0 <= k < |gs|
      ensures OnDisk(e, bs, gs[k].bitmap) && Map(e, bs, gs[k]) == if k == i then new_ else Map(d, bs, gs[k])
    {
      WriteBlock(d, bs, gs[i].bitmap, new_, gs[k].bitmap);
    }
  }

  // ---------------------------------------------------------------- conservation

  /** Used blocks of a group according to its bitmap plus free blocks according to its descriptor. */
  ghost function GroupTotal(d: Disk, bs: int, g: Group): int
    requires BlockSize(bs) && OnDisk(d, bs, g.bitmap)
  {
    g.free + 8 * bs - ClearBits(Map(d, bs, g), 8 * bs)
  }

  ghost function Total(d: Disk, bs: int, gs: seq<Group>, n: nat): int
    requires Laid(d, bs, gs) && n <= |gs|
  {
    if n == 0 then 0 else Total(d, bs, gs, n - 1) + GroupTotal(d, bs, gs[n - 1])
  }

  lemma GroupAfter(d: Disk, bs: int, gs: seq<Group>, e: Disk, hs: seq<Group>, i: nat, m: nat, k: nat)
    requires Laid(d, bs, gs) && Takes(d, bs, gs, e, hs, i, m) && k < |gs| && 0 <= gs[i].free < UINT32
    ensures GroupTotal(e, bs, hs[k]) == GroupTotal(d, bs, gs[k]) + if k == i && gs[i].free == 0 then UINT32 else 0
  {
    assert Map(e, bs, hs[k]) == if k == i then Marked(Map(d, bs, gs[i]), m) else Map(d, bs, gs[k]);
    if k == i {
      MarkedCount(Map(d, bs, gs[i]), m, 8 * bs);
      Lowered(gs[i].free);
    } else {
      assert hs[k] == gs[k];
    }
  }

  lemma Lowered(n: int)
    requires 0 <= n < UINT32
    ensures (n - 1) % UINT32 == n - 1 + if n == 0 then UINT32 else 0
  {
  }

  lemma {:induction false} TotalAfter(d: Disk, bs: int, gs: seq<Group>, e: Disk, hs: seq<Group>, i: nat, more: int,
                                      n: nat)
    requires Laid(d, bs, gs) && Laid(e, bs, hs) && n <= |gs| == |hs|
    requires forall k :: 0 <= k < |gs| ==>
      GroupTotal(e, bs, hs[k]) == GroupTotal(d, bs, gs[k]) + if k == i then more else 0
    ensures Total(e, bs, hs, n) == Total(d, bs, gs, n) + if i < n then more else 0
  {
    if n > 0 {
      TotalAfter(d, bs, gs, e, hs, i, more, n - 1);
      assert GroupTotal(e, bs, hs[n - 1]) == GroupTotal(d, bs, gs[n - 1]) + if n - 1 == i then more else 0;
    }
  }

  /** An allocation keeps used plus free constant exactly when the group's count was not zero. */
  lemma Conserved(d: Disk, bs: int, gs: seq<Group>, e: Disk, hs: seq<Group>, i: nat, m: nat)
    requires Laid(d, bs, gs) && Takes(d, bs, gs, e, hs, i, m) && 0 <= gs[i].free < UINT32
    ensures Total(e, bs, hs, |hs|) == Total(d, bs, gs, |gs|) <==> gs[i].free > 0
  {
    var more := if gs[i].free == 0 then UINT32 else 0;
    forall k | 0 <= k < |gs|
      ensures GroupTotal(e, bs, hs[k]) == GroupTotal(d, bs, gs[k]) + if k == i then more else 0
    {
      GroupAfter(d, bs, gs, e, hs, i, m, k);
    }
    TotalAfter(d, bs, gs, e, hs, i, more, |gs|);
  }

  // ---------------------------------------------------------------- block numbers

  /** Different bits stand for different blocks exactly when a group has as many blocks as its bitmap
      has bits, or there is only one group. */
  lemma NumbersDistinct(groups: nat, perGroup: nat, bits: nat)
    requires groups > 0 && bits > 0
    ensures (forall i: nat, m: nat, j: nat, l: nat ::
               i < groups && j < groups && m < bits && l < bits && Number(perGroup, i, m) == Number(perGroup, j, l) ==>
               i == j && m == l)
            <==> perGroup >= bits || groups == 1
  {
    if perGroup >= bits || groups == 1 {
      forall i: nat, m: nat, j: nat, l: nat |
        i < groups && j < groups && m < bits && l < bits && Number(perGroup, i, m) == Number(perGroup, j, l)
        ensures i == j && m == l
      {
        NumberDecodes(groups, perGroup, bits, i, m, j, l);
      }
    } else {
      assert Number(perGroup, 0, perGroup) == Number(perGroup, 1, 0);
    }
  }

  function Number(perGroup: nat, i: nat, m: nat): nat {
    NonNegative(i, perGroup);
    i * perGroup + m
  }

  lemma NumberDecodes(groups: nat, perGroup: nat, bits: nat, i: nat, m: nat, j: nat, l: nat)
    requires perGroup >= bits || groups == 1
    requires i < groups && j < groups && m < bits && l < bits && Number(perGroup, i, m) == Number(perGroup, j, l)
    ensures i == j && m == l
  {
    if i < j {
      BlocksApart(perGroup, i, j);
    } else if j < i {
      BlocksApart(perGroup, j, i);
    }
  }

  // ---------------------------------------------------------------- every run

  datatype State = State(disk: Disk, groups: seq<Group>, given: seq<(nat, nat)>)

  ghost predicate Move(bs: int, s: State, hit: (nat, nat), t: State) {
    && Laid(s.disk, bs, s.groups) && Takes(s.disk, bs, s.groups, t.disk, t.groups, hit.0, hit.1)
    && t.given == s.given + [hit]
  }

  ghost predicate CountsMatch(bs: int, s: State)
    requires Laid(s.disk, bs, s.groups)
  {
    8 * bs < UINT32 && forall k :: 0 <= k < |s.groups| ==> CountMatches(bs, s.disk, s.groups[k])
  }

  ghost predicate CountMatches(bs: int, d: Disk, g: Group)
    requires BlockSize(bs) && OnDisk(d, bs, g.bitmap)
  {
    g.free == ClearBits(Map(d, bs, g), 8 * bs)
  }

  ghost predicate GivenTaken(bs: int, s: State)
    requires Laid(s.disk, bs, s.groups)
  {
    forall g :: 0 <= g < |s.given| ==> Taken(bs, s, s.given[g])
  }

  ghost predicate GivenOnce(given: seq<(nat, nat)>) {
    forall g, h :: 0 <= g < h < |given| ==> given[g] != given[h]
  }

  /** Counts match the bitmaps; what was given out is marked and was given out once. */
  ghost predicate Sound(bs: int, s: State) {
    Laid(s.disk, bs, s.groups) && CountsMatch(bs, s) && GivenTaken(bs, s) && GivenOnce(s.given)
  }

  ghost predicate Taken(bs: int, s: State, hit: (nat, nat))
    requires Laid(s.disk, bs, s.groups)
  {
    hit.0 < |s.groups| && hit.1 < 8 * bs && BitAt(Map(s.disk, bs, s.groups[hit.0]), hit.1)
  }

  lemma StillTaken(bs: int, s: State, hit: (nat, nat), t: State, old_: (nat, nat))
    requires Move(bs, s, hit, t) && Taken(bs, s, old_)
    ensures Taken(bs, t, old_) && old_ != hit && Taken(bs, t, hit)
  {
    var i := hit.0;
    assert Map(t.disk, bs, t.groups[old_.0]) ==
      if old_.0 == i then Marked(Map(s.disk, bs, s.groups[i]), hit.1) else Map(s.disk, bs, s.groups[old_.0]);
    if old_.0 == i {
      MarkedOnly(Map(s.disk, bs, s.groups[i]), hit.1, old_.1);
    }
    NowTaken(bs, s, hit, t);
  }

  lemma NowTaken(bs: int, s: State, hit: (nat, nat), t: State)
    requires Move(bs, s, hit, t)
    ensures Taken(bs, t, hit)
  {
    var i := hit.0;
    assert Map(t.disk, bs, t.groups[i]) == Marked(Map(s.disk, bs, s.groups[i]), hit.1);
    MarkedOnly(Map(s.disk, bs, s.groups[i]), hit.1, hit.1);
  }

  lemma CountKept(bs: int, s: State, hit: (nat, nat), t: State, k: nat)
    requires Sound(bs, s) && Move(bs, s, hit, t) && k < |t.groups|
    ensures CountMatches(bs, t.disk, t.groups[k])
  {
    var i := hit.0;
    assert CountMatches(bs, s.disk, s.groups[i]) && CountMatches(bs, s.disk, s.groups[k]);
    SomeFree(Map(s.disk, bs, s.groups[i]), hit.1, 8 * bs);
    GroupAfter(s.disk, bs, s.groups, t.disk, t.groups, i, hit.1, k);
  }

  lemma SomeFree(map_: seq<Byte>, m: nat, n: nat)
    requires m < n <= 8 * |map_| && !BitAt(map_, m)
    ensures 0 < ClearBits(map_, n) <= n
  {
    MarkedCount(map_, m, n);
    CountBound(map_, n);
  }

  lemma {:induction false} CountBound(map_: seq<Byte>, n: nat)
    requires n <= 8 * |map_|
    ensures ClearBits(map_, n) <= n
  {
    if n > 0 {
      CountBound(map_, n - 1);
    }
  }

  lemma GivenStep(bs: int, s: State, hit: (nat, nat), t: State)
    requires Move(bs, s, hit, t) && GivenTaken(bs, s) && GivenOnce(s.given)
    ensures GivenTaken(bs, t) && GivenOnce(t.given)
  {
    NowTaken(bs, s, hit, t);
    forall g | 0 <= g < |s.given| ensures Taken(bs, t, s.given[g]) && s.given[g] != hit {
      StillTaken(bs, s, hit, t, s.given[g]);
    }
    assert forall g :: 0 <= g < |s.given| ==> t.given[g] == s.given[g];
  }

  lemma StepSound(bs: int, s: State, hit: (nat, nat), t: State)
    requires Sound(bs, s) && Move(bs, s, hit, t)
    ensures Sound(bs, t)
  {
    forall k | 0 <= k < |t.groups| ensures CountMatches(bs, t.disk, t.groups[k]) {
      CountKept(bs, s, hit, t, k);
    }
    GivenStep(bs, s, hit, t);
  }

  /** Over any run of allocations, no block number is returned twice, every number returned is marked
      in its bitmap, and the free counts go on matching the bitmaps. */
  lemma EveryRunSound(bs: int, perGroup: nat, s: State, hits: seq<(nat, nat)>, t: State)
    requires Sound(bs, s) && Run((a, x, b) => Move(bs, a, x, b), s, hits, t) && perGroup >= 8 * bs
    ensures Sound(bs, t)
    ensures forall g, h :: 0 <= g < h < |t.given| ==>
      Number(perGroup, t.given[g].0, t.given[g].1) != Number(perGroup, t.given[h].0, t.given[h].1)
  {
    var move := (a, x, b) => Move(bs, a, x, b);
    var inv := a => Sound(bs, a);
    forall a, x, b | inv(a) && move(a, x, b) ensures inv(b) {
      StepSound(bs, a, x, b);
    }
    RunKeeps(move, inv, s, hits, t);
    forall g, h | 0 <= g < h < |t.given|
      ensures Number(perGroup, t.given[g].0, t.given[g].1) != Number(perGroup, t.given[h].0, t.given[h].1)
    {
      var x, y := t.given[g], t.given[h];
      assert x != y && Taken(bs, t, x) && Taken(bs, t, y);
      if Number(perGroup, x.0, x.1) == Number(perGroup, y.0, y.1) {
        NumberDecodes(|t.groups|, perGroup, 8 * bs, x.0, x.1, y.0, y.1);
      }
    }
  }
}
