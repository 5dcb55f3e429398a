/** mem/paging.c and util/list.c: the regions of a user address space. */
module Regions {
  import opened PageEntries

  datatype Region = Region(base: int, end: int)

  /** The nodes of the list in order, and the counter the list keeps beside them. */
  datatype List = List(chain: seq<Region>, cnt: nat)

  datatype Result<+T> = Ok(value: T) | Crash

  // ---------------------------------------------------------------- list_insert as written

  /** list_get finds a node only below the counter. */
  function Get(l: List, idx: nat): Result<nat> {
    if idx < l.cnt && idx < |l.chain| then Ok(idx) else Crash
  }

  function PushBack(l: List, r: Region): List {
    List(l.chain + [r], l.cnt + 1)
  }

  /** list_insert: at idx == cnt it pushes the value back and goes on; the counter is never raised
      for the node it links; a missing node is dereferenced. */
  function Insert(l: List, r: Region, idx: nat): Result<List> {
    var l1 := if idx == l.cnt then PushBack(l, r) else l;
    match Get(l1, idx)
    case Crash => Crash
    case Ok(k) => Ok(l1.(chain := l1.chain[..k] + [r] + l1.chain[k..]))
  }

  function Inserted(s: seq<Region>, r: Region, i: nat): seq<Region>
    requires i <= |s|
  {
    s[..i] + [r] + s[i..]
  }

  /** list_insert at an existing node inserts, and nothing else, exactly when the index is below the
      counter; at the counter the region is there twice, beyond it the kernel crashes. */
  lemma InsertExact(l: List, r: Region, i: nat)
    requires l.cnt <= |l.chain| && i < |l.chain|
    ensures Insert(l, r, i) == Ok(List(Inserted(l.chain, r, i), l.cnt)) <==> i < l.cnt
    ensures i > l.cnt ==> Insert(l, r, i).Crash?
    ensures i == l.cnt ==> Insert(l, r, i).Ok? && multiset(Insert(l, r, i).value.chain)[r] >= 2
  {
    if i == l.cnt {
      var c := l.chain + [r];
      assert c == l.chain[..i] + l.chain[i..] + [r];
      assert Insert(l, r, i).value.chain == c[..i] + [r] + c[i..];
      assert c[i..] == l.chain[i..] + [r];
      assert |Insert(l, r, i).value.chain| == |l.chain| + 2;
    }
  }

  // ---------------------------------------------------------------- sorted, disjoint regions

  ghost predicate Sorted(s: seq<Region>) {
    && (forall i :: 0 <= i < |s| ==> s[i].base < s[i].end)
    && (forall i, j :: 0 <= i < j < |s| ==> s[i].end <= s[j].base)
  }

  predicate Misses(r: Region, base: int, end: int) {
    end <= r.base || r.end <= base
  }

  ghost predicate Clear(s: seq<Region>, base: int, end: int) {
    forall i :: 0 <= i < |s| ==> Misses(s[i], base, end)
  }

  /** i separates the regions below the range from those above it. */
  ghost predicate Place(s: seq<Region>, i: nat, base: int, end: int) {
    && i <= |s|
    && (forall k :: 0 <= k < i ==> s[k].end <= base)
    && (forall k :: i <= k < |s| ==> end <= s[k].base)
  }

  lemma PlaceSorts(s: seq<Region>, i: nat, base: int, end: int)
    requires Sorted(s) && Place(s, i, base, end) && base < end
    ensures Sorted(Inserted(s, Region(base, end), i)) && Clear(s, base, end)
  {
    var t := Inserted(s, Region(base, end), i);
    forall a, b | 0 <= a < b < |t| ensures t[a].end <= t[b].base {
      assert t[a] == if a < i then s[a] else if a == i then Region(base, end) else s[a - 1];
      assert t[b] == if b < i then s[b] else if b == i then Region(base, end) else s[b - 1];
    }
  }

  ghost predicate ClearAt(s: seq<Region>, base: int, size: int) {
    Clear(s, base, base + size)
  }

  /** base is the least address from one page on where size bytes miss every region. */
  ghost predicate Least(s: seq<Region>, base: int, size: int) {
    && base >= PAGE_SIZE_4K && ClearAt(s, base, size)
    && forall b :: PAGE_SIZE_4K <= b < base ==> !ClearAt(s, b, size)
  }

  /** A region that is there twice overlaps itself. */
  lemma TwiceUnsorted(s: seq<Region>, r: Region)
    requires r.base < r.end && multiset(s)[r] >= 2
    ensures !Sorted(s)
  {
    var i :| 0 <= i < |s| && s[i] == r;
    var t := s[..i] + s[i + 1..];
    assert s == s[..i] + [s[i]] + s[i + 1..];
    assert multiset(s) == multiset(t) + multiset{r};
    assert r in t;
    var j :| 0 <= j < |t| && t[j] == r;
    var k := if j < i then j else j + 1;
    assert s[k] == r && k != i;
  }

  datatype Outcome = Allocated(base: int) | NoRoom | Faulted

  class RegionSpace {
    var list: List

    /** The walk of space_alloc_region: where the range goes and before which node. */
    method Search(size: int) returns (base: int, i: nat)
      requires Sorted(list.chain) && size > 0
      ensures Least(list.chain, base, size) && Place(list.chain, i, base, base + size)
    {
      ghost var s := list.chain;
      base := PAGE_SIZE_4K;
      var end := base + size;
      i := 0;
      while i < |list.chain|
        invariant i <= |s| && list.chain == s && end == base + size && base >= PAGE_SIZE_4K
        invariant forall k :: 0 <= k < i ==> s[k].end <= base
        invariant forall b :: PAGE_SIZE_4K <= b < base ==> !ClearAt(s, b, size)
      {
        var region := list.chain[i];
        if region.base >= end {
          PlaceSorts(s, i, base, end);
          return;
        }
        ghost var base0 := base;
        if base >= region.base && base < region.end {
          base := region.end;
          end := base + size;
        }
        if end > region.base && end <= region.end {
          base := region.end;
          end := base + size;
        }
        if base < region.base && end > region.end {
          base := region.end;
          end := base + size;
        }
        forall b | base0 <= b < base ensures !ClearAt(s, b, size) {
          assert !Misses(s[i], b, b + size);
        }
        i := i + 1;
      }
      PlaceSorts(s, i, base, end);
    }

    /** space_alloc_region: b is the least free base and i its place. The list is left sorted and
        disjoint exactly when i is not the counter of a longer list. */
    method Alloc(size: int) returns (r: Outcome, ghost b: int, ghost i: nat)
      requires Sorted(list.chain) && size > 0 && list.cnt <= |list.chain|
      modifies this
      ensures Least(old(list).chain, b, size) && Place(old(list).chain, i, b, b + size)
      ensures r == if i < |old(list).chain| then (if i > old(list).cnt then Faulted else Allocated(b))
                   else if b + size < KERNEL_VIRTUAL_ADDR then Allocated(b) else NoRoom
      ensures r.NoRoom? ==>
        forall c :: PAGE_SIZE_4K <= c && c + size < KERNEL_VIRTUAL_ADDR ==> !ClearAt(old(list).chain, c, size)
      ensures !r.Allocated? ==> list == old(list)
      ensures r.Allocated? ==> Ok(list) == if i < |old(list).chain| then Insert(old(list), Region(b, b + size), i)
                                           else Ok(PushBack(old(list), Region(b, b + size)))
      ensures r.Allocated? && (i < old(list).cnt || i == |old(list).chain|) ==>
        list.chain == Inserted(old(list).chain, Region(b, b + size), i)
      ensures Sorted(list.chain) <==> !(i == old(list).cnt < |old(list).chain|)
    {
      ghost var s := list.chain;
      var base, k := Search(size);
      b, i := base, k;
      var newreg := Region(base, base + size);
      PlaceSorts(s, k, base, base + size);
      if k < |list.chain| {
        InsertExact(list, newreg, k);
        match Insert(list, newreg, k) {
          case Crash =>
            r := Faulted;
          case Ok(l) =>
            if i == list.cnt {
              TwiceUnsorted(l.chain, newreg);
            }
            list := l;
            r := Allocated(base);
        }
      } else if base + size < KERNEL_VIRTUAL_ADDR {
        list := PushBack(list, newreg);
        assert list.chain == Inserted(s, newreg, |s|);
        r := Allocated(base);
      } else {
        r := NoRoom;
      }
    }

    /** The first node whose region starts at or after end, or the end of the list. */
    method FirstFrom(end: int) returns (k: nat)
      ensures k <= |list.chain| && (forall j :: 0 <= j < k ==> list.chain[j].base < end)
      ensures k < |list.chain| ==> end <= list.chain[k].base
    {
      k := 0;
      while k < |list.chain| && list.chain[k].base < end
        invariant k <= |list.chain| && forall j :: 0 <= j < k ==> list.chain[j].base < end
      {
        k := k + 1;
      }
    }

    /** space_alloc_region_at: no overlap is looked for, so the list stays sorted and disjoint
        exactly when the range was free and the insertion did not meet the counter. */
    method AllocAt(base: int, size: int) returns (ok: bool, ghost i: nat)
      requires Sorted(list.chain) && size > 0 && list.cnt <= |list.chain|
      modifies this
      ensures i <= |old(list).chain| && ok == (i <= old(list).cnt || i == |old(list).chain|)
      ensures i < |old(list).chain| ==> base + size <= old(list).chain[i].base
      ensures !ok ==> list == old(list)
      ensures ok ==> Ok(list) == if i < |old(list).chain| then Insert(old(list), Region(base, base + size), i)
                                 else Ok(PushBack(old(list), Region(base, base + size)))
      ensures ok && (i < old(list).cnt || i == |old(list).chain|) ==>
        && list.chain == Inserted(old(list).chain, Region(base, base + size), i)
        && (Sorted(list.chain) <==> ClearAt(old(list).chain, base, size))
      ensures i == old(list).cnt < |old(list).chain| ==> !Sorted(list.chain)
    {
      ghost var s := list.chain;
      var newreg := Region(base, base + size);
      var k := FirstFrom(base + size);
      i := k;
      InsertedSorted(s, k, base, size);
      if k < |list.chain| {
        InsertExact(list, newreg, k);
        match Insert(list, newreg, k) {
          case Crash =>
            ok := false;
          case Ok(l) =>
            if i == list.cnt {
              TwiceUnsorted(l.chain, newreg);
            }
            list := l;
            ok := true;
        }
      } else {
        list := PushBack(list, newreg);
        assert list.chain == Inserted(s, newreg, |s|);
        ok := true;
      }
    }
  }

  lemma InsertedSorted(s: seq<Region>, i: nat, base: int, size: int)
    requires Sorted(s) && size > 0 && i <= |s|
    requires forall j :: 0 <= j < i ==> s[j].base < base + size
    requires i < |s| ==> base + size <= s[i].base
    ensures Sorted(Inserted(s, Region(base, base + size), i)) <==> ClearAt(s, base, size)
  {
    var t := Inserted(s, Region(base, base + size), i);
    if ClearAt(s, base, size) {
      forall j | 0 <= j < i ensures s[j].end <= base {
        assert Misses(s[j], base, base + size);
      }
      PlaceSorts(s, i, base, base + size);
    }
    if Sorted(t) {
      forall j | 0 <= j < |s| ensures Misses(s[j], base, base + size) {
        if j < i {
          assert t[j] == s[j] && t[i] == Region(base, base + size);
        } else {
          assert t[j + 1] == s[j] && t[i] == Region(base, base + size);
        }
      }
    }
  }

  /** A region at 64 KiB, and the two pages below it that are handed out first. */
  const FAR := Region(0x10000, 0x11000)
  const LOW := Region(4096, 8192)
  const NEXT := Region(8192, 12288)

  lemma LowFound(b: int, i: nat)
    requires Least([FAR], b, 4096) && Place([FAR], i, b, b + 4096)
    ensures b == 4096 && i == 0 && Insert(List([FAR], 1), LOW, 0) == Ok(List([LOW, FAR], 1))
  {
    assert ClearAt([FAR], 4096, 4096);
    assert [FAR][0] == FAR && [FAR][..0] + [LOW] + [FAR][0..] == [LOW, FAR];
  }

  lemma NextFound(b: int, i: nat)
    requires Least([LOW, FAR], b, 4096) && Place([LOW, FAR], i, b, b + 4096)
    ensures b == 8192 && i == 1 && Insert(List([LOW, FAR], 1), NEXT, 1) == Ok(List([LOW, NEXT, FAR, NEXT], 2))
  {
    var s := [LOW, FAR];
    assert ClearAt(s, 8192, 4096);
    assert s[0] == LOW && s[1] == FAR;
    var l := PushBack(List(s, 1), NEXT);
    assert l.chain == [LOW, FAR, NEXT] && l.chain[..1] + [NEXT] + l.chain[1..] == [LOW, NEXT, FAR, NEXT];
  }

  method PlaceLow(space: RegionSpace)
    requires space.list == List([FAR], 1)
    modifies space
    ensures space.list == List([LOW, FAR], 1)
  {
    var _, b, i := space.Alloc(4096);
    LowFound(b, i);
  }

  method PlaceNext(space: RegionSpace)
    requires space.list == List([LOW, FAR], 1)
    modifies space
    ensures space.list == List([LOW, NEXT, FAR, NEXT], 2) && !Sorted(space.list.chain)
  {
    var _, b, i := space.Alloc(4096);
    NextFound(b, i);
  }

  /** Three calls on a fresh space: a region at 64 KiB, then two of one page each. The first of them
      is inserted without raising the counter, the second meets it and is in the list twice. */
  method Twice(space: RegionSpace)
    requires space.list == List([], 0)
    modifies space
    ensures space.list.chain == [LOW, NEXT, FAR, NEXT] && !Sorted(space.list.chain)
  {
    var _, _ := space.AllocAt(0x10000, 0x1000);
    assert space.list.chain == [FAR];
    PlaceLow(space);
    PlaceNext(space);
  }
}
