/** The kernel heap seen as a sequence of adjacent blocks in address order, and
    the effect of every lock-protected section of the allocator on it. */
module HeapBlocks {
  import opened Options

  // sizeof(heap_block_t): len, free, prev and next, eight bytes each after padding
  const HEADER := 32
  const ALIGN := 16
  const SIZE_T := 0x1_0000_0000_0000_0000

  datatype Block = Block(addr: int, len: int, free: bool)

  type Blocks = seq<Block>

  // ---------------------------------------------------------------- the invariant

  /** Each block starts where the payload of the one before it ends. */
  ghost predicate Tiled(s: Blocks) {
    forall i, j :: 0 <= i && j == i + 1 && j < |s| ==> s[j].addr == s[i].addr + HEADER + s[i].len
  }

  ghost predicate WellFormed(s: Blocks) {
    && |s| > 0
    && s[0].addr > 0 && s[0].addr % ALIGN == 0
    && Tiled(s)
    && (forall i :: 0 <= i < |s| ==> s[i].len >= 0 && s[i].len % ALIGN == 0)
  }

  /** No two neighbours are both free. */
  ghost predicate Coalesced(s: Blocks) {
    forall i, j :: 0 <= i && j == i + 1 && j < |s| ==> !s[i].free || !s[j].free
  }

  function End(s: Blocks): int
    requires |s| > 0
  {
    s[|s| - 1].addr + HEADER + s[|s| - 1].len
  }

  lemma {:induction false} Ordered(s: Blocks, i: nat, j: nat)
    requires WellFormed(s) && i < j < |s|
    ensures s[i].addr + HEADER + s[i].len <= s[j].addr
  {
    if i + 1 < j {
      Ordered(s, i, j - 1);
    }
  }

  lemma {:induction false} Aligned(s: Blocks, i: nat)
    requires WellFormed(s) && i < |s|
    ensures s[i].addr % ALIGN == 0 && s[i].addr >= s[0].addr
  {
    if i > 0 {
      Aligned(s, i - 1);
    }
  }

  lemma AllOrdered(s: Blocks)
    requires WellFormed(s)
    ensures forall i, j :: 0 <= i < j < |s| ==> s[i].addr + HEADER + s[i].len <= s[j].addr
    ensures forall i :: 0 <= i < |s| ==> s[i].addr % ALIGN == 0 && s[i].addr >= s[0].addr
  {
    forall i, j | 0 <= i < j < |s| ensures s[i].addr + HEADER + s[i].len <= s[j].addr {
      Ordered(s, i, j);
    }
    forall i | 0 <= i < |s| ensures s[i].addr % ALIGN == 0 && s[i].addr >= s[0].addr {
      Aligned(s, i);
    }
  }

  // ---------------------------------------------------------------- the sections

  function SetFree(s: Blocks, i: nat, free: bool): Blocks
    requires i < |s|
  {
    s[i := s[i].(free := free)]
  }

  /** heap_combine_forward: absorb the following block when it is free. */
  function CombineForward(s: Blocks, i: nat): Blocks
    requires i < |s|
  {
    if i + 1 < |s| && s[i + 1].free then
      s[..i] + [s[i].(len := s[i].len + s[i + 1].len + HEADER)] + s[i + 2..]
    else s
  }

  /** heap_combine_back: let a free predecessor absorb this block. */
  function CombineBack(s: Blocks, i: nat): Blocks
    requires i < |s|
  {
    if i > 0 && s[i - 1].free then CombineForward(s, i - 1) else s
  }

  /** heap_split_block: cut a block in two unless either part would be under 16 bytes. */
  function Split(s: Blocks, i: nat, n: int): Blocks
    requires i < |s|
  {
    if n < ALIGN || s[i].len - n - HEADER < ALIGN then s
    else
      s[..i] + [s[i].(len := n), Block(s[i].addr + n + HEADER, s[i].len - n - HEADER, s[i].free)] + s[i + 1..]
  }

  predicate Fits(b: Block, n: int) {
    b.free && (b.len > n + HEADER || b.len == n)
  }

  /** The first block at or after `from` that a request for n bytes accepts. */
  function FirstFit(s: Blocks, n: int, from: nat): (r: Option<nat>)
    requires from <= |s|
    ensures r.Some? ==> from <= r.value < |s| && Fits(s[r.value], n)
    ensures r.Some? ==> forall k :: from <= k < r.value ==> !Fits(s[k], n)
    ensures r.None? ==> forall k :: from <= k < |s| ==> !Fits(s[k], n)
    decreases |s| - from
  {
    if from == |s| then None
    else if Fits(s[from], n) then Some(from)
    else FirstFit(s, n, from + 1)
  }

  /** The block kmalloc hands out, cut to size when it is larger than needed. */
  function Take(s: Blocks, i: nat, n: int): Blocks
    requires i < |s| && Fits(s[i], n)
  {
    SetFree(if s[i].len > n + HEADER then Split(s, i, n) else s, i, false)
  }

  /** kfree. */
  function Release(s: Blocks, i: nat): Blocks
    requires i < |s|
  {
    CombineBack(CombineForward(SetFree(s, i, true), i), i)
  }

  /** kheap_expand. */
  function Expand(s: Blocks, n: int): Blocks
    requires |s| > 0
  {
    CombineBack(s + [Block(End(s), n, true)], |s|)
  }

  // ---------------------------------------------------------------- rounding

  /** kmalloc's rounding, in 64-bit arithmetic. */
  function RoundUp(n: int): int {
    if n % ALIGN != 0 then (n - n % ALIGN + ALIGN) % SIZE_T else n
  }

  /** The rounding never loses bytes except in the last fifteen sizes, which wrap to zero. */
  lemma RoundUpSound(n: int)
    requires 0 <= n < SIZE_T
    ensures RoundUp(n) % ALIGN == 0 && 0 <= RoundUp(n) < SIZE_T
    ensures n <= RoundUp(n) < n + ALIGN <==> n <= SIZE_T - ALIGN
    ensures n > SIZE_T - ALIGN ==> RoundUp(n) == 0
  {
    if n % ALIGN != 0 && n > SIZE_T - ALIGN {
      assert n - n % ALIGN + ALIGN == SIZE_T;
    }
  }

  // ---------------------------------------------------------------- what the sections keep

  /** Replacing the blocks i..j by blocks that cover the same range keeps the tiling. */
  lemma Replace(s: Blocks, i: nat, j: nat, mid: Blocks, t: Blocks)
    requires WellFormed(s) && i < j <= |s| && t == s[..i] + mid + s[j..]
    requires WellFormed(mid) && mid[0].addr == s[i].addr
    requires End(mid) == s[j - 1].addr + HEADER + s[j - 1].len
    ensures WellFormed(t) && End(t) == End(s) && t[0].addr == s[0].addr
  {
    var m := |mid|;
    forall a, b | 0 <= a && b == a + 1 && b < |t|
      ensures t[b].addr == t[a].addr + HEADER + t[a].len
    {
      if b < i {
        assert t[a] == s[a] && t[b] == s[b];
      } else if b == i {
        assert t[a] == s[a] && t[b] == mid[0];
      } else if b < i + m {
        assert t[a] == mid[a - i] && t[b] == mid[b - i];
      } else if b == i + m {
        assert t[a] == mid[m - 1] && t[b] == s[j];
      } else {
        assert t[a] == s[a - i - m + j] && t[b] == s[b - i - m + j];
      }
    }
  }

  lemma SplitKeeps(s: Blocks, i: nat, n: int)
    requires WellFormed(s) && i < |s| && n % ALIGN == 0
    ensures WellFormed(Split(s, i, n)) && End(Split(s, i, n)) == End(s)
    ensures Split(s, i, n)[0].addr == s[0].addr
  {
    if !(n < ALIGN || s[i].len - n - HEADER < ALIGN) {
      Aligned(s, i);
      var mid := [s[i].(len := n), Block(s[i].addr + n + HEADER, s[i].len - n - HEADER, s[i].free)];
      Replace(s, i, i + 1, mid, Split(s, i, n));
    }
  }

  lemma CombineForwardKeeps(s: Blocks, i: nat)
    requires WellFormed(s) && i < |s|
    ensures WellFormed(CombineForward(s, i)) && End(CombineForward(s, i)) == End(s)
    ensures CombineForward(s, i)[0].addr == s[0].addr
  {
    if i + 1 < |s| && s[i + 1].free {
      Aligned(s, i);
      var mid := [s[i].(len := s[i].len + s[i + 1].len + HEADER)];
      OneBlock(s[i].addr, s[i].len + s[i + 1].len + HEADER, s[i].free);
      assert s[i + 1].addr == s[i].addr + HEADER + s[i].len;
      Replace(s, i, i + 2, mid, CombineForward(s, i));
    }
  }

  lemma OneBlock(addr: int, len: int, free: bool)
    requires addr > 0 && addr % ALIGN == 0 && len >= 0 && len % ALIGN == 0
    ensures WellFormed([Block(addr, len, free)]) && End([Block(addr, len, free)]) == addr + HEADER + len
  {
  }

  lemma SetFreeKeeps(s: Blocks, i: nat, free: bool)
    requires WellFormed(s) && i < |s|
    ensures WellFormed(SetFree(s, i, free)) && End(SetFree(s, i, free)) == End(s)
    ensures SetFree(s, i, free)[0].addr == s[0].addr
  {
  }

  lemma TakeKeeps(s: Blocks, i: nat, n: int)
    requires WellFormed(s) && i < |s| && Fits(s[i], n) && n % ALIGN == 0
    ensures WellFormed(Take(s, i, n)) && End(Take(s, i, n)) == End(s)
    ensures Take(s, i, n)[0].addr == s[0].addr
  {
    SplitKeeps(s, i, n);
    SetFreeKeeps(if s[i].len > n + HEADER then Split(s, i, n) else s, i, false);
  }

  lemma ReleaseKeeps(s: Blocks, i: nat)
    requires WellFormed(s) && i < |s|
    ensures WellFormed(Release(s, i)) && End(Release(s, i)) == End(s)
    ensures Release(s, i)[0].addr == s[0].addr
  {
    var t := SetFree(s, i, true);
    SetFreeKeeps(s, i, true);
    CombineForwardKeeps(t, i);
    if i > 0 {
      CombineForwardKeeps(CombineForward(t, i), i - 1);
    }
  }

  lemma AppendKeeps(s: Blocks, n: int)
    requires WellFormed(s) && n >= 0 && n % ALIGN == 0
    ensures WellFormed(s + [Block(End(s), n, true)])
  {
  }

  lemma ExpandKeeps(s: Blocks, n: int)
    requires WellFormed(s) && n >= 0 && n % ALIGN == 0
    ensures WellFormed(Expand(s, n)) && End(Expand(s, n)) == End(s) + HEADER + n
    ensures Expand(s, n)[0].addr == s[0].addr
  {
    AppendKeeps(s, n);
    CombineForwardKeeps(s + [Block(End(s), n, true)], |s| - 1);
  }

  // ---------------------------------------------------------------- full coalescing

  lemma TakeCoalesced(s: Blocks, i: nat, n: int)
    requires Coalesced(s) && i < |s| && Fits(s[i], n)
    ensures Coalesced(Take(s, i, n))
  {
    var t := Take(s, i, n);
    if |t| == |s| + 1 {
      forall a, b | 0 <= a && b == a + 1 && b < |t| ensures !t[a].free || !t[b].free {
        if b < i {
          assert t[a] == s[a] && t[b] == s[b];
        } else if a > i {
          assert t[b] == s[b - 1];
          assert t[a].free == s[a - 1].free;
        }
      }
    }
  }

  /** No free pair except perhaps one whose second block is i. */
  ghost predicate AlmostCoalesced(t: Blocks, i: int) {
    forall a, b :: 0 <= a && b == a + 1 && b < |t| && b != i ==> !t[a].free || !t[b].free
  }

  lemma ForwardAlmost(s: Blocks, i: nat)
    requires Coalesced(s) && i < |s|
    ensures AlmostCoalesced(CombineForward(SetFree(s, i, true), i), i)
  {
    var t := CombineForward(SetFree(s, i, true), i);
    var d := |s| - |t|;
    assert forall k :: 0 <= k < i ==> t[k] == s[k];
    assert forall k :: i < k < |t| ==> t[k] == s[k + d];
    forall a, b | 0 <= a && b == a + 1 && b < |t| && b != i ensures !t[a].free || !t[b].free {
      if a == i {
        assert d == 1 ==> s[i + 1].free && t[b] == s[i + 2];
      } else if a > i {
        assert t[a] == s[a + d] && t[b] == s[b + d];
      }
    }
  }

  lemma BackCoalesced(t: Blocks, i: nat)
    requires AlmostCoalesced(t, i) && i < |t| && t[i].free && (i >= 2 && t[i - 1].free ==> !t[i - 2].free)
    ensures Coalesced(CombineBack(t, i))
  {
    var r := CombineBack(t, i);
    if |r| < |t| {
      assert forall k :: 0 <= k < i - 1 ==> r[k] == t[k];
      assert forall k :: i - 1 < k < |r| ==> r[k] == t[k + 1];
      forall a, b | 0 <= a && b == a + 1 && b < |r| ensures !r[a].free || !r[b].free {
        if a >= i {
          assert r[a] == t[a + 1] && r[b] == t[b + 1];
        }
      }
    }
  }

  /** Freeing a block and absorbing its free neighbours leaves no free pair behind. */
  lemma ReleaseCoalesced(s: Blocks, i: nat)
    requires Coalesced(s) && i < |s|
    ensures Coalesced(Release(s, i))
  {
    ForwardAlmost(s, i);
    BackCoalesced(CombineForward(SetFree(s, i, true), i), i);
  }

  lemma ExpandCoalesced(s: Blocks, n: int)
    requires Coalesced(s) && |s| > 0
    ensures Coalesced(Expand(s, n))
  {
    var t := s + [Block(End(s), n, true)];
    var r := Expand(s, n);
    if s[|s| - 1].free {
      assert forall k :: 0 <= k < |s| - 1 ==> r[k] == s[k];
      assert |r| == |s| && r[|s| - 1].free;
    }
  }

  // ---------------------------------------------------------------- the live blocks

  /** The blocks in use. */
  function Live(s: Blocks): set<Block> {
    set b | b in s && !b.free
  }

  /** Headers and payloads of distinct blocks never overlap. */
  ghost predicate Apart(bs: set<Block>) {
    forall b, c :: b in bs && c in bs && b != c ==>
      b.addr + HEADER + b.len <= c.addr || c.addr + HEADER + c.len <= b.addr
  }

  lemma LiveApart(s: Blocks)
    requires WellFormed(s)
    ensures Apart(Live(s))
  {
    AllOrdered(s);
  }

  lemma InSplice(s: Blocks, i: nat, j: nat, mid: Blocks, b: Block)
    requires i <= j <= |s|
    ensures b in s <==> b in s[..i] || b in s[i..j] || b in s[j..]
    ensures b in s[..i] + mid + s[j..] <==> b in s[..i] || b in mid || b in s[j..]
  {
    assert s == s[..i] + s[i..j] + s[j..];
  }

  lemma SpliceLive(s: Blocks, i: nat, j: nat, mid: Blocks)
    requires i <= j <= |s|
    ensures Live(s) == Live(s[..i]) + Live(s[i..j]) + Live(s[j..])
    ensures Live(s[..i] + mid + s[j..]) == Live(s[..i]) + Live(mid) + Live(s[j..])
  {
    forall b ensures b in Live(s) <==> b in Live(s[..i]) + Live(s[i..j]) + Live(s[j..]) {
      InSplice(s, i, j, mid, b);
    }
    forall b ensures b in Live(s[..i] + mid + s[j..]) <==> b in Live(s[..i]) + Live(mid) + Live(s[j..]) {
      InSplice(s, i, j, mid, b);
    }
  }

  /** The length kmalloc hands out: the rounded request, or a whole block when zero bytes are asked. */
  function Granted(s: Blocks, i: nat, n: int): int
    requires i < |s|
  {
    if n == 0 then s[i].len else n
  }

  /** What Take puts in place of block i: the block handed out and perhaps a free remainder. */
  function Cut(b: Block, n: int): Blocks {
    if b.len > n + HEADER && n >= ALIGN then
      [Block(b.addr, n, false), Block(b.addr + n + HEADER, b.len - n - HEADER, b.free)]
    else [b.(free := false)]
  }

  lemma TakeCuts(s: Blocks, i: nat, n: int)
    requires i < |s| && Fits(s[i], n) && s[i].len % ALIGN == 0 && n % ALIGN == 0
    ensures Take(s, i, n) == s[..i] + Cut(s[i], n) + s[i + 1..]
  {
  }

  lemma CutLive(b: Block, n: int)
    requires b.free
    ensures Live(Cut(b, n)) == {Cut(b, n)[0]} && Live([b]) == {}
  {
  }

  /** Taking a block adds exactly one live block, and it lies inside a block that was free. */
  lemma TakeLive(s: Blocks, i: nat, n: int)
    requires WellFormed(s) && i < |s| && Fits(s[i], n) && n >= 0 && n % ALIGN == 0
    ensures i < |Take(s, i, n)| && Take(s, i, n)[i] == Block(s[i].addr, Granted(s, i, n), false)
    ensures Live(Take(s, i, n)) == Live(s) + {Block(s[i].addr, Granted(s, i, n), false)}
    ensures Granted(s, i, n) <= s[i].len
  {
    TakeCuts(s, i, n);
    CutGrants(s, i, n);
    CutLive(s[i], n);
    ReplacedLive(s, i, Cut(s[i], n));
  }

  lemma CutGrants(s: Blocks, i: nat, n: int)
    requires i < |s| && Fits(s[i], n) && s[i].len >= 0 && s[i].len % ALIGN == 0 && n >= 0 && n % ALIGN == 0
    ensures Cut(s[i], n)[0] == Block(s[i].addr, Granted(s, i, n), false) && Granted(s, i, n) <= s[i].len
    ensures (s[..i] + Cut(s[i], n) + s[i + 1..])[i] == Cut(s[i], n)[0]
  {
  }

  lemma ReplacedLive(s: Blocks, i: nat, mid: Blocks)
    requires i < |s| && Live([s[i]]) == {}
    ensures Live(s[..i] + mid + s[i + 1..]) == Live(s) + Live(mid)
  {
    SpliceLive(s, i, i + 1, mid);
    assert s[i..i + 1] == [s[i]];
  }

  lemma CombineForwardLive(s: Blocks, i: nat)
    requires i < |s| && s[i].free
    ensures Live(CombineForward(s, i)) == Live(s)
  {
    if i + 1 < |s| && s[i + 1].free {
      var mid := [s[i].(len := s[i].len + s[i + 1].len + HEADER)];
      SpliceLive(s, i, i + 2, mid);
      assert s[i..i + 2] == [s[i], s[i + 1]];
    }
  }

  /** Freeing removes exactly the freed block from the live ones. */
  lemma ReleaseLive(s: Blocks, i: nat)
    requires WellFormed(s) && i < |s| && !s[i].free
    ensures Live(Release(s, i)) == Live(s) - {s[i]}
  {
    var t := SetFree(s, i, true);
    assert Live(t) == Live(s) - {s[i]} by {
      AllOrdered(s);
    }
    CombineForwardLive(t, i);
    if i > 0 && t[i - 1].free {
      CombineForwardLive(CombineForward(t, i), i - 1);
    }
  }

  lemma ExpandLive(s: Blocks, n: int)
    requires |s| > 0
    ensures Live(Expand(s, n)) == Live(s)
  {
    var t := s + [Block(End(s), n, true)];
    assert Live(t) == Live(s);
    if s[|s| - 1].free {
      CombineForwardLive(t, |s| - 1);
    }
  }

  // ---------------------------------------------------------------- kmalloc as a whole

  /** kfree undoes a kmalloc that needed no expansion: the block list is exactly restored. */
  lemma ReleaseUndoesTake(s: Blocks, i: nat, n: int)
    requires WellFormed(s) && Coalesced(s) && i < |s| && Fits(s[i], n) && n >= 0 && n % ALIGN == 0
    ensures i < |Take(s, i, n)| && Release(Take(s, i, n), i) == s
  {
    var c := if s[i].len > n + HEADER then Split(s, i, n) else s;
    SplitUndone(s, i, n);
    assert SetFree(Take(s, i, n), i, true) == c;
    NothingToMerge(s, i);
  }

  /** The second half of a split block is merged back. */
  lemma SplitUndone(s: Blocks, i: nat, n: int)
    requires i < |s| && s[i].free && Coalesced(s)
    ensures i < |Split(s, i, n)| && Split(s, i, n)[i].free && CombineForward(Split(s, i, n), i) == s
  {
    var t := Split(s, i, n);
    if |t| == |s| + 1 {
      assert t[i + 1].free && t[i].len + t[i + 1].len + HEADER == s[i].len;
      assert t[..i] == s[..i] && t[i + 2..] == s[i + 1..];
      assert s == s[..i] + [s[i]] + s[i + 1..];
    }
  }

  lemma NothingToMerge(s: Blocks, i: nat)
    requires i < |s| && s[i].free && Coalesced(s)
    ensures CombineForward(s, i) == s && CombineBack(s, i) == s
  {
  }

  ghost predicate EmptyFreeTail(s: Blocks)
    requires |s| > 0
  {
    s[|s| - 1].free && s[|s| - 1].len == 0
  }

  /** After one expansion the retry succeeds, at the tail, unless the tail was a free empty block. */
  lemma ExpandServes(s: Blocks, n: int)
    requires WellFormed(s) && n >= 0 && FirstFit(s, n, 0).None?
    ensures FirstFit(Expand(s, n), n, 0).Some? <==> !EmptyFreeTail(s)
    ensures FirstFit(Expand(s, n), n, 0).Some? ==> FirstFit(Expand(s, n), n, 0).value == |Expand(s, n)| - 1
    ensures FirstFit(Expand(s, n), n, 0).None? ==> !EmptyFreeTail(Expand(s, n))
  {
    var r := Expand(s, n);
    assert forall k :: 0 <= k < |r| - 1 ==> r[k] == s[k];
    assert !Fits(s[|s| - 1], n);
  }

  /** kmalloc: search, expand and retry until some block is accepted. */
  function Kmalloc(s: Blocks, n: int): (r: (Blocks, nat, nat))
    requires WellFormed(s) && n >= 0 && n % ALIGN == 0
    decreases Retries(s, n)
  {
    var f := FirstFit(s, n, 0);
    if f.Some? then (Take(s, f.value, n), f.value, 0)
    else
      ExpandKeeps(s, n);
      ExpandServes(s, n);
      var (t, i, e) := Kmalloc(Expand(s, n), n);
      (t, i, e + 1)
  }

  /** How many expansions a request costs. */
  ghost function Retries(s: Blocks, n: int): nat
    requires |s| > 0
  {
    if FirstFit(s, n, 0).Some? then 0 else if EmptyFreeTail(s) then 2 else 1
  }

  /** The expand-and-retry recursion ends after at most two expansions, two exactly when no block
      fits and the tail is free and empty. */
  lemma {:induction false} KmallocBounded(s: Blocks, n: int)
    requires WellFormed(s) && n >= 0 && n % ALIGN == 0
    ensures Kmalloc(s, n).2 <= 2
    ensures Kmalloc(s, n).2 == 0 <==> FirstFit(s, n, 0).Some?
    ensures Kmalloc(s, n).2 == 2 <==> FirstFit(s, n, 0).None? && EmptyFreeTail(s)
    decreases Retries(s, n)
  {
    if FirstFit(s, n, 0).None? {
      ExpandKeeps(s, n);
      ExpandServes(s, n);
      KmallocBounded(Expand(s, n), n);
    }
  }

  /** `t` is `s` with one more live block, t[i], of exactly n bytes when n > 0. */
  ghost predicate Grants(s: Blocks, n: int, t: Blocks, i: nat) {
    && |s| > 0 && WellFormed(t) && t[0].addr == s[0].addr
    && i < |t| && !t[i].free && (n > 0 ==> t[i].len == n)
    && t[i] !in Live(s) && Live(t) == Live(s) + {t[i]}
  }

  lemma TakeGrants(s: Blocks, i: nat, n: int)
    requires WellFormed(s) && i < |s| && Fits(s[i], n) && n >= 0 && n % ALIGN == 0
    ensures Grants(s, n, Take(s, i, n), i)
  {
    TakeKeeps(s, i, n);
    TakeLive(s, i, n);
    TakeNew(s, i, Granted(s, i, n));
  }

  /** kmalloc adds one live block, of exactly the rounded size for n > 0, and moves nothing else. */
  lemma {:induction false} KmallocGrants(s: Blocks, n: int)
    requires WellFormed(s) && n >= 0 && n % ALIGN == 0
    ensures Grants(s, n, Kmalloc(s, n).0, Kmalloc(s, n).1)
    decreases Retries(s, n)
  {
    var f := FirstFit(s, n, 0);
    if f.Some? {
      TakeGrants(s, f.value, n);
    } else {
      ExpandKeeps(s, n);
      ExpandServes(s, n);
      ExpandLive(s, n);
      KmallocGrants(Expand(s, n), n);
    }
  }

  /** The bytes that e expansions add. */
  function Growth(e: nat, n: int): int {
    if e == 0 then 0 else Growth(e - 1, n) + HEADER + n
  }

  lemma {:induction false} GrowthIs(e: nat, n: int)
    ensures Growth(e, n) == e * (HEADER + n)
  {
    if e > 0 {
      GrowthIs(e - 1, n);
      assert e * (HEADER + n) == (e - 1) * (HEADER + n) + (HEADER + n);
    }
  }

  /** A request with no fitting block is the same request after one more expansion. */
  lemma KmallocGrows(s: Blocks, n: int)
    requires WellFormed(s) && n >= 0 && n % ALIGN == 0 && FirstFit(s, n, 0).None?
    ensures WellFormed(Expand(s, n)) && End(Expand(s, n)) == End(s) + HEADER + n
    ensures Retries(Expand(s, n), n) < Retries(s, n)
    ensures var r := Kmalloc(Expand(s, n), n);
      Kmalloc(s, n).0 == r.0 && Kmalloc(s, n).1 == r.1 && Kmalloc(s, n).2 == r.2 + 1
  {
    ExpandKeeps(s, n);
    ExpandServes(s, n);
  }

  lemma KmallocServes(s: Blocks, n: int)
    requires WellFormed(s) && n >= 0 && n % ALIGN == 0 && FirstFit(s, n, 0).Some?
    ensures WellFormed(Kmalloc(s, n).0) && End(Kmalloc(s, n).0) == End(s) && Kmalloc(s, n).2 == 0
  {
    TakeKeeps(s, FirstFit(s, n, 0).value, n);
  }

  lemma {:induction false} KmallocGrowth(s: Blocks, n: int)
    requires WellFormed(s) && n >= 0 && n % ALIGN == 0
    ensures WellFormed(Kmalloc(s, n).0)
    ensures End(Kmalloc(s, n).0) == End(s) + Growth(Kmalloc(s, n).2, n)
    decreases Retries(s, n)
  {
    if FirstFit(s, n, 0).Some? {
      KmallocServes(s, n);
    } else {
      KmallocGrows(s, n);
      KmallocGrowth(Expand(s, n), n);
    }
  }

  /** The heap ends one header and n bytes later for every expansion, and nowhere else. */
  lemma KmallocExtent(s: Blocks, n: int)
    requires WellFormed(s) && n >= 0 && n % ALIGN == 0
    ensures WellFormed(Kmalloc(s, n).0)
    ensures End(Kmalloc(s, n).0) == End(s) + Kmalloc(s, n).2 * (HEADER + n)
  {
    KmallocGrowth(s, n);
    GrowthIs(Kmalloc(s, n).2, n);
  }

  lemma TakeNew(s: Blocks, i: nat, n: int)
    requires WellFormed(s) && i < |s| && s[i].free
    ensures Block(s[i].addr, n, false) !in Live(s)
  {
    AllOrdered(s);
  }

  lemma KmallocCoalesced(s: Blocks, n: int)
    requires WellFormed(s) && n >= 0 && n % ALIGN == 0 && Coalesced(s)
    ensures Coalesced(Kmalloc(s, n).0)
    decreases Retries(s, n)
  {
    var f := FirstFit(s, n, 0);
    if f.Some? {
      TakeCoalesced(s, f.value, n);
    } else {
      ExpandKeeps(s, n);
      ExpandServes(s, n);
      ExpandCoalesced(s, n);
      KmallocCoalesced(Expand(s, n), n);
    }
  }

  lemma FreeTailGrows(front: Blocks, a: int, len: int, n: int)
    ensures Expand(front + [Block(a, len, true)], n) == front + [Block(a, len + HEADER + n, true)]
  {
    var s := front + [Block(a, len, true)];
    var t := s + [Block(End(s), n, true)];
    assert t[..|front|] == front && t[|front|] == Block(a, len, true);
  }

  /** The first two requests of a fresh heap, for 16 and 32 bytes: behind the 16 bytes comes the header
      of the 32-byte block. */
  lemma FirstNeighbours(addr: int)
    requires addr > 0 && addr % ALIGN == 0
    ensures var s := [Block(addr, 0, true)];
      && WellFormed(s)
      && var t := [Block(addr, 16, false), Block(addr + 48, 48, true)];
      && Kmalloc(s, 16).0 == t && Kmalloc(s, 16).1 == 0 && WellFormed(t)
      && Kmalloc(t, 32).0 == [Block(addr, 16, false), Block(addr + 48, 32, false), Block(addr + 112, 48, true)]
      && Kmalloc(t, 32).1 == 1
  {
    var s := [Block(addr, 0, true)];
    var s1, s2 := [Block(addr, 48, true)], [Block(addr, 96, true)];
    FreeTailGrows([], addr, 0, 16);
    FreeTailGrows([], addr, 48, 16);
    assert [] + s == s && [] + s1 == s1 && [] + s2 == s2;
    assert FirstFit(s, 16, 0).None? && FirstFit(s1, 16, 0).None?;
    KmallocGrows(s, 16);
    KmallocGrows(s1, 16);
    assert Fits(s2[0], 16) && FirstFit(s2, 16, 0) == Some(0);
    var t := [Block(addr, 16, false), Block(addr + 48, 48, true)];
    assert Take(s2, 0, 16) == t;
    SecondRequest(addr);
  }

  lemma SecondRequest(addr: int)
    requires addr > 0 && addr % ALIGN == 0
    ensures var t := [Block(addr, 16, false), Block(addr + 48, 48, true)];
      && WellFormed(t) && Kmalloc(t, 32).1 == 1
      && Kmalloc(t, 32).0 == [Block(addr, 16, false), Block(addr + 48, 32, false), Block(addr + 112, 48, true)]
  {
    var a := Block(addr, 16, false);
    var t, t1 := [a, Block(addr + 48, 48, true)], [a, Block(addr + 48, 112, true)];
    FreeTailGrows([a], addr + 48, 48, 32);
    assert [a] + [Block(addr + 48, 48, true)] == t && [a] + [Block(addr + 48, 112, true)] == t1;
    assert FirstFit(t, 32, 0).None?;
    KmallocGrows(t, 32);
    assert !Fits(t1[0], 32) && Fits(t1[1], 32) && FirstFit(t1, 32, 0) == Some(1);
    assert Take(t1, 1, 32) == [a, Block(addr + 48, 32, false), Block(addr + 112, 48, true)];
  }
}
