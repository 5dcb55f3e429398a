/** fs/vfs/path.c and mem/kheap.c: the buffers strsplit copies its parts to have no byte for the
    terminator; whether that byte is in the block that kmalloc returns depends on the rounding. */
module PathBuffers {
  import opened Division
  import opened HeapBlocks
  import opened KernelHeap
  import opened Tokens

  /** size bytes from kmalloc hold a string of n characters and its terminator. */
  predicate HoldsText(size: nat, n: nat) {
    n + 1 <= RoundUp(size)
  }

  // ---------------------------------------------------------------- all copies of a call

  /** A part is as long as the text only when the text has no separator. */
  lemma {:induction false} PartsShort(c: char, cur: string, s: string)
    ensures forall k :: 0 <= k < |Fields(c, cur, s)| ==> |Fields(c, cur, s)[k]| <= |cur| + |s|
    ensures c in s ==> forall k :: 0 <= k < |Fields(c, cur, s)| ==> |Fields(c, cur, s)[k]| < |cur| + |s|
    decreases |s|
  {
    if s != "" {
      if s[0] == c {
        PartsShort(c, "", s[1..]);
      } else {
        PartsShort(c, cur + [s[0]], s[1..]);
      }
    }
  }

  /** Every part is collected in one buffer of |str| bytes and copied to one of its own length. All of
      it stays inside the blocks exactly when no part has a length that is a multiple of 16. */
  lemma SplitStays(str: string, c: char)
    requires |str| <= SIZE_T - ALIGN
    ensures var parts := Fields(c, "", str);
      (forall k :: 0 <= k < |parts| ==> HoldsText(|str|, |parts[k]|) && HoldsText(|parts[k]|, |parts[k]|)) <==>
      (forall k :: 0 <= k < |parts| ==> |parts[k]| % ALIGN != 0)
  {
    var parts := Fields(c, "", str);
    PartsShort(c, "", str);
    forall k | 0 <= k < |parts|
      ensures HoldsText(|parts[k]|, |parts[k]|) <==> |parts[k]| % ALIGN != 0
      ensures |parts[k]| % ALIGN != 0 ==> HoldsText(|str|, |parts[k]|)
    {
      OwnBuffer(|parts[k]|);
      if |parts[k]| % ALIGN != 0 {
        LongerBuffer(|str|, |parts[k]|);
      }
    }
  }

  lemma OwnBuffer(n: nat)
    requires n <= SIZE_T - ALIGN
    ensures HoldsText(n, n) <==> n % ALIGN != 0
  {
    RoundUpSound(n);
  }

  lemma LongerBuffer(size: nat, n: nat)
    requires n <= size <= SIZE_T - ALIGN && n % ALIGN != 0
    ensures HoldsText(size, n)
  {
    RoundUpSound(size);
  }

  // ---------------------------------------------------------------- where the byte goes

  /** The terminator of a copy of n characters lies in the block kmalloc(n) took exactly when n is not a
      multiple of 16; otherwise it is the first byte behind the block, which is the first byte of the
      next header if there is one. */
  lemma TerminatorPlace(s: Blocks, n: int)
    requires WellFormed(s) && Coalesced(s) && 0 < n <= MAX_REQUEST
    ensures RoundUp(n) % ALIGN == 0 && RoundUp(n) >= 0
    ensures var (t, i, _) := Kmalloc(s, RoundUp(n));
      && i < |t| && WellFormed(t)
      && var at := t[i].addr + HEADER + n;
      && (at < t[i].addr + HEADER + t[i].len <==> n % ALIGN != 0)
      && (n % ALIGN == 0 && i + 1 < |t| ==> at == t[i + 1].addr + LEN)
      && (n % ALIGN == 0 && i + 1 == |t| ==> at == End(t))
  {
    RoundUpSound(n);
    KmallocGrants(s, RoundUp(n));
    Behind(Kmalloc(s, RoundUp(n)).0, Kmalloc(s, RoundUp(n)).1, n);
  }

  lemma Behind(t: Blocks, i: nat, n: int)
    requires WellFormed(t) && i < |t| && 0 < n <= MAX_REQUEST && t[i].len == RoundUp(n)
    ensures var at := t[i].addr + HEADER + n;
      && (at < t[i].addr + HEADER + t[i].len <==> n % ALIGN != 0)
      && (n % ALIGN == 0 && i + 1 < |t| ==> at == t[i + 1].addr + LEN)
      && (n % ALIGN == 0 && i + 1 == |t| ==> at == End(t))
  {
    RoundUpSound(n);
    if i + 1 < |t| {
      assert t[i + 1].addr == t[i].addr + HEADER + t[i].len;
    }
  }

  /** A word whose first byte was cleared, on a machine that stores the low byte first. */
  function LowCleared(x: int): int { x - x % 256 }

  lemma LowClearedIs(x: int)
    requires x >= 0
    ensures 0 <= LowCleared(x) && LowCleared(x) % ALIGN == 0 && (LowCleared(x) == x <==> x % 256 == 0)
  {
    assert LowCleared(x) == x / 256 * 256;
    Locate(ALIGN, x / 256 * 16, 0);
  }

  /** The block list after its header k lost that byte of its length. */
  function Shortened(s: Blocks, k: nat): Blocks
    requires k < |s|
  {
    s[k := s[k].(len := LowCleared(s[k].len))]
  }

  /** What memory holds then: the links are as they were and the length is the shorter one. */
  lemma ShortenedLinked(m: Memory, s: Blocks, k: nat, m': Memory)
    requires Represents(m, s) && k < |s| && m' == m[s[k].addr + LEN := LowCleared(s[k].len)]
    ensures forall j :: 0 <= j < |s| ==> Linked(m', Shortened(s, k), j)
  {
    forall j | 0 <= j < |s| ensures Linked(m', Shortened(s, k), j) {
      assert Linked(m, s, j);
      if j != k {
        HeadersClear(s, j, k);
      }
    }
  }

  /** The heap is still tiled exactly when the length was a multiple of 256 or the block is the last,
      whose end is then that much lower. */
  lemma ShortenedTiled(s: Blocks, k: nat)
    requires WellFormed(s) && k < |s|
    ensures WellFormed(Shortened(s, k)) <==> s[k].len % 256 == 0 || k + 1 == |s|
    ensures k + 1 == |s| ==> End(Shortened(s, k)) == End(s) - s[k].len % 256
  {
    var u := Shortened(s, k);
    LowClearedIs(s[k].len);
    if k + 1 < |s| {
      assert u[k + 1].addr == s[k].addr + HEADER + s[k].len;
      assert Tiled(u) ==> u[k + 1].addr == u[k].addr + HEADER + u[k].len;
      assert s[k].len % 256 == 0 ==> u == s;
    }
  }

  /** On a fresh heap: a part of sixteen characters is copied to the first block, and the heap behind it
      loses the 48 bytes it had. */
  lemma ShortenedFresh(addr: int)
    requires addr > 0 && addr % ALIGN == 0
    ensures var s := [Block(addr, 0, true)];
      && WellFormed(s) && Coalesced(s)
      && var t := Kmalloc(s, RoundUp(16)).0;
      && t == [Block(addr, 16, false), Block(addr + 48, 48, true)]
      && Shortened(t, 1) == [Block(addr, 16, false), Block(addr + 48, 0, true)] && End(Shortened(t, 1)) == End(t) - 48
  {
    FirstNeighbours(addr);
  }
}
