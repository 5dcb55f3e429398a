/** mem/kheap.c: which block kmalloc hands out, said by what can be done with the block list at all. */
module HeapChoice {
  import opened HeapBlocks

  /** The blocks `mid`, an n-byte block in use followed by nothing or by one free block of at least 16
      bytes, can stand in place of block i: the tiling and both ends of the heap stay. */
  ghost predicate Replaceable(s: Blocks, i: nat, n: int, mid: Blocks)
    requires i < |s|
  {
    && |mid| > 0 && !mid[0].free && mid[0].len == n
    && (|mid| == 1 || (|mid| == 2 && mid[1].free && mid[1].len >= ALIGN))
    && var t := s[..i] + mid + s[i + 1..];
       WellFormed(t) && t[0].addr == s[0].addr && End(t) == End(s)
  }

  /** Block i is free and has room for a block of n bytes. */
  ghost predicate CanServe(s: Blocks, i: nat, n: int)
    requires i < |s|
  {
    s[i].free && exists mid :: Replaceable(s, i, n, mid)
  }

  /** What replaces block i covers exactly the bytes of block i. */
  lemma SameBytes(s: Blocks, i: nat, n: int, mid: Blocks)
    requires WellFormed(s) && i < |s| && Replaceable(s, i, n, mid)
    ensures mid[0].addr == s[i].addr && End(mid) == s[i].addr + HEADER + s[i].len
    ensures |mid| == 2 ==> mid[1].addr == mid[0].addr + HEADER + n
  {
    var t := s[..i] + mid + s[i + 1..];
    var j := i + |mid|;
    assert t[i] == mid[0] && t[j - 1] == mid[|mid| - 1];
    if i > 0 {
      assert t[i - 1] == s[i - 1] && s[i].addr == s[i - 1].addr + HEADER + s[i - 1].len;
    }
    if i + 1 < |s| {
      assert t[j] == s[i + 1] && s[i + 1].addr == s[i].addr + HEADER + s[i].len;
    }
    assert |mid| == 2 ==> t[i + 1] == mid[1];
  }

  /** A block that kmalloc accepts is one that can be replaced, and the other way round. */
  lemma AcceptedServes(s: Blocks, i: nat, n: int)
    requires WellFormed(s) && i < |s| && n >= ALIGN && n % ALIGN == 0
    ensures Fits(s[i], n) <==> CanServe(s, i, n)
    ensures Fits(s[i], n) ==> Replaceable(s, i, n, Cut(s[i], n))
  {
    if Fits(s[i], n) {
      TakeCuts(s, i, n);
      TakeKeeps(s, i, n);
      assert s[i].len > n + HEADER ==> s[i].len - n - HEADER >= ALIGN;
      assert Replaceable(s, i, n, Cut(s[i], n));
    }
    if CanServe(s, i, n) {
      var mid :| Replaceable(s, i, n, mid);
      SameBytes(s, i, n, mid);
    }
  }

  lemma AllAcceptedServe(s: Blocks, n: int)
    requires WellFormed(s) && n >= ALIGN && n % ALIGN == 0
    ensures forall i :: 0 <= i < |s| ==> (Fits(s[i], n) <==> CanServe(s, i, n))
  {
    forall i | 0 <= i < |s| ensures Fits(s[i], n) <==> CanServe(s, i, n) {
      AcceptedServes(s, i, n);
    }
  }

  /** kmalloc expands the heap exactly when no free block has room for the request; otherwise it hands
      out the lowest block that has, cut to size in place. */
  lemma KmallocChoice(s: Blocks, n: int)
    requires WellFormed(s) && n >= ALIGN && n % ALIGN == 0
    ensures var (t, i, e) := Kmalloc(s, n);
      && (e > 0 <==> forall k :: 0 <= k < |s| ==> !CanServe(s, k, n))
      && (e == 0 ==> i < |s| && CanServe(s, i, n) && (forall k :: 0 <= k < i ==> !CanServe(s, k, n)))
      && (e == 0 ==> exists mid :: Replaceable(s, i, n, mid) && t == s[..i] + mid + s[i + 1..])
  {
    KmallocBounded(s, n);
    AllAcceptedServe(s, n);
    var f := FirstFit(s, n, 0);
    if f.Some? {
      AcceptedServes(s, f.value, n);
      TakeCuts(s, f.value, n);
    }
  }

  /** A request for no bytes goes to the lowest free block that is empty or longer than a header, whole. */
  lemma KmallocNothing(s: Blocks)
    requires WellFormed(s)
    ensures var (t, i, e) := Kmalloc(s, 0);
      && (e > 0 <==> forall b :: b in s && b.free ==> 0 < b.len <= HEADER)
      && (e == 0 ==> i < |s| && s[i].free && t == s[i := s[i].(free := false)])
      && (e == 0 ==> forall b :: b in s[..i] && b.free ==> 0 < b.len <= HEADER)
      && (e == 0 ==> s[i].len == 0 || s[i].len > HEADER)
  {
    KmallocBounded(s, 0);
  }

  /** When nothing has room, the block handed out is cut from the tail that the expansions grew: every
      block below it is a block of the old heap, unchanged. */
  lemma {:induction false} KmallocAtEnd(s: Blocks, n: int)
    requires WellFormed(s) && n >= 0 && n % ALIGN == 0 && Kmalloc(s, n).2 > 0
    ensures var (t, i, e) := Kmalloc(s, n);
      && |s| - 1 <= i <= |s| && i < |t| && t[..i] == s[..i]
      && t[i].addr == if s[|s| - 1].free then s[|s| - 1].addr else End(s)
    decreases Retries(s, n)
  {
    KmallocBounded(s, n);
    KmallocGrows(s, n);
    ExpandServes(s, n);
    var r := Expand(s, n);
    if Kmalloc(r, n).2 > 0 {
      KmallocAtEnd(r, n);
    } else {
      KmallocBounded(r, n);
      TakeCuts(r, |r| - 1, n);
    }
  }
}
