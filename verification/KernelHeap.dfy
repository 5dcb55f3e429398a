/** mem/kheap.c over raw memory: block headers are four words in the same memory
    that holds the payloads, and every routine reads and writes them in place. */
module KernelHeap {
  import opened PageEntries
  import opened Options
  import opened HeapBlocks

  // Offsets of the heap_block_t fields
  const LEN := 0
  const FREE := 8
  const PREV := 16
  const NEXT := 24

  const WORD := 8

  // Larger requests overflow the size arithmetic of kmalloc
  const MAX_REQUEST := SIZE_T - 64

  /** Memory as 8-byte words, by byte address; an address outside the map was never written. */
  type Memory = map<int, int>

  function Word(m: Memory, a: int): Option<int> {
    if a in m then Some(m[a]) else None
  }

  function Flag(b: bool): int { if b then 1 else 0 }

  function PrevAddr(s: Blocks, k: nat): int
    requires k < |s|
  {
    if k == 0 then 0 else s[k - 1].addr
  }

  function NextAddr(s: Blocks, k: nat): int
    requires k < |s|
  {
    if k + 1 == |s| then 0 else s[k + 1].addr
  }

  ghost predicate HeaderAt(m: Memory, a: int, len: int, free: bool, prev: int, next: int) {
    && Word(m, a + LEN) == Some(len) && Word(m, a + FREE) == Some(Flag(free))
    && Word(m, a + PREV) == Some(prev) && Word(m, a + NEXT) == Some(next)
  }

  /** The header of block k is in memory, with links to both neighbours. */
  ghost predicate Linked(m: Memory, s: Blocks, k: nat)
    requires k < |s|
  {
    HeaderAt(m, s[k].addr, s[k].len, s[k].free, PrevAddr(s, k), NextAddr(s, k))
  }

  /** Memory holds exactly this block list, as a null-terminated doubly linked list. */
  ghost predicate Represents(m: Memory, s: Blocks) {
    && WellFormed(s)
    && forall k :: 0 <= k < |s| ==> Linked(m, s, k)
  }

  /** ... starting at heap_start and ending at last_block. */
  ghost predicate ListAt(m: Memory, start: int, last: int, s: Blocks) {
    Represents(m, s) && start == s[0].addr && last == s[|s| - 1].addr
  }

  predicate InPayload(b: Block, a: int) {
    b.addr + HEADER <= a < b.addr + HEADER + b.len
  }

  /** Word j of the payload at p. */
  function PayloadWord(m: Memory, p: int, j: int): Option<int> {
    Word(m, p + WORD * j)
  }

  ghost predicate Zeroed(m: Memory, p: int, n: int) {
    forall j :: 0 <= j && WORD * j < n ==> PayloadWord(m, p, j) == Some(0)
  }

  /** No word in the payload of these blocks differs. */
  ghost predicate WordsKept(m: Memory, m': Memory, bs: set<Block>) {
    forall b, a :: b in bs && InPayload(b, a) ==> Word(m', a) == Word(m, a)
  }

  // ---------------------------------------------------------------- the list in memory

  /** The extent of block j, header and payload, contains neither header nor payload of another. */
  lemma Outside(s: Blocks, j: nat, x: int, k: nat)
    requires WellFormed(s) && j < |s| && k < |s| && j != k
    requires s[j].addr <= x < s[j].addr + HEADER + s[j].len
    ensures x < s[k].addr || s[k].addr + HEADER + s[k].len <= x
  {
    if j < k {
      Ordered(s, j, k);
    } else {
      Ordered(s, k, j);
    }
  }

  lemma {:induction false} AddrPositive(s: Blocks, k: nat)
    requires WellFormed(s) && k < |s|
    ensures s[k].addr > 0
  {
    Aligned(s, k);
  }

  /** A word of the allocator itself: in a header or in the payload of a free block. */
  ghost predicate OwnWord(s: Blocks, x: int) {
    exists j: nat :: j < |s| && OwnWordOf(s[j], x)
  }

  predicate OwnWordOf(b: Block, x: int) {
    b.addr <= x < b.addr + HEADER + if b.free then b.len else 0
  }

  ghost predicate OnlyOwnWords(m: Memory, m': Memory, s: Blocks) {
    forall x :: Word(m', x) != Word(m, x) ==> OwnWord(s, x)
  }

  /** Stores confined to the allocator's own words reach no live payload. */
  lemma LiveUntouched(m: Memory, m': Memory, s: Blocks)
    requires WellFormed(s) && OnlyOwnWords(m, m', s)
    ensures WordsKept(m, m', Live(s))
  {
    forall b, a | b in Live(s) && InPayload(b, a) ensures Word(m', a) == Word(m, a) {
      if Word(m', a) != Word(m, a) {
        var k: nat :| k < |s| && s[k] == b;
        var j: nat :| j < |s| && OwnWordOf(s[j], a);
        if j != k {
          Outside(s, j, a, k);
        }
      }
    }
  }

  lemma SetFreeInPlace(m: Memory, s: Blocks, i: nat, free: bool)
    requires Represents(m, s) && i < |s|
    ensures Represents(m[s[i].addr + FREE := Flag(free)], SetFree(s, i, free))
    ensures OnlyOwnWords(m, m[s[i].addr + FREE := Flag(free)], s)
  {
    var t := SetFree(s, i, free);
    var x := s[i].addr + FREE;
    var m' := m[x := Flag(free)];
    SetFreeKeeps(s, i, free);
    forall k | 0 <= k < |t| ensures Linked(m', t, k) {
      assert Linked(m, s, k);
      if k != i {
        Outside(s, i, x, k);
      }
    }
    assert OwnWordOf(s[i], x);
  }

  /** The stores of heap_combine_forward, in order. */
  function CombineStores(m: Memory, block: int, nx: int, nn: int): Memory
    requires block + LEN in m && nx + LEN in m && nx + NEXT in m
  {
    var m1 := if nn != 0 then m[nn + PREV := block] else m;
    var m2 := m1[block + LEN := m1[block + LEN] + m1[nx + LEN] + HEADER];
    m2[block + NEXT := m2[nx + NEXT]]
  }

  /** Two headers that start at least a header apart. */
  predicate Clear(a: int, b: int) {
    a + HEADER <= b || b + HEADER <= a
  }

  lemma CombineMiss(m: Memory, block: int, nx: int, nn: int, a: int, len: int, free: bool, prev: int, next: int)
    requires block + LEN in m && nx + LEN in m && nx + NEXT in m
    requires HeaderAt(m, a, len, free, prev, next) && Clear(a, block) && (nn != 0 ==> Clear(a, nn))
    ensures HeaderAt(CombineStores(m, block, nx, nn), a, len, free, prev, next)
  {
  }

  lemma CombineHere(m: Memory, block: int, len: int, free: bool, prev: int, nx: int, len2: int, free2: bool, nn: int)
    requires HeaderAt(m, block, len, free, prev, nx) && HeaderAt(m, nx, len2, free2, block, nn)
    requires Clear(block, nx) && (nn != 0 ==> Clear(block, nn) && Clear(nx, nn))
    ensures HeaderAt(CombineStores(m, block, nx, nn), block, len + len2 + HEADER, free, prev, nn)
  {
  }

  lemma CombineNext(m: Memory, block: int, nx: int, nn: int, len: int, free: bool, next: int)
    requires block + LEN in m && nx + LEN in m && nx + NEXT in m
    requires HeaderAt(m, nn, len, free, nx, next) && nn != 0 && Clear(block, nn)
    ensures HeaderAt(CombineStores(m, block, nx, nn), nn, len, free, block, next)
  {
  }

  lemma HeadersClear(s: Blocks, j: nat, k: nat)
    requires WellFormed(s) && j < |s| && k < |s| && j != k
    ensures Clear(s[j].addr, s[k].addr) && s[j].addr > 0
  {
    AddrPositive(s, j);
    Outside(s, j, s[j].addr, k);
    Outside(s, k, s[k].addr, j);
  }

  /** Two lists agree on a block and its neighbours' addresses. */
  ghost predicate SameSpot(s: Blocks, q: nat, t: Blocks, k: nat) {
    q < |s| && k < |t| && t[k] == s[q] && PrevAddr(t, k) == PrevAddr(s, q) && NextAddr(t, k) == NextAddr(s, q)
  }

  /** heap_combine_forward on the list: every other block keeps its place, apart from the back link
      of the block after the absorbed one. */
  lemma CombineShape(s: Blocks, i: nat, k: nat)
    requires i + 1 < |s| && s[i + 1].free && k + 1 < |s|
    ensures |CombineForward(s, i)| == |s| - 1
    ensures k < i ==> SameSpot(s, k, CombineForward(s, i), k)
    ensures k == i ==> CombineForward(s, i)[k] == s[k].(len := s[k].len + s[k + 1].len + HEADER)
    ensures k == i ==> PrevAddr(CombineForward(s, i), k) == PrevAddr(s, k)
    ensures k == i ==> NextAddr(CombineForward(s, i), k) == NextAddr(s, k + 1)
    ensures k == i + 1 ==> CombineForward(s, i)[k] == s[k + 1]
    ensures k == i + 1 ==> PrevAddr(CombineForward(s, i), k) == s[i].addr
    ensures k == i + 1 ==> NextAddr(CombineForward(s, i), k) == NextAddr(s, k + 1)
    ensures k > i + 1 ==> SameSpot(s, k + 1, CombineForward(s, i), k)
  {
  }

  lemma CombineLinks(m: Memory, s: Blocks, i: nat, k: nat)
    requires WellFormed(s) && i + 1 < |s| && s[i + 1].free && k + 1 < |s|
    requires Linked(m, s, i) && Linked(m, s, i + 1) && Linked(m, s, k) && Linked(m, s, k + 1)
    ensures |CombineForward(s, i)| == |s| - 1
    ensures Linked(CombineStores(m, s[i].addr, s[i + 1].addr, NextAddr(s, i + 1)), CombineForward(s, i), k)
  {
    CombineShape(s, i, k);
    if k == i {
      CombineLinksHere(m, s, i);
    } else if k == i + 1 {
      CombineLinksNext(m, s, i);
    } else {
      CombineLinksFar(m, s, i, k);
    }
  }

  lemma CombineLinksHere(m: Memory, s: Blocks, i: nat)
    requires WellFormed(s) && i + 1 < |s| && s[i + 1].free && Linked(m, s, i) && Linked(m, s, i + 1)
    ensures |CombineForward(s, i)| == |s| - 1
    ensures Linked(CombineStores(m, s[i].addr, s[i + 1].addr, NextAddr(s, i + 1)), CombineForward(s, i), i)
  {
    CombineShape(s, i, i);
    HeadersClear(s, i, i + 1);
    if i + 2 < |s| {
      HeadersClear(s, i + 2, i);
      HeadersClear(s, i + 1, i + 2);
    }
    CombineHere(m, s[i].addr, s[i].len, s[i].free, PrevAddr(s, i), s[i + 1].addr, s[i + 1].len, true,
                NextAddr(s, i + 1));
  }

  lemma CombineLinksNext(m: Memory, s: Blocks, i: nat)
    requires WellFormed(s) && i + 2 < |s| && s[i + 1].free
    requires Linked(m, s, i) && Linked(m, s, i + 1) && Linked(m, s, i + 2)
    ensures |CombineForward(s, i)| == |s| - 1
    ensures Linked(CombineStores(m, s[i].addr, s[i + 1].addr, NextAddr(s, i + 1)), CombineForward(s, i), i + 1)
  {
    CombineShape(s, i, i + 1);
    HeadersClear(s, i, i + 1);
    HeadersClear(s, i + 2, i);
    HeadersClear(s, i + 1, i + 2);
    CombineNext(m, s[i].addr, s[i + 1].addr, NextAddr(s, i + 1), s[i + 2].len, s[i + 2].free, NextAddr(s, i + 2));
  }

  lemma CombineLinksFar(m: Memory, s: Blocks, i: nat, k: nat)
    requires WellFormed(s) && i + 1 < |s| && s[i + 1].free && k + 1 < |s| && k != i && k != i + 1
    requires Linked(m, s, i) && Linked(m, s, i + 1) && Linked(m, s, if k <= i then k else k + 1)
    ensures |CombineForward(s, i)| == |s| - 1
    ensures Linked(CombineStores(m, s[i].addr, s[i + 1].addr, NextAddr(s, i + 1)), CombineForward(s, i), k)
  {
    CombineShape(s, i, k);
    var q := if k <= i then k else k + 1;
    HeadersClear(s, q, i);
    if i + 2 < |s| {
      HeadersClear(s, q, i + 2);
    }
    CombineMiss(m, s[i].addr, s[i + 1].addr, NextAddr(s, i + 1), s[q].addr, s[q].len, s[q].free, PrevAddr(s, q),
                NextAddr(s, q));
  }

  lemma CombineOwn(m: Memory, s: Blocks, i: nat)
    requires WellFormed(s) && i + 1 < |s|
    requires s[i].addr + LEN in m && s[i + 1].addr + LEN in m && s[i + 1].addr + NEXT in m
    ensures OnlyOwnWords(m, CombineStores(m, s[i].addr, s[i + 1].addr, NextAddr(s, i + 1)), s)
  {
    var m' := CombineStores(m, s[i].addr, s[i + 1].addr, NextAddr(s, i + 1));
    forall x | Word(m', x) != Word(m, x) ensures OwnWord(s, x) {
      assert OwnWordOf(s[i], x) || (i + 2 < |s| && OwnWordOf(s[i + 2], x));
    }
  }

  lemma CombineInPlace(m: Memory, s: Blocks, i: nat)
    requires Represents(m, s) && i + 1 < |s| && s[i + 1].free
    ensures s[i].addr + LEN in m && s[i + 1].addr + LEN in m && s[i + 1].addr + NEXT in m
    ensures Represents(CombineStores(m, s[i].addr, s[i + 1].addr, NextAddr(s, i + 1)), CombineForward(s, i))
    ensures WordsKept(m, CombineStores(m, s[i].addr, s[i + 1].addr, NextAddr(s, i + 1)), Live(s))
  {
    assert Linked(m, s, i) && Linked(m, s, i + 1);
    var t := CombineForward(s, i);
    var m' := CombineStores(m, s[i].addr, s[i + 1].addr, NextAddr(s, i + 1));
    CombineForwardKeeps(s, i);
    forall k | 0 <= k < |t| ensures Linked(m', t, k) {
      assert Linked(m, s, k) && Linked(m, s, k + 1);
      CombineLinks(m, s, i, k);
    }
    CombineOwn(m, s, i);
    LiveUntouched(m, m', s);
  }

  /** The stores of heap_split_block. */
  function SplitStores(m: Memory, block: int, n: int, new_: int, nx: int): Memory
    requires block + LEN in m && block + FREE in m
  {
    var m1 := if nx != 0 then m[nx + PREV := new_] else m;
    m1[new_ + NEXT := nx][block + NEXT := new_][new_ + PREV := block]
      [new_ + LEN := m[block + LEN] - n - HEADER][new_ + FREE := m[block + FREE]][block + LEN := n]
  }

  lemma SplitMiss(m: Memory, block: int, n: int, new_: int, nx: int, a: int, len: int, free: bool, prev: int, next: int)
    requires block + LEN in m && block + FREE in m
    requires HeaderAt(m, a, len, free, prev, next)
    requires Clear(a, block) && Clear(a, new_) && (nx != 0 ==> Clear(a, nx))
    ensures HeaderAt(SplitStores(m, block, n, new_, nx), a, len, free, prev, next)
  {
  }

  lemma SplitHere(m: Memory, block: int, n: int, new_: int, nx: int, len: int, free: bool, prev: int)
    requires HeaderAt(m, block, len, free, prev, nx)
    requires Clear(block, new_) && (nx != 0 ==> Clear(block, nx) && Clear(new_, nx))
    ensures HeaderAt(SplitStores(m, block, n, new_, nx), block, n, free, prev, new_)
    ensures HeaderAt(SplitStores(m, block, n, new_, nx), new_, len - n - HEADER, free, block, nx)
  {
  }

  lemma SplitNext(m: Memory, block: int, n: int, new_: int, nx: int, len: int, free: bool, next: int)
    requires block + LEN in m && block + FREE in m
    requires HeaderAt(m, nx, len, free, block, next) && nx != 0 && Clear(block, nx) && Clear(new_, nx)
    ensures HeaderAt(SplitStores(m, block, n, new_, nx), nx, len, free, new_, next)
  {
  }

  /** heap_split_block on the list, for a block that is large enough. */
  lemma SplitShape(s: Blocks, i: nat, n: int, k: nat)
    requires i < |s| && n >= ALIGN && s[i].len - n - HEADER >= ALIGN && k < |s|
    ensures |Split(s, i, n)| == |s| + 1
    ensures Split(s, i, n)[i] == s[i].(len := n)
    ensures PrevAddr(Split(s, i, n), i) == PrevAddr(s, i)
    ensures NextAddr(Split(s, i, n), i) == s[i].addr + n + HEADER
    ensures Split(s, i, n)[i + 1] == Block(s[i].addr + n + HEADER, s[i].len - n - HEADER, s[i].free)
    ensures PrevAddr(Split(s, i, n), i + 1) == s[i].addr
    ensures NextAddr(Split(s, i, n), i + 1) == NextAddr(s, i)
    ensures k < i ==> SameSpot(s, k, Split(s, i, n), k)
    ensures k == i + 1 ==> Split(s, i, n)[k + 1] == s[k]
    ensures k == i + 1 ==> PrevAddr(Split(s, i, n), k + 1) == s[i].addr + n + HEADER
    ensures k == i + 1 ==> NextAddr(Split(s, i, n), k + 1) == NextAddr(s, k)
    ensures k > i + 1 ==> SameSpot(s, k, Split(s, i, n), k + 1)
  {
  }

  lemma SplitClear(s: Blocks, i: nat, n: int, k: nat)
    requires WellFormed(s) && i < |s| && n >= ALIGN && s[i].len - n - HEADER >= ALIGN && k < |s| && k != i
    ensures s[k].addr > 0 && Clear(s[k].addr, s[i].addr) && Clear(s[k].addr, s[i].addr + n + HEADER)
    ensures Clear(s[i].addr, s[i].addr + n + HEADER)
  {
    HeadersClear(s, k, i);
    Outside(s, k, s[k].addr, i);
    Outside(s, i, s[i].addr + n + HEADER, k);
  }

  lemma SplitLinksNew(m: Memory, s: Blocks, i: nat, n: int)
    requires WellFormed(s) && i < |s| && n >= ALIGN && s[i].len - n - HEADER >= ALIGN
    requires Linked(m, s, i)
    ensures var m' := SplitStores(m, s[i].addr, n, s[i].addr + n + HEADER, NextAddr(s, i));
      && |Split(s, i, n)| == |s| + 1
      && Linked(m', Split(s, i, n), i) && Linked(m', Split(s, i, n), i + 1)
  {
    if i + 1 < |s| {
      SplitClear(s, i, n, i + 1);
    }
    SplitHere(m, s[i].addr, n, s[i].addr + n + HEADER, NextAddr(s, i), s[i].len, s[i].free, PrevAddr(s, i));
    SplitLinked(SplitStores(m, s[i].addr, n, s[i].addr + n + HEADER, NextAddr(s, i)), s, i, n);
  }

  lemma SplitLinked(m: Memory, s: Blocks, i: nat, n: int)
    requires i < |s| && n >= ALIGN && s[i].len - n - HEADER >= ALIGN
    requires HeaderAt(m, s[i].addr, n, s[i].free, PrevAddr(s, i), s[i].addr + n + HEADER)
    requires HeaderAt(m, s[i].addr + n + HEADER, s[i].len - n - HEADER, s[i].free, s[i].addr, NextAddr(s, i))
    ensures |Split(s, i, n)| == |s| + 1
    ensures Linked(m, Split(s, i, n), i) && Linked(m, Split(s, i, n), i + 1)
  {
    SplitShape(s, i, n, i);
  }

  lemma SplitLinksOld(m: Memory, s: Blocks, i: nat, n: int, k: nat)
    requires WellFormed(s) && i < |s| && n >= ALIGN && s[i].len - n - HEADER >= ALIGN && k < |s| && k != i
    requires Linked(m, s, i) && Linked(m, s, k)
    ensures var m' := SplitStores(m, s[i].addr, n, s[i].addr + n + HEADER, NextAddr(s, i));
      && |Split(s, i, n)| == |s| + 1
      && Linked(m', Split(s, i, n), if k < i then k else k + 1)
  {
    if k == i + 1 {
      SplitLinksNext(m, s, i, n);
    } else {
      SplitLinksFar(m, s, i, n, k);
    }
  }

  lemma SplitLinksNext(m: Memory, s: Blocks, i: nat, n: int)
    requires WellFormed(s) && i + 1 < |s| && n >= ALIGN && s[i].len - n - HEADER >= ALIGN
    requires Linked(m, s, i) && Linked(m, s, i + 1)
    ensures var m' := SplitStores(m, s[i].addr, n, s[i].addr + n + HEADER, NextAddr(s, i));
      |Split(s, i, n)| == |s| + 1 && Linked(m', Split(s, i, n), i + 2)
  {
    SplitClear(s, i, n, i + 1);
    SplitNext(m, s[i].addr, n, s[i].addr + n + HEADER, NextAddr(s, i), s[i + 1].len, s[i + 1].free, NextAddr(s, i + 1));
    SplitLinkedNext(SplitStores(m, s[i].addr, n, s[i].addr + n + HEADER, NextAddr(s, i)), s, i, n);
  }

  lemma SplitLinkedNext(m: Memory, s: Blocks, i: nat, n: int)
    requires i + 1 < |s| && n >= ALIGN && s[i].len - n - HEADER >= ALIGN
    requires HeaderAt(m, s[i + 1].addr, s[i + 1].len, s[i + 1].free, s[i].addr + n + HEADER, NextAddr(s, i + 1))
    ensures |Split(s, i, n)| == |s| + 1 && Linked(m, Split(s, i, n), i + 2)
  {
    SplitShape(s, i, n, i + 1);
  }

  lemma SplitLinksFar(m: Memory, s: Blocks, i: nat, n: int, k: nat)
    requires WellFormed(s) && i < |s| && n >= ALIGN && s[i].len - n - HEADER >= ALIGN && k < |s| && k != i && k != i + 1
    requires Linked(m, s, i) && Linked(m, s, k)
    ensures var m' := SplitStores(m, s[i].addr, n, s[i].addr + n + HEADER, NextAddr(s, i));
      |Split(s, i, n)| == |s| + 1 && Linked(m', Split(s, i, n), if k < i then k else k + 1)
  {
    SplitShape(s, i, n, k);
    StillLinked(m, s, i, n, k);
    SameSpotLinked(SplitStores(m, s[i].addr, n, s[i].addr + n + HEADER, NextAddr(s, i)), s, k, Split(s, i, n),
                   if k < i then k else k + 1);
  }

  /** The stores of a split miss the header of a block that is not next to it. */
  lemma StillLinked(m: Memory, s: Blocks, i: nat, n: int, k: nat)
    requires WellFormed(s) && i < |s| && n >= ALIGN && s[i].len - n - HEADER >= ALIGN && k < |s| && k != i && k != i + 1
    requires Linked(m, s, i) && Linked(m, s, k)
    ensures Linked(SplitStores(m, s[i].addr, n, s[i].addr + n + HEADER, NextAddr(s, i)), s, k)
  {
    SplitClear(s, i, n, k);
    if i + 1 < |s| {
      HeadersClear(s, k, i + 1);
    }
    SplitMiss(m, s[i].addr, n, s[i].addr + n + HEADER, NextAddr(s, i), s[k].addr, s[k].len, s[k].free, PrevAddr(s, k),
              NextAddr(s, k));
  }

  lemma SameSpotLinked(m: Memory, s: Blocks, q: nat, t: Blocks, k: nat)
    requires SameSpot(s, q, t, k) && Linked(m, s, q)
    ensures Linked(m, t, k)
  {
  }

  lemma SplitOwn(m: Memory, s: Blocks, i: nat, n: int)
    requires WellFormed(s) && i < |s| && s[i].free && n >= ALIGN && s[i].len - n - HEADER >= ALIGN
    requires s[i].addr + LEN in m && s[i].addr + FREE in m
    ensures OnlyOwnWords(m, SplitStores(m, s[i].addr, n, s[i].addr + n + HEADER, NextAddr(s, i)), s)
  {
    var m' := SplitStores(m, s[i].addr, n, s[i].addr + n + HEADER, NextAddr(s, i));
    forall x | Word(m', x) != Word(m, x) ensures OwnWord(s, x) {
      assert OwnWordOf(s[i], x) || (i + 1 < |s| && OwnWordOf(s[i + 1], x));
    }
  }

  lemma SplitLinks(m: Memory, s: Blocks, i: nat, n: int, k: nat)
    requires Represents(m, s) && i < |s| && n >= ALIGN && s[i].len - n - HEADER >= ALIGN && k <= |s|
    ensures s[i].addr + LEN in m && s[i].addr + FREE in m && |Split(s, i, n)| == |s| + 1
    ensures Linked(SplitStores(m, s[i].addr, n, s[i].addr + n + HEADER, NextAddr(s, i)), Split(s, i, n), k)
  {
    assert Linked(m, s, i);
    if k == i || k == i + 1 {
      SplitLinksNew(m, s, i, n);
    } else {
      var q := if k < i then k else k - 1;
      assert Linked(m, s, q);
      SplitLinksOld(m, s, i, n, q);
    }
  }

  lemma SplitInPlace(m: Memory, s: Blocks, i: nat, n: int)
    requires Represents(m, s) && i < |s| && s[i].free
    requires n % ALIGN == 0 && n >= ALIGN && s[i].len - n - HEADER >= ALIGN
    ensures s[i].addr + LEN in m && s[i].addr + FREE in m
    ensures Represents(SplitStores(m, s[i].addr, n, s[i].addr + n + HEADER, NextAddr(s, i)), Split(s, i, n))
  {
    SplitLinks(m, s, i, n, i);
    SplitKeeps(s, i, n);
    var t := Split(s, i, n);
    var m' := SplitStores(m, s[i].addr, n, s[i].addr + n + HEADER, NextAddr(s, i));
    forall k | 0 <= k < |t| ensures Linked(m', t, k) {
      SplitLinks(m, s, i, n, k);
    }
  }

  /** The stores of kheap_expand before it combines. */
  function AppendStores(m: Memory, last: int, new_: int, n: int): Memory {
    m[new_ + FREE := 1][new_ + PREV := last][last + NEXT := new_][new_ + NEXT := 0][new_ + LEN := n]
  }

  lemma AppendLinks(m: Memory, s: Blocks, n: int, k: nat)
    requires WellFormed(s) && k < |s| && Linked(m, s, k)
    ensures var m' := AppendStores(m, s[|s| - 1].addr, End(s), n);
      var t := s + [Block(End(s), n, true)];
      && Linked(m', t, k)
      && (k == |s| - 1 ==> Linked(m', t, |s|))
  {
    var t := s + [Block(End(s), n, true)];
    if k < |s| - 1 {
      HeadersClear(s, k, |s| - 1);
      Outside(s, k, s[k].addr, |s| - 1);
      Ordered(s, k, |s| - 1);
      assert SameSpot(s, k, t, k);
    }
  }

  lemma AppendInPlace(m: Memory, s: Blocks, n: int)
    requires Represents(m, s) && n >= 0 && n % ALIGN == 0
    ensures Represents(AppendStores(m, s[|s| - 1].addr, End(s), n), s + [Block(End(s), n, true)])
    ensures WordsKept(m, AppendStores(m, s[|s| - 1].addr, End(s), n), Live(s))
  {
    var t := s + [Block(End(s), n, true)];
    var m' := AppendStores(m, s[|s| - 1].addr, End(s), n);
    AppendKeeps(s, n);
    forall k | 0 <= k < |t| ensures Linked(m', t, k) {
      var q := if k < |s| then k else k - 1;
      assert Linked(m, s, q);
      AppendLinks(m, s, n, q);
    }
    forall b, a | b in Live(s) && InPayload(b, a) ensures Word(m', a) == Word(m, a) {
      var k: nat :| k < |s| && s[k] == b;
      if k < |s| - 1 {
        Ordered(s, k, |s| - 1);
      }
    }
  }

  // ---------------------------------------------------------------- what the code reads

  /** The header words of block i, as the code reads them. */
  lemma ReadHeader(m: Memory, s: Blocks, i: nat)
    requires Represents(m, s) && i < |s|
    ensures s[i].addr + LEN in m && s[i].addr + FREE in m && s[i].addr + PREV in m && s[i].addr + NEXT in m
    ensures m[s[i].addr + LEN] == s[i].len && m[s[i].addr + FREE] == Flag(s[i].free)
    ensures m[s[i].addr + PREV] == PrevAddr(s, i) && m[s[i].addr + NEXT] == NextAddr(s, i)
    ensures NextAddr(s, i) == 0 <==> i + 1 == |s|
    ensures PrevAddr(s, i) == 0 <==> i == 0
  {
    assert Linked(m, s, i);
    if i > 0 {
      AddrPositive(s, i - 1);
    }
    if i + 1 < |s| {
      AddrPositive(s, i + 1);
    }
  }

  lemma PageAligned(addr: int)
    requires addr % PAGE_SIZE_4K == 0
    ensures addr % ALIGN == 0
  {
  }

  lemma FirstHeader(addr: int)
    ensures HeaderAt(map[addr + LEN := 0, addr + NEXT := 0, addr + PREV := 0, addr + FREE := 1], addr, 0, true, 0, 0)
  {
  }

  /** What kheap_init leaves in memory. */
  lemma FirstBlock(m: Memory, addr: int)
    requires addr > 0 && addr % PAGE_SIZE_4K == 0 && HeaderAt(m, addr, 0, true, 0, 0)
    ensures ListAt(m, addr, addr, [Block(addr, 0, true)]) && Coalesced([Block(addr, 0, true)])
  {
    PageAligned(addr);
    assert Linked(m, [Block(addr, 0, true)], 0);
  }

  /** w is memory after the stores of heap_combine_forward for block and the next one nx. */
  ghost predicate Combined(m: Memory, block: int, nx: int, w: Memory) {
    block + LEN in m && nx + LEN in m && nx + NEXT in m && w == CombineStores(m, block, nx, m[nx + NEXT])
  }

  lemma CombineCode(m: Memory, start: int, last: int, s: Blocks, i: nat, w: Memory)
    requires ListAt(m, start, last, s) && i + 1 < |s| && s[i + 1].free && Combined(m, s[i].addr, s[i + 1].addr, w)
    ensures ListAt(w, start, if s[i + 1].addr == last then s[i].addr else last, HeapBlocks.CombineForward(s, i))
    ensures WordsKept(m, w, Live(s))
  {
    var a := AfterCombine(m, start, last, s, i);
    NextWord(m, s, i + 1);
    StoresAgree(m, s[i].addr, s[i + 1].addr, NextAddr(s, i + 1), w);
    SameList(a, w, m, start, if s[i + 1].addr == last then s[i].addr else last,
             HeapBlocks.CombineForward(s, i), Live(s));
  }

  lemma AfterCombine(m: Memory, start: int, last: int, s: Blocks, i: nat) returns (a: Memory)
    requires ListAt(m, start, last, s) && i + 1 < |s| && s[i + 1].free
    ensures s[i].addr + LEN in m && s[i + 1].addr + LEN in m && s[i + 1].addr + NEXT in m
    ensures a == CombineStores(m, s[i].addr, s[i + 1].addr, NextAddr(s, i + 1))
    ensures ListAt(a, start, if s[i + 1].addr == last then s[i].addr else last, HeapBlocks.CombineForward(s, i))
    ensures WordsKept(m, a, Live(s))
  {
    CombineStored(m, start, last, s, i);
    a := CombineStores(m, s[i].addr, s[i + 1].addr, NextAddr(s, i + 1));
  }

  lemma StoresAgree(m: Memory, block: int, nx: int, nn: int, w: Memory)
    requires Combined(m, block, nx, w) && nn == m[nx + NEXT]
    ensures CombineStores(m, block, nx, nn) == w
  {
  }

  lemma SameList(a: Memory, b: Memory, m: Memory, start: int, last: int, t: Blocks, live: set<Block>)
    requires a == b && ListAt(a, start, last, t) && WordsKept(m, a, live)
    ensures ListAt(b, start, last, t) && WordsKept(m, b, live)
  {
  }

  lemma NextWord(m: Memory, s: Blocks, i: nat)
    requires Represents(m, s) && i < |s|
    ensures s[i].addr + NEXT in m && m[s[i].addr + NEXT] == NextAddr(s, i)
  {
    assert Linked(m, s, i);
  }

  lemma CombineStored(m: Memory, start: int, last: int, s: Blocks, i: nat)
    requires ListAt(m, start, last, s) && i + 1 < |s| && s[i + 1].free
    ensures s[i].addr + LEN in m && s[i + 1].addr + LEN in m && s[i + 1].addr + NEXT in m
    ensures var w := CombineStores(m, s[i].addr, s[i + 1].addr, NextAddr(s, i + 1));
      && ListAt(w, start, if s[i + 1].addr == last then s[i].addr else last, HeapBlocks.CombineForward(s, i))
      && WordsKept(m, w, Live(s))
  {
    CombineInPlace(m, s, i);
    CombineEnds(CombineStores(m, s[i].addr, s[i + 1].addr, NextAddr(s, i + 1)), start, last, s, i);
  }

  lemma CombineEnds(m: Memory, start: int, last: int, s: Blocks, i: nat)
    requires WellFormed(s) && i + 1 < |s| && s[i + 1].free && start == s[0].addr && last == s[|s| - 1].addr
    requires Represents(m, HeapBlocks.CombineForward(s, i))
    ensures ListAt(m, start, if s[i + 1].addr == last then s[i].addr else last, HeapBlocks.CombineForward(s, i))
  {
    CombineForwardKeeps(s, i);
    LastAfterCombine(s, i);
  }

  lemma LastAfterCombine(s: Blocks, i: nat)
    requires WellFormed(s) && i + 1 < |s| && s[i + 1].free
    ensures var t := HeapBlocks.CombineForward(s, i);
      |t| > 0 && t[|t| - 1].addr == (if s[i + 1].addr == s[|s| - 1].addr then s[i].addr else s[|s| - 1].addr)
  {
    if i + 2 < |s| {
      HeadersClear(s, i + 1, |s| - 1);
    }
  }

  /** One store to the free flag of block i. */
  lemma FlagCode(m: Memory, start: int, last: int, s: Blocks, i: nat, free: bool)
    requires ListAt(m, start, last, s) && i < |s|
    ensures ListAt(m[s[i].addr + FREE := Flag(free)], start, last, SetFree(s, i, free))
    ensures WordsKept(m, m[s[i].addr + FREE := Flag(free)], Live(s))
  {
    SetFreeInPlace(m, s, i, free);
    LiveUntouched(m, m[s[i].addr + FREE := Flag(free)], s);
  }

  lemma SplitCode(m: Memory, start: int, last: int, s: Blocks, i: nat, n: int, w: Memory)
    requires ListAt(m, start, last, s) && i < |s| && s[i].free
    requires n % ALIGN == 0 && n >= ALIGN && s[i].len - n - HEADER >= ALIGN
    requires s[i].addr + LEN in m && s[i].addr + FREE in m
    requires w == SplitStores(m, s[i].addr, n, s[i].addr + n + HEADER, NextAddr(s, i))
    ensures ListAt(w, start, if last == s[i].addr then s[i].addr + n + HEADER else last, Split(s, i, n))
    ensures WordsKept(m, w, Live(s))
  {
    SplitInPlace(m, s, i, n);
    SplitOwn(m, s, i, n);
    LiveUntouched(m, w, s);
    SplitKeeps(s, i, n);
    if i + 1 < |s| {
      HeadersClear(s, i, |s| - 1);
    }
  }

  lemma SplitLive(s: Blocks, i: nat, n: int)
    requires i < |s| && s[i].free
    ensures Live(Split(s, i, n)) == Live(s)
  {
    if !(n < ALIGN || s[i].len - n - HEADER < ALIGN) {
      var mid := [s[i].(len := n), Block(s[i].addr + n + HEADER, s[i].len - n - HEADER, s[i].free)];
      SpliceLive(s, i, i + 1, mid);
      assert s[i..i + 1] == [s[i]];
    }
  }

  lemma AppendCode(m: Memory, start: int, last: int, s: Blocks, n: int)
    requires ListAt(m, start, last, s) && n >= 0 && n % ALIGN == 0
    ensures ListAt(AppendStores(m, last, End(s), n), start, End(s), s + [Block(End(s), n, true)])
    ensures WordsKept(m, AppendStores(m, last, End(s), n), Live(s))
  {
    AppendInPlace(m, s, n);
  }

  // ---------------------------------------------------------------- the allocator

  class Heap {
    var mem: Memory
    var start: int
    var last: int
    ghost var blocks: Blocks

    /** The list in memory is the block list, from heap_start to last_block. */
    ghost predicate Consistent()
      reads this
    {
      ListAt(mem, start, last, blocks)
    }

    /** What holds whenever the heap lock is free. */
    ghost predicate Valid()
      reads this
    {
      Consistent() && Coalesced(blocks)
    }

    /** kheap_init: one free block of no bytes at the start of the mapped arena. */
    constructor (addr: int)
      requires addr > 0 && addr % PAGE_SIZE_4K == 0
      ensures Valid() && blocks == [Block(addr, 0, true)]
    {
      start := addr;
      mem := map[addr + LEN := 0, addr + NEXT := 0, addr + PREV := 0, addr + FREE := 1];
      last := addr;
      blocks := [Block(addr, 0, true)];
      new;
      FirstHeader(addr);
      FirstBlock(mem, addr);
    }

    /** The stores of heap_combine_forward. */
    static method CombineWords(m: Memory, block: int, nx: int) returns (w: Memory)
      requires block + LEN in m && nx + LEN in m && nx + NEXT in m
      ensures Combined(m, block, nx, w)
    {
      w := m;
      var nn := w[nx + NEXT];
      if nn != 0 {
        w := w[nn + PREV := block];
      }
      w := w[block + LEN := w[block + LEN] + w[nx + LEN] + HEADER];
      w := w[block + NEXT := w[nx + NEXT]];
    }

    /** Inside heap_combine_forward: block i swallows the free block after it. */
    method Absorb(block: int, nx: int, ghost i: nat)
      requires Consistent() && i + 1 < |blocks| && blocks[i + 1].free
      requires blocks[i].addr == block && blocks[i + 1].addr == nx
      modifies this
      ensures Consistent() && blocks == HeapBlocks.CombineForward(old(blocks), i)
      ensures start == old(start) && WordsKept(old(mem), mem, Live(old(blocks)))
    {
      ReadHeader(mem, blocks, i);
      ReadHeader(mem, blocks, i + 1);
      var w := CombineWords(mem, block, nx);
      CombineCode(mem, start, last, blocks, i, w);
      mem, blocks, last := w, HeapBlocks.CombineForward(blocks, i), if nx == last then block else last;
    }

    /** heap_combine_forward. */
    method CombineForward(block: int, ghost i: nat)
      requires Consistent() && i < |blocks| && blocks[i].addr == block
      modifies this
      ensures Consistent() && blocks == HeapBlocks.CombineForward(old(blocks), i)
      ensures start == old(start) && WordsKept(old(mem), mem, Live(old(blocks)))
    {
      ReadHeader(mem, blocks, i);
      var nx := mem[block + NEXT];
      if nx == 0 {
        return;
      }
      ReadHeader(mem, blocks, i + 1);
      if mem[nx + FREE] == 0 {
        return;
      }
      Absorb(block, nx, i);
    }

    /** heap_combine_back. */
    method CombineBack(block: int, ghost i: nat)
      requires Consistent() && i < |blocks| && blocks[i].addr == block
      modifies this
      ensures Consistent() && blocks == HeapBlocks.CombineBack(old(blocks), i)
      ensures start == old(start) && WordsKept(old(mem), mem, Live(old(blocks)))
    {
      ReadHeader(mem, blocks, i);
      var prev := mem[block + PREV];
      if prev != 0 {
        ReadHeader(mem, blocks, i - 1);
        if mem[prev + FREE] != 0 {
          CombineForward(prev, i - 1);
        }
      }
    }

    /** The stores of heap_split_block. */
    method Cut(block: int, n: int, splitLen: int, ghost i: nat)
      requires Consistent() && i < |blocks| && blocks[i].addr == block && blocks[i].free
      requires n % ALIGN == 0 && n >= ALIGN && splitLen == blocks[i].len - n - HEADER >= ALIGN
      modifies this
      ensures Consistent() && blocks == Split(old(blocks), i, n)
      ensures start == old(start) && WordsKept(old(mem), mem, Live(old(blocks)))
    {
      ReadHeader(mem, blocks, i);
      var new_ := block + n + HEADER;
      var nx := mem[block + NEXT];
      var w := if nx != 0 then mem[nx + PREV := new_] else mem;
      w := w[new_ + NEXT := nx];
      w := w[block + NEXT := new_];
      w := w[new_ + PREV := block];
      w := w[new_ + LEN := splitLen];
      w := w[new_ + FREE := mem[block + FREE]];
      w := w[block + LEN := n];
      SplitCode(mem, start, last, blocks, i, n, w);
      mem, blocks, last := w, Split(blocks, i, n), if last == block then new_ else last;
    }

    /** heap_split_block on a free block; the remainder, if any, becomes a free block after it. */
    method SplitBlock(block: int, n: int, ghost i: nat)
      requires Consistent() && i < |blocks| && blocks[i].addr == block && blocks[i].free && n % ALIGN == 0
      modifies this
      ensures Consistent() && blocks == Split(old(blocks), i, n)
      ensures start == old(start) && WordsKept(old(mem), mem, Live(old(blocks)))
    {
      ReadHeader(mem, blocks, i);
      if n < ALIGN {
        return;
      }
      var splitLen := mem[block + LEN] - n - HEADER;
      if splitLen < ALIGN {
        return;
      }
      Cut(block, n, splitLen, i);
    }

    /** The accepted block is split when it is larger than needed, and marked in use. */
    method Grab(curr: int, n: int, ghost i: nat)
      requires Valid() && n >= 0 && n % ALIGN == 0
      requires i < |blocks| && blocks[i].addr == curr && Fits(blocks[i], n)
      modifies this
      ensures Valid() && start == old(start) && blocks == Take(old(blocks), i, n)
      ensures WordsKept(old(mem), mem, Live(old(blocks)))
    {
      ReadHeader(mem, blocks, i);
      SplitLive(blocks, i, n);
      TakeCoalesced(blocks, i, n);
      if mem[curr + LEN] > n + HEADER {
        SplitBlock(curr, n, i);
      }
      SetFlag(curr, false, i);
    }

    method SetFlag(block: int, free: bool, ghost i: nat)
      requires Consistent() && i < |blocks| && blocks[i].addr == block
      modifies this
      ensures Consistent() && start == old(start) && blocks == SetFree(old(blocks), i, free)
      ensures WordsKept(old(mem), mem, Live(old(blocks)))
    {
      FlagCode(mem, start, last, blocks, i, free);
      mem, blocks := mem[block + FREE := Flag(free)], SetFree(blocks, i, free);
    }

    /** The lock-protected search of kmalloc: the first block that fits is cut to size and taken,
        or nothing changes and the caller has to expand. */
    method AllocSection(n: int) returns (p: int)
      requires Valid() && n >= 0 && n % ALIGN == 0
      modifies this
      ensures Valid() && start == old(start)
      ensures FirstFit(old(blocks), n, 0).None? ==> p == 0 && mem == old(mem) && blocks == old(blocks)
      ensures FirstFit(old(blocks), n, 0).Some? ==>
        var i := FirstFit(old(blocks), n, 0).value;
        p == old(blocks)[i].addr + HEADER && p > 0 && blocks == Take(old(blocks), i, n)
      ensures WordsKept(old(mem), mem, Live(old(blocks)))
    {
      var curr := start;
      ghost var i := 0;
      while true
        invariant i < |blocks| && curr == blocks[i].addr
        invariant Valid() && start == old(start) && mem == old(mem) && blocks == old(blocks)
        invariant FirstFit(blocks, n, 0) == FirstFit(blocks, n, i)
        decreases |blocks| - i
      {
        ReadHeader(mem, blocks, i);
        if mem[curr + FREE] != 0 && (mem[curr + LEN] > n + HEADER || mem[curr + LEN] == n) {
          AddrPositive(blocks, i);
          Grab(curr, n, i);
          p := curr + HEADER;
          return;
        }
        if mem[curr + NEXT] == 0 {
          p := 0;
          return;
        }
        curr := mem[curr + NEXT];
        i := i + 1;
      }
    }

    /** kfree of a live pointer, the payload address of block i. */
    method Kfree(ptr: int, ghost i: nat)
      requires Valid() && i < |blocks| && blocks[i].addr + HEADER == ptr && !blocks[i].free
      modifies this
      ensures Valid() && start == old(start) && blocks == Release(old(blocks), i)
      ensures WordsKept(old(mem), mem, Live(old(blocks)) - {old(blocks)[i]})
    {
      ReleaseCoalesced(blocks, i);
      ghost var live := Live(blocks) - {blocks[i]};
      ghost var s := blocks;
      SetFlag(ptr - HEADER, true, i);
      assert live <= Live(blocks) by { LiveAfterFlag(s, i); }
      ghost var t := blocks;
      CombineForward(ptr - HEADER, i);
      assert Live(blocks) == Live(t) by { CombineForwardLive(t, i); }
      CombineBack(ptr - HEADER, i);
    }

    /** The part of kheap_expand before the combining: a free block of n bytes after the last one. */
    method Append(n: int) returns (new_: int)
      requires Consistent() && n >= 0 && n % ALIGN == 0
      modifies this
      ensures Consistent() && start == old(start)
      ensures blocks == old(blocks) + [Block(End(old(blocks)), n, true)] && new_ == End(old(blocks))
      ensures WordsKept(old(mem), mem, Live(old(blocks)))
    {
      ReadHeader(mem, blocks, |blocks| - 1);
      AppendCode(mem, start, last, blocks, n);
      new_ := last + mem[last + LEN] + HEADER;
      var w := mem[new_ + FREE := 1];
      w := w[new_ + PREV := last];
      w := w[last + NEXT := new_];
      w := w[new_ + NEXT := 0];
      w := w[new_ + LEN := n];
      mem, last, blocks := w, new_, blocks + [Block(End(blocks), n, true)];
    }

    /** kheap_expand. */
    method ExpandSection(n: int)
      requires Valid() && n >= 0 && n % ALIGN == 0
      modifies this
      ensures Valid() && start == old(start) && blocks == Expand(old(blocks), n)
      ensures WordsKept(old(mem), mem, Live(old(blocks)))
    {
      ghost var s := blocks;
      ExpandCoalesced(s, n);
      var new_ := Append(n);
      assert Live(blocks) == Live(s);
      CombineBack(new_, |s|);
    }

    /** memset over the payload just handed out, after the lock was released. */
    method Zero(p: int, n: int, ghost i: nat)
      requires Consistent() && n >= 0 && i < |blocks| && blocks[i].addr + HEADER == p && n <= blocks[i].len
      modifies this`mem
      ensures Consistent() && Zeroed(mem, p, n)
      ensures WordsKept(old(mem), mem, Live(blocks) - {blocks[i]})
    {
      var k := 0;
      while WORD * k < n
        invariant 0 <= k
        invariant forall j :: 0 <= j < k ==> PayloadWord(mem, p, j) == Some(0)
        invariant forall a :: !InPayload(blocks[i], a) ==> Word(mem, a) == Word(old(mem), a)
      {
        ghost var m := mem;
        mem := mem[p + WORD * k := 0];
        assert forall j :: 0 <= j < k ==> PayloadWord(mem, p, j) == PayloadWord(m, p, j);
        assert PayloadWord(mem, p, k) == Some(0);
        k := k + 1;
      }
      PayloadOnly(old(mem), mem, blocks, i);
    }

    /** One pass of kmalloc: the search, and the memset when it found a block. */
    method TryAlloc(n: int) returns (p: int)
      requires Valid() && n >= 0 && n % ALIGN == 0
      modifies this
      ensures Valid() && start == old(start)
      ensures FirstFit(old(blocks), n, 0).None? ==> p == 0 && mem == old(mem) && blocks == old(blocks)
      ensures FirstFit(old(blocks), n, 0).Some? ==>
        var i := FirstFit(old(blocks), n, 0).value;
        && p == old(blocks)[i].addr + HEADER && p > 0 && blocks == Take(old(blocks), i, n)
        && Zeroed(mem, p, n)
      ensures WordsKept(old(mem), mem, Live(old(blocks)))
    {
      ghost var s, m := blocks, mem;
      p := AllocSection(n);
      if p != 0 {
        ghost var i := FirstFit(s, n, 0).value;
        TakeLive(s, i, n);
        TakeNew(s, i, Granted(s, i, n));
        ghost var m1 := mem;
        Zero(p, n, i);
        KeptChain(m, m1, mem, Live(s), Live(blocks) - {blocks[i]});
      }
    }

    /** The rounding at the start of kmalloc; a rounded size is rounded already. */
    static method RoundSize(size: int) returns (n: int)
      requires 0 <= size <= MAX_REQUEST
      ensures n == RoundUp(size) == RoundUp(n) && n % ALIGN == 0 && size <= n <= MAX_REQUEST
    {
      RoundUpSound(size);
      n := if size % ALIGN != 0 then size - size % ALIGN + ALIGN else size;
    }

    /** kmalloc: a zeroed block of exactly the rounded size, disjoint from everything in use. The
        recursion after an expansion ends because each retry leaves fewer to come. */
    method Kmalloc(size: int) returns (p: int)
      requires Valid() && 0 <= size <= MAX_REQUEST
      modifies this
      ensures Valid() && start == old(start)
      ensures RoundUp(size) % ALIGN == 0 && size <= RoundUp(size)
      ensures Served(old(blocks), old(mem), RoundUp(size), blocks, mem, p)
      decreases Retries(blocks, RoundUp(size))
    {
      var n := RoundSize(size);
      ghost var s, m := blocks, mem;
      p := TryAlloc(n);
      if p == 0 {
        KmallocGrows(s, n);
        ExpandSection(n);
        ghost var m2 := mem;
        p := Kmalloc(n);
        ServedGrown(s, m, n, m2, blocks, mem, p);
      } else {
        ServedFound(s, m, n, mem, p);
      }
    }
  }

  /** The request was met: the list is what the pure allocator makes of it, p is the payload of the
      block it chose, that payload is zero, and nothing in use has changed. */
  ghost predicate Served(s: Blocks, m: Memory, n: int, t: Blocks, m': Memory, p: int)
    requires WellFormed(s) && n >= 0 && n % ALIGN == 0
  {
    var (u, i, e) := HeapBlocks.Kmalloc(s, n);
    t == u && i < |t| && p == t[i].addr + HEADER && Zeroed(m', p, n) && WordsKept(m, m', Live(s))
  }

  lemma ServedGrown(s: Blocks, m: Memory, n: int, m2: Memory, t: Blocks, m': Memory, p: int)
    requires WellFormed(s) && n >= 0 && n % ALIGN == 0 && FirstFit(s, n, 0).None? && WordsKept(m, m2, Live(s))
    requires WellFormed(Expand(s, n)) && Served(Expand(s, n), m2, n, t, m', p)
    ensures Served(s, m, n, t, m', p)
  {
    KmallocGrows(s, n);
    ExpandLive(s, n);
    KeptChain(m, m2, m', Live(s), Live(s));
  }

  lemma ServedFound(s: Blocks, m: Memory, n: int, m': Memory, p: int)
    requires WellFormed(s) && n >= 0 && n % ALIGN == 0 && FirstFit(s, n, 0).Some?
    requires var i := FirstFit(s, n, 0).value;
      p == s[i].addr + HEADER && Zeroed(m', p, n) && WordsKept(m, m', Live(s))
    ensures Served(s, m, n, Take(s, FirstFit(s, n, 0).value, n), m', p)
  {
    TakeLive(s, FirstFit(s, n, 0).value, n);
  }

  lemma KeptChain(m0: Memory, m1: Memory, m2: Memory, bs: set<Block>, cs: set<Block>)
    requires WordsKept(m0, m1, bs) && WordsKept(m1, m2, cs) && bs <= cs
    ensures WordsKept(m0, m2, bs)
  {
  }

  lemma PayloadOnly(m: Memory, m': Memory, s: Blocks, i: nat)
    requires Represents(m, s) && i < |s|
    requires forall a :: !InPayload(s[i], a) ==> Word(m', a) == Word(m, a)
    ensures Represents(m', s) && WordsKept(m, m', Live(s) - {s[i]})
  {
    forall k | 0 <= k < |s| ensures Linked(m', s, k) {
      assert Linked(m, s, k);
      if k != i {
        HeadersClear(s, k, i);
        Outside(s, k, s[k].addr, i);
      }
    }
    forall b, a | b in Live(s) - {s[i]} && InPayload(b, a) ensures Word(m', a) == Word(m, a) {
      var k: nat :| k < |s| && s[k] == b;
      Outside(s, k, a, i);
    }
  }

  lemma LiveAfterFlag(s: Blocks, i: nat)
    requires i < |s|
    ensures Live(s) - {s[i]} <= Live(SetFree(s, i, true))
  {
    forall b | b in Live(s) - {s[i]} ensures b in Live(SetFree(s, i, true)) {
      var k :| 0 <= k < |s| && s[k] == b;
      assert SetFree(s, i, true)[k] == b;
    }
  }
}
