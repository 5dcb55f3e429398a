/** mem/paging.c: the kernel's virtual pages. 512 tables of 512 entries are one line of 262144
    slots; slot g is entry g % 512 of table g / 512. */
module KernelPages {
  import opened Options
  import opened Division
  import opened PageEntries
  import opened Runs

  const SLOTS := 262144

  // The address of slot 0: entry 511 of the top two levels, sign-extended
  const KHEAP_BASE := 0xffff_0000_0000_0000 + PDP_SIZE * 511 + PAGE_SIZE_1G * 511

  function SlotAddr(g: int): int { KHEAP_BASE + g * PAGE_SIZE_4K }

  /** The slot an address decodes to through PD_IDX and PT_IDX. */
  function SlotOf(addr: int): int { PdIdx(addr) * ENTRIES + PtIdx(addr) }

  lemma SlotRoundTrip(g: int)
    requires 0 <= g < SLOTS
    ensures SlotOf(SlotAddr(g)) == g && PdIdx(SlotAddr(g)) == g / ENTRIES && PtIdx(SlotAddr(g)) == g % ENTRIES
  {
    var b, d, t := KHEAP_BASE / PAGE_SIZE_1G, g / ENTRIES, g % ENTRIES;
    assert KHEAP_BASE == b * ENTRIES * ENTRIES * PAGE_SIZE_4K;
    assert SlotAddr(g) == ((b * ENTRIES + d) * ENTRIES + t) * PAGE_SIZE_4K;
    IndexParts(b, d, t);
  }

  lemma IndexParts(b: int, d: int, t: int)
    requires b >= 0 && 0 <= d < ENTRIES && 0 <= t < ENTRIES
    ensures var a := ((b * ENTRIES + d) * ENTRIES + t) * PAGE_SIZE_4K;
      PdIdx(a) == d && PtIdx(a) == t
  {
    var p := b * ENTRIES + d;
    Locate(PAGE_SIZE_4K, p * ENTRIES + t, 0);
    Locate(ENTRIES, p, t);
    Locate(PAGE_SIZE_2M, p, t * PAGE_SIZE_4K);
    Locate(ENTRIES, b, d);
  }

  /** The tables and the directory, slot by slot. */
  datatype View = View(entry: seq<int>, dir: seq<int>)

  ghost predicate Shaped(v: View) {
    |v.entry| == SLOTS && |v.dir| == ENTRIES
  }

  predicate Usable(e: int) { Present(e) && !Large(e) }

  /** Slot g is free and its table is there; an entry for a large page has no table. */
  predicate Open(v: View, g: int)
    requires Shaped(v)
  {
    0 <= g < SLOTS && Usable(v.dir[g / ENTRIES]) && !Present(v.entry[g])
  }

  ghost predicate OpenRun(v: View, g: int, cnt: int)
    requires Shaped(v)
  {
    forall k :: g <= k < g + cnt ==> Open(v, k)
  }

  /** g starts the lowest run of cnt free slots inside present tables. */
  ghost predicate LowestOpenRun(v: View, g: int, cnt: int)
    requires Shaped(v)
  {
    0 <= g && OpenRun(v, g, cnt) && forall h :: 0 <= h < g ==> !OpenRun(v, h, cnt)
  }

  ghost predicate NoOpenRun(v: View, cnt: int)
    requires Shaped(v)
  {
    forall h :: 0 <= h ==> !OpenRun(v, h, cnt)
  }

  predicate Absent(v: View, t: int)
    requires Shaped(v)
  {
    0 <= t < ENTRIES && !Present(v.dir[t])
  }

  ghost predicate AbsentRun(v: View, t: int, n: int)
    requires Shaped(v)
  {
    forall k :: t <= k < t + n ==> Absent(v, k)
  }

  ghost predicate LowestAbsentRun(v: View, t: int, n: int)
    requires Shaped(v)
  {
    0 <= t && AbsentRun(v, t, n) && forall u :: 0 <= u < t ==> !AbsentRun(v, u, n)
  }

  ghost predicate NoAbsentRun(v: View, n: int)
    requires Shaped(v)
  {
    forall u :: 0 <= u ==> !AbsentRun(v, u, n)
  }

  /** How many tables cnt pages need. */
  function Tables(cnt: int): int { (cnt + ENTRIES - 1) / ENTRIES }

  /** The pages a request looks for: both searches count before they compare, so none is taken as one. */
  function Pages(cnt: int): int { if cnt == 0 then 1 else cnt }

  /** Exactly the slots g .. g + cnt - 1 are now in use. */
  ghost predicate Marks(v: View, w: View, g: int, cnt: int)
    requires Shaped(v) && Shaped(w)
  {
    && 0 <= g && g + cnt <= SLOTS
    && forall k :: 0 <= k < SLOTS ==> w.entry[k] == if g <= k < g + cnt then OrKernel(0) else v.entry[k]
  }

  /** The directory entry that points at table k. */
  function TableEntry(e: int, phys: int, k: int): int {
    OrKernel(SetFrame(e, phys + k * PAGE_SIZE_4K))
  }

  lemma KernelWord(e: int, addr: int)
    requires e >= 0 && addr >= 0
    ensures OrKernel(SetFrame(e, addr)) >= 0
  {
    SetKernel(e, addr);
  }

  /** Exactly the tables t .. t + n - 1 became present; the first table is at physical address phys. */
  ghost predicate Adds(v: View, w: View, t: int, n: int, phys: int)
    requires Shaped(v) && Shaped(w)
  {
    forall k :: 0 <= k < ENTRIES ==>
      w.dir[k] == if t <= k < t + n then TableEntry(v.dir[k], phys, k) else v.dir[k]
  }

  /** What page_kernel_alloc4k does to the slots. The first pass marks the pages it looked for, the
      second those it was asked for. */
  ghost predicate Allocates(v: View, w: View, cnt: int, g: Option<int>, phys: int)
    requires Shaped(v) && Shaped(w)
  {
    var n := Pages(cnt);
    if g.None? then w == v && NoOpenRun(v, n) && NoAbsentRun(v, Tables(n))
    else
      || (LowestOpenRun(v, g.value, n) && Marks(v, w, g.value, n) && w.dir == v.dir)
      || (&& NoOpenRun(v, n) && g.value % ENTRIES == 0
          && LowestAbsentRun(v, g.value / ENTRIES, Tables(n))
          && Marks(v, w, g.value, cnt) && Adds(v, w, g.value / ENTRIES, Tables(n), phys))
  }

  /** Exactly the slots g .. g + cnt - 1 now hold the frames from phys on. */
  ghost predicate Maps(v: View, w: View, g: int, cnt: int, phys: int)
    requires Shaped(v) && Shaped(w)
  {
    && w.dir == v.dir
    && forall k :: 0 <= k < SLOTS ==>
      w.entry[k] ==
        if g <= k < g + cnt then OrKernel(SetFrame(v.entry[k], phys + (k - g) * PAGE_SIZE_4K)) else v.entry[k]
  }

  /** Exactly the slots g .. g + cnt - 1 are cleared. */
  ghost predicate Clears(v: View, w: View, g: int, cnt: int)
    requires Shaped(v) && Shaped(w)
  {
    && w.dir == v.dir
    && forall k :: 0 <= k < SLOTS ==> w.entry[k] == if g <= k < g + cnt then 0 else v.entry[k]
  }

  /** A blocked slot rules out every run that would cover it. */
  lemma Blocked(v: View, cnt: int, start: int, g: int)
    requires Shaped(v) && cnt >= 1 && 0 <= start <= g < start + cnt && !Open(v, g)
    requires forall h :: 0 <= h < start ==> !OpenRun(v, h, cnt)
    ensures forall h :: 0 <= h <= g ==> !OpenRun(v, h, cnt)
  {
    forall h | 0 <= h <= g ensures !OpenRun(v, h, cnt) {
      if h >= start {
        assert g < h + cnt;
      }
    }
  }

  lemma BlockedTable(v: View, cnt: int, start: int, i: int)
    requires Shaped(v) && cnt >= 1 && 0 <= i < ENTRIES && !Usable(v.dir[i])
    requires 0 <= start <= i * ENTRIES < start + cnt
    requires forall h :: 0 <= h < start ==> !OpenRun(v, h, cnt)
    ensures forall h :: 0 <= h < (i + 1) * ENTRIES ==> !OpenRun(v, h, cnt)
  {
    Blocked(v, cnt, start, i * ENTRIES);
    forall h | i * ENTRIES < h < (i + 1) * ENTRIES ensures !OpenRun(v, h, cnt) {
      assert h / ENTRIES == i;
      assert !Open(v, h);
    }
  }

  lemma BlockedAbsent(v: View, n: int, start: int, i: int)
    requires Shaped(v) && n >= 1 && 0 <= start <= i < start + n && !Absent(v, i)
    requires forall u :: 0 <= u < start ==> !AbsentRun(v, u, n)
    ensures forall u :: 0 <= u <= i ==> !AbsentRun(v, u, n)
  {
    forall u | 0 <= u <= i ensures !AbsentRun(v, u, n) {
      if u >= start {
        assert i < u + n;
      }
    }
  }

  lemma RunInside(v: View, g: int, n: int)
    requires Shaped(v) && n >= 1 && OpenRun(v, g, n)
    ensures g + n <= SLOTS
  {
    assert Open(v, g + n - 1);
  }

  lemma TablesInside(v: View, t: int, n: int)
    requires Shaped(v) && n >= 1 && AbsentRun(v, t, n)
    ensures t + n <= ENTRIES
  {
    assert Absent(v, t + n - 1);
  }

  class KernelSpace {
    const dir: array<int>      // kheapdir
    const tables: array2<int>  // kheap_tables
    const tablesPhys: int      // physical address of kheap_tables

    /** Static storage, and the tables cleared by paging_init. */
    constructor (tablesPhys: int)
      requires tablesPhys >= 0
      ensures fresh(dir) && fresh(tables) && Shape() && Now() == Initial(tablesPhys).view
      ensures this.tablesPhys == tablesPhys
    {
      dir := new int[ENTRIES](_ => 0);
      tables := new int[ENTRIES, ENTRIES]((_, _) => 0);
      this.tablesPhys := tablesPhys;
    }

    ghost predicate Shape()
      reads dir, tables
    {
      && dir.Length == ENTRIES && tables.Length0 == ENTRIES && tables.Length1 == ENTRIES && tablesPhys >= 0
      && (forall i :: 0 <= i < ENTRIES ==> dir[i] >= 0)
      && (forall i, j :: 0 <= i < ENTRIES && 0 <= j < ENTRIES ==> tables[i, j] >= 0)
    }

    ghost function Now(): (v: View)
      requires Shape()
      reads dir, tables
      ensures Shaped(v)
    {
      View(seq(SLOTS, g requires 0 <= g < SLOTS && Shape() reads dir, tables => tables[g / ENTRIES, g % ENTRIES]),
           dir[..])
    }

    /** The first pass of page_kernel_alloc4k: look for room in tables that are already there. */
    method SearchPresent(cnt: int) returns (found: bool, pdoff: int, offset: int)
      requires Shape() && cnt >= 0
      ensures !found ==> NoOpenRun(Now(), Pages(cnt))
      ensures found ==>
        0 <= pdoff && 0 <= offset <= ENTRIES && LowestOpenRun(Now(), pdoff * ENTRIES + offset, Pages(cnt))
    {
      var counter := 0;
      offset, pdoff := 0, 0;
      ghost var v, n := Now(), Pages(cnt);
      for i := 0 to ENTRIES
        invariant 0 <= pdoff && 0 <= offset <= ENTRIES && 0 <= counter < n
        invariant pdoff * ENTRIES + offset + counter == i * ENTRIES
        invariant OpenRun(v, pdoff * ENTRIES + offset, counter)
        invariant forall h :: 0 <= h < pdoff * ENTRIES + offset ==> !OpenRun(v, h, n)
      {
        if !Present(dir[i]) || Large(dir[i]) {
          BlockedTable(v, n, pdoff * ENTRIES + offset, i);
          pdoff, offset, counter := i + 1, 0, 0;
          continue;
        }
        for j := 0 to ENTRIES
          invariant 0 <= pdoff && 0 <= offset <= ENTRIES && 0 <= counter < n
          invariant pdoff * ENTRIES + offset + counter == i * ENTRIES + j
          invariant OpenRun(v, pdoff * ENTRIES + offset, counter)
          invariant forall h :: 0 <= h < pdoff * ENTRIES + offset ==> !OpenRun(v, h, n)
        {
          ghost var s := i * ENTRIES + j;
          assert s / ENTRIES == i && s % ENTRIES == j && v.entry[s] == tables[i, j];
          if Present(tables[i, j]) {
            Blocked(v, n, pdoff * ENTRIES + offset, s);
            pdoff, offset, counter := i, j + 1, 0;
            continue;
          }
          assert Open(v, s);
          counter := counter + 1;
          if counter >= cnt {
            return true, pdoff, offset;
          }
        }
      }
      forall h | 0 <= h ensures !OpenRun(v, h, n) {
        if h >= pdoff * ENTRIES + offset {
          assert !Open(v, if h > SLOTS then h else SLOTS);
        }
      }
      return false, 0, 0;
    }

    /** Mark the run found by the first pass. */
    method MarkPresent(cnt: int, pdoff0: int, offset0: int)
      requires Shape() && cnt >= 0 && 0 <= pdoff0 && 0 <= offset0 <= ENTRIES
      requires pdoff0 * ENTRIES + offset0 + cnt <= SLOTS
      modifies tables
      ensures Shape() && Marks(old(Now()), Now(), pdoff0 * ENTRIES + offset0, cnt) && Now().dir == old(Now()).dir
    {
      var pdoff, offset, counter := pdoff0, offset0, cnt;
      ghost var g := pdoff0 * ENTRIES + offset0;
      while counter > 0
        invariant 0 <= counter <= cnt && 0 <= pdoff && 0 <= offset <= ENTRIES
        invariant pdoff * ENTRIES + offset == g + cnt - counter
        invariant Shape()
        invariant Marks(old(Now()), Now(), g, cnt - counter)
      {
        if offset >= ENTRIES {
          pdoff, offset := pdoff + 1, 0;
        }
        MarkSlot(pdoff, offset);
        offset, counter := offset + 1, counter - 1;
      }
    }

    /** One slot marked present and writable. */
    method MarkSlot(i: int, j: int)
      requires Shape() && 0 <= i < ENTRIES && 0 <= j < ENTRIES
      modifies tables
      ensures Shape() && Now() == old(Now()).(entry := old(Now()).entry[i * ENTRIES + j := OrKernel(0)])
    {
      tables[i, j] := OrKernel(0);
      assert Now().entry == old(Now()).entry[i * ENTRIES + j := OrKernel(0)];
    }

    /** The second pass: look for a run of tables that are not there yet. */
    method SearchAbsent(cnt: int) returns (found: bool, pdoff: int)
      requires Shape() && cnt >= 0
      ensures !found ==> NoAbsentRun(Now(), Tables(Pages(cnt)))
      ensures found ==> LowestAbsentRun(Now(), pdoff, Tables(Pages(cnt)))
    {
      var counter := 0;
      pdoff := 0;
      ghost var v, n := Now(), Tables(Pages(cnt));
      for i := 0 to ENTRIES
        invariant 0 <= pdoff && 0 <= counter < Pages(cnt) && counter == (i - pdoff) * ENTRIES
        invariant AbsentRun(v, pdoff, i - pdoff)
        invariant forall u :: 0 <= u < pdoff ==> !AbsentRun(v, u, n)
      {
        if Present(dir[i]) {
          BlockedAbsent(v, n, pdoff, i);
          pdoff, counter := i + 1, 0;
          continue;
        }
        assert Absent(v, i);
        counter := counter + ENTRIES;
        if counter >= cnt {
          assert n == i + 1 - pdoff;
          return true, pdoff;
        }
      }
      forall u | 0 <= u ensures !AbsentRun(v, u, n) {
        if u >= pdoff {
          assert !Absent(v, if u > ENTRIES then u else ENTRIES);
        }
      }
      return false, 0;
    }

    /** One more table made present. */
    method AddTable(t: int)
      requires Shape() && 0 <= t < ENTRIES
      modifies dir
      ensures Shape() && Now() == old(Now()).(dir := old(Now()).dir[t := TableEntry(old(Now()).dir[t], tablesPhys, t)])
    {
      KernelWord(dir[t], tablesPhys + t * PAGE_SIZE_4K);
      ghost var v := Now();
      dir[t] := SetFrame(dir[t], tablesPhys + t * PAGE_SIZE_4K);
      dir[t] := OrKernel(dir[t]);
      assert Now().dir == v.dir[t := TableEntry(v.dir[t], tablesPhys, t)];
      assert Now().entry == v.entry;
    }

    /** Make the tables found by the second pass present and mark their first cnt slots. */
    method MarkAbsent(cnt: int, t: int)
      requires Shape() && cnt >= 0 && 0 <= t && t + Tables(Pages(cnt)) <= ENTRIES
      modifies dir, tables
      ensures Shape() && Marks(old(Now()), Now(), t * ENTRIES, cnt)
      ensures Adds(old(Now()), Now(), t, Tables(Pages(cnt)), tablesPhys)
    {
      var pdoff, offset, left := t, 0, cnt;
      ghost var v := Now();
      AddTable(t);
      while left > 0
        invariant 0 <= left <= cnt && 0 <= offset <= ENTRIES && t <= pdoff
        invariant pdoff * ENTRIES + offset == t * ENTRIES + cnt - left
        invariant offset > 0 || pdoff == t
        invariant Shape() && Marks(v, Now(), t * ENTRIES, cnt - left) && Adds(v, Now(), t, pdoff - t + 1, tablesPhys)
      {
        if offset >= ENTRIES {
          pdoff, offset := pdoff + 1, 0;
          AddTable(pdoff);
        }
        MarkSlot(pdoff, offset);
        offset, left := offset + 1, left - 1;
      }
    }

    /** page_kernel_alloc4k. None stands for the missing return value when no room is left. */
    method Alloc4k(cnt: int) returns (addr: Option<int>, ghost g: Option<int>)
      requires Shape() && cnt >= 0
      modifies dir, tables
      ensures Shape() && Allocates(old(Now()), Now(), cnt, g, tablesPhys)
      ensures addr == if g.None? then None else Some(SlotAddr(g.value))
    {
      var found, pdoff, offset := SearchPresent(cnt);
      if found {
        g := Some(pdoff * ENTRIES + offset);
        addr := Some(KHEAP_BASE + pdoff * PAGE_SIZE_2M + offset * PAGE_SIZE_4K);
        RunInside(Now(), g.value, Pages(cnt));
        MarkPresent(Pages(cnt), pdoff, offset);
        return;
      }
      found, pdoff := SearchAbsent(cnt);
      if found {
        g := Some(pdoff * ENTRIES);
        addr := Some(KHEAP_BASE + pdoff * PAGE_SIZE_2M);
        TablesInside(Now(), pdoff, Tables(Pages(cnt)));
        MarkAbsent(cnt, pdoff);
        return;
      }
      addr, g := None, None;
    }

    /** page_kernel_map_memory on the slots g .. g + cnt - 1. */
    method MapMemory(virt: int, phys: int, cnt: int, ghost g: int)
      requires Shape() && cnt >= 0 && 0 <= g && g + cnt <= SLOTS && virt == SlotAddr(g) && phys >= 0
      modifies tables
      ensures Shape() && Maps(old(Now()), Now(), g, cnt, phys)
    {
      var left, va, pa := cnt, virt, phys;
      ghost var v := Now();
      while left > 0
        invariant 0 <= left <= cnt && va == SlotAddr(g + cnt - left) && pa == phys + (cnt - left) * PAGE_SIZE_4K
        invariant Shape() && Maps(v, Now(), g, cnt - left, phys)
      {
        SlotRoundTrip(g + cnt - left);
        KernelWord(tables[PdIdx(va), PtIdx(va)], pa);
        SetEntry(PdIdx(va), PtIdx(va), OrKernel(SetFrame(tables[PdIdx(va), PtIdx(va)], pa)));
        va, pa, left := va + PAGE_SIZE_4K, pa + PAGE_SIZE_4K, left - 1;
      }
    }

    /** One entry given a frame, or cleared. */
    method SetEntry(i: int, j: int, e: int)
      requires Shape() && 0 <= i < ENTRIES && 0 <= j < ENTRIES && e >= 0
      modifies tables
      ensures Shape() && Now() == old(Now()).(entry := old(Now()).entry[i * ENTRIES + j := e])
    {
      tables[i, j] := e;
      assert Now().entry == old(Now()).entry[i * ENTRIES + j := e];
    }

    /** page_kernel_free4k on the slots g .. g + cnt - 1. */
    method Free4k(addr: int, cnt: int, ghost g: int)
      requires Shape() && cnt >= 0 && 0 <= g && g + cnt <= SLOTS && addr == SlotAddr(g)
      modifies tables
      ensures Shape() && Clears(old(Now()), Now(), g, cnt)
    {
      var left, va := cnt, addr;
      ghost var v := Now();
      while left > 0
        invariant 0 <= left <= cnt && va == SlotAddr(g + cnt - left)
        invariant Shape() && Clears(v, Now(), g, cnt - left)
      {
        SlotRoundTrip(g + cnt - left);
        SetEntry(PdIdx(va), PtIdx(va), 0);
        va, left := va + PAGE_SIZE_4K, left - 1;
      }
    }
  }

  // ---------------------------------------------------------------- live ranges

  /** The slots base .. base + cnt - 1, handed out and not yet freed. */
  datatype Range = Range(base: int, cnt: int)

  predicate Holds(r: Range, k: int) { r.base <= k < r.base + r.cnt }

  ghost predicate Apart(r: Range, q: Range) { r.base + r.cnt <= q.base || q.base + q.cnt <= r.base }

  /** Slot k belongs to some live range. */
  ghost predicate InUse(live: set<Range>, k: int) {
    exists r :: r in live && Holds(r, k)
  }

  /** The slots in use are those of the live ranges, which are disjoint and lie in present tables. */
  ghost predicate Tidy(v: View, live: set<Range>) {
    && Shaped(v)
    && (forall e :: e in v.entry ==> e >= 0) && (forall e :: e in v.dir ==> e >= 0)
    && (forall r :: r in live ==> r.cnt >= 1)
    && (forall r, q :: r in live && q in live && r != q ==> Apart(r, q))
    && (forall k :: 0 <= k < SLOTS ==> (Present(v.entry[k]) <==> InUse(live, k)))
    && (forall k :: 0 <= k < SLOTS && Present(v.entry[k]) ==> Present(v.dir[k / ENTRIES]))
    && (forall r :: r in live ==> 0 <= r.base && r.base + r.cnt <= SLOTS)
  }

  lemma InUseAdd(live: set<Range>, r: Range, k: int)
    ensures InUse(live + {r}, k) <==> InUse(live, k) || Holds(r, k)
  {
    if Holds(r, k) {
      assert r in live + {r};
    }
    if InUse(live, k) {
      var q :| q in live && Holds(q, k);
      assert q in live + {r};
    }
  }

  lemma InUseRemove(live: set<Range>, r: Range, k: int)
    requires r in live && forall q :: q in live && q != r ==> Apart(r, q)
    ensures InUse(live - {r}, k) <==> InUse(live, k) && !Holds(r, k)
  {
    if InUse(live, k) && !Holds(r, k) {
      var q :| q in live && Holds(q, k);
      assert q in live - {r};
    }
    if InUse(live - {r}, k) {
      var q :| q in live - {r} && Holds(q, k);
    }
  }

  /** What alloc4k hands out was free: it meets no live range. */
  lemma FreshRun(v: View, live: set<Range>, g: int, cnt: int)
    requires Tidy(v, live) && cnt >= 1 && 0 <= g && g + cnt <= SLOTS
    requires forall k :: g <= k < g + cnt ==> !Present(v.entry[k])
    ensures Range(g, cnt) !in live && forall r :: r in live ==> Apart(r, Range(g, cnt))
  {
    forall r | r in live ensures Apart(r, Range(g, cnt)) {
      var k := if r.base <= g then g else r.base;
      assert Holds(r, k) ==> InUse(live, k);
    }
  }

  /** The run handed out was free whichever pass found it, and its tables are present afterwards. */
  lemma AllocatedWasFree(v: View, live: set<Range>, w: View, cnt: int, g: int, phys: int, k: int)
    requires Tidy(v, live) && Shaped(w) && cnt >= 1 && phys >= 0 && Allocates(v, w, cnt, Some(g), phys)
    requires g <= k < g + cnt
    ensures !Present(v.entry[k]) && Present(w.dir[k / ENTRIES])
  {
    if LowestOpenRun(v, g, cnt) && w.dir == v.dir {
      assert Open(v, k);
    } else {
      assert Absent(v, k / ENTRIES);
      assert v.dir[k / ENTRIES] in v.dir;
      SetKernel(v.dir[k / ENTRIES], phys + k / ENTRIES * PAGE_SIZE_4K);
    }
  }

  lemma DirGrows(v: View, live: set<Range>, w: View, cnt: int, g: int, phys: int, t: int)
    requires Tidy(v, live) && Shaped(w) && cnt >= 0 && phys >= 0 && Allocates(v, w, cnt, Some(g), phys)
    requires 0 <= t < ENTRIES
    ensures w.dir[t] >= 0 && (Present(v.dir[t]) ==> Present(w.dir[t]))
  {
    assert v.dir[t] in v.dir;
    if w.dir != v.dir {
      TableStays(v, w, g / ENTRIES, Tables(Pages(cnt)), phys, t);
    }
  }

  lemma TableStays(v: View, w: View, first: int, n: int, phys: int, t: int)
    requires Shaped(v) && Shaped(w) && Adds(v, w, first, n, phys) && 0 <= t < ENTRIES && v.dir[t] >= 0 && phys >= 0
    ensures w.dir[t] >= 0 && (Present(v.dir[t]) ==> Present(w.dir[t]))
  {
    SetKernel(v.dir[t], phys + t * PAGE_SIZE_4K);
  }

  lemma AllocTidy(v: View, live: set<Range>, w: View, cnt: int, g: int, phys: int)
    requires Tidy(v, live) && Shaped(w) && cnt >= 1 && phys >= 0 && Allocates(v, w, cnt, Some(g), phys)
    ensures Tidy(w, live + {Range(g, cnt)})
    ensures forall r :: r in live ==> Apart(r, Range(g, cnt))
  {
    forall k | g <= k < g + cnt ensures !Present(v.entry[k]) && Present(w.dir[k / ENTRIES]) {
      AllocatedWasFree(v, live, w, cnt, g, phys, k);
    }
    FreshRun(v, live, g, cnt);
    forall k | 0 <= k < SLOTS
      ensures Present(w.entry[k]) <==> InUse(live + {Range(g, cnt)}, k)
      ensures Present(w.entry[k]) ==> Present(w.dir[k / ENTRIES])
      ensures w.entry[k] >= 0
    {
      InUseAdd(live, Range(g, cnt), k);
      DirGrows(v, live, w, cnt, g, phys, k / ENTRIES);
      assert v.entry[k] in v.entry;
    }
    forall e | e in w.dir ensures e >= 0 {
      var t :| 0 <= t < ENTRIES && w.dir[t] == e;
      DirGrows(v, live, w, cnt, g, phys, t);
    }
  }

  /** A request for no pages keeps ranges and used slots in step exactly when no slot of a present
      table is free; otherwise the first pass marks one that belongs to no range. */
  lemma NoneTidy(v: View, live: set<Range>, w: View, g: Option<int>, phys: int)
    requires Tidy(v, live) && Shaped(w) && phys >= 0 && Allocates(v, w, 0, g, phys)
    ensures Tidy(w, live) <==> NoOpenRun(v, 1)
  {
    if g.Some? {
      if LowestOpenRun(v, g.value, 1) {
        StraySlot(v, live, w, g.value);
      } else {
        SameSlots(v, live, w, g.value, phys);
      }
    }
  }

  lemma StraySlot(v: View, live: set<Range>, w: View, g: int)
    requires Tidy(v, live) && Shaped(w) && LowestOpenRun(v, g, 1) && Marks(v, w, g, 1)
    ensures !Tidy(w, live) && !NoOpenRun(v, 1)
  {
    assert OpenRun(v, g, 1) && Open(v, g);
    assert !InUse(live, g);
    assert Present(w.entry[g]);
  }

  lemma SameSlots(v: View, live: set<Range>, w: View, g: int, phys: int)
    requires Tidy(v, live) && Shaped(w) && phys >= 0 && Allocates(v, w, 0, Some(g), phys) && !LowestOpenRun(v, g, 1)
    ensures Tidy(w, live)
  {
    assert w.entry == v.entry;
    forall t | 0 <= t < ENTRIES ensures w.dir[t] >= 0 && (Present(v.dir[t]) ==> Present(w.dir[t])) {
      DirGrows(v, live, w, 0, g, phys, t);
    }
  }

  lemma MapTidy(v: View, live: set<Range>, w: View, g: int, cnt: int, phys: int)
    requires Tidy(v, live) && Shaped(w) && phys >= 0 && Maps(v, w, g, cnt, phys)
    requires exists r :: r in live && r.base <= g && g + cnt <= r.base + r.cnt
    ensures Tidy(w, live)
  {
    var r :| r in live && r.base <= g && g + cnt <= r.base + r.cnt;
    forall k | 0 <= k < SLOTS ensures w.entry[k] >= 0 && (Present(w.entry[k]) <==> Present(v.entry[k])) {
      MapSlot(v, live, w, g, cnt, phys, r, k);
    }
  }

  lemma HeldPresent(v: View, live: set<Range>, r: Range, k: int)
    requires Tidy(v, live) && r in live && Holds(r, k) && 0 <= k < SLOTS
    ensures Present(v.entry[k]) && v.entry[k] >= 0
  {
    assert v.entry[k] in v.entry;
    assert InUse(live, k);
  }

  /** A slot in use stays in use, whatever frame it is given. */
  lemma MapSlot(v: View, live: set<Range>, w: View, g: int, cnt: int, phys: int, r: Range, k: int)
    requires Tidy(v, live) && Shaped(w) && phys >= 0 && Maps(v, w, g, cnt, phys) && 0 <= k < SLOTS
    requires r in live && r.base <= g && g + cnt <= r.base + r.cnt
    ensures w.entry[k] >= 0 && (Present(w.entry[k]) <==> Present(v.entry[k]))
  {
    assert v.entry[k] in v.entry;
    if g <= k < g + cnt {
      HeldPresent(v, live, r, k);
      SetKernel(v.entry[k], phys + (k - g) * PAGE_SIZE_4K);
    }
  }

  lemma FreeTidy(v: View, live: set<Range>, w: View, r: Range)
    requires Tidy(v, live) && Shaped(w) && r in live && Clears(v, w, r.base, r.cnt)
    ensures Tidy(w, live - {r})
  {
    forall k | 0 <= k < SLOTS ensures w.entry[k] >= 0 && (Present(w.entry[k]) <==> InUse(live - {r}, k)) {
      assert v.entry[k] in v.entry;
      InUseRemove(live, r, k);
    }
  }

  // ---------------------------------------------------------------- every run

  datatype State = State(view: View, live: set<Range>, phys: int)

  datatype Step =
    | AllocStep(cnt: int, g: Option<int>)
    | MapStep(base: int, cnt: int, frames: int)
    | FreeStep(r: Range)

  ghost predicate Move(s: State, x: Step, t: State) {
    && Shaped(s.view) && Shaped(t.view) && t.phys == s.phys
    && match x
       case AllocStep(cnt, g) =>
         && cnt >= 1 && Allocates(s.view, t.view, cnt, g, s.phys)
         && t.live == if g.None? then s.live else s.live + {Range(g.value, cnt)}
       case MapStep(g, cnt, frames) =>
         && frames >= 0 && (exists r :: r in s.live && r.base <= g && g + cnt <= r.base + r.cnt)
         && Maps(s.view, t.view, g, cnt, frames) && t.live == s.live
       case FreeStep(r) =>
         r in s.live && Clears(s.view, t.view, r.base, r.cnt) && t.live == s.live - {r}
  }

  ghost predicate Good(s: State) {
    Tidy(s.view, s.live) && s.phys >= 0
  }

  lemma StepGood(s: State, x: Step, t: State)
    requires Good(s) && Move(s, x, t)
    ensures Good(t)
  {
    match x {
      case AllocStep(cnt, g) =>
        if g.Some? {
          AllocTidy(s.view, s.live, t.view, cnt, g.value, s.phys);
        }
      case MapStep(g, cnt, frames) =>
        MapTidy(s.view, s.live, t.view, g, cnt, frames);
      case FreeStep(r) =>
        FreeTidy(s.view, s.live, t.view, r);
    }
  }

  /** The directory is zero as static storage; paging_init clears every table. */
  ghost function Initial(phys: int): State {
    State(View(seq(SLOTS, _ => 0), seq(ENTRIES, _ => 0)), {}, phys)
  }

  /** Over any run of allocations, mappings and frees, the live ranges stay disjoint, cover exactly
      the slots in use, and every slot in use lies in a present table. */
  lemma EveryRunTidy(phys: int, xs: seq<Step>, t: State)
    requires phys >= 0 && Run(Move, Initial(phys), xs, t)
    ensures Tidy(t.view, t.live)
  {
    forall s, x, u | Good(s) && Move(s, x, u) ensures Good(u) {
      StepGood(s, x, u);
    }
    RunKeeps(Move, Good, Initial(phys), xs, t);
  }
}
