/** mem/paging.c: where the CPU finds the pages that page_kernel_alloc4k hands out. */
module KernelWalk {
  import opened Division
  import opened PageEntries
  import opened PageMaps
  import opened Runs
  import K = KernelPages

  // KHEAP_PDP_IDX; KHEAP_PML4_IDX is the top index of the kernel
  const HEAP_PDP := 511

  /** The two entries that paging_init writes on the way to kheapdir. */
  ghost predicate KernelTop(mem: map<int, seq<int>>, root: int, pdp: int, dir: int) {
    && GoodFrame(root) && GoodFrame(pdp) && GoodFrame(dir)
    && EntryAt(mem, root, Pml4Idx(KERNEL_VIRTUAL_ADDR)) == OrKernel(SetFrame(0, pdp))
    && EntryAt(mem, pdp, HEAP_PDP) == SetFrame(3, dir)
  }

  /** kheapdir and the array kheap_tables, one table after the other, as they lie in memory. */
  ghost predicate HeapTables(mem: map<int, seq<int>>, v: K.View, dir: int, phys: int) {
    && K.Shaped(v) && dir in mem && mem[dir] == v.dir
    && forall t :: 0 <= t < ENTRIES ==> TableAt(mem, v, phys + t * PAGE_SIZE_4K, t)
  }

  ghost predicate TableAt(mem: map<int, seq<int>>, v: K.View, f: int, t: int)
    requires K.Shaped(v) && 0 <= t < ENTRIES
  {
    f in mem && mem[f] == v.entry[t * ENTRIES..(t + 1) * ENTRIES]
  }

  /** Every present directory entry t points at table t, writable, and none is for a large page; the
      array is aligned. */
  ghost predicate Pointed(v: K.View, phys: int) {
    && K.Shaped(v) && 0 <= phys <= 0x10_0000_0000_0000 - ENTRIES * PAGE_SIZE_4K && phys % PAGE_SIZE_4K == 0
    && forall t :: 0 <= t < ENTRIES ==> PointsAt(v.dir[t], phys + t * PAGE_SIZE_4K)
  }

  predicate PointsAt(e: int, f: int) {
    e >= 0 && !Large(e) && (Present(e) ==> Writable(e) && Frame(e) == f)
  }

  // ---------------------------------------------------------------- the address of a slot

  /** Every slot is in the upper half of the address space, under the last entry of the two top levels;
      the first is 1 GiB below the end. */
  lemma SlotPlace(g: int)
    requires 0 <= g < K.SLOTS
    ensures Pml4Idx(K.SlotAddr(g)) == 511 && PdpIdx(K.SlotAddr(g)) == 511
    ensures 0xffff_8000_0000_0000 <= K.SlotAddr(g) < 0x1_0000_0000_0000_0000
    ensures K.SlotAddr(g) == 0xffff_ffff_c000_0000 + g * PAGE_SIZE_4K
  {
    var a := K.SlotAddr(g);
    Locate(PAGE_SIZE_1G, 0x3_ffff_ffff, g * PAGE_SIZE_4K);
    Locate(PDP_SIZE, 0x1ff_ffff, 511 * PAGE_SIZE_1G + g * PAGE_SIZE_4K);
    assert a == 0x3_ffff_ffff * PAGE_SIZE_1G + g * PAGE_SIZE_4K;
    assert a == 0x1ff_ffff * PDP_SIZE + (511 * PAGE_SIZE_1G + g * PAGE_SIZE_4K);
  }

  /** The entry leads to f, writable, and lets no user through. */
  predicate Closed(e: int, f: int) {
    Present(e) && Writable(e) && !UserOk(e) && Frame(e) == f
  }

  predicate Leading(e: int, f: int) {
    Present(e) && Writable(e) && !Large(e) && Frame(e) == f
  }

  lemma KernelEntry(e: int, addr: int, f: int)
    requires e >= 0 && addr >= 0 && Frame(addr) == f
    ensures var r := OrKernel(SetFrame(e, addr));
      r >= 0 && Present(r) && Writable(r) && Frame(r) == f && UserOk(r) == UserOk(e) && Large(r) == Large(e)
  {
    SetKernel(e, addr);
  }

  lemma PlainEntry(e: int, addr: int, f: int)
    requires e >= 0 && addr >= 0 && Frame(addr) == f && Present(e) && Writable(e) && !Large(e)
    ensures Leading(SetFrame(e, addr), f)
  {
    SetFrameOnly(e, addr);
  }

  lemma FirstLink(pdp: int)
    requires GoodFrame(pdp)
    ensures Closed(OrKernel(SetFrame(0, pdp)), pdp)
  {
    FrameOfAligned(pdp);
    KernelEntry(0, pdp, pdp);
  }

  lemma SecondLink(dir: int)
    requires GoodFrame(dir)
    ensures Leading(SetFrame(3, dir), dir)
  {
    FrameOfAligned(dir);
    PlainEntry(3, dir, dir);
  }

  /** The two upper entries on the way to dir. */
  ghost predicate Upper(mem: map<int, seq<int>>, cr3: int, v: int, pdp: int, dir: int) {
    && Closed(EntryAt(mem, Frame(cr3), Pml4Idx(v)), pdp)
    && Leading(EntryAt(mem, pdp, PdpIdx(v)), dir)
  }

  lemma UpperOfHeap(mem: map<int, seq<int>>, root: int, pdp: int, dir: int, g: int)
    requires KernelTop(mem, root, pdp, dir) && 0 <= g < K.SLOTS
    ensures Upper(mem, root, K.SlotAddr(g), pdp, dir)
  {
    SlotPlace(g);
    var e4, e3 := UpperEntries(mem, root, pdp, dir);
    UpperBy(mem, root, K.SlotAddr(g), pdp, dir, e4, e3);
  }

  lemma UpperEntries(mem: map<int, seq<int>>, root: int, pdp: int, dir: int) returns (e4: int, e3: int)
    requires KernelTop(mem, root, pdp, dir)
    ensures Frame(root) == root && EntryAt(mem, root, 511) == e4 && EntryAt(mem, pdp, 511) == e3
    ensures Closed(e4, pdp) && Leading(e3, dir)
  {
    e4, e3 := EntryAt(mem, root, 511), EntryAt(mem, pdp, 511);
    FrameOfAligned(root);
    assert Pml4Idx(KERNEL_VIRTUAL_ADDR) == 511;
    FirstLink(pdp);
    SecondLink(dir);
  }

  lemma UpperBy(mem: map<int, seq<int>>, root: int, v: int, pdp: int, dir: int, e4: int, e3: int)
    requires Frame(root) == root && Pml4Idx(v) == 511 && PdpIdx(v) == 511
    requires EntryAt(mem, root, 511) == e4 && EntryAt(mem, pdp, 511) == e3 && Closed(e4, pdp) && Leading(e3, dir)
    ensures Upper(mem, root, v, pdp, dir)
  {
  }

  /** What the CPU makes of the two lower entries it meets. */
  function Reached(e2: int, e1: int): Translation {
    if Present(e2) && Present(e1) then Page(Frame(e1), Writable(e1), false) else NotPresent
  }

  lemma WalkBy(mem: map<int, seq<int>>, cr3: int, v: int, pdp: int, dir: int, table: int, e2: int, e1: int)
    requires Upper(mem, cr3, v, pdp, dir) && PointsAt(e2, table)
    requires EntryAt(mem, dir, PdIdx(v)) == e2 && EntryAt(mem, table, PtIdx(v)) == e1
    ensures Walk(mem, cr3, v) == Reached(e2, e1)
  {
  }

  /** The walk of slot g goes through directory entry g / 512 to table g / 512 and reads its entry
      g % 512. The page is not open to users. */
  lemma SlotWalk(mem: map<int, seq<int>>, root: int, pdp: int, dir: int, v: K.View, phys: int, g: int)
    requires KernelTop(mem, root, pdp, dir) && HeapTables(mem, v, dir, phys) && Pointed(v, phys) && 0 <= g < K.SLOTS
    ensures Walk(mem, root, K.SlotAddr(g)) == Reached(v.dir[g / ENTRIES], v.entry[g])
  {
    UpperOfHeap(mem, root, pdp, dir, g);
    LowerOfHeap(mem, dir, v, phys, g);
    WalkBy(mem, root, K.SlotAddr(g), pdp, dir, phys + g / ENTRIES * PAGE_SIZE_4K, v.dir[g / ENTRIES], v.entry[g]);
  }

  lemma LowerOfHeap(mem: map<int, seq<int>>, dir: int, v: K.View, phys: int, g: int)
    requires HeapTables(mem, v, dir, phys) && Pointed(v, phys) && 0 <= g < K.SLOTS
    ensures var a, f := K.SlotAddr(g), phys + g / ENTRIES * PAGE_SIZE_4K;
      && PointsAt(EntryAt(mem, dir, PdIdx(a)), f) && EntryAt(mem, dir, PdIdx(a)) == v.dir[g / ENTRIES]
      && EntryAt(mem, f, PtIdx(a)) == v.entry[g]
  {
    K.SlotRoundTrip(g);
    assert PointsAt(v.dir[g / ENTRIES], phys + g / ENTRIES * PAGE_SIZE_4K);
    assert TableAt(mem, v, phys + g / ENTRIES * PAGE_SIZE_4K, g / ENTRIES);
  }

  // ---------------------------------------------------------------- every run points the tables right

  lemma AddsPointed(v: K.View, w: K.View, first: int, n: int, phys: int)
    requires Pointed(v, phys) && K.Shaped(w) && K.Adds(v, w, first, n, phys)
    ensures Pointed(w, phys)
  {
    forall t | 0 <= t < ENTRIES ensures PointsAt(w.dir[t], phys + t * PAGE_SIZE_4K) {
      assert PointsAt(v.dir[t], phys + t * PAGE_SIZE_4K);
      NewEntry(v.dir[t], phys, t);
    }
  }

  lemma NewEntry(e: int, phys: int, t: int)
    requires e >= 0 && !Large(e) && 0 <= t < ENTRIES
    requires 0 <= phys <= 0x10_0000_0000_0000 - ENTRIES * PAGE_SIZE_4K && phys % PAGE_SIZE_4K == 0
    ensures PointsAt(K.TableEntry(e, phys, t), phys + t * PAGE_SIZE_4K)
  {
    var f := phys + t * PAGE_SIZE_4K;
    FrameOfAligned(f);
    KernelEntry(e, f, f);
  }

  lemma StepPointed(s: K.State, x: K.Step, t: K.State)
    requires Pointed(s.view, s.phys) && K.Move(s, x, t)
    ensures Pointed(t.view, t.phys)
  {
    if t.view.dir != s.view.dir {
      AddsPointed(s.view, t.view, x.g.value / ENTRIES, K.Tables(x.cnt), s.phys);
    }
  }

  /** No entry of a slot is open to users. */
  ghost predicate NoUser(v: K.View) {
    K.Shaped(v) && forall g :: 0 <= g < K.SLOTS ==> !UserOk(v.entry[g])
  }

  lemma StepNoUser(s: K.State, x: K.Step, t: K.State)
    requires K.Good(s) && NoUser(s.view) && K.Move(s, x, t)
    ensures NoUser(t.view)
  {
    forall g | 0 <= g < K.SLOTS ensures !UserOk(t.view.entry[g]) {
      assert !UserOk(s.view.entry[g]) && s.view.entry[g] in s.view.entry;
      if x.MapStep? && x.base <= g < x.base + x.cnt {
        MappedEntry(s.view, t.view, x.base, x.cnt, x.frames, g);
      }
    }
  }

  ghost predicate GoodState(s: K.State) {
    K.Good(s) && Pointed(s.view, s.phys) && NoUser(s.view)
  }

  lemma RunGood(phys: int, xs: seq<K.Step>, s: K.State)
    requires 0 <= phys <= 0x10_0000_0000_0000 - ENTRIES * PAGE_SIZE_4K && phys % PAGE_SIZE_4K == 0
    requires Run(K.Move, K.Initial(phys), xs, s)
    ensures GoodState(s)
  {
    forall a, x, b | GoodState(a) && K.Move(a, x, b) ensures GoodState(b) {
      K.StepGood(a, x, b);
      StepPointed(a, x, b);
      StepNoUser(a, x, b);
    }
    RunKeeps(K.Move, GoodState, K.Initial(phys), xs, s);
  }

  /** After any run from paging_init, the walk of every slot ends where its entry says, and nowhere
      exactly when the slot is not in use. */
  lemma EveryRunWalks(phys: int, xs: seq<K.Step>, s: K.State, mem: map<int, seq<int>>, root: int, pdp: int, dir: int,
                      g: int)
    requires 0 <= phys <= 0x10_0000_0000_0000 - ENTRIES * PAGE_SIZE_4K && phys % PAGE_SIZE_4K == 0
    requires Run(K.Move, K.Initial(phys), xs, s)
    requires KernelTop(mem, root, pdp, dir) && HeapTables(mem, s.view, dir, s.phys) && 0 <= g < K.SLOTS
    ensures Walk(mem, root, K.SlotAddr(g)) ==
      if K.InUse(s.live, g) then Page(Frame(s.view.entry[g]), Writable(s.view.entry[g]), false) else NotPresent
    ensures !UserOk(s.view.entry[g])
  {
    RunGood(phys, xs, s);
    SlotWalk(mem, root, pdp, dir, s.view, s.phys, g);
  }

  /** page_kernel_map_memory as the CPU sees it: the mapped slots lead to the frames from phys on,
      writable and closed to users; every other slot leads where it did. */
  lemma MapsWalk(mem: map<int, seq<int>>, mem': map<int, seq<int>>, root: int, pdp: int, dir: int,
                 v: K.View, w: K.View, phys: int, base: int, cnt: int, frames: int, g: int)
    requires KernelTop(mem, root, pdp, dir) && HeapTables(mem, v, dir, phys) && Pointed(v, phys)
    requires KernelTop(mem', root, pdp, dir) && HeapTables(mem', w, dir, phys)
    requires K.Maps(v, w, base, cnt, frames) && frames >= 0 && 0 <= g < K.SLOTS && v.entry[g] >= 0
    ensures Present(v.dir[g / ENTRIES]) && base <= g < base + cnt ==>
      Walk(mem', root, K.SlotAddr(g)) == Page(Frame(frames + (g - base) * PAGE_SIZE_4K), true, false)
    ensures !(base <= g < base + cnt) ==> Walk(mem', root, K.SlotAddr(g)) == Walk(mem, root, K.SlotAddr(g))
  {
    SlotWalk(mem, root, pdp, dir, v, phys, g);
    SlotWalk(mem', root, pdp, dir, w, phys, g);
    if base <= g < base + cnt {
      MappedEntry(v, w, base, cnt, frames, g);
    }
  }

  lemma MappedEntry(v: K.View, w: K.View, base: int, cnt: int, frames: int, g: int)
    requires K.Shaped(v) && K.Shaped(w) && K.Maps(v, w, base, cnt, frames) && frames >= 0
    requires 0 <= g < K.SLOTS && base <= g < base + cnt && v.entry[g] >= 0
    ensures Reached(1, w.entry[g]) == Page(Frame(frames + (g - base) * PAGE_SIZE_4K), true, false)
    ensures UserOk(w.entry[g]) == UserOk(v.entry[g])
  {
    var addr := frames + (g - base) * PAGE_SIZE_4K;
    KernelEntry(v.entry[g], addr, Frame(addr));
  }
}
