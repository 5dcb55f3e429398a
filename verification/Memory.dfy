/** The address spaces on top of the two allocators they draw from: kernel pages from
    page_kernel_alloc4k and frames from pmm_request, until either has none left. */
module Memory {
  import opened Options
  import opened PageEntries
  import opened PageMaps
  import opened AddressSpaces
  import opened Isolation
  import F = Frames
  import K = KernelPages

  // ---------------------------------------------------------------- what the allocators have left

  ghost function ClearFrames(used: set<int>, total: int): set<int> {
    set i | 0 <= i < total && i !in used :: i * PAGE_SIZE_4K
  }

  ghost function FreePages(v: K.View): set<int>
    requires K.Shaped(v)
  {
    set g | 0 <= g < K.SLOTS && !Present(v.entry[g]) :: K.SlotAddr(g)
  }

  /** No large pages, and used slots only in present tables. */
  ghost predicate Sane(v: K.View) {
    && K.Shaped(v)
    && (forall t :: 0 <= t < ENTRIES ==> v.dir[t] >= 0 && !Large(v.dir[t]))
    && (forall g :: 0 <= g < K.SLOTS ==> v.entry[g] >= 0 && (Present(v.entry[g]) ==> Present(v.dir[g / ENTRIES])))
  }

  lemma FrameTaken(used: set<int>, total: int, i: int)
    requires 0 <= i < total && i !in used
    ensures i * PAGE_SIZE_4K in ClearFrames(used, total)
    ensures ClearFrames(used + {i}, total) == ClearFrames(used, total) - {i * PAGE_SIZE_4K}
  {
  }

  lemma NoFrame(used: set<int>, total: int)
    requires forall i :: 0 <= i < total ==> i in used
    ensures ClearFrames(used, total) == {}
  {
  }

  /** A request for one page fails exactly when no slot is free, and otherwise takes one slot. */
  lemma OneSlot(v: K.View, w: K.View, g: Option<int>, phys: int)
    requires Sane(v) && K.Shaped(w) && phys >= 0 && K.Allocates(v, w, 1, g, phys)
    ensures g.None? <==> FreePages(v) == {}
    ensures g.Some? ==> Sane(w) && 0 <= g.value < K.SLOTS && K.SlotAddr(g.value) in FreePages(v)
    ensures g.Some? ==> FreePages(w) == FreePages(v) - {K.SlotAddr(g.value)}
  {
    if g.None? {
      forall h | 0 <= h < K.SLOTS ensures Present(v.entry[h]) {
        NoRoom(v, h);
      }
    } else {
      SlotWasFree(v, w, g.value, phys);
      forall t | 0 <= t < ENTRIES
        ensures w.dir[t] >= 0 && !Large(w.dir[t]) && (Present(v.dir[t]) ==> Present(w.dir[t]))
      {
        DirAfter(v, w, g.value, phys, t);
      }
      TakenSlot(v, w, g.value);
    }
  }

  lemma NoRoom(v: K.View, h: int)
    requires Sane(v) && 0 <= h < K.SLOTS && K.NoOpenRun(v, 1) && K.NoAbsentRun(v, 1)
    ensures Present(v.entry[h])
  {
    assert !K.OpenRun(v, h, 1) && !K.AbsentRun(v, h / ENTRIES, 1);
    assert !K.Open(v, h) && !K.Absent(v, h / ENTRIES);
  }

  lemma SlotWasFree(v: K.View, w: K.View, g: int, phys: int)
    requires Sane(v) && K.Shaped(w) && phys >= 0 && K.Allocates(v, w, 1, Some(g), phys)
    ensures 0 <= g < K.SLOTS && !Present(v.entry[g]) && Present(w.dir[g / ENTRIES])
  {
    if K.LowestOpenRun(v, g, 1) && w.dir == v.dir {
      assert K.Open(v, g);
    } else {
      assert K.Absent(v, g / ENTRIES);
      SetKernel(v.dir[g / ENTRIES], phys + g / ENTRIES * PAGE_SIZE_4K);
    }
  }

  lemma DirAfter(v: K.View, w: K.View, g: int, phys: int, t: int)
    requires Sane(v) && K.Shaped(w) && phys >= 0 && K.Allocates(v, w, 1, Some(g), phys) && 0 <= t < ENTRIES
    ensures w.dir[t] >= 0 && !Large(w.dir[t]) && (Present(v.dir[t]) ==> Present(w.dir[t]))
  {
    if w.dir != v.dir {
      AddedTable(v, w, g / ENTRIES, 1, phys, t);
    }
  }

  lemma AddedTable(v: K.View, w: K.View, first: int, n: int, phys: int, t: int)
    requires Sane(v) && K.Shaped(w) && phys >= 0 && K.Adds(v, w, first, n, phys) && 0 <= t < ENTRIES
    ensures w.dir[t] >= 0 && !Large(w.dir[t]) && (Present(v.dir[t]) ==> Present(w.dir[t]))
  {
    SetKernel(v.dir[t], phys + t * PAGE_SIZE_4K);
  }

  lemma TakenSlot(v: K.View, w: K.View, g: int)
    requires Sane(v) && K.Shaped(w) && 0 <= g < K.SLOTS && !Present(v.entry[g]) && K.Marks(v, w, g, 1)
    requires Present(w.dir[g / ENTRIES])
    requires forall t :: 0 <= t < ENTRIES ==>
      w.dir[t] >= 0 && !Large(w.dir[t]) && (Present(v.dir[t]) ==> Present(w.dir[t]))
    ensures Sane(w) && K.SlotAddr(g) in FreePages(v) && FreePages(w) == FreePages(v) - {K.SlotAddr(g)}
  {
  }

  /** page_kernel_map_memory on a used slot leaves the free slots as they are. */
  lemma MappedSlot(v: K.View, w: K.View, g: int, phys: int)
    requires Sane(v) && K.Shaped(w) && 0 <= g < K.SLOTS && Present(v.entry[g]) && phys >= 0 && K.Maps(v, w, g, 1, phys)
    ensures Sane(w) && FreePages(w) == FreePages(v)
  {
    SetKernel(v.entry[g], phys);
    assert phys + (g - g) * PAGE_SIZE_4K == phys;
    forall h | 0 <= h < K.SLOTS ensures Present(w.entry[h]) == Present(v.entry[h]) && w.entry[h] >= 0 {
      assert h != g ==> w.entry[h] == v.entry[h];
    }
  }

  // ---------------------------------------------------------------- what a run asks for

  datatype Op =
    | NewSpace                    // page_mk_map
    | NewPage(id: nat, virt: int)  // a frame from pmm_request, mapped at virt

  // pml4, pdp, three arrays and 512 directories
  const SPACE_COST := TOP + ENTRIES

  datatype Need = Need(pages: nat, frames: nat)

  /** The tables present in each address space. */
  type Shape = seq<set<(int, int)>>

  predicate Sensible(shape: Shape, op: Op) {
    op.NewPage? ==> op.id < |shape| && op.virt >= 0
  }

  /** The calls of page_kernel_alloc4k(1) and pmm_request that an operation makes. */
  function Cost(shape: Shape, op: Op): Need
    requires Sensible(shape, op)
  {
    match op
    case NewSpace => Need(SPACE_COST, SPACE_COST)
    case NewPage(id, virt) => if (PdpIdx(virt), PdIdx(virt)) in shape[id] then Need(0, 1) else Need(1, 2)
  }

  function Grown(shape: Shape, op: Op): Shape
    requires Sensible(shape, op)
  {
    match op
    case NewSpace => shape + [{}]
    case NewPage(id, virt) => shape[id := shape[id] + {(PdpIdx(virt), PdIdx(virt))}]
  }

  predicate SensibleRun(shape: Shape, ops: seq<Op>)
    decreases |ops|
  {
    ops == [] || (Sensible(shape, ops[0]) && SensibleRun(Grown(shape, ops[0]), ops[1..]))
  }

  function Needs(shape: Shape, ops: seq<Op>): Need
    requires SensibleRun(shape, ops)
    decreases |ops|
  {
    if ops == [] then Need(0, 0)
    else
      var here, rest := Cost(shape, ops[0]), Needs(Grown(shape, ops[0]), ops[1..]);
      Need(here.pages + rest.pages, here.frames + rest.frames)
  }

  /** The tables after a run. */
  function GrownAll(shape: Shape, ops: seq<Op>): Shape
    requires SensibleRun(shape, ops)
    decreases |ops|
  {
    if ops == [] then shape else GrownAll(Grown(shape, ops[0]), ops[1..])
  }

  ghost function ShapeOf(maps: seq<PageMap>): Shape
    requires forall id :: 0 <= id < |maps| ==> Shaped(maps[id])
  {
    seq(|maps|, id requires 0 <= id < |maps| => Built(maps[id]))
  }

  // ---------------------------------------------------------------- drawing

  /** The frames pmm_request can still hand out. */
  ghost function Left(fm: F.FrameMap): set<int>
    reads fm.map_
  {
    ClearFrames(fm.Used(), 8 * fm.map_.Length)
  }

  /** One frame from pmm_request, null when there is none. */
  method TakeFrame(fm: F.FrameMap) returns (f: int)
    requires 0 !in Left(fm)
    modifies fm.map_
    ensures f == 0 <==> old(Left(fm)) == {}
    ensures f == 0 ==> Left(fm) == old(Left(fm))
    ensures f != 0 ==> f in old(Left(fm)) && Left(fm) == old(Left(fm)) - {f}
  {
    ghost var used, total := fm.Used(), 8 * fm.map_.Length;
    f := fm.Request();
    if forall i :: 0 <= i < total ==> i in used {
      NoFrame(used, total);
    } else {
      FrameTaken(used, total, f / PAGE_SIZE_4K);
    }
  }

  /** One kernel page from page_kernel_alloc4k, if there is one. */
  method TakePage(ks: K.KernelSpace) returns (va: Option<int>, ghost g: int)
    requires ks.Shape() && Sane(ks.Now())
    modifies ks.dir, ks.tables
    ensures ks.Shape() && Sane(ks.Now())
    ensures va.None? <==> old(FreePages(ks.Now())) == {}
    ensures va.None? ==> FreePages(ks.Now()) == old(FreePages(ks.Now()))
    ensures va.Some? ==>
      va.value in old(FreePages(ks.Now())) && FreePages(ks.Now()) == old(FreePages(ks.Now())) - {va.value}
    ensures va.Some? ==> 0 <= g < K.SLOTS && va.value == K.SlotAddr(g) && Present(ks.Now().entry[g])
  {
    ghost var v := ks.Now();
    ghost var slot;
    va, slot := ks.Alloc4k(1);
    OneSlot(v, ks.Now(), slot, ks.tablesPhys);
    g := 0;
    if va.Some? {
      g := slot.value;
    }
  }

  /** The bitmap and the kernel's page tables are different memory. */
  ghost predicate Separate(fm: F.FrameMap, ks: K.KernelSpace) {
    (fm.map_ as object) != (ks.dir as object) && (fm.map_ as object) != (ks.tables as object)
  }

  /** page_kernel_alloc4k(1), pmm_request() and page_kernel_map_memory of the one at the other. */
  method TakePair(fm: F.FrameMap, ks: K.KernelSpace) returns (ok: bool, va: int, f: int)
    requires Separate(fm, ks) && ks.Shape() && Sane(ks.Now()) && 0 !in Left(fm) && forall x :: x in Left(fm) ==> x >= 0
    modifies fm.map_, ks.dir, ks.tables
    ensures ks.Shape() && Sane(ks.Now())
    ensures ok <==> old(FreePages(ks.Now())) != {} && old(Left(fm)) != {}
    ensures ok ==> va in old(FreePages(ks.Now())) && f in old(Left(fm))
    ensures ok ==> FreePages(ks.Now()) == old(FreePages(ks.Now())) - {va} && Left(fm) == old(Left(fm)) - {f}
    ensures !ok ==> FreePages(ks.Now()) <= old(FreePages(ks.Now())) && Left(fm) == old(Left(fm))
    ensures !ok ==> FreePages(ks.Now()) == {} || Left(fm) == {}
  {
    var page, g := TakePage(ks);
    if page.None? {
      return false, 0, 0;
    }
    va := page.value;
    f := TakeFrame(fm);
    if f == 0 {
      return false, 0, 0;
    }
    ghost var v := ks.Now();
    ks.MapMemory(va, f, 1, g);
    MappedSlot(v, ks.Now(), g, f);
    ok := true;
  }

  class System {
    const paging: Paging
    const frames: F.FrameMap
    const kernel: K.KernelSpace

    /** The address spaces are well-formed, coherent and isolated. */
    ghost predicate Spaces()
      reads paging`vm, paging`owner, paging`maps
    {
      && AllOk(paging.vm, paging.owner, paging.maps) && GoodPage(paging.vm.kpml4)
      && Isolated(paging.vm, paging.owner, paging.maps) && AllClean(paging.vm, paging.maps)
    }

    /** What Paging counts as free is what the allocators have left. */
    ghost predicate Stock()
      reads paging, frames.map_, kernel.dir, kernel.tables
    {
      && Supply(paging.vm, paging.owner, paging.spare, paging.pages, paging.frames)
      && Separate(frames, kernel) && kernel.Shape() && Sane(kernel.Now()) && paging.frames == Left(frames)
      && paging.pages == FreePages(kernel.Now())
    }

    ghost predicate Valid()
      reads paging, frames.map_, kernel.dir, kernel.tables
    {
      Spaces() && Stock() && paging.spare == []
    }

    /** pmm_init and paging_init, with ram as the words of the frames above the reserved ones. */
    constructor (ram: map<int, seq<int>>, kpml4: seq<int>, tablesPhys: int)
      requires tablesPhys >= 0 && GoodPage(kpml4)
      requires forall i :: F.BUFFER_SIZE / 8 <= i < 8 * F.BUFFER_SIZE ==> Backed(ram, i)
      ensures Valid() && paging.maps == [] && paging.vm == Vm(map[], ram, kpml4)
      ensures fresh(paging) && fresh(frames.map_) && fresh(kernel.dir) && fresh(kernel.tables)
      ensures |paging.pages| == K.SLOTS && |paging.frames| == 8 * F.BUFFER_SIZE - F.BUFFER_SIZE / 8
    {
      var fm := new F.FrameMap();
      var ks := new K.KernelSpace(tablesPhys);
      ghost var pages := FreePages(ks.Now());
      ghost var clear := ClearFrames(fm.Used(), 8 * fm.map_.Length);
      FirstSupply(ram, kpml4, pages, clear, ks.Now());
      paging := new Paging(Vm(map[], ram, kpml4), [], pages, clear);
      frames, kernel := fm, ks;
    }

    method Draw() returns (ok: bool)
      requires Stock()
      modifies paging`spare, paging`pages, paging`frames, kernel.dir, kernel.tables, frames.map_
      ensures Stock()
      ensures ok <==> old(paging.pages) != {} && old(paging.frames) != {}
      ensures !ok ==> paging.spare == old(paging.spare) && (paging.pages == {} || paging.frames == {})
      ensures ok ==> |paging.spare| == |old(paging.spare)| + 1
      ensures ok ==> |paging.pages| == |old(paging.pages)| - 1 && |paging.frames| == |old(paging.frames)| - 1
    {
      ghost var vm, owner, spare, pages, free := paging.vm, paging.owner, paging.spare, paging.pages, paging.frames;
      GoodStock(vm, owner, spare, pages, free);
      var va, f;
      ok, va, f := TakePair(frames, kernel);
      ghost var pages', free' := FreePages(kernel.Now()), Left(frames);
      if ok {
        SupplyMore(vm, owner, spare, pages, free, va, f);
        Put(paging.spare + [(va, f)], pages', free');
      } else {
        SupplyLess(vm, owner, spare, pages, free, pages', free');
        Put(paging.spare, pages', free');
      }
    }

    method Put(spare: seq<(int, int)>, ghost pages: set<int>, ghost free: set<int>)
      requires Supply(paging.vm, paging.owner, spare, pages, free)
      requires Separate(frames, kernel) && kernel.Shape() && Sane(kernel.Now()) && free == Left(frames)
      requires pages == FreePages(kernel.Now())
      modifies paging`spare, paging`pages, paging`frames
      ensures Stock() && paging.spare == spare && paging.pages == pages && paging.frames == free
    {
      paging.spare := spare;
      paging.pages := pages;
      paging.frames := free;
    }

    /** k pairs, or as many as there are. */
    method DrawMany(k: nat) returns (ok: bool)
      requires Stock()
      modifies paging`spare, paging`pages, paging`frames, kernel.dir, kernel.tables, frames.map_
      ensures Stock()
      ensures ok <==> k <= |old(paging.pages)| && k <= |old(paging.frames)|
      ensures !ok ==> paging.pages == {} || paging.frames == {}
      ensures ok ==> |paging.spare| == |old(paging.spare)| + k
      ensures ok ==> |paging.pages| == |old(paging.pages)| - k && |paging.frames| == |old(paging.frames)| - k
    {
      for i := 0 to k
        invariant Stock() && |paging.spare| == |old(paging.spare)| + i
        invariant |paging.pages| == |old(paging.pages)| - i && |paging.frames| == |old(paging.frames)| - i
      {
        ok := Draw();
        if !ok {
          return;
        }
      }
      ok := true;
    }

    method MakeSpace()
      requires Spaces() && Stock() && |paging.spare| == SPACE_COST
      modifies paging`vm, paging`maps, paging`spare, paging`owner
      ensures Valid() && ShapeOf(paging.maps) == Grown(ShapeOf(old(paging.maps)), Op.NewSpace)
    {
      ghost var vm0, owner0, maps0 := paging.vm, paging.owner, paging.maps;
      var id := paging.MkMap();
      SpaceMade(vm0, owner0, maps0, paging.vm, paging.owner, paging.maps);
    }

    /** page_mk_map: ok is false when one of its calls came back empty. */
    method NewSpace() returns (ok: bool)
      requires Valid()
      modifies paging, kernel.dir, kernel.tables, frames.map_
      ensures Spaces() && Stock()
      ensures Served(ok, Cost(ShapeOf(old(paging.maps)), Op.NewSpace), |old(paging.pages)|, |old(paging.frames)|,
                     paging.pages, paging.frames)
      ensures ok ==> Valid() && ShapeOf(paging.maps) == Grown(ShapeOf(old(paging.maps)), Op.NewSpace)
    {
      ok := DrawMany(SPACE_COST);
      if ok {
        MakeSpace();
      }
    }

    /** pmm_request for page n of an address space. */
    method OwnFrame(ghost id: nat, ghost n: int) returns (f: int)
      requires Valid() && id < |paging.maps| && 0 <= n < PAGES
      modifies paging`owner, paging`frames, frames.map_
      ensures Spaces() && Stock()
      ensures f == 0 <==> old(paging.frames) == {}
      ensures f == 0 ==> paging.frames == {}
      ensures f != 0 ==>
        GoodFrame(f) && f !in old(paging.owner) && paging.owner == old(paging.owner)[f := UserRole(id, n)]
      ensures f != 0 ==> |paging.frames| == |old(paging.frames)| - 1
    {
      ghost var vm, owner, maps, pages, free := paging.vm, paging.owner, paging.maps, paging.pages, paging.frames;
      GoodStock(vm, owner, [], pages, free);
      f := TakeFrame(frames);
      if f != 0 {
        assert FreshFrame(vm, owner, f);
        OwnMore(vm, owner, maps, [], pages, free, f, UserRole(id, n));
        MoreOwned(vm, owner, maps, owner[f := UserRole(id, n)]);
        paging.owner, paging.frames := owner[f := UserRole(id, n)], Left(frames);
      }
    }

    /** A pair for the table that page_map_memory needs, if it needs one. */
    method DrawTable(id: nat, i: int, j: int) returns (ok: bool)
      requires Valid() && id < |paging.maps| && Index(i) && Index(j)
      modifies paging`spare, paging`pages, paging`frames, kernel.dir, kernel.tables, frames.map_
      ensures Stock()
      ensures var k := if (i, j) in Built(paging.maps[id]) then 0 else 1;
        && Served(ok, Need(k, k), |old(paging.pages)|, |old(paging.frames)|, paging.pages, paging.frames)
        && (ok ==> |paging.spare| == k)
    {
      ok := true;
      if paging.maps[id].tables[i][j] == 0 {
        ok := Draw();
      }
    }

    /** One frame of an address space has just been given to one of its pages. */
    ghost predicate Given(id: nat, virt: int, f: int, owner0: Owner)
      reads paging`vm, paging`owner, paging`maps
    {
      && Spaces() && id < |paging.maps| && virt >= 0 && GoodFrame(f) && f !in owner0
      && AllOk(paging.vm, owner0, paging.maps) && Isolated(paging.vm, owner0, paging.maps)
      && paging.owner == owner0[f := UserRole(id, virt / PAGE_SIZE_4K % PAGES)]
    }

    /** page_map_memory of the frame at virt. */
    method Place(id: nat, virt: int, f: int, ghost owner0: Owner)
      requires Given(id, virt, f, owner0) && Stock()
      requires |paging.spare| == if (PdpIdx(virt), PdIdx(virt)) in Built(paging.maps[id]) then 0 else 1
      modifies paging`vm, paging`maps, paging`spare, paging`owner
      ensures Valid() && ShapeOf(paging.maps) == Grown(ShapeOf(old(paging.maps)), Op.NewPage(id, virt))
    {
      ghost var maps0, vm0, owner1 := paging.maps, paging.vm, paging.owner;
      paging.MapPage(id, virt, f);
      PageMade(vm0, owner0, maps0, owner1, paging.vm, paging.owner, paging.maps, id, virt, f);
    }

    /** The same with the pair for a table drawn first. */
    method Install(id: nat, virt: int, f: int, ghost owner0: Owner) returns (ok: bool)
      requires Given(id, virt, f, owner0) && Stock() && paging.spare == []
      modifies paging, kernel.dir, kernel.tables, frames.map_
      ensures Spaces() && Stock()
      ensures var k := if (PdpIdx(virt), PdIdx(virt)) in old(Built(paging.maps[id])) then 0 else 1;
        Served(ok, Need(k, k), |old(paging.pages)|, |old(paging.frames)|, paging.pages, paging.frames)
      ensures ok ==> Valid() && ShapeOf(paging.maps) == Grown(ShapeOf(old(paging.maps)), Op.NewPage(id, virt))
    {
      ok := DrawTable(id, PdpIdx(virt), PdIdx(virt));
      if ok {
        Place(id, virt, f, owner0);
      }
    }

    /** A frame from pmm_request, mapped by page_map_memory: ok is false when a call came back empty. */
    method NewPage(id: nat, virt: int) returns (ok: bool)
      requires Valid() && id < |paging.maps| && virt >= 0
      modifies paging, kernel.dir, kernel.tables, frames.map_
      ensures Spaces() && Stock()
      ensures Served(ok, Cost(ShapeOf(old(paging.maps)), Op.NewPage(id, virt)), |old(paging.pages)|,
                     |old(paging.frames)|, paging.pages, paging.frames)
      ensures ok ==> Valid() && ShapeOf(paging.maps) == Grown(ShapeOf(old(paging.maps)), Op.NewPage(id, virt))
    {
      ghost var owner0 := paging.owner;
      var f := OwnFrame(id, virt / PAGE_SIZE_4K % PAGES);
      if f == 0 {
        return false;
      }
      assert Given(id, virt, f, owner0);
      ok := Install(id, virt, f, owner0);
    }

    /** Any run of new address spaces and new pages. It gets through exactly when the calls it makes
        are no more than the pages and frames left, and then the address spaces are isolated; otherwise
        it is stopped at the first call that comes back empty. */
    method AnyRun(ops: seq<Op>) returns (ok: bool)
      requires Valid() && SensibleRun(ShapeOf(paging.maps), ops)
      modifies paging, kernel.dir, kernel.tables, frames.map_
      ensures Spaces() && Stock()
      ensures Served(ok, Needs(ShapeOf(old(paging.maps)), ops), |old(paging.pages)|, |old(paging.frames)|,
                     paging.pages, paging.frames)
      ensures ok ==> Valid() && ShapeOf(paging.maps) == GrownAll(ShapeOf(old(paging.maps)), ops)
      decreases |ops|
    {
      ok := true;
      if ops == [] {
        return;
      }
      match ops[0] {
        case NewSpace => ok := NewSpace();
        case NewPage(id, virt) => ok := NewPage(id, virt);
      }
      if ok {
        ok := AnyRun(ops[1..]);
      }
    }

    /** What the code does when pmm_request has too few frames: it maps the null it got. With its table
        in place the page leads to frame 0 and the address spaces are no longer isolated; a table it has
        to make is at frame 0 and the address space is no longer well-formed. */
    method PageAnyway(id: nat, virt: int)
      requires Valid() && id < |paging.maps| && virt >= 0
      requires Cost(ShapeOf(paging.maps), Op.NewPage(id, virt)).frames > |paging.frames|
      requires (PdpIdx(virt), PdIdx(virt)) in Built(paging.maps[id]) || paging.pages != {}
      modifies paging, frames.map_, kernel.dir, kernel.tables
      ensures id < |paging.maps|
      ensures if (PdpIdx(virt), PdIdx(virt)) in old(Built(paging.maps[id]))
        then paging.Valid() && !Isolated(paging.vm, paging.owner, paging.maps)
        else !MapOk(paging.vm, paging.owner, id, paging.maps[id])
    {
      var f := DrawFrame();
      if paging.maps[id].tables[PdpIdx(virt)][PdIdx(virt)] != 0 {
        ghost var vm0, maps0 := paging.vm, paging.maps;
        paging.MapPage(id, virt, f);
        NullPage(vm0, maps0[id], paging.vm, paging.owner, paging.maps, id, virt);
      } else {
        TableAnyway(id, virt, f);
      }
    }

    /** pmm_request alone. */
    method DrawFrame() returns (f: int)
      requires Spaces() && Stock()
      modifies paging`spare, paging`pages, paging`frames, frames.map_
      ensures Spaces() && Stock() && f >= 0 && paging.spare == old(paging.spare) && paging.pages == old(paging.pages)
      ensures f == 0 <==> old(paging.frames) == {}
      ensures |paging.frames| == |old(paging.frames)| - if f == 0 then 0 else 1
    {
      ghost var vm, owner, spare, pages, free := paging.vm, paging.owner, paging.spare, paging.pages, paging.frames;
      GoodStock(vm, owner, spare, pages, free);
      f := TakeFrame(frames);
      SupplyLess(vm, owner, spare, pages, free, pages, Left(frames));
      Put(paging.spare, paging.pages, Left(frames));
    }

    /** page_mk_table with a kernel page but no frame, and then the page entry. */
    method TableAnyway(id: nat, virt: int, f: int)
      requires Spaces() && Stock() && id < |paging.maps| && virt >= 0 && f >= 0 && paging.pages != {}
      requires paging.frames == {}
      requires paging.maps[id].tables[PdpIdx(virt)][PdIdx(virt)] == 0
      modifies paging`vm, paging`maps, frames.map_, kernel.dir, kernel.tables
      ensures |paging.maps| == |old(paging.maps)| && !MapOk(paging.vm, paging.owner, id, paging.maps[id])
    {
      var i, j, k, m := PdpIdx(virt), PdIdx(virt), PtIdx(virt), paging.maps[id];
      var va, table := NullPair();
      NullTable(paging.vm, paging.owner, id, m, i, j, k, f, va, paging.owner);
      var vm', m' := MkTableVm(paging.vm, m, i, j, va, table), WithTable(m, i, j, va);
      paging.vm, paging.maps := SetPageVm(vm', m', i, j, k, f), paging.maps[id := m'];
    }

    /** A kernel page mapped to the null that pmm_request returns. */
    method NullPair() returns (va: int, f: int)
      requires Stock() && paging.pages != {} && paging.frames == {}
      modifies frames.map_, kernel.dir, kernel.tables
      ensures va != 0 && va !in paging.vm.kmap && f == 0
    {
      GoodStock(paging.vm, paging.owner, paging.spare, paging.pages, paging.frames);
      var page, g := TakePage(kernel);
      va := page.value;
      assert FreshPage(paging.vm, va);
      f := TakeFrame(frames);
      kernel.MapMemory(va, f, 1, g);
    }
  }

  // ---------------------------------------------------------------- a run that uses up the frames

  /** Mapping the same address again needs one frame each time. */
  lemma {:induction false} SameAddress(shape: Shape, k: nat)
    requires |shape| == 1 && (0, 0) in shape[0]
    ensures var ops := seq(k, _ => Op.NewPage(0, 0));
      SensibleRun(shape, ops) && Needs(shape, ops) == Need(0, k) && GrownAll(shape, ops) == shape
  {
    var op, ops := Op.NewPage(0, 0), seq(k, _ => Op.NewPage(0, 0));
    FirstAddress();
    if k > 0 {
      assert Grown(shape, op) == shape by { assert shape[0] + {(0, 0)} == shape[0]; }
      assert ops[0] == op && ops[1..] == seq(k - 1, _ => Op.NewPage(0, 0));
      SameAddress(shape, k - 1);
    }
  }

  lemma FirstAddress()
    ensures PdpIdx(0) == 0 && PdIdx(0) == 0
  {
  }

  /** One address space, and its first page mapped k + 1 times. */
  function UseUp(k: nat): seq<Op> {
    [Op.NewSpace, Op.NewPage(0, 0)] + seq(k, _ => Op.NewPage(0, 0))
  }

  lemma UseUpNeeds(k: nat)
    ensures SensibleRun([], UseUp(k)) && Needs([], UseUp(k)) == Need(SPACE_COST + 1, SPACE_COST + 2 + k)
    ensures GrownAll([], UseUp(k)) == [{(0, 0)}]
  {
    var op, rest := Op.NewPage(0, 0), seq(k, _ => Op.NewPage(0, 0));
    var ops := UseUp(k);
    FirstAddress();
    assert ops[0] == Op.NewSpace && ops[1..] == [op] + rest;
    assert Grown([], Op.NewSpace) == [{}];
    assert ([op] + rest)[0] == op && ([op] + rest)[1..] == rest;
    assert Grown([{}], op) == [{(0, 0)}] by { assert {} + {(0, 0)} == {(0, 0)}; }
    SameAddress([{(0, 0)}], k);
  }

  lemma OneMap(maps: seq<PageMap>)
    requires (forall id :: 0 <= id < |maps| ==> Shaped(maps[id])) && ShapeOf(maps) == [{(0, 0)}]
    ensures |maps| == 1 && Built(maps[0]) == {(0, 0)}
  {
    assert ShapeOf(maps)[0] == Built(maps[0]);
  }

  /** From pmm_init and paging_init, a run that takes the last frame. */
  method LastFrame(ram: map<int, seq<int>>, kpml4: seq<int>, tablesPhys: int) returns (sys: System)
    requires tablesPhys >= 0 && GoodPage(kpml4)
    requires forall i :: F.BUFFER_SIZE / 8 <= i < 8 * F.BUFFER_SIZE ==> Backed(ram, i)
    ensures fresh(sys.paging) && fresh(sys.frames.map_) && fresh(sys.kernel.dir) && fresh(sys.kernel.tables)
    ensures sys.Valid() && |sys.paging.maps| == 1 && Built(sys.paging.maps[0]) == {(0, 0)} && sys.paging.frames == {}
  {
    sys := new System(ram, kpml4, tablesPhys);
    var k := 8 * F.BUFFER_SIZE - F.BUFFER_SIZE / 8 - SPACE_COST - 2;
    UseUpNeeds(k);
    assert ShapeOf(sys.paging.maps) == [];
    var ok := sys.AnyRun(UseUp(k));
    assert ok;
    OneMap(sys.paging.maps);
  }

  /** One page more, and the address spaces are no longer isolated. */
  method RunOut(ram: map<int, seq<int>>, kpml4: seq<int>, tablesPhys: int) returns (sys: System)
    requires tablesPhys >= 0 && GoodPage(kpml4)
    requires forall i :: F.BUFFER_SIZE / 8 <= i < 8 * F.BUFFER_SIZE ==> Backed(ram, i)
    ensures sys.paging.Valid() && !Isolated(sys.paging.vm, sys.paging.owner, sys.paging.maps)
  {
    sys := LastFrame(ram, kpml4, tablesPhys);
    FirstAddress();
    assert ShapeOf(sys.paging.maps)[0] == {(0, 0)};
    sys.PageAnyway(0, 0);
  }

  /** Whether a need was met, and what is left of the allocators. */
  ghost predicate Served(ok: bool, need: Need, pages: nat, frames: nat, pages': set<int>, frames': set<int>) {
    && (ok <==> need.pages <= pages && need.frames <= frames)
    && (if ok then |pages'| == pages - need.pages && |frames'| == frames - need.frames
        else pages' == {} || frames' == {})
  }

  /** Giving a use to more frames changes nothing about pages. */
  lemma MoreOwned(vm: Vm, owner: Owner, maps: seq<PageMap>, owner': Owner)
    requires Isolated(vm, owner, maps) && OwnerGrows(owner, owner')
    ensures Isolated(vm, owner', maps)
  {
    forall id | 0 <= id < |maps| ensures SpaceOwned(vm, owner', id, maps[id]) {
      assert SpaceOwned(vm, owner, id, maps[id]);
      forall n | 0 <= n < PAGES ensures PageOwned(vm, owner', id, maps[id], n) {
        assert PageOwned(vm, owner, id, maps[id], n);
      }
    }
  }

  lemma PageMade(vm: Vm, owner: Owner, maps: seq<PageMap>, owner1: Owner, vm': Vm, owner': Owner, maps': seq<PageMap>,
                 id: nat, virt: int, f: int)
    requires AllOk(vm, owner, maps) && Isolated(vm, owner, maps) && AllClean(vm, maps) && id < |maps| && virt >= 0
    requires GoodFrame(f) && f !in owner && owner1 == owner[f := UserRole(id, virt / PAGE_SIZE_4K % PAGES)]
    requires AllOk(vm', owner', maps') && OwnerGrows(owner1, owner') && |maps'| == |maps|
    requires OthersSame(vm, maps, vm', maps', id) && TableAdded(maps[id], maps'[id], PdpIdx(virt), PdIdx(virt))
    requires Mapped(vm, maps[id], vm', maps'[id], virt / PAGE_SIZE_4K, 1, f)
    ensures Isolated(vm', owner', maps') && AllClean(vm', maps')
    ensures ShapeOf(maps') == Grown(ShapeOf(maps), Op.NewPage(id, virt))
  {
    assert OwnerGrows(owner, owner');
    OthersOwned(vm, owner, maps, vm', owner', maps', id);
    assert SpaceOwned(vm, owner, id, maps[id]) && Clean(vm, maps[id]);
    MappedOwned(vm, owner, maps[id], vm', owner', maps'[id], id, virt / PAGE_SIZE_4K, f);
    OthersClean(vm, maps, vm', maps', id);
    PageShape(vm, maps, vm', maps', id, virt);
  }

  lemma OthersClean(vm: Vm, maps: seq<PageMap>, vm': Vm, maps': seq<PageMap>, id: nat)
    requires |maps'| == |maps| && id < |maps| && AllClean(vm, maps) && OthersSame(vm, maps, vm', maps', id)
    requires Shaped(maps'[id]) && Clean(vm', maps'[id])
    ensures AllClean(vm', maps')
  {
    forall o | 0 <= o < |maps'| ensures Shaped(maps'[o]) && Clean(vm', maps'[o]) {
      if o != id {
        StillClean(vm, maps[o], vm', maps'[o]);
      }
    }
  }

  lemma PageShape(vm: Vm, maps: seq<PageMap>, vm': Vm, maps': seq<PageMap>, id: nat, virt: int)
    requires |maps'| == |maps| && id < |maps| && virt >= 0 && OthersSame(vm, maps, vm', maps', id)
    requires forall o :: 0 <= o < |maps| ==> Shaped(maps[o]) && Shaped(maps'[o])
    requires TableAdded(maps[id], maps'[id], PdpIdx(virt), PdIdx(virt))
    ensures ShapeOf(maps') == Grown(ShapeOf(maps), Op.NewPage(id, virt))
  {
  }

  lemma StillClean(vm: Vm, m: PageMap, vm': Vm, m': PageMap)
    requires SameSpace(vm, m, vm', m') && Clean(vm, m)
    ensures Clean(vm', m')
  {
    forall i, j | Index(i) && Index(j) ensures CleanAt(vm', m', i, j) {
      assert SameCell(vm, m, vm', m', i, j) && CleanAt(vm, m, i, j);
    }
  }

  lemma SpaceMade(vm: Vm, owner: Owner, maps: seq<PageMap>, vm': Vm, owner': Owner, maps': seq<PageMap>)
    requires AllOk(vm, owner, maps) && Isolated(vm, owner, maps) && AllClean(vm, maps)
    requires AllOk(vm', owner', maps') && OwnerGrows(owner, owner') && |maps'| == |maps| + 1
    requires OthersSame(vm, maps, vm', maps', |maps|) && Clean(vm', maps'[|maps|]) && Built(maps'[|maps|]) == {}
    requires forall n :: 0 <= n < PAGES ==> Pg(vm', maps'[|maps|], n) == 0
    ensures Isolated(vm', owner', maps') && AllClean(vm', maps')
    ensures ShapeOf(maps') == ShapeOf(maps) + [{}]
  {
    var id := |maps|;
    OthersOwned(vm, owner, maps, vm', owner', maps', id);
    assert SpaceOwned(vm', owner', id, maps'[id]) by {
      forall n | 0 <= n < PAGES ensures PageOwned(vm', owner', id, maps'[id], n) {
      }
    }
    forall o | 0 <= o < |maps'| ensures Clean(vm', maps'[o]) {
      if o < id {
        StillClean(vm, maps[o], vm', maps'[o]);
      }
    }
  }

  lemma GoodStock(vm: Vm, owner: Owner, spare: seq<(int, int)>, pages: set<int>, frames: set<int>)
    requires Supply(vm, owner, spare, pages, frames)
    ensures 0 !in frames && forall f :: f in frames ==> f >= 0
  {
    assert forall f :: f in frames ==> FreshFrame(vm, owner, f);
  }

  lemma SupplyLess(vm: Vm, owner: Owner, spare: seq<(int, int)>, pages: set<int>, frames: set<int>, pages': set<int>,
                   frames': set<int>)
    requires Supply(vm, owner, spare, pages, frames) && pages' <= pages && frames' <= frames
    ensures Supply(vm, owner, spare, pages', frames')
  {
  }

  /** Frame i is ordinary memory. */
  predicate Backed(ram: map<int, seq<int>>, i: int) {
    var f := i * PAGE_SIZE_4K;
    f in ram && |ram[f]| == ENTRIES && forall k :: 0 <= k < ENTRIES ==> ram[f][k] >= 0
  }

  lemma SupplyMore(vm: Vm, owner: Owner, spare: seq<(int, int)>, pages: set<int>, frames: set<int>, va: int, f: int)
    requires Supply(vm, owner, spare, pages, frames) && va in pages && f in frames
    ensures Supply(vm, owner, spare + [(va, f)], pages - {va}, frames - {f})
  {
    var more := spare + [(va, f)];
    assert FreshPage(vm, va) && FreshFrame(vm, owner, f);
    forall k | 0 <= k < |more| ensures Fresh(vm, owner, more[k].0, more[k].1) {
      if k < |spare| {
        assert more[k] == spare[k] && Fresh(vm, owner, spare[k].0, spare[k].1);
      }
    }
  }

  lemma FirstSupply(ram: map<int, seq<int>>, kpml4: seq<int>, pages: set<int>, clear: set<int>, v: K.View)
    requires K.Shaped(v) && v == K.Initial(0).view && pages == FreePages(v)
    requires clear == ClearFrames(F.Span(0, F.BUFFER_SIZE / 8), 8 * F.BUFFER_SIZE)
    requires forall i :: F.BUFFER_SIZE / 8 <= i < 8 * F.BUFFER_SIZE ==> Backed(ram, i)
    ensures Supply(Vm(map[], ram, kpml4), map[], [], pages, clear) && Sane(v)
    ensures |pages| == K.SLOTS && |clear| == 8 * F.BUFFER_SIZE - F.BUFFER_SIZE / 8
  {
    forall f | f in clear ensures FreshFrame(Vm(map[], ram, kpml4), map[], f) {
      var i :| 0 <= i < 8 * F.BUFFER_SIZE && i !in F.Span(0, F.BUFFER_SIZE / 8) && f == i * PAGE_SIZE_4K;
      assert !F.Covers(0, F.BUFFER_SIZE / 8, i);
      assert Backed(ram, i);
    }
    AllClear();
    Counts(F.BUFFER_SIZE / 8, 8 * F.BUFFER_SIZE, clear);
    PageCounts(K.SLOTS, pages);
  }

  lemma AllClear()
    ensures ClearFrames(F.Span(0, F.BUFFER_SIZE / 8), 8 * F.BUFFER_SIZE) ==
            set i | F.BUFFER_SIZE / 8 <= i < 8 * F.BUFFER_SIZE :: i * PAGE_SIZE_4K
  {
    var used := F.Span(0, F.BUFFER_SIZE / 8);
    var all := set i | F.BUFFER_SIZE / 8 <= i < 8 * F.BUFFER_SIZE :: i * PAGE_SIZE_4K;
    forall f ensures f in ClearFrames(used, 8 * F.BUFFER_SIZE) <==> f in all {
      if f in all {
        var i :| F.BUFFER_SIZE / 8 <= i < 8 * F.BUFFER_SIZE && f == i * PAGE_SIZE_4K;
        assert !F.Covers(0, F.BUFFER_SIZE / 8, i) && i !in used;
      }
      if f in ClearFrames(used, 8 * F.BUFFER_SIZE) {
        var i :| 0 <= i < 8 * F.BUFFER_SIZE && i !in used && f == i * PAGE_SIZE_4K;
        assert !F.Covers(0, F.BUFFER_SIZE / 8, i);
      }
    }
  }

  /** One frame for every number from lo to hi. */
  lemma {:induction false} Counts(lo: int, hi: int, s: set<int>)
    requires 0 <= lo <= hi && s == set i | lo <= i < hi :: i * PAGE_SIZE_4K
    ensures |s| == hi - lo
    decreases hi
  {
    if lo < hi {
      var t := set i | lo <= i < hi - 1 :: i * PAGE_SIZE_4K;
      Counts(lo, hi - 1, t);
      assert (hi - 1) * PAGE_SIZE_4K !in t;
      assert s == t + {(hi - 1) * PAGE_SIZE_4K};
    }
  }

  lemma {:induction false} PageCounts(n: int, s: set<int>)
    requires 0 <= n && s == set g | 0 <= g < n :: K.SlotAddr(g)
    ensures |s| == n
    decreases n
  {
    if n > 0 {
      var t := set g | 0 <= g < n - 1 :: K.SlotAddr(g);
      PageCounts(n - 1, t);
      assert K.SlotAddr(n - 1) !in t;
      assert s == t + {K.SlotAddr(n - 1)};
    }
  }
}
