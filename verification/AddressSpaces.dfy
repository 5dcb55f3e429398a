/** mem/paging.c: building, filling and cloning user address spaces. */
module AddressSpaces {
  import opened PageEntries
  import opened PageMaps
  import opened PageBuild

  // User pages below 512 GiB
  const PAGES := 0x800_0000

  /** The entry of page n. */
  function Pg(vm: Vm, m: PageMap, n: int): int
    requires Shaped(m) && 0 <= n < PAGES
  {
    Raw(vm, m, n / 262144, n / ENTRIES % ENTRIES, n % ENTRIES)
  }

  /** page_getphys by page number. */
  function Tr(vm: Vm, m: PageMap, n: int): int
    requires Shaped(m) && 0 <= n < PAGES
  {
    Frame(Pg(vm, m, n))
  }

  lemma TrIsGetphys(vm: Vm, m: PageMap, v: int)
    requires Shaped(m) && 0 <= v < PDP_SIZE
    ensures Getphys(vm, m, v) == Tr(vm, m, v / PAGE_SIZE_4K)
  {
    UserIndices(v);
  }

  /** The last round below cnt that reaches the page d behind the first one; the rounds come round
      after 2^27 pages. */
  function Last(d: int, cnt: int): int { d + (cnt - 1 - d) / PAGES * PAGES }

  ghost predicate MappedAt(vm: Vm, m: PageMap, vm': Vm, m': PageMap, first: int, cnt: int, phys: int, n: int)
    requires Shaped(m) && Shaped(m') && 0 <= n < PAGES
  {
    var d := (n - first) % PAGES;
    if d < cnt then Leads(Pg(vm', m', n), phys + Last(d, cnt) * PAGE_SIZE_4K) else Pg(vm', m', n) == Pg(vm, m, n)
  }

  /** Pages first .. first + cnt - 1, counted around the 512 GiB, are now present and go to the frames
      from phys on; no other page changed. */
  ghost predicate Mapped(vm: Vm, m: PageMap, vm': Vm, m': PageMap, first: int, cnt: int, phys: int)
    requires Shaped(m) && Shaped(m')
  {
    && (forall n :: 0 <= n < PAGES ==> MappedAt(vm, m, vm', m', first, cnt, phys, n))
    && (forall i, j :: Index(i) && Index(j) ==> CleanAt(vm', m', i, j) == CleanAt(vm, m, i, j))
  }

  /** The entry of the page an address lies in. */
  lemma PageOfAddress(vm: Vm, m: PageMap, v: int)
    requires Shaped(m) && 0 <= v < PDP_SIZE
    ensures 0 <= v / PAGE_SIZE_4K < PAGES && Index(PdpIdx(v)) && Index(PdIdx(v))
    ensures Pg(vm, m, v / PAGE_SIZE_4K) == Raw(vm, m, PdpIdx(v), PdIdx(v), PtIdx(v))
  {
    UserIndices(v);
  }

  /** What the CPU makes of a run of mapped pages: they are present, writable and open to users, and lead
      to the frames from phys on; every other address leads where it did, with the rights it had. */
  lemma MappedWalks(vm: Vm, owner: Owner, m: PageMap, vm': Vm, owner': Owner, m': PageMap,
                    id: int, first: int, cnt: int, phys: int, v: int)
    requires MapOk(vm, owner, id, m) && MapOk(vm', owner', id, m') && Mapped(vm, m, vm', m', first, cnt, phys)
    requires 0 <= v < PDP_SIZE && CleanAt(vm, m, PdpIdx(v), PdIdx(v))
    ensures var d := (v / PAGE_SIZE_4K - first) % PAGES;
      Walk(vm'.mem, m'.pml4Phys, v) ==
      if d < cnt then Page(Frame(phys + Last(d, cnt) * PAGE_SIZE_4K), true, true) else Walk(vm.mem, m.pml4Phys, v)
  {
    PageOfAddress(vm, m, v);
    PageOfAddress(vm', m', v);
    assert MappedAt(vm, m, vm', m', first, cnt, phys, v / PAGE_SIZE_4K);
    assert CleanAt(vm', m', PdpIdx(v), PdIdx(v));
    WalkFinds(vm, owner, id, m, v);
    WalkFinds(vm', owner', id, m', v);
  }

  ghost predicate AllOk(vm: Vm, owner: Owner, maps: seq<PageMap>) {
    && (forall id :: 0 <= id < |maps| ==> MapOk(vm, owner, id, maps[id]))
    && OwnedBy(owner, |maps|)
  }

  /** Every use of a frame is that of one of n address spaces, and nobody uses frame 0. */
  ghost predicate OwnedBy(owner: Owner, n: int) {
    forall f :: f in owner ==> f != 0 && 0 <= owner[f].id < n
  }

  /** Pages and frames taken from the two allocators and not yet put to use are unused and all
      different, and none of them is among those the allocators still have. */
  ghost predicate Supply(vm: Vm, owner: Owner, spare: seq<(int, int)>, pages: set<int>, frames: set<int>) {
    && (forall k :: 0 <= k < |spare| ==> Fresh(vm, owner, spare[k].0, spare[k].1))
    && (forall k, l :: 0 <= k < l < |spare| ==> spare[k].0 != spare[l].0 && spare[k].1 != spare[l].1)
    && (forall k :: 0 <= k < |spare| ==> spare[k].0 !in pages && spare[k].1 !in frames)
    && (forall va :: va in pages ==> FreshPage(vm, va))
    && (forall f :: f in frames ==> FreshFrame(vm, owner, f))
  }

  // page_mk_map and page_clone_map keep three arrays in pages of their own, beside pml4 and pdp
  const ARRAYS := 3
  const TOP := 2 + ARRAYS

  /** The directory entries that have a table. */
  ghost function Built(m: PageMap): set<(int, int)>
    requires Shaped(m)
  {
    set i, j | 0 <= i < ENTRIES && 0 <= j < ENTRIES && m.tables[i][j] != 0 :: (i, j)
  }

  ghost predicate TableAdded(m: PageMap, m': PageMap, i: int, j: int) {
    Shaped(m) && Shaped(m') && Index(i) && Index(j) && m'.tables[i][j] != 0 && Built(m') == Built(m) + {(i, j)}
  }

  predicate HasTable(m: PageMap, c: int)
    requires Shaped(m) && 0 <= c < ENTRIES * ENTRIES
  {
    m.tables[c / ENTRIES][c % ENTRIES] != 0
  }

  /** How many of the first b directory entries, row by row, have a table. */
  ghost function TableCount(m: PageMap, b: int): nat
    requires Shaped(m) && 0 <= b <= ENTRIES * ENTRIES
  {
    |Tabled(m, b)|
  }

  ghost function Tabled(m: PageMap, b: int): set<int>
    requires Shaped(m) && 0 <= b <= ENTRIES * ENTRIES
  {
    set c | 0 <= c < b && HasTable(m, c)
  }

  lemma TabledNext(m: PageMap, b: int)
    requires Shaped(m) && 0 <= b < ENTRIES * ENTRIES
    ensures b !in Tabled(m, b) && Tabled(m, b + 1) == if HasTable(m, b) then Tabled(m, b) + {b} else Tabled(m, b)
  {
  }

  lemma CountNext(m: PageMap, b: int)
    requires Shaped(m) && 0 <= b < ENTRIES * ENTRIES
    ensures TableCount(m, b + 1) == TableCount(m, b) + if HasTable(m, b) then 1 else 0
  {
    TabledNext(m, b);
  }

  lemma {:induction false} CountGrows(m: PageMap, a: int, b: int)
    requires Shaped(m) && 0 <= a <= b <= ENTRIES * ENTRIES
    ensures TableCount(m, a) <= TableCount(m, b) <= TableCount(m, a) + (b - a)
    decreases b
  {
    if a < b {
      CountGrows(m, a, b - 1);
      CountNext(m, b - 1);
    }
  }

  lemma CountCell(m: PageMap, i: int, j: int)
    requires Shaped(m) && Index(i) && Index(j)
    ensures TableCount(m, i * ENTRIES + j + 1) == TableCount(m, i * ENTRIES + j) + if m.tables[i][j] != 0 then 1 else 0
    ensures TableCount(m, i * ENTRIES + j + 1) <= TableCount(m, (i + 1) * ENTRIES)
  {
    var b := i * ENTRIES + j;
    assert b / ENTRIES == i && b % ENTRIES == j;
    CountNext(m, b);
    CountGrows(m, b + 1, (i + 1) * ENTRIES);
  }

  /** n[b] is the number of tables among the first b directory entries. */
  ghost predicate Tallies(m: PageMap, n: seq<nat>)
    requires Shaped(m)
  {
    && |n| == ENTRIES * ENTRIES + 1 && n[0] == 0
    && forall i, j :: Index(i) && Index(j) ==> TallyAt(m, n, i, j)
  }

  ghost predicate TallyAt(m: PageMap, n: seq<nat>, i: int, j: int)
    requires Shaped(m) && Index(i) && Index(j) && |n| == ENTRIES * ENTRIES + 1
  {
    && n[i * ENTRIES + j + 1] == n[i * ENTRIES + j] + (if m.tables[i][j] != 0 then 1 else 0)
    && n[i * ENTRIES + j + 1] <= n[(i + 1) * ENTRIES] <= n[ENTRIES * ENTRIES] && n[i * ENTRIES] <= n[(i + 1) * ENTRIES]
  }

  lemma Tally(m: PageMap) returns (n: seq<nat>)
    requires Shaped(m)
    ensures Tallies(m, n) && n[ENTRIES * ENTRIES] == TableCount(m, ENTRIES * ENTRIES)
  {
    n := seq(ENTRIES * ENTRIES + 1, b requires 0 <= b <= ENTRIES * ENTRIES => TableCount(m, b));
    forall i, j | Index(i) && Index(j) ensures TallyAt(m, n, i, j) {
      CountCell(m, i, j);
      CountGrows(m, i * ENTRIES, (i + 1) * ENTRIES);
      CountGrows(m, (i + 1) * ENTRIES, ENTRIES * ENTRIES);
    }
  }

  /** Frames keep the use they were given. */
  ghost predicate OwnerGrows(owner: Owner, owner': Owner) {
    forall f :: f in owner ==> f in owner' && owner'[f] == owner[f]
  }

  /** Address spaces other than id are the same objects and translate the same. */
  ghost predicate OthersSame(vm: Vm, maps: seq<PageMap>, vm': Vm, maps': seq<PageMap>, id: int) {
    && |maps| <= |maps'| && vm'.kpml4 == vm.kpml4
    && forall o :: 0 <= o < |maps| && o != id ==> maps'[o] == maps[o] && SameSpace(vm, maps[o], vm', maps[o])
  }

  lemma OthersKept(vm: Vm, owner: Owner, maps: seq<PageMap>, vm': Vm, owner': Owner, id: int, m: PageMap)
    requires AllOk(vm, owner, maps) && 0 <= id < |maps| && Extends(vm, owner, vm', owner', id)
    requires MapOk(vm', owner', id, m) && OwnedBy(owner', |maps|)
    ensures AllOk(vm', owner', maps[id := m]) && OthersSame(vm, maps, vm', maps[id := m], id)
  {
    forall o | 0 <= o < |maps| && o != id
      ensures MapOk(vm', owner', o, maps[o]) && SameSpace(vm, maps[o], vm', maps[o])
    {
      OtherSpace(vm, owner, vm', owner', id, o, maps[o]);
    }
  }

  lemma SupplyTail(vm: Vm, owner: Owner, spare: seq<(int, int)>, pages: set<int>, frames: set<int>, vm': Vm, role: Role)
    requires Supply(vm, owner, spare, pages, frames) && |spare| > 0
    requires vm'.kmap == vm.kmap[spare[0].0 := spare[0].1]
    requires forall f :: f in vm.mem && f !in owner && f != spare[0].1 ==> f in vm'.mem && vm'.mem[f] == vm.mem[f]
    ensures Supply(vm', owner[spare[0].1 := role], spare[1..], pages, frames)
  {
    assert Fresh(vm, owner, spare[0].0, spare[0].1) && spare[0].0 !in pages && spare[0].1 !in frames;
    forall k | 0 <= k < |spare| - 1 ensures Fresh(vm', owner[spare[0].1 := role], spare[1..][k].0, spare[1..][k].1) {
      assert Fresh(vm, owner, spare[k + 1].0, spare[k + 1].1);
    }
  }

  /** Frames nobody owns have not been written. */
  ghost predicate Unowned(vm0: Vm, vm: Vm, owner: Owner) {
    forall f :: f !in owner && (f in vm0.mem || f in vm.mem) ==> f in vm0.mem && f in vm.mem && vm.mem[f] == vm0.mem[f]
  }

  lemma SupplyKept(vm: Vm, owner: Owner, spare: seq<(int, int)>, pages: set<int>, frames: set<int>, vm': Vm)
    requires Supply(vm, owner, spare, pages, frames) && vm'.kmap == vm.kmap
    requires forall f :: f in vm.mem && f !in owner ==> f in vm'.mem && vm'.mem[f] == vm.mem[f]
    ensures Supply(vm', owner, spare, pages, frames)
  {
    forall k | 0 <= k < |spare| ensures Fresh(vm', owner, spare[k].0, spare[k].1) {
      assert Fresh(vm, owner, spare[k].0, spare[k].1);
    }
  }

  /** A table's entries are what the cell translates to. */
  lemma SourceCell(vm: Vm, owner: Owner, id: int, m: PageMap, i: int, j: int)
    requires Shaped(m) && Index(i) && Index(j) && DirOk(vm, owner, id, m, i) && TableOk(vm, owner, id, m, i, j)
    requires m.tables[i][j] != 0
    ensures m.tables[i][j] in vm.kmap && vm.kmap[m.tables[i][j]] in vm.mem
    ensures var page := vm.mem[vm.kmap[m.tables[i][j]]];
      GoodPage(page) && forall k :: Index(k) ==> Raw(vm, m, i, j, k) == page[k]
  {
  }

  class Paging {
    var vm: Vm
    var maps: seq<PageMap>
    var spare: seq<(int, int)>  // what the next calls of page_kernel_alloc4k(1) and pmm_request() return
    ghost var owner: Owner
    ghost var pages: set<int>   // kernel pages that page_kernel_alloc4k can still hand out
    ghost var frames: set<int>  // frames that pmm_request can still hand out

    ghost predicate Valid()
      reads this
    {
      AllOk(vm, owner, maps) && Supply(vm, owner, spare, pages, frames) && GoodPage(vm.kpml4)
    }

    /** Since (vm0, owner0) a new address space m has been built up to directory di and entry b. */
    ghost predicate Building(vm0: Vm, owner0: Owner, m: PageMap, di: int, b: int)
      reads this
    {
      && Part(vm, owner, |maps|, m, di, b) && PdpClear(vm, m, di)
      && Extends(vm0, owner0, vm, owner, |maps|) && Supply(vm, owner, spare, pages, frames) && Unowned(vm0, vm, owner)
      && OwnedBy(owner, |maps| + 1)
    }

    /** Before any address space exists. */
    constructor (vm: Vm, spare: seq<(int, int)>, ghost pages: set<int>, ghost frames: set<int>)
      requires Supply(vm, map[], spare, pages, frames) && GoodPage(vm.kpml4)
      ensures Valid() && maps == [] && this.vm == vm && this.spare == spare
      ensures this.pages == pages && this.frames == frames && owner == map[]
    {
      this.vm, this.maps, this.spare, this.owner := vm, [], spare, map[];
      this.pages, this.frames := pages, frames;
    }

    /** page_mk_table */
    method MkTable(id: nat, i: int, j: int)
      requires Valid() && id < |maps| && Index(i) && Index(j) && maps[id].tables[i][j] == 0 && |spare| >= 1
      modifies this`vm, this`maps, this`spare, this`owner
      ensures OwnerGrows(old(owner), owner) && Unowned(old(vm), vm, owner)
      ensures Valid() && |maps| == |old(maps)| && spare == old(spare)[1..]
      ensures OthersSame(old(vm), old(maps), vm, maps, id)
      ensures SameSpace(old(vm), old(maps)[id], vm, maps[id]) && TableAdded(old(maps)[id], maps[id], i, j)
    {
      var m := maps[id];
      var va, f := spare[0].0, spare[0].1;
      MkTableKeeps(vm, owner, id, m, i, j, va, f);
      MkTableExtends(vm, owner, id, m, i, j, va, f);
      MkTableUnowned(vm, owner, id, m, i, j, va, f);
      ghost var vm0, owner0 := vm, owner;
      SupplyTail(vm, owner, spare, pages, frames, MkTableVm(vm, m, i, j, va, f), Table(id, i, j));
      OthersKept(vm, owner, maps, MkTableVm(vm, m, i, j, va, f), owner[f := Table(id, i, j)], id,
                 WithTable(m, i, j, va));
      var table := va;
      vm := vm.(kmap := vm.kmap[table := f]);
      vm := Fill(vm, table, Zeros());
      vm := Store(vm, m.dirs[i], j, OrUser(SetFrame(Peek(vm, m.dirs[i], j), f)));
      maps := maps[id := WithTable(m, i, j, table)];
      spare := spare[1..];
      owner := owner[f := Table(id, i, j)];
    }

    /** Make sure there is a table at (i, j). */
    method EnsureTable(id: nat, i: int, j: int)
      requires Valid() && id < |maps| && Index(i) && Index(j) && (maps[id].tables[i][j] == 0 ==> |spare| >= 1)
      modifies this`vm, this`maps, this`spare, this`owner
      ensures OwnerGrows(old(owner), owner) && Unowned(old(vm), vm, owner)
      ensures Valid() && |maps| == |old(maps)|
      ensures spare == if old(maps)[id].tables[i][j] == 0 then old(spare)[1..] else old(spare)
      ensures OthersSame(old(vm), old(maps), vm, maps, id)
      ensures SameSpace(old(vm), old(maps)[id], vm, maps[id]) && TableAdded(old(maps)[id], maps[id], i, j)
    {
      assert DirOk(vm, owner, id, maps[id], i) && TableOk(vm, owner, id, maps[id], i, j);
      SpaceRefl(vm, maps);
      if !Present(Peek(vm, maps[id].dirs[i], j)) {
        MkTable(id, i, j);
      }
    }

    /** Write one page entry of an existing table. */
    method WriteEntry(id: nat, i: int, j: int, k: int, phys: int)
      requires Valid() && id < |maps| && Index(i) && Index(j) && Index(k) && phys >= 0 && maps[id].tables[i][j] != 0
      modifies this`vm
      ensures Valid() && OthersSame(old(vm), maps, vm, maps, id) && Unowned(old(vm), vm, owner)
      ensures forall a, b :: Index(a) && Index(b) ==> OnePage(old(vm), vm, maps[id], i, j, k, phys, a, b)
    {
      SetPageAll(vm, owner, maps, spare, pages, frames, id, i, j, k, phys);
      var table := maps[id].tables[i][j];
      TwoStores(vm, table, k, phys);
      var w := Store(vm, table, k, SetFrame(Peek(vm, table, k), phys));
      vm := Store(w, table, k, OrUser(Peek(w, table, k)));
    }

    /** One round of page_map_memory. The top-level index of the address is not looked at. */
    method MapPage(id: nat, virt: int, phys: int)
      requires Valid() && id < |maps| && virt >= 0 && phys >= 0
      requires maps[id].tables[PdpIdx(virt)][PdIdx(virt)] == 0 ==> |spare| >= 1
      modifies this`vm, this`maps, this`spare, this`owner
      ensures OwnerGrows(old(owner), owner) && Unowned(old(vm), vm, owner)
      ensures Valid() && Rounds(old(vm), old(maps), vm, maps, id, virt / PAGE_SIZE_4K, 1, phys)
      ensures spare == if old(maps)[id].tables[PdpIdx(virt)][PdIdx(virt)] == 0 then old(spare)[1..] else old(spare)
      ensures TableAdded(old(maps)[id], maps[id], PdpIdx(virt), PdIdx(virt))
    {
      ghost var vm0, maps0 := vm, maps;
      EnsureTable(id, PdpIdx(virt), PdIdx(virt));
      ghost var vm1 := vm;
      WriteEntry(id, PdpIdx(virt), PdIdx(virt), PtIdx(virt), phys);
      OthersTrans(vm0, maps0, vm1, maps, vm, maps, id);
      OnePageMapped(vm0, maps0[id], vm1, maps[id], vm, virt, phys);
    }

    /** Round c of page_map_memory. */
    method MapRound(id: nat, va: int, pa: int, ghost vm0: Vm, ghost maps0: seq<PageMap>, ghost virt: int,
                    ghost phys: int, ghost c: int)
      requires Valid() && id < |maps| && virt >= 0 && phys >= 0 && c >= 0 && |spare| >= 1
      requires va == virt + c * PAGE_SIZE_4K && pa == phys + c * PAGE_SIZE_4K
      requires Rounds(vm0, maps0, vm, maps, id, virt / PAGE_SIZE_4K, c, phys)
      modifies this`vm, this`maps, this`spare, this`owner
      ensures OwnerGrows(old(owner), owner)
      ensures Valid() && |spare| >= |old(spare)| - 1
      ensures Rounds(vm0, maps0, vm, maps, id, virt / PAGE_SIZE_4K, c + 1, phys)
    {
      ghost var vm1, maps1, first := vm, maps, virt / PAGE_SIZE_4K;
      assert va / PAGE_SIZE_4K == first + c;
      MapPage(id, va, pa);
      NextRound(vm0, maps0, vm1, maps1, vm, maps, id, first, c, phys, va / PAGE_SIZE_4K, pa);
    }

    /** page_map_memory */
    method MapMemory(id: nat, virt: int, phys: int, cnt: int)
      requires Valid() && id < |maps| && virt >= 0 && phys >= 0 && cnt >= 0 && |spare| >= cnt
      modifies this`vm, this`maps, this`spare, this`owner
      ensures OwnerGrows(old(owner), owner)
      ensures Valid() && |maps| == |old(maps)| && |spare| >= |old(spare)| - cnt
      ensures OthersSame(old(vm), old(maps), vm, maps, id)
      ensures Mapped(old(vm), old(maps)[id], vm, maps[id], virt / PAGE_SIZE_4K, cnt, phys)
    {
      ghost var vm0, maps0 := vm, maps;
      var left, va, pa := cnt, virt, phys;
      NoRounds(vm, maps, id, virt / PAGE_SIZE_4K, phys);
      while left > 0
        invariant 0 <= left <= cnt && va == virt + (cnt - left) * PAGE_SIZE_4K
        invariant pa == phys + (cnt - left) * PAGE_SIZE_4K
        invariant Valid() && |spare| >= |old(spare)| - (cnt - left) && OwnerGrows(old(owner), owner)
        invariant Rounds(vm0, maps0, vm, maps, id, virt / PAGE_SIZE_4K, cnt - left, phys)
      {
        MapRound(id, va, pa, vm0, maps0, virt, phys, cnt - left);
        va, pa, left := va + PAGE_SIZE_4K, pa + PAGE_SIZE_4K, left - 1;
      }
    }

    /** The two top levels, built the same way by page_mk_map and page_clone_map. */
    method BuildTop() returns (m: PageMap)
      requires Valid() && |spare| >= 2
      modifies this`vm, this`spare, this`owner
      ensures Building(old(vm), old(owner), m, 0, 0) && spare == old(spare)[2..]
      ensures m.tables == Blank(m.pml4, m.pml4Phys, m.pdp, m.pdpPhys).tables
    {
      var pml4, pml4Phys := spare[0].0, spare[0].1;
      var pdp, pdpPhys := spare[1].0, spare[1].1;
      assert Fresh(vm, owner, spare[0].0, spare[0].1) && Fresh(vm, owner, spare[1].0, spare[1].1);
      TopBuilt(vm, owner, |maps|, pml4, pml4Phys, pdp, pdpPhys);
      TopSupply(vm, owner, spare, pages, frames, |maps|);
      vm := TopVm(vm, pml4, pml4Phys, pdp, pdpPhys);
      owner := owner[pml4Phys := Pml4(|maps|)][pdpPhys := Pdp(|maps|)];
      spare := spare[2..];
      m := Blank(pml4, pml4Phys, pdp, pdpPhys);
    }

    /** The pages of page_dirs, page_dirs_phys and page_tables; what they hold are fields of the model. */
    method SkipArrays(m: PageMap, ghost vm0: Vm, ghost owner0: Owner)
      requires Building(vm0, owner0, m, 0, 0) && |spare| >= ARRAYS
      modifies this`spare
      ensures Building(vm0, owner0, m, 0, 0) && spare == old(spare)[ARRAYS..]
    {
      SupplySuffix(vm, owner, spare, pages, frames, ARRAYS);
      spare := spare[ARRAYS..];
    }

    /** What page_mk_map and page_clone_map begin with. */
    method Begin() returns (m: PageMap)
      requires Valid() && |spare| >= TOP
      modifies this`vm, this`spare, this`owner
      ensures Building(old(vm), old(owner), m, 0, 0) && spare == old(spare)[TOP..]
      ensures forall a :: Index(a) ==> m.tables[a] == Zeros()
    {
      m := BuildTop();
      SkipArrays(m, old(vm), old(owner));
    }

    /** One directory page; only page_mk_map clears it. */
    method BuildDir(m0: PageMap, i: int, clear: bool, ghost vm0: Vm, ghost owner0: Owner) returns (m: PageMap)
      requires Index(i) && Building(vm0, owner0, m0, i, i * ENTRIES) && |spare| >= 1
      modifies this`vm, this`spare, this`owner
      ensures Building(vm0, owner0, m, i + 1, i * ENTRIES) && spare == old(spare)[1..]
      ensures m == WithDir(m0, i, old(spare)[0].0, old(spare)[0].1)
      ensures forall a, b :: Index(a) && Index(b) && a < i ==> SameCell(old(vm), m0, vm, m, a, b)
      ensures Extends(old(vm), old(owner), vm, owner, |maps|) && m.dirsPhys[i] in old(vm).mem && m.dirsPhys[i] in vm.mem
      ensures vm.mem[m.dirsPhys[i]] == if clear then Zeros() else old(vm).mem[m.dirsPhys[i]]
    {
      var va, f := spare[0].0, spare[0].1;
      assert Fresh(vm, owner, spare[0].0, spare[0].1);
      DirBuilt(vm, owner, |maps|, m0, i, va, f, clear);
      SupplyTail(vm, owner, spare, pages, frames, DirVm(vm, m0, i, va, f, clear), Dir(|maps|, i));
      ExtendsTrans(vm0, owner0, vm, owner, DirVm(vm, m0, i, va, f, clear), owner[f := Dir(|maps|, i)], |maps|);
      vm := DirVm(vm, m0, i, va, f, clear);
      owner := owner[f := Dir(|maps|, i)];
      spare := spare[1..];
      m := WithDir(m0, i, va, f);
    }

    /** The cleared directories of a new address space. */
    method BuildDirs(m0: PageMap, ghost vm0: Vm, ghost owner0: Owner) returns (m: PageMap)
      requires Building(vm0, owner0, m0, 0, 0) && |spare| >= ENTRIES && forall a :: Index(a) ==> m0.tables[a] == Zeros()
      modifies this`vm, this`spare, this`owner
      ensures Building(vm0, owner0, m, ENTRIES, ENTRIES * ENTRIES) && spare == old(spare)[ENTRIES..]
      ensures forall a :: Index(a) ==> m.tables[a] == Zeros()
    {
      m := m0;
      for i := 0 to ENTRIES
        invariant Building(vm0, owner0, m, i, i * ENTRIES) && spare == old(spare)[i..]
        invariant forall a :: Index(a) ==> m.tables[a] == Zeros()
      {
        m := BuildDir(m, i, true, vm0, owner0);
        ClearRow(vm, owner, |maps|, m, i);
      }
    }

    /** page_mk_map: a new address space that translates nothing. */
    method MkMap() returns (id: nat)
      requires Valid() && |spare| >= TOP + ENTRIES
      modifies this`vm, this`maps, this`spare, this`owner
      ensures OwnerGrows(old(owner), owner) && Unowned(old(vm), vm, owner)
      ensures Valid() && id == |old(maps)| && |maps| == id + 1 && |spare| == |old(spare)| - TOP - ENTRIES
      ensures spare == old(spare)[TOP + ENTRIES..] && Built(maps[id]) == {}
      ensures OthersSame(old(vm), old(maps), vm, maps, id) && Clean(vm, maps[id])
      ensures forall n :: 0 <= n < PAGES ==> Pg(vm, maps[id], n) == 0
    {
      ghost var vm0, owner0 := vm, owner;
      var m := Begin();
      m := BuildDirs(m, vm0, owner0);
      Finish(vm0, owner0, m);
      id := |maps| - 1;
      EmptySpace(vm, owner, id, m);
    }

    /** page_mk_table and the copy of the source's table for directory entry (i, j) of a clone. */
    method BuildCopy(m0: PageMap, i: int, j: int, page: seq<int>, ghost vm0: Vm, ghost owner0: Owner)
      returns (m: PageMap)
      requires Index(i) && Index(j) && Building(vm0, owner0, m0, i + 1, i * ENTRIES + j) && |spare| >= 1
      requires GoodPage(page) && PagesOk(page)
      modifies this`vm, this`spare, this`owner
      ensures Building(vm0, owner0, m, i + 1, i * ENTRIES + j + 1) && |spare| == |old(spare)| - 1
      ensures m.dirsPhys == m0.dirsPhys && RowRest(old(vm), vm, m.dirsPhys[i], j)
      ensures Present(EntryAt(vm.mem, m.dirsPhys[i], j))
      ensures Large(EntryAt(vm.mem, m.dirsPhys[i], j)) == Large(EntryAt(old(vm).mem, m.dirsPhys[i], j))
      ensures forall k :: Index(k) ==> Raw(vm, m, i, j, k) == page[k]
      ensures forall a, b :: Before(a, b, i, j) ==> SameCell(old(vm), m0, vm, m, a, b)
    {
      var va, f := spare[0].0, spare[0].1;
      assert Fresh(vm, owner, spare[0].0, spare[0].1);
      CopyBuilt(vm, owner, |maps|, m0, i, j, va, f, page);
      CopyUnowned(vm0, vm, owner, |maps|, m0, i, j, va, f, page);
      SupplyTail(vm, owner, spare, pages, frames, CopyVm(vm, m0, i, j, va, f, page), Table(|maps|, i, j));
      ExtendsTrans(vm0, owner0, vm, owner, CopyVm(vm, m0, i, j, va, f, page), owner[f := Table(|maps|, i, j)], |maps|);
      vm := CopyVm(vm, m0, i, j, va, f, page);
      owner := owner[f := Table(|maps|, i, j)];
      spare := spare[1..];
      m := WithTable(m0, i, j, va);
    }

    /** No table in the source: the entry and the pointer are cleared. */
    method BuildNull(m0: PageMap, i: int, j: int, ghost vm0: Vm, ghost owner0: Owner) returns (m: PageMap)
      requires Index(i) && Index(j) && Building(vm0, owner0, m0, i + 1, i * ENTRIES + j)
      modifies this`vm
      ensures Building(vm0, owner0, m, i + 1, i * ENTRIES + j + 1)
      ensures m.dirsPhys == m0.dirsPhys && RowRest(old(vm), vm, m.dirsPhys[i], j)
      ensures EntryAt(vm.mem, m.dirsPhys[i], j) == 0
      ensures forall k :: Index(k) ==> Raw(vm, m, i, j, k) == 0
      ensures forall a, b :: Before(a, b, i, j) ==> SameCell(old(vm), m0, vm, m, a, b)
    {
      NullBuilt(vm, owner, |maps|, m0, i, j);
      NullUnowned(vm0, vm, owner, |maps|, m0, i, j);
      SupplyKept(vm, owner, spare, pages, frames, NullVm(vm, m0, i, j));
      ExtendsTrans(vm0, owner0, vm, owner, NullVm(vm, m0, i, j), owner, |maps|);
      vm := NullVm(vm, m0, i, j);
      m := WithTable(m0, i, j, 0);
    }

    /** Entries of row i from j on are still the words the directory frame held. */
    ghost predicate RowStale(vm0: Vm, m: PageMap, i: int, j: int)
      reads this`vm
    {
      Index(i) && i < |m.dirsPhys| && forall b :: Index(b) && b >= j ==>
        EntryAt(vm.mem, m.dirsPhys[i], b) == EntryAt(vm0.mem, m.dirsPhys[i], b)
    }

    /** A clone of src has been built up to directory entry (i, j). */
    ghost predicate Cloning(src: nat, m: PageMap, i: int, j: int, vm0: Vm, owner0: Owner)
      reads this
    {
      && AllOk(vm0, owner0, maps) && src < |maps| && Index(i) && 0 <= j <= ENTRIES
      && Building(vm0, owner0, m, i + 1, i * ENTRIES + j)
      && RowStale(vm0, m, i, j) && AllCopied(vm, m, vm0, maps[src], i, j)
    }

    /** Entry (i, j) of an address space has a table. */
    ghost predicate NeedsTable(src: nat, i: int, j: int)
      reads this`maps
    {
      src < |maps| && Shaped(maps[src]) && Index(i) && Index(j) && maps[src].tables[i][j] != 0
    }

    /** Directory entry (i, j) of a clone. */
    method CloneCell(src: nat, m0: PageMap, i: int, j: int, ghost vm0: Vm, ghost owner0: Owner) returns (m: PageMap)
      requires Cloning(src, m0, i, j, vm0, owner0) && Index(j) && (NeedsTable(src, i, j) ==> |spare| >= 1)
      modifies this`vm, this`spare, this`owner
      ensures Building(vm0, owner0, m, i + 1, i * ENTRIES + j + 1)
      ensures |spare| == |old(spare)| - if NeedsTable(src, i, j) then 1 else 0
      ensures m.dirsPhys == m0.dirsPhys && RowRest(old(vm), vm, m.dirsPhys[i], j)
      ensures Copied(vm, m, vm0, maps[src], i, j)
      ensures forall a, b :: Before(a, b, i, j) ==> SameCell(old(vm), m0, vm, m, a, b)
    {
      OtherSpace(vm0, owner0, vm, owner, |maps|, src, maps[src]);
      assert SameCell(vm0, maps[src], vm, maps[src], i, j);
      assert DirOk(vm, owner, src, maps[src], i) && TableOk(vm, owner, src, maps[src], i, j);
      var srcpage := maps[src].tables[i][j];
      if srcpage != 0 {
        var page := vm.mem[vm.kmap[srcpage]];
        SourceCell(vm, owner, src, maps[src], i, j);
        m := BuildCopy(m0, i, j, page, vm0, owner0);
      } else {
        m := BuildNull(m0, i, j, vm0, owner0);
      }
    }

    /** One more entry of row i of a clone. */
    method CloneNext(src: nat, m0: PageMap, i: int, j: int, ghost vm0: Vm, ghost owner0: Owner) returns (m: PageMap)
      requires Cloning(src, m0, i, j, vm0, owner0) && Index(j) && (NeedsTable(src, i, j) ==> |spare| >= 1)
      modifies this`vm, this`spare, this`owner
      ensures Cloning(src, m, i, j + 1, vm0, owner0) && m.dirsPhys == m0.dirsPhys
      ensures |spare| == |old(spare)| - if NeedsTable(src, i, j) then 1 else 0
    {
      ghost var vm1 := vm;
      m := CloneCell(src, m0, i, j, vm0, owner0);
      CopiedKept(vm1, m0, vm, m, vm0, maps[src], i, j);
      CopiedNext(vm, m, vm0, maps[src], i, j);
    }

    /** Of start spare pairs, those for the tables of row i before entry j are gone. */
    ghost predicate Spent(start: nat, n: seq<nat>, i: int, j: int)
      requires Index(i) && 0 <= j <= ENTRIES && |n| == ENTRIES * ENTRIES + 1
      reads this`spare
    {
      |spare| == start - n[i * ENTRIES + j] + n[i * ENTRIES]
    }

    method ClonePaid(src: nat, m0: PageMap, i: int, j: int, ghost vm0: Vm, ghost owner0: Owner, ghost n: seq<nat>,
                     ghost start: nat)
      returns (m: PageMap)
      requires Cloning(src, m0, i, j, vm0, owner0) && Index(j) && Tallies(maps[src], n)
      requires Spent(start, n, i, j) && start >= n[(i + 1) * ENTRIES] - n[i * ENTRIES]
      modifies this`vm, this`spare, this`owner
      ensures Cloning(src, m, i, j + 1, vm0, owner0) && m.dirsPhys == m0.dirsPhys && Spent(start, n, i, j + 1)
    {
      assert TallyAt(maps[src], n, i, j);
      m := CloneNext(src, m0, i, j, vm0, owner0);
    }

    /** The entries of row i of a clone, one by one. */
    method CloneEntries(src: nat, m0: PageMap, i: int, ghost vm0: Vm, ghost owner0: Owner, ghost n: seq<nat>)
      returns (m: PageMap)
      requires Cloning(src, m0, i, 0, vm0, owner0) && Tallies(maps[src], n)
      requires |spare| >= n[(i + 1) * ENTRIES] - n[i * ENTRIES]
      modifies this`vm, this`spare, this`owner
      ensures Cloning(src, m, i, ENTRIES, vm0, owner0) && m.dirsPhys == m0.dirsPhys
      ensures |spare| == |old(spare)| - n[(i + 1) * ENTRIES] + n[i * ENTRIES]
    {
      m := m0;
      for j := 0 to ENTRIES
        invariant Cloning(src, m, i, j, vm0, owner0) && m.dirsPhys == m0.dirsPhys && Spent(|old(spare)|, n, i, j)
      {
        m := ClonePaid(src, m, i, j, vm0, owner0, n, |old(spare)|);
      }
    }

    /** Row i of a clone: a directory page, not cleared, and then its entries. */
    method CloneRow(src: nat, m0: PageMap, i: int, ghost vm0: Vm, ghost owner0: Owner, ghost n: seq<nat>)
      returns (m: PageMap)
      requires AllOk(vm0, owner0, maps) && src < |maps| && Index(i) && Tallies(maps[src], n)
      requires |spare| >= 1 && |spare| >= 1 + n[(i + 1) * ENTRIES] - n[i * ENTRIES]
      requires Building(vm0, owner0, m0, i, i * ENTRIES)
      requires AllCopied(vm, m0, vm0, maps[src], i, 0)
      modifies this`vm, this`spare, this`owner
      ensures Building(vm0, owner0, m, i + 1, (i + 1) * ENTRIES) && m.dirsPhys == m0.dirsPhys[i := old(spare)[0].1]
      ensures |spare| == |old(spare)| - 1 - n[(i + 1) * ENTRIES] + n[i * ENTRIES]
      ensures AllCopied(vm, m, vm0, maps[src], i + 1, 0)
    {
      ghost var vm1 := vm;
      assert Fresh(vm, owner, spare[0].0, spare[0].1);
      m := BuildDir(m0, i, false, vm0, owner0);
      CopiedKept(vm1, m0, vm, m, vm0, maps[src], i, 0);
      assert Cloning(src, m, i, 0, vm0, owner0);
      m := CloneEntries(src, m, i, vm0, owner0, n);
      RowDone(vm, m, vm0, maps[src], i);
    }

    /** All rows of a clone. */
    method CloneRows(src: nat, m0: PageMap, ghost vm0: Vm, ghost owner0: Owner, ghost n: seq<nat>) returns (m: PageMap)
      requires AllOk(vm0, owner0, maps) && src < |maps| && Tallies(maps[src], n)
      requires Building(vm0, owner0, m0, 0, 0) && |spare| >= ENTRIES + n[ENTRIES * ENTRIES]
      modifies this`vm, this`spare, this`owner
      ensures Building(vm0, owner0, m, ENTRIES, ENTRIES * ENTRIES) && m.dirsPhys[0] == old(spare)[0].1
      ensures |spare| == |old(spare)| - ENTRIES - n[ENTRIES * ENTRIES]
      ensures forall i, j :: Index(i) && Index(j) ==> Copied(vm, m, vm0, maps[src], i, j)
    {
      m := m0;
      for i := 0 to ENTRIES
        invariant Building(vm0, owner0, m, i, i * ENTRIES)
        invariant |spare| == |old(spare)| - i - n[i * ENTRIES]
        invariant (i == 0 ==> spare == old(spare)) && (i > 0 ==> m.dirsPhys[0] == old(spare)[0].1)
        invariant AllCopied(vm, m, vm0, maps[src], i, 0)
      {
        assert TallyAt(maps[src], n, i, 0);
        m := CloneRow(src, m, i, vm0, owner0, n);
      }
      assert forall a, b :: Index(a) && Index(b) ==> Before(a, b, ENTRIES, 0);
    }

    /** page_clone_map: every address translates as in the source, and every other address space is
        left alone. The directory pages are not cleared first, so whatever flag bits their frames
        held stay in the entries that get a table. */
    method CloneMap(src: nat) returns (id: nat)
      requires Valid() && src < |maps| && |spare| >= TOP + ENTRIES + TableCount(maps[src], ENTRIES * ENTRIES)
      modifies this`vm, this`maps, this`spare, this`owner
      ensures OwnerGrows(old(owner), owner)
      ensures Valid() && id == |old(maps)| && |maps| == id + 1
      ensures |spare| == |old(spare)| - TOP - ENTRIES - TableCount(old(maps)[src], ENTRIES * ENTRIES)
      ensures maps[id].dirsPhys[0] == old(spare)[TOP].1
      ensures OthersSame(old(vm), old(maps), vm, maps, id)
      ensures forall i, j :: Index(i) && Index(j) ==> Copied(vm, maps[id], old(vm), old(maps)[src], i, j)
    {
      ghost var vm0, owner0 := vm, owner;
      ghost var n := Tally(maps[src]);
      var m := Begin();
      m := CloneRows(src, m, vm0, owner0, n);
      Finish(vm0, owner0, m);
      id := |maps| - 1;
    }

    /** The finished address space joins the others. */
    method Finish(ghost vm0: Vm, ghost owner0: Owner, m: PageMap)
      requires AllOk(vm0, owner0, maps) && Building(vm0, owner0, m, ENTRIES, ENTRIES * ENTRIES) && GoodPage(vm.kpml4)
      modifies this`maps
      ensures Valid() && maps == old(maps) + [m] && OthersSame(vm0, old(maps), vm, maps, |old(maps)|)
    {
      ghost var id := |maps|;
      PartIsWhole(vm, owner, id, m);
      forall o | 0 <= o < id ensures MapOk(vm, owner, o, maps[o]) && SameSpace(vm0, maps[o], vm, maps[o]) {
        OtherSpace(vm0, owner0, vm, owner, id, o, maps[o]);
      }
      maps := maps + [m];
    }
  }

  /** Cell (i, j) of the clone m translates like that of the source, and is clean exactly when the
      source has no table there or the uncleared directory word did not have the large bit. */
  ghost predicate Copied(vm: Vm, m: PageMap, vm0: Vm, src: PageMap, i: int, j: int)
    requires Shaped(m) && Shaped(src) && Index(i) && Index(j)
  {
    && (forall k :: Index(k) ==> Raw(vm, m, i, j, k) == Raw(vm0, src, i, j, k))
    && (CleanAt(vm, m, i, j) <==> src.tables[i][j] == 0 || !Large(EntryAt(vm0.mem, m.dirsPhys[i], j)))
  }

  ghost predicate AllCopied(vm: Vm, m: PageMap, vm0: Vm, src: PageMap, i: int, j: int)
    requires Shaped(m) && Shaped(src)
  {
    forall a, b :: Before(a, b, i, j) ==> Copied(vm, m, vm0, src, a, b)
  }

  lemma CopiedKept(vm1: Vm, m1: PageMap, vm: Vm, m: PageMap, vm0: Vm, src: PageMap, i: int, j: int)
    requires Shaped(m1) && Shaped(m) && Shaped(src) && Index(i) && 0 <= j < ENTRIES
    requires forall a :: Index(a) && (a < i || j > 0) ==> m.dirsPhys[a] == m1.dirsPhys[a]
    requires AllCopied(vm1, m1, vm0, src, i, j)
    requires forall a, b :: Before(a, b, i, j) ==> SameCell(vm1, m1, vm, m, a, b)
    ensures AllCopied(vm, m, vm0, src, i, j)
  {
    forall a, b | Before(a, b, i, j) ensures Copied(vm, m, vm0, src, a, b) {
      assert Copied(vm1, m1, vm0, src, a, b) && SameCell(vm1, m1, vm, m, a, b);
    }
  }

  lemma CopiedNext(vm: Vm, m: PageMap, vm0: Vm, src: PageMap, i: int, j: int)
    requires Shaped(m) && Shaped(src) && Index(i) && Index(j) && Copied(vm, m, vm0, src, i, j)
    requires AllCopied(vm, m, vm0, src, i, j)
    ensures AllCopied(vm, m, vm0, src, i, j + 1)
  {
    forall a, b | Before(a, b, i, j + 1) ensures Copied(vm, m, vm0, src, a, b) {
      assert Before(a, b, i, j) || (a == i && b == j);
    }
  }

  lemma RowDone(vm: Vm, m: PageMap, vm0: Vm, src: PageMap, i: int)
    requires Shaped(m) && Shaped(src) && AllCopied(vm, m, vm0, src, i, ENTRIES)
    ensures AllCopied(vm, m, vm0, src, i + 1, 0)
  {
    assert forall a, b :: Before(a, b, i + 1, 0) ==> Before(a, b, i, ENTRIES);
  }

  lemma CopyUnowned(vm0: Vm, vm: Vm, owner: Owner, id: int, m: PageMap, i: int, j: int, va: int, f: int, page: seq<int>)
    requires Unowned(vm0, vm, owner) && Part(vm, owner, id, m, i + 1, i * ENTRIES + j) && Index(i) && Index(j)
    requires Fresh(vm, owner, va, f)
    ensures m.dirs[i] in vm.kmap && va != m.dirs[i] && vm.kmap[m.dirs[i]] != f
    ensures vm.kmap[m.dirs[i]] in vm.mem && |vm.mem[vm.kmap[m.dirs[i]]]| == ENTRIES
    ensures Unowned(vm0, CopyVm(vm, m, i, j, va, f, page), owner[f := Table(id, i, j)])
    ensures Unowned(vm, CopyVm(vm, m, i, j, va, f, page), owner[f := Table(id, i, j)])
  {
    assert DirOk(vm, owner, id, m, i);
  }

  lemma NullUnowned(vm0: Vm, vm: Vm, owner: Owner, id: int, m: PageMap, i: int, j: int)
    requires Unowned(vm0, vm, owner) && Part(vm, owner, id, m, i + 1, i * ENTRIES + j) && Index(i) && Index(j)
    ensures m.dirs[i] in vm.kmap
    ensures vm.kmap[m.dirs[i]] in vm.mem && |vm.mem[vm.kmap[m.dirs[i]]]| == ENTRIES
    ensures Unowned(vm0, NullVm(vm, m, i, j), owner) && Unowned(vm, NullVm(vm, m, i, j), owner)
  {
    assert DirOk(vm, owner, id, m, i);
  }

  lemma MkTableUnowned(vm: Vm, owner: Owner, id: int, m: PageMap, i: int, j: int, va: int, f: int)
    requires MapOk(vm, owner, id, m) && Index(i) && Index(j) && Fresh(vm, owner, va, f)
    ensures m.dirs[i] in vm.kmap && va != m.dirs[i] && vm.kmap[m.dirs[i]] != f
    ensures vm.kmap[m.dirs[i]] in vm.mem && |vm.mem[vm.kmap[m.dirs[i]]]| == ENTRIES
    ensures Unowned(vm, MkTableVm(vm, m, i, j, va, f), owner[f := Table(id, i, j)])
  {
    assert DirOk(vm, owner, id, m, i);
  }

  lemma SupplySuffix(vm: Vm, owner: Owner, spare: seq<(int, int)>, pages: set<int>, frames: set<int>, k: nat)
    requires Supply(vm, owner, spare, pages, frames) && k <= |spare|
    ensures Supply(vm, owner, spare[k..], pages, frames)
  {
    forall l | 0 <= l < |spare| - k ensures Fresh(vm, owner, spare[k..][l].0, spare[k..][l].1) {
      assert Fresh(vm, owner, spare[k + l].0, spare[k + l].1);
    }
  }

  lemma TopSupply(vm: Vm, owner: Owner, spare: seq<(int, int)>, pages: set<int>, frames: set<int>, id: int)
    requires Supply(vm, owner, spare, pages, frames) && |spare| >= 2 && |vm.kpml4| == ENTRIES
    ensures Supply(TopVm(vm, spare[0].0, spare[0].1, spare[1].0, spare[1].1),
                   owner[spare[0].1 := Pml4(id)][spare[1].1 := Pdp(id)], spare[2..], pages, frames)
  {
    var vm1 := Fill(Attach(vm, spare[0].0, spare[0].1), spare[0].0, vm.kpml4);
    SupplyTail(vm, owner, spare, pages, frames, vm1, Pml4(id));
    assert spare[1..][0] == spare[1] && spare[1..][1..] == spare[2..];
    SupplyTail(vm1, owner[spare[0].1 := Pml4(id)], spare[1..], pages, frames,
               TopVm(vm, spare[0].0, spare[0].1, spare[1].0, spare[1].1), Pdp(id));
  }

  /** Without tables nothing is translated and nothing is marked large. */
  lemma EmptySpace(vm: Vm, owner: Owner, id: int, m: PageMap)
    requires MapOk(vm, owner, id, m) && forall a :: Index(a) ==> m.tables[a] == Zeros()
    ensures Clean(vm, m) && Built(m) == {} && forall n :: 0 <= n < PAGES ==> Pg(vm, m, n) == 0
  {
    forall i, j | Index(i) && Index(j) ensures CleanAt(vm, m, i, j) {
      assert TableOk(vm, owner, id, m, i, j);
    }
    forall n | 0 <= n < PAGES ensures Pg(vm, m, n) == 0 {
      assert m.tables[n / 262144] == Zeros();
    }
  }

  /** Round c reaches exactly the pages at distance c, counted around. */
  lemma NextPage(n: int, first: int, c: int)
    requires c >= 0
    ensures (n - (first + c)) % PAGES < 1 <==> (n - first) % PAGES == c % PAGES
  {
    var x, y := n - first, c;
    assert x == x / PAGES * PAGES + x % PAGES && y == y / PAGES * PAGES + y % PAGES;
    assert x - y == (x / PAGES - y / PAGES) * PAGES + (x % PAGES - y % PAGES);
  }

  lemma LastNext(d: int, c: int)
    requires 0 <= d < PAGES && c >= 0
    ensures d == c % PAGES ==> d < c + 1 && Last(d, c + 1) == c
    ensures d != c % PAGES ==> (d < c + 1 <==> d < c) && (d < c ==> Last(d, c + 1) == Last(d, c))
  {
    var q, r := c / PAGES, c % PAGES;
    assert c == q * PAGES + r;
    if d == r {
      assert c - d == q * PAGES;
    } else if d < r {
      assert c - d == q * PAGES + (r - d) && c - 1 - d == q * PAGES + (r - 1 - d);
    } else {
      assert c - d == (q - 1) * PAGES + (PAGES + r - d) && c - 1 - d == (q - 1) * PAGES + (PAGES + r - 1 - d);
    }
  }

  lemma MappedSnoc(vm: Vm, m: PageMap, vm1: Vm, m1: PageMap, vm2: Vm, m2: PageMap, first: int, c: int, phys: int)
    requires Shaped(m) && Shaped(m1) && Shaped(m2) && c >= 0
    requires Mapped(vm, m, vm1, m1, first, c, phys)
    requires Mapped(vm1, m1, vm2, m2, first + c, 1, phys + c * PAGE_SIZE_4K)
    ensures Mapped(vm, m, vm2, m2, first, c + 1, phys)
  {
    var d := c + 1;
    forall n | 0 <= n < PAGES ensures MappedAt(vm, m, vm2, m2, first, d, phys, n) {
      NextPage(n, first, c);
      LastNext((n - first) % PAGES, c);
      assert MappedAt(vm, m, vm1, m1, first, c, phys, n);
      assert MappedAt(vm1, m1, vm2, m2, first + c, 1, phys + c * PAGE_SIZE_4K, n);
    }
  }

  /** After c rounds of page_map_memory on address space id. */
  ghost predicate Rounds(vm: Vm, maps: seq<PageMap>, vm': Vm, maps': seq<PageMap>, id: int, first: int, c: int,
                         phys: int)
  {
    && |maps'| == |maps| && 0 <= id < |maps| && Shaped(maps[id]) && Shaped(maps'[id])
    && OthersSame(vm, maps, vm', maps', id) && Mapped(vm, maps[id], vm', maps'[id], first, c, phys)
  }

  lemma NoRounds(vm: Vm, maps: seq<PageMap>, id: int, first: int, phys: int)
    requires 0 <= id < |maps| && forall o :: 0 <= o < |maps| ==> Shaped(maps[o])
    ensures Rounds(vm, maps, vm, maps, id, first, 0, phys)
  {
    SpaceRefl(vm, maps);
  }

  lemma NextRound(vm: Vm, maps: seq<PageMap>, vm1: Vm, maps1: seq<PageMap>, vm2: Vm, maps2: seq<PageMap>,
                  id: int, first: int, c: int, phys: int, page: int, pa: int)
    requires c >= 0 && Rounds(vm, maps, vm1, maps1, id, first, c, phys)
    requires Rounds(vm1, maps1, vm2, maps2, id, page, 1, pa) && page == first + c && pa == phys + c * PAGE_SIZE_4K
    ensures Rounds(vm, maps, vm2, maps2, id, first, c + 1, phys)
  {
    OthersTrans(vm, maps, vm1, maps1, vm2, maps2, id);
    MappedSnoc(vm, maps[id], vm1, maps1[id], vm2, maps2[id], first, c, phys);
  }

  /** Mapping an address makes page_getphys return the frame exactly when the address lies in the
      first 512 GiB of the 48-bit space; otherwise the page below 512 GiB with the same lower
      indices is remapped instead. */
  lemma MapTakesEffect(vm: Vm, m: PageMap, vm': Vm, m': PageMap, v: int, p: int)
    requires Shaped(m) && Shaped(m') && v >= 0 && Mapped(vm, m, vm', m', v / PAGE_SIZE_4K, 1, p)
    ensures Getphys(vm', m', v) == Frame(p) <==> Pml4Idx(v) == 0 || Frame(p) == 0
    ensures Getphys(vm', m', v % PDP_SIZE) == Frame(p)
  {
    var q := v / PAGE_SIZE_4K;
    var n := q % PAGES;
    Around(n, q);
    PageNumber(v, n);
    assert (n - q) % PAGES == 0;
    assert MappedAt(vm, m, vm', m', q, 1, p, n);
    assert Tr(vm', m', n) == Frame(p);
    LowPage(v);
    TrIsGetphys(vm', m', v % PDP_SIZE);
  }

  lemma LowPage(v: int)
    requires v >= 0
    ensures v % PDP_SIZE / PAGE_SIZE_4K == v / PAGE_SIZE_4K % PAGES
  {
    assert v == v / PDP_SIZE * PDP_SIZE + v % PDP_SIZE;
    assert v / PAGE_SIZE_4K == v / PDP_SIZE * PAGES + v % PDP_SIZE / PAGE_SIZE_4K;
  }

  /** set_page_frame and then the flags: two stores that amount to one. */
  lemma TwoStores(vm: Vm, va: int, k: int, p: int)
    requires va in vm.kmap && vm.kmap[va] in vm.mem && 0 <= k < |vm.mem[vm.kmap[va]]|
    ensures var w := Store(vm, va, k, SetFrame(Peek(vm, va, k), p));
      Store(w, va, k, OrUser(Peek(w, va, k))) == Store(vm, va, k, OrUser(SetFrame(Peek(vm, va, k), p)))
  {
    var f := vm.kmap[va];
    var x := SetFrame(Peek(vm, va, k), p);
    var w := Store(vm, va, k, x);
    assert w.mem[f][k] == x;
    assert vm.mem[f][k := x][k := OrUser(x)] == vm.mem[f][k := OrUser(x)];
    assert Store(w, va, k, OrUser(x)).mem == Store(vm, va, k, OrUser(x)).mem;
  }

  lemma SetPageAll(vm: Vm, owner: Owner, maps: seq<PageMap>, spare: seq<(int, int)>,
                   pages: set<int>, frames: set<int>, id: int, i: int, j: int, k: int, p: int)
    requires AllOk(vm, owner, maps) && Supply(vm, owner, spare, pages, frames) && 0 <= id < |maps| && p >= 0
    requires Index(i) && Index(j) && Index(k) && maps[id].tables[i][j] != 0
    ensures var m := maps[id];
      && m.tables[i][j] in vm.kmap && vm.kmap[m.tables[i][j]] in vm.mem && |vm.mem[vm.kmap[m.tables[i][j]]]| == ENTRIES
      && var w := SetPageVm(vm, m, i, j, k, p);
      && AllOk(w, owner, maps) && Supply(w, owner, spare, pages, frames) && OthersSame(vm, maps, w, maps, id)
      && Unowned(vm, w, owner)
      && forall a, b :: Index(a) && Index(b) ==> OnePage(vm, w, m, i, j, k, p, a, b)
  {
    var m := maps[id];
    SetPageKeeps(vm, owner, id, m, i, j, k, p);
    SetPageSupply(vm, owner, id, m, i, j, k, p, spare, pages, frames);
    OthersKept(vm, owner, maps, SetPageVm(vm, m, i, j, k, p), owner, id, m);
    assert maps[id := m] == maps;
  }

  lemma SpaceRefl(vm: Vm, maps: seq<PageMap>)
    requires forall id :: 0 <= id < |maps| ==> Shaped(maps[id])
    ensures forall id :: 0 <= id < |maps| ==> SameSpace(vm, maps[id], vm, maps[id])
  {
  }

  lemma OthersTrans(vm: Vm, maps: seq<PageMap>, vm': Vm, maps': seq<PageMap>, vm'': Vm, maps'': seq<PageMap>, id: int)
    requires OthersSame(vm, maps, vm', maps', id) && OthersSame(vm', maps', vm'', maps'', id)
    ensures OthersSame(vm, maps, vm'', maps'', id)
  {
    forall o | 0 <= o < |maps| && o != id ensures SameSpace(vm, maps[o], vm'', maps[o]) {
      SpaceTrans(vm, maps[o], vm', maps[o], vm'', maps[o]);
    }
  }

  lemma SpaceTrans(vm: Vm, m: PageMap, vm': Vm, m': PageMap, vm'': Vm, m'': PageMap)
    requires SameSpace(vm, m, vm', m') && SameSpace(vm', m', vm'', m'')
    ensures SameSpace(vm, m, vm'', m'')
  {
    forall i, j | Index(i) && Index(j) ensures SameCell(vm, m, vm'', m'', i, j) {
      assert SameCell(vm, m, vm', m', i, j) && SameCell(vm', m', vm'', m'', i, j);
    }
  }

  lemma SetPageSupply(vm: Vm, owner: Owner, id: int, m: PageMap, i: int, j: int, k: int, p: int,
                      spare: seq<(int, int)>, pages: set<int>, frames: set<int>)
    requires MapOk(vm, owner, id, m) && Index(i) && Index(j) && Index(k) && m.tables[i][j] != 0
    requires Supply(vm, owner, spare, pages, frames)
    ensures m.tables[i][j] in vm.kmap && vm.kmap[m.tables[i][j]] in vm.mem
    ensures |vm.mem[vm.kmap[m.tables[i][j]]]| == ENTRIES
    ensures Supply(SetPageVm(vm, m, i, j, k, p), owner, spare, pages, frames)
    ensures Unowned(vm, SetPageVm(vm, m, i, j, k, p), owner)
  {
    assert TableOk(vm, owner, id, m, i, j) && DirOk(vm, owner, id, m, i);
    SupplyKept(vm, owner, spare, pages, frames, SetPageVm(vm, m, i, j, k, p));
  }

  lemma PageDigits(q: int)
    requires q >= 0
    ensures q % PAGES / 262144 == q / 262144 % ENTRIES
    ensures q % PAGES / ENTRIES % ENTRIES == q / ENTRIES % ENTRIES
    ensures q % PAGES % ENTRIES == q % ENTRIES
  {
    var h, r := q / PAGES, q % PAGES;
    assert q == h * PAGES + r;
    assert q / 262144 == h * ENTRIES + r / 262144;
    assert q / ENTRIES == h * 262144 + r / ENTRIES;
  }

  lemma IndexDigits(v: int)
    requires v >= 0
    ensures PdpIdx(v) == v / PAGE_SIZE_4K / 262144 % ENTRIES
    ensures PdIdx(v) == v / PAGE_SIZE_4K / ENTRIES % ENTRIES
  {
    var q := v / PAGE_SIZE_4K;
    assert v / PAGE_SIZE_2M == q / ENTRIES;
    assert v / PAGE_SIZE_1G == q / 262144;
  }

  lemma DigitsDecide(n: int, r: int)
    requires 0 <= n < PAGES && 0 <= r < PAGES
    ensures n == r <==>
      n / 262144 == r / 262144 && n / ENTRIES % ENTRIES == r / ENTRIES % ENTRIES && n % ENTRIES == r % ENTRIES
  {
    assert n == n / 262144 * 262144 + n / ENTRIES % ENTRIES * ENTRIES + n % ENTRIES;
    assert r == r / 262144 * 262144 + r / ENTRIES % ENTRIES * ENTRIES + r % ENTRIES;
  }

  lemma Around(n: int, q: int)
    requires 0 <= n < PAGES
    ensures (n - q) % PAGES == 0 <==> n == q % PAGES
  {
    assert q == q / PAGES * PAGES + q % PAGES;
  }

  /** The three indices of an address name its page, counted around the 512 GiB. */
  lemma PageNumber(v: int, n: int)
    requires v >= 0 && 0 <= n < PAGES
    ensures (n - v / PAGE_SIZE_4K) % PAGES == 0 <==>
      n / 262144 == PdpIdx(v) && n / ENTRIES % ENTRIES == PdIdx(v) && n % ENTRIES == PtIdx(v)
  {
    var q := v / PAGE_SIZE_4K;
    Around(n, q);
    DigitsDecide(n, q % PAGES);
    PageDigits(q);
    IndexDigits(v);
  }

  lemma OnePageMapped(vm: Vm, m: PageMap, vm': Vm, m': PageMap, vm'': Vm, virt: int, phys: int)
    requires SameSpace(vm, m, vm', m') && virt >= 0
    requires forall a, b :: Index(a) && Index(b) ==>
      OnePage(vm', vm'', m', PdpIdx(virt), PdIdx(virt), PtIdx(virt), phys, a, b)
    ensures Mapped(vm, m, vm'', m', virt / PAGE_SIZE_4K, 1, phys)
  {
    var first := virt / PAGE_SIZE_4K;
    forall n | 0 <= n < PAGES ensures MappedAt(vm, m, vm'', m', first, 1, phys, n) {
      PageNumber(virt, n);
      var a, b := n / 262144, n / ENTRIES % ENTRIES;
      assert SameCell(vm, m, vm', m', a, b);
      assert OnePage(vm', vm'', m', PdpIdx(virt), PdIdx(virt), PtIdx(virt), phys, a, b);
    }
    forall i, j | Index(i) && Index(j) ensures CleanAt(vm'', m', i, j) == CleanAt(vm, m, i, j) {
      assert SameCell(vm, m, vm', m', i, j);
      assert OnePage(vm', vm'', m', PdpIdx(virt), PdIdx(virt), PtIdx(virt), phys, i, j);
    }
  }
}
