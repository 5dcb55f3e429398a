/** Processes get each page from pmm_request and map it once (util/elf.c, sys_mmap, thread stacks):
    then no page is shared and no page is a page structure. */
module Isolation {
  import opened PageEntries
  import opened PageMaps
  import opened AddressSpaces

  /** The use of a frame that backs page n of address space id. */
  function UserRole(id: int, n: int): Role {
    User(id, n / 262144, n / ENTRIES % ENTRIES, n % ENTRIES)
  }

  /** A present page lies in a frame that was taken for it. */
  ghost predicate PageOwned(vm: Vm, owner: Owner, id: int, m: PageMap, n: int)
    requires Shaped(m) && 0 <= n < PAGES
  {
    Present(Pg(vm, m, n)) ==> Tr(vm, m, n) in owner && owner[Tr(vm, m, n)] == UserRole(id, n)
  }

  /** Every page present anywhere has a frame of its own. */
  ghost predicate Isolated(vm: Vm, owner: Owner, maps: seq<PageMap>) {
    forall id :: 0 <= id < |maps| ==> SpaceOwned(vm, owner, id, maps[id])
  }

  ghost predicate SpaceOwned(vm: Vm, owner: Owner, id: int, m: PageMap) {
    Shaped(m) && forall n :: 0 <= n < PAGES ==> PageOwned(vm, owner, id, m, n)
  }

  ghost predicate AllClean(vm: Vm, maps: seq<PageMap>) {
    forall id :: 0 <= id < |maps| ==> Shaped(maps[id]) && Clean(vm, maps[id])
  }

  /** Where the CPU gets to from address v is the frame of page v / 4096. */
  lemma ReachesOwned(vm: Vm, owner: Owner, maps: seq<PageMap>, a: nat, v: int)
    requires AllOk(vm, owner, maps) && Isolated(vm, owner, maps) && AllClean(vm, maps) && a < |maps|
    requires 0 <= v < PDP_SIZE && Walk(vm.mem, maps[a].pml4Phys, v).Page?
    ensures 0 <= v / PAGE_SIZE_4K < PAGES
    ensures var f := Walk(vm.mem, maps[a].pml4Phys, v).frame;
      f in owner && owner[f] == UserRole(a, v / PAGE_SIZE_4K)
  {
    var n := v / PAGE_SIZE_4K;
    assert SpaceOwned(vm, owner, a, maps[a]);
    assert Clean(vm, maps[a]) && CleanAt(vm, maps[a], PdpIdx(v), PdIdx(v));
    WalkFinds(vm, owner, a, maps[a], v);
    UserIndices(v);
    PageDigit(PdpIdx(v), PdIdx(v), PtIdx(v));
    assert PageOwned(vm, owner, a, maps[a], n);
  }

  lemma PageDigit(i: int, j: int, k: int)
    requires Index(i) && Index(j) && Index(k)
    ensures var n := (i * ENTRIES + j) * ENTRIES + k;
      0 <= n < PAGES && n / 262144 == i && n / ENTRIES % ENTRIES == j && n % ENTRIES == k
  {
    var n := (i * ENTRIES + j) * ENTRIES + k;
    assert n / ENTRIES == i * ENTRIES + j;
  }

  /** Two addresses lead to one frame, with whatever rights. */
  predicate SameFrame(t: Translation, u: Translation) {
    t.Page? && u.Page? && t.frame == u.frame
  }

  /** The CPU never gets to one frame from two pages of any address spaces, and never to a frame that
      holds a page structure of any address space. */
  lemma IsolatedApart(vm: Vm, owner: Owner, maps: seq<PageMap>, a: nat, v: int, b: nat, w: int, i: int, j: int)
    requires AllOk(vm, owner, maps) && Isolated(vm, owner, maps) && AllClean(vm, maps) && a < |maps| && b < |maps|
    requires 0 <= v < PDP_SIZE && 0 <= w < PDP_SIZE && Index(i) && Index(j) && Walk(vm.mem, maps[a].pml4Phys, v).Page?
    ensures SameFrame(Walk(vm.mem, maps[b].pml4Phys, w), Walk(vm.mem, maps[a].pml4Phys, v)) ==>
      a == b && w / PAGE_SIZE_4K == v / PAGE_SIZE_4K
    ensures var f := Walk(vm.mem, maps[a].pml4Phys, v).frame;
      && f != maps[b].pml4Phys && f != maps[b].pdpPhys && f != maps[b].dirsPhys[i]
      && (maps[b].tables[i][j] != 0 ==> f != Frame(EntryAt(vm.mem, maps[b].dirsPhys[i], j)))
  {
    ReachesOwned(vm, owner, maps, a, v);
    if SameFrame(Walk(vm.mem, maps[b].pml4Phys, w), Walk(vm.mem, maps[a].pml4Phys, v)) {
      ReachesOwned(vm, owner, maps, b, w);
      DigitsDecide(v / PAGE_SIZE_4K, w / PAGE_SIZE_4K);
    }
    assert DirOk(vm, owner, b, maps[b], i) && TableOk(vm, owner, b, maps[b], i, j);
  }

  lemma SameKeepsOwned(vm: Vm, owner: Owner, vm': Vm, owner': Owner, id: int, m: PageMap)
    requires SpaceOwned(vm, owner, id, m) && SameSpace(vm, m, vm', m) && OwnerGrows(owner, owner')
    ensures SpaceOwned(vm', owner', id, m)
  {
    forall n | 0 <= n < PAGES ensures PageOwned(vm', owner', id, m, n) {
      assert PageOwned(vm, owner, id, m, n);
      assert SameCell(vm, m, vm', m, n / 262144, n / ENTRIES % ENTRIES);
    }
  }

  lemma OthersOwned(vm: Vm, owner: Owner, maps: seq<PageMap>, vm': Vm, owner': Owner, maps': seq<PageMap>, id: int)
    requires Isolated(vm, owner, maps) && OthersSame(vm, maps, vm', maps', id) && OwnerGrows(owner, owner')
    ensures forall o :: 0 <= o < |maps| && o != id ==> SpaceOwned(vm', owner', o, maps'[o])
  {
    forall o | 0 <= o < |maps| && o != id ensures SpaceOwned(vm', owner', o, maps'[o]) {
      assert SpaceOwned(vm, owner, o, maps[o]);
      SameKeepsOwned(vm, owner, vm', owner', o, maps[o]);
    }
  }

  /** A frame nobody owned becomes page `page` of address space id. */
  lemma MappedOwned(vm: Vm, owner: Owner, m: PageMap, vm': Vm, owner': Owner, m': PageMap, id: int, first: int, f: int)
    requires SpaceOwned(vm, owner, id, m) && Shaped(m') && first >= 0 && GoodFrame(f)
    requires Mapped(vm, m, vm', m', first, 1, f)
    requires OwnerGrows(owner[f := UserRole(id, first % PAGES)], owner') && f !in owner
    ensures SpaceOwned(vm', owner', id, m')
  {
    FrameOfAligned(f);
    forall n | 0 <= n < PAGES ensures PageOwned(vm', owner', id, m', n) {
      assert PageOwned(vm, owner, id, m, n);
      Around(n, first);
      assert MappedAt(vm, m, vm', m', first, 1, f, n);
    }
  }

  /** A frame that no allocator has any more and nobody uses gets a use. */
  lemma OwnMore(vm: Vm, owner: Owner, maps: seq<PageMap>, spare: seq<(int, int)>, pages: set<int>, frames: set<int>,
                f: int, role: Role)
    requires AllOk(vm, owner, maps) && Supply(vm, owner, spare, pages, frames) && 0 <= role.id < |maps|
    requires f in frames
    ensures AllOk(vm, owner[f := role], maps) && Supply(vm, owner[f := role], spare, pages, frames - {f})
  {
    assert FreshFrame(vm, owner, f);
    forall id | 0 <= id < |maps| ensures MapOk(vm, owner[f := role], id, maps[id]) {
      OtherSpace(vm, owner, vm, owner[f := role], -1, id, maps[id]);
    }
    forall k | 0 <= k < |spare| ensures Fresh(vm, owner[f := role], spare[k].0, spare[k].1) {
      assert Fresh(vm, owner, spare[k].0, spare[k].1) && spare[k].1 !in frames;
    }
  }

  /** page_clone_map copies page entries, not pages: a fork keeps the address spaces isolated exactly
      when the parent has no page present. */
  lemma ForkShares(vm0: Vm, owner0: Owner, maps: seq<PageMap>, src: nat, vm: Vm, owner: Owner, m: PageMap)
    requires Isolated(vm0, owner0, maps) && src < |maps| && OwnerGrows(owner0, owner) && Shaped(m)
    requires OthersSame(vm0, maps, vm, maps + [m], |maps|)
    requires forall i, j :: Index(i) && Index(j) ==> Copied(vm, m, vm0, maps[src], i, j)
    ensures Isolated(vm, owner, maps + [m]) <==> forall n :: 0 <= n < PAGES ==> !Present(Pg(vm0, maps[src], n))
  {
    OthersOwned(vm0, owner0, maps, vm, owner, maps + [m], |maps|);
    assert SpaceOwned(vm0, owner0, src, maps[src]);
    forall n | 0 <= n < PAGES ensures PageOwned(vm, owner, |maps|, m, n) <==> !Present(Pg(vm0, maps[src], n)) {
      assert Copied(vm, m, vm0, maps[src], n / 262144, n / ENTRIES % ENTRIES);
      assert PageOwned(vm0, owner0, src, maps[src], n);
    }
    var all := maps + [m];
    assert all[|maps|] == m;
    if Isolated(vm, owner, all) {
      assert SpaceOwned(vm, owner, |maps|, all[|maps|]);
      forall n | 0 <= n < PAGES ensures !Present(Pg(vm0, maps[src], n)) {
        assert PageOwned(vm, owner, |maps|, m, n);
      }
    }
    if forall n :: 0 <= n < PAGES ==> !Present(Pg(vm0, maps[src], n)) {
      forall id | 0 <= id < |all| ensures SpaceOwned(vm, owner, id, all[id]) {
      }
    }
  }

  // ---------------------------------------------------------------- after a failed request

  /** pmm_request returned null and page_map_memory went on: the page is present and leads to frame 0,
      which is nobody's. */
  lemma NullPage(vm: Vm, m: PageMap, vm': Vm, owner': Owner, maps': seq<PageMap>, id: nat, virt: int)
    requires id < |maps'| && Shaped(m) && Shaped(maps'[id]) && virt >= 0
    requires Mapped(vm, m, vm', maps'[id], virt / PAGE_SIZE_4K, 1, 0) && 0 !in owner'
    ensures !Isolated(vm', owner', maps')
  {
    var q := virt / PAGE_SIZE_4K;
    var n := q % PAGES;
    Around(n, q);
    assert MappedAt(vm, m, vm', maps'[id], q, 1, 0, n);
    assert !PageOwned(vm', owner', id, maps'[id], n);
    assert !SpaceOwned(vm', owner', id, maps'[id]);
  }

  /** What page_mk_table asks of the directory it writes to. */
  ghost predicate DirThere(vm: Vm, m: PageMap, i: int, va: int)
    requires Shaped(m) && Index(i)
  {
    && va != m.dirs[i] && m.dirs[i] in vm.kmap && vm.kmap[m.dirs[i]] != 0
    && vm.kmap[m.dirs[i]] in vm.mem && |vm.mem[vm.kmap[m.dirs[i]]]| == ENTRIES
  }

  /** The same for a table, with page k then mapped in it: the directory entry leads to frame 0, and the
      address space is no longer well-formed whatever frames were handed out. */
  lemma NullTable(vm: Vm, owner: Owner, id: int, m: PageMap, i: int, j: int, k: int, p: int, va: int, owner': Owner)
    requires MapOk(vm, owner, id, m) && Index(i) && Index(j) && Index(k)
    requires m.tables[i][j] == 0 && va != 0 && va !in vm.kmap
    ensures DirThere(vm, m, i, va)
    ensures var vm', m' := MkTableVm(vm, m, i, j, va, 0), WithTable(m, i, j, va);
      && m'.tables[i][j] in vm'.kmap && vm'.kmap[m'.tables[i][j]] in vm'.mem
      && |vm'.mem[vm'.kmap[m'.tables[i][j]]]| == ENTRIES
      && !MapOk(SetPageVm(vm', m', i, j, k, p), owner', id, m')
  {
    assert DirOk(vm, owner, id, m, i);
    NullEntry(vm, owner, id, m, i, j, va);
    var vm', m' := MkTableVm(vm, m, i, j, va, 0), WithTable(m, i, j, va);
    assert m'.tables[i][j] == va && vm'.kmap[va] == 0 && m.dirsPhys[i] != 0;
    var vm'' := SetPageVm(vm', m', i, j, k, p);
    assert vm''.mem[m.dirsPhys[i]] == vm'.mem[m.dirsPhys[i]];
    assert !TableOk(vm'', owner', id, m', i, j);
  }

  lemma NullEntry(vm: Vm, owner: Owner, id: int, m: PageMap, i: int, j: int, va: int)
    requires MapOk(vm, owner, id, m) && Index(i) && Index(j) && va != 0 && va !in vm.kmap
    ensures DirOk(vm, owner, id, m, i) && va != m.dirs[i] && m.dirs[i] in vm.kmap
    ensures Frame(EntryAt(MkTableVm(vm, m, i, j, va, 0).mem, m.dirsPhys[i], j)) == 0
  {
    assert DirOk(vm, owner, id, m, i);
    var e := EntryMade(vm, owner, id, m, i, j, va);
    NullWord(e);
  }

  lemma EntryMade(vm: Vm, owner: Owner, id: int, m: PageMap, i: int, j: int, va: int) returns (e: int)
    requires MapOk(vm, owner, id, m) && Index(i) && Index(j) && va != 0 && va !in vm.kmap
    ensures DirOk(vm, owner, id, m, i) && va != m.dirs[i] && m.dirs[i] in vm.kmap && e >= 0
    ensures EntryAt(MkTableVm(vm, m, i, j, va, 0).mem, m.dirsPhys[i], j) == OrUser(SetFrame(e, 0))
  {
    assert DirOk(vm, owner, id, m, i);
    e := vm.mem[m.dirsPhys[i]][j];
  }

  lemma NullWord(e: int)
    requires e >= 0
    ensures Frame(OrUser(SetFrame(e, 0))) == 0
  {
    assert Frame(0) == 0;
    FramedUser(e, 0, 0);
  }

  lemma FramedUser(e: int, addr: int, f: int)
    requires e >= 0 && addr >= 0 && Frame(addr) == f
    ensures Frame(OrUser(SetFrame(e, addr))) == f
  {
    SetUser(e, addr);
  }
}
