/** A run in which page_clone_map breaks both things it can break: the child shares the parent's page,
    and a word left in a directory page makes the CPU see a large page. */
module Forks {
  import opened PageEntries
  import opened PageMaps
  import opened AddressSpaces
  import opened SpaceRuns
  import opened Isolation

  // Memory that was used before: every word has bit 7 set and nothing else
  const STALE := 128
  const PAIRS := 300000
  const LAST := PAGE_SIZE_4K * (PAIRS + 2)

  function StalePage(): (p: seq<int>)
    ensures GoodPage(p) && forall k :: 0 <= k < ENTRIES ==> p[k] == STALE
  {
    seq(ENTRIES, _ => STALE)
  }

  /** Kernel page k + 1 with frame k + 2; frame 1 is kept for the parent's page. */
  function Pairs(): (s: seq<(int, int)>)
    ensures |s| == PAIRS && forall k :: 0 <= k < PAIRS ==> s[k] == (k + 1, PAGE_SIZE_4K * (k + 2))
  {
    seq(PAIRS, k => (k + 1, PAGE_SIZE_4K * (k + 2)))
  }

  function Ram(): (m: map<int, seq<int>>)
    ensures forall f :: f in m <==> 0 < f < LAST && f % PAGE_SIZE_4K == 0
    ensures forall f :: f in m ==> m[f] == StalePage()
  {
    map f | 0 < f < LAST && f % PAGE_SIZE_4K == 0 :: StalePage()
  }

  lemma PairsSupply()
    ensures Supply(Vm(map[], Ram(), Zeros()), map[], Pairs(), {}, {PAGE_SIZE_4K})
  {
    var vm, s := Vm(map[], Ram(), Zeros()), Pairs();
    forall k | 0 <= k < PAIRS ensures Fresh(vm, map[], s[k].0, s[k].1) {
      assert s[k].1 % PAGE_SIZE_4K == 0 && s[k].1 < LAST;
    }
    assert FreshFrame(vm, map[], PAGE_SIZE_4K);
  }

  /** One address space that translates nothing. */
  method Empty() returns (p: Paging)
    ensures fresh(p) && p.Valid() && |p.maps| == 1 && Clean(p.vm, p.maps[0]) && Built(p.maps[0]) == {}
    ensures forall n :: 0 <= n < PAGES ==> Pg(p.vm, p.maps[0], n) == 0
    ensures PAGE_SIZE_4K in p.frames && PAGE_SIZE_4K !in p.owner
    ensures p.spare == Pairs()[TOP + ENTRIES..] && Unowned(Vm(map[], Ram(), Zeros()), p.vm, p.owner)
  {
    PairsSupply();
    p := new Paging(Vm(map[], Ram(), Zeros()), Pairs(), {}, {PAGE_SIZE_4K});
    var id := p.MkMap();
    assert FreshFrame(p.vm, p.owner, PAGE_SIZE_4K);
  }

  /** One address space with one page of its own, at address 0. */
  method Parent() returns (p: Paging)
    ensures fresh(p) && p.Valid() && |p.maps| == 1 && Clean(p.vm, p.maps[0]) && Isolated(p.vm, p.owner, p.maps)
    ensures Present(Pg(p.vm, p.maps[0], 0)) && p.maps[0].tables[0][0] != 0
    ensures p.spare == Pairs()[TOP + ENTRIES + 1..] && Unowned(Vm(map[], Ram(), Zeros()), p.vm, p.owner)
  {
    p := Empty();
    ghost var vm1, owner1, maps1 := p.vm, p.owner, p.maps;
    ghost var role := UserRole(0, 0);
    OwnMore(p.vm, p.owner, p.maps, p.spare, p.pages, p.frames, PAGE_SIZE_4K, role);
    p.owner, p.frames := p.owner[PAGE_SIZE_4K := role], p.frames - {PAGE_SIZE_4K};
    assert PdpIdx(0) == 0 && PdIdx(0) == 0 && (0, 0) !in Built(maps1[0]);
    p.MapPage(0, 0, PAGE_SIZE_4K);
    FirstPage(vm1, owner1, maps1[0], p.vm, p.owner, p.maps[0]);
    assert Isolated(p.vm, p.owner, p.maps);
  }

  lemma FirstPage(vm: Vm, owner: Owner, m: PageMap, vm': Vm, owner': Owner, m': PageMap)
    requires Shaped(m) && Shaped(m') && Clean(vm, m) && forall n :: 0 <= n < PAGES ==> Pg(vm, m, n) == 0
    requires Mapped(vm, m, vm', m', 0, 1, PAGE_SIZE_4K) && PAGE_SIZE_4K !in owner
    requires OwnerGrows(owner[PAGE_SIZE_4K := UserRole(0, 0)], owner')
    ensures SpaceOwned(vm', owner', 0, m') && Clean(vm', m') && Present(Pg(vm', m', 0))
  {
    assert SpaceOwned(vm, owner, 0, m) by {
      forall n | 0 <= n < PAGES ensures PageOwned(vm, owner, 0, m, n) {
      }
    }
    MappedOwned(vm, owner, m, vm', owner', m', 0, 0, PAGE_SIZE_4K);
    assert MappedAt(vm, m, vm', m', 0, 1, PAGE_SIZE_4K, 0);
  }

  /** The clone of that address space: the two are no longer isolated, and the CPU no longer agrees
      with page_getphys about the child, as it does about the parent. */
  method Fork() returns (p: Paging)
    ensures fresh(p) && p.Valid() && |p.maps| == 2 && Coherent(p.vm, p.maps[0])
    ensures !Isolated(p.vm, p.owner, p.maps) && !Coherent(p.vm, p.maps[1])
  {
    p := Parent();
    ghost var vm0, owner0, maps0, spare0 := p.vm, p.owner, p.maps, p.spare;
    CountGrows(p.maps[0], 0, ENTRIES * ENTRIES);
    var id := p.CloneMap(0);
    ForkBreaks(vm0, owner0, maps0[0], spare0, p.pages, p.frames, p.vm, p.owner, p.maps[0], p.maps[1]);
    assert p.maps == [p.maps[0], p.maps[1]];
  }

  lemma ForkBreaks(vm0: Vm, owner0: Owner, m: PageMap, spare: seq<(int, int)>, pages: set<int>, frames: set<int>,
                   vm: Vm, owner: Owner, parent: PageMap, child: PageMap)
    requires MapOk(vm0, owner0, 0, m) && Clean(vm0, m) && Isolated(vm0, owner0, [m]) && Present(Pg(vm0, m, 0))
    requires m.tables[0][0] != 0
    requires Supply(vm0, owner0, spare, pages, frames) && |spare| > TOP
    requires Unowned(Vm(map[], Ram(), Zeros()), vm0, owner0)
    requires MapOk(vm, owner, 0, parent) && MapOk(vm, owner, 1, child) && OwnerGrows(owner0, owner)
    requires parent == m && SameSpace(vm0, m, vm, m) && vm.kpml4 == vm0.kpml4 && child.dirsPhys[0] == spare[TOP].1
    requires forall i, j :: Index(i) && Index(j) ==> Copied(vm, child, vm0, m, i, j)
    ensures Coherent(vm, parent) && !Coherent(vm, child) && !Isolated(vm, owner, [parent, child])
  {
    assert [m] + [child] == [m, child];
    ForkShares(vm0, owner0, [m], 0, vm, owner, child);
    StaleWord(vm0, owner0, spare, pages, frames);
    assert Index(0) && Large(EntryAt(vm0.mem, child.dirsPhys[0], 0));
    CloneCoherent(vm, owner, 1, child, vm0, m);
    SameStaysClean(vm0, m, vm, m);
    CleanIsCoherent(vm, owner, 0, m);
  }

  lemma StaleWord(vm: Vm, owner: Owner, spare: seq<(int, int)>, pages: set<int>, frames: set<int>)
    requires Supply(vm, owner, spare, pages, frames) && |spare| > TOP && Unowned(Vm(map[], Ram(), Zeros()), vm, owner)
    ensures Large(EntryAt(vm.mem, spare[TOP].1, 0))
  {
    assert Fresh(vm, owner, spare[TOP].0, spare[TOP].1);
    assert vm.mem[spare[TOP].1] == StalePage();
  }
}
