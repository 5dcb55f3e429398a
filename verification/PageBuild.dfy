/** mem/paging.c: the steps that page_mk_map and page_clone_map share, on an address space that is
    only partly built. */
module PageBuild {
  import opened PageEntries
  import opened PageMaps

  /** The directories before di and the directory entries before b, counted row by row, are done. */
  ghost predicate Part(vm: Vm, owner: Owner, id: int, m: PageMap, di: int, b: int) {
    && Shaped(m) && TopOk(vm, owner, id, m)
    && (forall i :: Index(i) && i < di ==> DirOk(vm, owner, id, m, i))
    && (forall i, j :: Index(i) && Index(j) && i * ENTRIES + j < b ==> TableOk(vm, owner, id, m, i, j))
  }

  lemma PartIsWhole(vm: Vm, owner: Owner, id: int, m: PageMap)
    requires Part(vm, owner, id, m, ENTRIES, ENTRIES * ENTRIES)
    ensures MapOk(vm, owner, id, m)
  {
    forall i, j | Index(i) && Index(j) ensures TableOk(vm, owner, id, m, i, j) {
      assert i * ENTRIES + j < ENTRIES * ENTRIES;
    }
  }

  /** A fresh kernel page backed by a fresh frame. */
  function Attach(vm: Vm, va: int, f: int): Vm {
    vm.(kmap := vm.kmap[va := f])
  }

  // ---------------------------------------------------------------- the two top levels

  /** The kernel's top level is copied, an empty second level is linked from its entry 0. */
  function TopVm(vm: Vm, pml4: int, pml4Phys: int, pdp: int, pdpPhys: int): Vm
    requires pml4 != pdp && pml4Phys != pdpPhys && |vm.kpml4| == ENTRIES
  {
    var vm1 := Fill(Attach(vm, pml4, pml4Phys), pml4, vm.kpml4);
    var vm2 := Fill(Attach(vm1, pdp, pdpPhys), pdp, Zeros());
    Store(vm2, pml4, 0, OrUser(SetFrame(Peek(vm2, pml4, 0), pdpPhys)))
  }

  function Blank(pml4: int, pml4Phys: int, pdp: int, pdpPhys: int): (m: PageMap)
    ensures Shaped(m)
  {
    PageMap(pml4, pml4Phys, pdp, pdpPhys, Zeros(), Zeros(), seq(ENTRIES, _ => Zeros()))
  }

  lemma TopBuilt(vm: Vm, owner: Owner, id: int, pml4: int, pml4Phys: int, pdp: int, pdpPhys: int)
    requires Fresh(vm, owner, pml4, pml4Phys) && Fresh(vm, owner, pdp, pdpPhys) && GoodPage(vm.kpml4)
    requires pml4 != pdp && pml4Phys != pdpPhys
    ensures var vm' := TopVm(vm, pml4, pml4Phys, pdp, pdpPhys);
      var owner' := owner[pml4Phys := Pml4(id)][pdpPhys := Pdp(id)];
      Part(vm', owner', id, Blank(pml4, pml4Phys, pdp, pdpPhys), 0, 0) && Extends(vm, owner, vm', owner', id)
  {
    SetUser(vm.kpml4[0], pdpPhys);
    FrameOfAligned(pdpPhys);
  }

  // ---------------------------------------------------------------- one directory

  function WithDir(m: PageMap, i: int, va: int, f: int): (r: PageMap)
    requires Shaped(m) && Index(i)
    ensures Shaped(r)
  {
    m.(dirs := m.dirs[i := va], dirsPhys := m.dirsPhys[i := f])
  }

  /** A directory page is attached, perhaps cleared, and linked from the second level. */
  function DirVm(vm: Vm, m: PageMap, i: int, va: int, f: int, clear: bool): Vm
    requires Index(i) && m.pdp in vm.kmap && m.pdp != va && vm.kmap[m.pdp] != f
    requires vm.kmap[m.pdp] in vm.mem && |vm.mem[vm.kmap[m.pdp]]| == ENTRIES
  {
    var vm1 := Attach(vm, va, f);
    var vm2 := if clear then Fill(vm1, va, Zeros()) else vm1;
    Store(vm2, m.pdp, i, OrUser(SetFrame(Peek(vm2, m.pdp, i), f)))
  }

  lemma DirCell(vm: Vm, owner: Owner, id: int, m: PageMap, i: int, va: int, f: int, clear: bool, a: int)
    requires Shaped(m) && Index(i) && TopOk(vm, owner, id, m) && Fresh(vm, owner, va, f) && Index(a)
    requires !Large(EntryAt(vm.mem, m.pdpPhys, i)) && (a != i ==> DirOk(vm, owner, id, m, a))
    ensures var vm' := DirVm(vm, m, i, va, f, clear);
      && TopOk(vm', owner[f := Dir(id, i)], id, WithDir(m, i, va, f))
      && DirOk(vm', owner[f := Dir(id, i)], id, WithDir(m, i, va, f), a)
      && Extends(vm, owner, vm', owner[f := Dir(id, i)], id)
      && f in vm'.mem && vm'.mem[f] == (if clear then Zeros() else vm.mem[f])
      && (forall k :: Index(k) && k != i ==> EntryAt(vm'.mem, m.pdpPhys, k) == EntryAt(vm.mem, m.pdpPhys, k))
  {
    SetUser(vm.mem[m.pdpPhys][i], f);
    FrameOfAligned(f);
  }

  lemma DirTable(vm: Vm, owner: Owner, id: int, m: PageMap, i: int, va: int, f: int, clear: bool, a: int, b: int)
    requires Shaped(m) && Index(i) && TopOk(vm, owner, id, m) && Fresh(vm, owner, va, f) && Index(a) && Index(b)
    requires a != i && DirOk(vm, owner, id, m, a) && TableOk(vm, owner, id, m, a, b)
    ensures var vm' := DirVm(vm, m, i, va, f, clear);
      && TableOk(vm', owner[f := Dir(id, i)], id, WithDir(m, i, va, f), a, b)
      && SameCell(vm, m, vm', WithDir(m, i, va, f), a, b)
  {
  }

  /** The second-level entries from di on have not been used. */
  ghost predicate PdpClear(vm: Vm, m: PageMap, di: int) {
    forall i :: Index(i) && i >= di ==> EntryAt(vm.mem, m.pdpPhys, i) == 0
  }

  lemma DirBuilt(vm: Vm, owner: Owner, id: int, m: PageMap, i: int, va: int, f: int, clear: bool)
    requires Index(i) && Part(vm, owner, id, m, i, i * ENTRIES) && PdpClear(vm, m, i) && Fresh(vm, owner, va, f)
    ensures m.pdp in vm.kmap && m.pdp != va && vm.kmap[m.pdp] != f
    ensures vm.kmap[m.pdp] in vm.mem && |vm.mem[vm.kmap[m.pdp]]| == ENTRIES
    ensures var vm' := DirVm(vm, m, i, va, f, clear);
      var owner', m' := owner[f := Dir(id, i)], WithDir(m, i, va, f);
      && Part(vm', owner', id, m', i + 1, i * ENTRIES) && PdpClear(vm', m', i + 1)
      && Extends(vm, owner, vm', owner', id)
      && f in vm'.mem && vm'.mem[f] == (if clear then Zeros() else vm.mem[f])
      && (forall a, b :: Index(a) && Index(b) && a < i ==> SameCell(vm, m, vm', m', a, b))
  {
    assert EntryAt(vm.mem, m.pdpPhys, i) == 0;
    DirCell(vm, owner, id, m, i, va, f, clear, i);
    var vm' := DirVm(vm, m, i, va, f, clear);
    var owner', m' := owner[f := Dir(id, i)], WithDir(m, i, va, f);
    forall a | Index(a) && a < i + 1 ensures DirOk(vm', owner', id, m', a) {
      DirCell(vm, owner, id, m, i, va, f, clear, a);
    }
    forall a, b | Index(a) && Index(b) && a < i
      ensures TableOk(vm', owner', id, m', a, b) && SameCell(vm, m, vm', m', a, b)
    {
      assert a * ENTRIES + b < i * ENTRIES;
      DirTable(vm, owner, id, m, i, va, f, clear, a, b);
    }
    forall a, b | Index(a) && Index(b) && a * ENTRIES + b < i * ENTRIES ensures TableOk(vm', owner', id, m', a, b) {
      assert a < i;
    }
  }

  /** A cleared directory has no tables, which is what its null pointers say. */
  lemma ClearRow(vm: Vm, owner: Owner, id: int, m: PageMap, i: int)
    requires Index(i) && Part(vm, owner, id, m, i + 1, i * ENTRIES)
    requires m.tables[i] == Zeros() && vm.mem[m.dirsPhys[i]] == Zeros()
    ensures Part(vm, owner, id, m, i + 1, (i + 1) * ENTRIES)
  {
    assert DirOk(vm, owner, id, m, i);
    forall a, b | Index(a) && Index(b) && a * ENTRIES + b < (i + 1) * ENTRIES ensures TableOk(vm, owner, id, m, a, b) {
      if a == i {
        assert EntryAt(vm.mem, m.dirsPhys[i], b) == 0;
      } else {
        assert a * ENTRIES + b < i * ENTRIES;
      }
    }
  }

  // ---------------------------------------------------------------- one directory entry of a clone

  /** Entries of row i after j are as they were. */
  ghost predicate RowRest(vm: Vm, vm': Vm, d: int, j: int) {
    forall b :: Index(b) && b > j ==> EntryAt(vm'.mem, d, b) == EntryAt(vm.mem, d, b)
  }

  /** page_mk_table at (i, j), then the source's table copied into it. */
  function CopyVm(vm: Vm, m: PageMap, i: int, j: int, va: int, f: int, page: seq<int>): Vm
    requires Shaped(m) && Index(i) && Index(j) && va != m.dirs[i] && m.dirs[i] in vm.kmap
    requires vm.kmap[m.dirs[i]] != f && vm.kmap[m.dirs[i]] in vm.mem && |vm.mem[vm.kmap[m.dirs[i]]]| == ENTRIES
  {
    Fill(MkTableVm(vm, m, i, j, va, f), va, page)
  }

  lemma CopyHere(vm: Vm, owner: Owner, id: int, m: PageMap, i: int, j: int, va: int, f: int, page: seq<int>)
    requires Shaped(m) && Index(i) && Index(j) && Fresh(vm, owner, va, f) && GoodPage(page) && PagesOk(page)
    requires TopOk(vm, owner, id, m) && DirOk(vm, owner, id, m, i)
    ensures var vm', m', owner' := CopyVm(vm, m, i, j, va, f, page), WithTable(m, i, j, va),
                                   owner[f := Table(id, i, j)];
      && Shaped(m') && TopOk(vm', owner', id, m') && TableOk(vm', owner', id, m', i, j)
      && Extends(vm, owner, vm', owner', id) && RowRest(vm, vm', m.dirsPhys[i], j)
      && Present(EntryAt(vm'.mem, m.dirsPhys[i], j))
      && Large(EntryAt(vm'.mem, m.dirsPhys[i], j)) == Large(EntryAt(vm.mem, m.dirsPhys[i], j))
      && (forall k :: Index(k) ==> Raw(vm', m', i, j, k) == page[k])
      && (forall k :: Index(k) ==> EntryAt(vm'.mem, m.pdpPhys, k) == EntryAt(vm.mem, m.pdpPhys, k))
  {
    SetUser(vm.mem[m.dirsPhys[i]][j], f);
    FrameOfAligned(f);
  }

  lemma CopyDir(vm: Vm, owner: Owner, id: int, m: PageMap, i: int, j: int, va: int, f: int, page: seq<int>, a: int)
    requires Shaped(m) && Index(i) && Index(j) && Fresh(vm, owner, va, f) && Index(a)
    requires DirOk(vm, owner, id, m, i) && DirOk(vm, owner, id, m, a) && TopOk(vm, owner, id, m)
    ensures Shaped(WithTable(m, i, j, va))
    ensures DirOk(CopyVm(vm, m, i, j, va, f, page), owner[f := Table(id, i, j)], id, WithTable(m, i, j, va), a)
  {
    SetUser(vm.mem[m.dirsPhys[i]][j], f);
  }

  lemma CopyElsewhere(vm: Vm, owner: Owner, id: int, m: PageMap, i: int, j: int, va: int, f: int, page: seq<int>,
                      a: int, b: int)
    requires Shaped(m) && Index(i) && Index(j) && Fresh(vm, owner, va, f) && Index(a) && Index(b) && (a, b) != (i, j)
    requires DirOk(vm, owner, id, m, i) && DirOk(vm, owner, id, m, a) && TableOk(vm, owner, id, m, a, b)
    ensures var vm', m', owner' := CopyVm(vm, m, i, j, va, f, page), WithTable(m, i, j, va),
                                   owner[f := Table(id, i, j)];
      Shaped(m') && TableOk(vm', owner', id, m', a, b) && SameCell(vm, m, vm', m', a, b)
  {
    assert WithTable(m, i, j, va).tables[a][b] == m.tables[a][b];
  }

  /** Cells before (i, j), row by row. */
  predicate Before(a: int, b: int, i: int, j: int) {
    Index(a) && Index(b) && a * ENTRIES + b < i * ENTRIES + j
  }

  lemma CopyBuilt(vm: Vm, owner: Owner, id: int, m: PageMap, i: int, j: int, va: int, f: int, page: seq<int>)
    requires Index(i) && Index(j) && Part(vm, owner, id, m, i + 1, i * ENTRIES + j) && PdpClear(vm, m, i + 1)
    requires Fresh(vm, owner, va, f) && GoodPage(page) && PagesOk(page)
    ensures m.dirs[i] in vm.kmap && va != m.dirs[i] && vm.kmap[m.dirs[i]] != f
    ensures vm.kmap[m.dirs[i]] in vm.mem && |vm.mem[vm.kmap[m.dirs[i]]]| == ENTRIES
    ensures var vm', m', owner' := CopyVm(vm, m, i, j, va, f, page), WithTable(m, i, j, va),
                                   owner[f := Table(id, i, j)];
      && Part(vm', owner', id, m', i + 1, i * ENTRIES + j + 1) && PdpClear(vm', m', i + 1)
      && Extends(vm, owner, vm', owner', id) && RowRest(vm, vm', m.dirsPhys[i], j)
      && Present(EntryAt(vm'.mem, m.dirsPhys[i], j))
      && Large(EntryAt(vm'.mem, m.dirsPhys[i], j)) == Large(EntryAt(vm.mem, m.dirsPhys[i], j))
      && (forall k :: Index(k) ==> Raw(vm', m', i, j, k) == page[k])
      && (forall a, b :: Before(a, b, i, j) ==> SameCell(vm, m, vm', m', a, b))
  {
    assert DirOk(vm, owner, id, m, i);
    CopyHere(vm, owner, id, m, i, j, va, f, page);
    var vm', m', owner' := CopyVm(vm, m, i, j, va, f, page), WithTable(m, i, j, va), owner[f := Table(id, i, j)];
    forall a | Index(a) && a < i + 1 ensures DirOk(vm', owner', id, m', a) {
      CopyDir(vm, owner, id, m, i, j, va, f, page, a);
    }
    forall a, b | Before(a, b, i, j) ensures TableOk(vm', owner', id, m', a, b) && SameCell(vm, m, vm', m', a, b) {
      CopyElsewhere(vm, owner, id, m, i, j, va, f, page, a, b);
    }
    forall a, b | Index(a) && Index(b) && a * ENTRIES + b < i * ENTRIES + j + 1
      ensures TableOk(vm', owner', id, m', a, b)
    {
      assert Before(a, b, i, j) || (a == i && b == j);
    }
  }

  /** No table in the source: the entry and the pointer are cleared. */
  function NullVm(vm: Vm, m: PageMap, i: int, j: int): Vm
    requires Shaped(m) && Index(i) && Index(j) && m.dirs[i] in vm.kmap
    requires vm.kmap[m.dirs[i]] in vm.mem && |vm.mem[vm.kmap[m.dirs[i]]]| == ENTRIES
  {
    Store(vm, m.dirs[i], j, 0)
  }

  lemma NullElsewhere(vm: Vm, owner: Owner, id: int, m: PageMap, i: int, j: int, a: int, b: int)
    requires Shaped(m) && Index(i) && Index(j) && Index(a) && Index(b) && (a, b) != (i, j)
    requires DirOk(vm, owner, id, m, i) && DirOk(vm, owner, id, m, a) && TableOk(vm, owner, id, m, a, b)
    ensures var vm', m' := NullVm(vm, m, i, j), WithTable(m, i, j, 0);
      Shaped(m') && TableOk(vm', owner, id, m', a, b) && SameCell(vm, m, vm', m', a, b)
  {
    assert WithTable(m, i, j, 0).tables[a][b] == m.tables[a][b];
  }

  lemma NullBuilt(vm: Vm, owner: Owner, id: int, m: PageMap, i: int, j: int)
    requires Index(i) && Index(j) && Part(vm, owner, id, m, i + 1, i * ENTRIES + j) && PdpClear(vm, m, i + 1)
    ensures m.dirs[i] in vm.kmap
    ensures vm.kmap[m.dirs[i]] in vm.mem && |vm.mem[vm.kmap[m.dirs[i]]]| == ENTRIES
    ensures var vm', m' := NullVm(vm, m, i, j), WithTable(m, i, j, 0);
      && Part(vm', owner, id, m', i + 1, i * ENTRIES + j + 1) && PdpClear(vm', m', i + 1)
      && Extends(vm, owner, vm', owner, id) && RowRest(vm, vm', m.dirsPhys[i], j)
      && EntryAt(vm'.mem, m.dirsPhys[i], j) == 0
      && (forall k :: Index(k) ==> Raw(vm', m', i, j, k) == 0)
      && (forall a, b :: Before(a, b, i, j) ==> SameCell(vm, m, vm', m', a, b))
  {
    assert DirOk(vm, owner, id, m, i);
    var vm', m' := NullVm(vm, m, i, j), WithTable(m, i, j, 0);
    forall a | Index(a) && a < i + 1 ensures DirOk(vm', owner, id, m', a) {
      assert DirOk(vm, owner, id, m, a);
    }
    forall a, b | Before(a, b, i, j) ensures TableOk(vm', owner, id, m', a, b) && SameCell(vm, m, vm', m', a, b) {
      NullElsewhere(vm, owner, id, m, i, j, a, b);
    }
    forall a, b | Index(a) && Index(b) && a * ENTRIES + b < i * ENTRIES + j + 1
      ensures TableOk(vm', owner, id, m', a, b)
    {
      assert Before(a, b, i, j) || (a == i && b == j);
    }
  }
}
