/** mem/paging.c: user address spaces. The kernel reaches page structures through its own virtual
    pages; the CPU reaches the same structures through the physical frames stored in the entries. */
module PageMaps {
  import opened PageEntries

  /** What the CPU does with an address, and what it allows there. */
  datatype Translation = NotPresent | LargePage | Page(frame: int, writable: bool, user: bool)

  /** kmap: the frame behind each kernel page; mem: the 512 words of each frame; kpml4: the kernel's own
      top level, as paging_init leaves it. */
  datatype Vm = Vm(kmap: map<int, int>, mem: map<int, seq<int>>, kpml4: seq<int>)

  /** page_map_t; a null table pointer is 0. */
  datatype PageMap = PageMap(
    pml4: int, pml4Phys: int, pdp: int, pdpPhys: int,
    dirs: seq<int>, dirsPhys: seq<int>, tables: seq<seq<int>>)

  /** What a frame is used for: a page structure of one address space, or one of its pages. */
  datatype Role =
    | Pml4(id: int) | Pdp(id: int) | Dir(id: int, i: int) | Table(id: int, i: int, j: int)
    | User(id: int, i: int, j: int, k: int)

  type Owner = map<int, Role>

  // ---------------------------------------------------------------- reading

  function EntryAt(mem: map<int, seq<int>>, f: int, i: int): int {
    if f in mem && 0 <= i < |mem[f]| then mem[f][i] else 0
  }

  /** The 4-level walk of section 4.5 of the Intel SDM, Volume 3A; a right has to be given at every level,
      as section 4.6 says. */
  function Walk(mem: map<int, seq<int>>, cr3: int, v: int): Translation {
    var e4 := EntryAt(mem, Frame(cr3), Pml4Idx(v));
    if !Present(e4) then NotPresent
    else
      var e3 := EntryAt(mem, Frame(e4), PdpIdx(v));
      if !Present(e3) then NotPresent
      else if Large(e3) then LargePage
      else
        var e2 := EntryAt(mem, Frame(e3), PdIdx(v));
        if !Present(e2) then NotPresent
        else if Large(e2) then LargePage
        else
          var e1 := EntryAt(mem, Frame(e2), PtIdx(v));
          if !Present(e1) then NotPresent
          else
            Page(Frame(e1), Writable(e4) && Writable(e3) && Writable(e2) && Writable(e1),
                 UserOk(e4) && UserOk(e3) && UserOk(e2) && UserOk(e1))
  }

  /** A read through a kernel pointer. */
  function Peek(vm: Vm, va: int, i: int): int {
    if va in vm.kmap then EntryAt(vm.mem, vm.kmap[va], i) else 0
  }

  predicate Index(i: int) { 0 <= i < ENTRIES }

  predicate Shaped(m: PageMap) {
    && |m.dirs| == |m.dirsPhys| == |m.tables| == ENTRIES
    && forall i :: 0 <= i < ENTRIES ==> |m.tables[i]| == ENTRIES
  }

  /** The page entry that the shadow structure leads to; zero where there is no table. */
  function Raw(vm: Vm, m: PageMap, i: int, j: int, k: int): int
    requires Shaped(m) && Index(i) && Index(j)
  {
    if !Present(Peek(vm, m.dirs[i], j)) || m.tables[i][j] == 0 then 0
    else Peek(vm, m.tables[i][j], k)
  }

  /** page_getphys below 512 GiB. */
  function At(vm: Vm, m: PageMap, i: int, j: int, k: int): int
    requires Shaped(m) && Index(i) && Index(j)
  {
    Frame(Raw(vm, m, i, j, k))
  }

  /** page_getphys */
  function Getphys(vm: Vm, m: PageMap, v: int): int
    requires Shaped(m)
  {
    if Pml4Idx(v) == 0 then At(vm, m, PdpIdx(v), PdIdx(v), PtIdx(v)) else 0
  }

  // ---------------------------------------------------------------- well-formed address spaces

  /** A page-aligned physical address. */
  predicate GoodFrame(f: int) {
    0 < f < 0x10_0000_0000_0000 && f % PAGE_SIZE_4K == 0
  }

  ghost predicate GoodPage(p: seq<int>) {
    |p| == ENTRIES && forall k :: 0 <= k < ENTRIES ==> p[k] >= 0
  }

  /** Kernel page va is backed by frame f, which has this role and nothing else. */
  ghost predicate Holds(vm: Vm, owner: Owner, va: int, f: int, role: Role) {
    && va != 0 && va in vm.kmap && vm.kmap[va] == f
    && GoodFrame(f) && f in vm.mem && GoodPage(vm.mem[f])
    && f in owner && owner[f] == role
  }

  /** Pages that are not present hold no frame. */
  ghost predicate PagesOk(p: seq<int>) {
    forall k :: 0 <= k < |p| && !Present(p[k]) ==> Frame(p[k]) == 0
  }

  ghost predicate TopOk(vm: Vm, owner: Owner, id: int, m: PageMap) {
    && Holds(vm, owner, m.pml4, m.pml4Phys, Pml4(id))
    && Holds(vm, owner, m.pdp, m.pdpPhys, Pdp(id))
    && Present(vm.mem[m.pml4Phys][0]) && Frame(vm.mem[m.pml4Phys][0]) == m.pdpPhys && Open(vm.mem[m.pml4Phys][0])
    && KernelIn(vm.mem[m.pml4Phys], vm.kpml4)
  }

  /** The entry takes no right away. */
  predicate Open(e: int) { Writable(e) && UserOk(e) }

  /** A top level that holds the kernel's entries above its own. */
  ghost predicate KernelIn(top: seq<int>, kpml4: seq<int>) {
    |top| == |kpml4| == ENTRIES && forall k :: 0 < k < ENTRIES ==> top[k] == kpml4[k]
  }

  ghost predicate DirOk(vm: Vm, owner: Owner, id: int, m: PageMap, i: int)
    requires Shaped(m) && Index(i)
  {
    && Holds(vm, owner, m.dirs[i], m.dirsPhys[i], Dir(id, i))
    && var e := EntryAt(vm.mem, m.pdpPhys, i);
    && Present(e) && !Large(e) && Open(e) && Frame(e) == m.dirsPhys[i]
  }

  /** The shadow pointer and the directory entry agree: both null, or both at the same table. */
  ghost predicate TableOk(vm: Vm, owner: Owner, id: int, m: PageMap, i: int, j: int)
    requires Shaped(m) && Index(i) && Index(j)
  {
    var e := EntryAt(vm.mem, m.dirsPhys[i], j);
    if m.tables[i][j] == 0 then e == 0
    else
      && Present(e) && Open(e) && Holds(vm, owner, m.tables[i][j], Frame(e), Table(id, i, j))
      && PagesOk(vm.mem[Frame(e)])
  }

  ghost predicate MapOk(vm: Vm, owner: Owner, id: int, m: PageMap) {
    && Shaped(m) && TopOk(vm, owner, id, m)
    && (forall i :: Index(i) ==> DirOk(vm, owner, id, m, i))
    && (forall i, j :: Index(i) && Index(j) ==> TableOk(vm, owner, id, m, i, j))
  }

  /** No directory entry in use is marked as a large page. */
  predicate CleanAt(vm: Vm, m: PageMap, i: int, j: int)
    requires Shaped(m) && Index(i)
  {
    !(Present(EntryAt(vm.mem, m.dirsPhys[i], j)) && Large(EntryAt(vm.mem, m.dirsPhys[i], j)))
  }

  ghost predicate Clean(vm: Vm, m: PageMap)
    requires Shaped(m)
  {
    forall i, j :: Index(i) && Index(j) ==> CleanAt(vm, m, i, j)
  }

  // ---------------------------------------------------------------- the shadow and the CPU agree

  /** The CPU's walk and page_getphys tell the same story about address v. */
  ghost predicate Agrees(vm: Vm, m: PageMap, v: int)
    requires Shaped(m)
  {
    match Walk(vm.mem, m.pml4Phys, v)
    case NotPresent => Getphys(vm, m, v) == 0
    case LargePage => false
    case Page(f, _, _) => Getphys(vm, m, v) == f
  }

  /** For every user address, the hardware walk agrees with page_getphys exactly when the
      directory entry it passes through is not marked large. */
  lemma WalkAgrees(vm: Vm, owner: Owner, id: int, m: PageMap, v: int)
    requires MapOk(vm, owner, id, m) && 0 <= v < PDP_SIZE
    ensures Agrees(vm, m, v) <==> CleanAt(vm, m, PdpIdx(v), PdIdx(v))
  {
    UserIndices(v);
    var i, j := PdpIdx(v), PdIdx(v);
    FrameOfAligned(m.pml4Phys);
    assert DirOk(vm, owner, id, m, i);
    assert TableOk(vm, owner, id, m, i, j);
  }

  /** What the walk finds, and the rights it gives, in terms of the page entry. */
  lemma WalkFinds(vm: Vm, owner: Owner, id: int, m: PageMap, v: int)
    requires MapOk(vm, owner, id, m) && 0 <= v < PDP_SIZE && CleanAt(vm, m, PdpIdx(v), PdIdx(v))
    ensures var e := Raw(vm, m, PdpIdx(v), PdIdx(v), PtIdx(v));
      Walk(vm.mem, m.pml4Phys, v) == if Present(e) then Page(Frame(e), Writable(e), UserOk(e)) else NotPresent
  {
    UserIndices(v);
    FrameOfAligned(m.pml4Phys);
    assert DirOk(vm, owner, id, m, PdpIdx(v));
    assert TableOk(vm, owner, id, m, PdpIdx(v), PdIdx(v));
  }

  /** Above the first 512 GiB every address space is the kernel's: the walk goes as from a top level that
      holds kpml4. */
  lemma KernelSeen(vm: Vm, owner: Owner, id: int, m: PageMap, root: int, v: int)
    requires MapOk(vm, owner, id, m) && Pml4Idx(v) != 0
    requires Frame(root) in vm.mem && vm.mem[Frame(root)] == vm.kpml4
    ensures Walk(vm.mem, m.pml4Phys, v) == Walk(vm.mem, root, v)
  {
    FrameOfAligned(m.pml4Phys);
  }

  // ---------------------------------------------------------------- what a change leaves alone

  /** Pointers and roles only grow, and frames that belong to other address spaces keep their words. */
  ghost predicate Extends(vm: Vm, owner: Owner, vm': Vm, owner': Owner, id: int) {
    && vm'.kpml4 == vm.kpml4
    && (forall va :: va in vm.kmap ==> va in vm'.kmap && vm'.kmap[va] == vm.kmap[va])
    && (forall f :: f in owner ==> f in owner' && owner'[f] == owner[f])
    && (forall f :: f in owner && f in vm.mem && owner[f].id != id ==> f in vm'.mem && vm'.mem[f] == vm.mem[f])
  }

  lemma ExtendsTrans(vm: Vm, owner: Owner, vm': Vm, owner': Owner, vm'': Vm, owner'': Owner, id: int)
    requires Extends(vm, owner, vm', owner', id) && Extends(vm', owner', vm'', owner'', id)
    ensures Extends(vm, owner, vm'', owner'', id)
  {
  }

  /** Directory entry (i, j) of m in vm translates like that of m' in vm'. */
  ghost predicate SameCell(vm: Vm, m: PageMap, vm': Vm, m': PageMap, i: int, j: int)
    requires Shaped(m) && Shaped(m') && Index(i) && Index(j)
  {
    && CleanAt(vm', m', i, j) == CleanAt(vm, m, i, j)
    && forall k :: Index(k) ==> Raw(vm', m', i, j, k) == Raw(vm, m, i, j, k)
  }

  /** Every address translates the same, for the kernel and for the CPU. */
  ghost predicate SameSpace(vm: Vm, m: PageMap, vm': Vm, m': PageMap) {
    Shaped(m) && Shaped(m') && forall i, j :: Index(i) && Index(j) ==> SameCell(vm, m, vm', m', i, j)
  }

  lemma OtherCell(vm: Vm, owner: Owner, vm': Vm, owner': Owner, id: int, other: int, m: PageMap, i: int, j: int)
    requires Extends(vm, owner, vm', owner', id) && other != id && Index(i) && Index(j)
    requires MapOk(vm, owner, other, m)
    ensures TopOk(vm', owner', other, m) && DirOk(vm', owner', other, m, i) && TableOk(vm', owner', other, m, i, j)
    ensures SameCell(vm, m, vm', m, i, j)
  {
    assert DirOk(vm, owner, other, m, i) && TableOk(vm, owner, other, m, i, j);
  }

  /** A change made for one address space neither breaks nor alters any other. */
  lemma OtherSpace(vm: Vm, owner: Owner, vm': Vm, owner': Owner, id: int, other: int, m: PageMap)
    requires Extends(vm, owner, vm', owner', id) && other != id && MapOk(vm, owner, other, m)
    ensures MapOk(vm', owner', other, m) && SameSpace(vm, m, vm', m)
  {
    OtherCell(vm, owner, vm', owner', id, other, m, 0, 0);
    forall i | Index(i) ensures DirOk(vm', owner', other, m, i) {
      OtherCell(vm, owner, vm', owner', id, other, m, i, 0);
    }
    forall i, j | Index(i) && Index(j) ensures TableOk(vm', owner', other, m, i, j) && SameCell(vm, m, vm', m, i, j) {
      OtherCell(vm, owner, vm', owner', id, other, m, i, j);
    }
  }

  // ---------------------------------------------------------------- page_mk_table

  /** A write through a kernel pointer. */
  function Store(vm: Vm, va: int, i: int, x: int): Vm
    requires va in vm.kmap && vm.kmap[va] in vm.mem && 0 <= i < |vm.mem[vm.kmap[va]]|
  {
    var f := vm.kmap[va];
    vm.(mem := vm.mem[f := vm.mem[f][i := x]])
  }

  /** memset or memcpy of a whole page through a kernel pointer. */
  function Fill(vm: Vm, va: int, page: seq<int>): Vm
    requires va in vm.kmap
  {
    vm.(mem := vm.mem[vm.kmap[va] := page])
  }

  function Zeros(): (p: seq<int>)
    ensures |p| == ENTRIES && forall k :: 0 <= k < ENTRIES ==> p[k] == 0
  {
    seq(ENTRIES, _ => 0)
  }

  /** Kernel page va and frame f are not in use. */
  ghost predicate Fresh(vm: Vm, owner: Owner, va: int, f: int) {
    FreshPage(vm, va) && FreshFrame(vm, owner, f)
  }

  ghost predicate FreshPage(vm: Vm, va: int) {
    va != 0 && va !in vm.kmap
  }

  ghost predicate FreshFrame(vm: Vm, owner: Owner, f: int) {
    GoodFrame(f) && f in vm.mem && GoodPage(vm.mem[f]) && f !in owner
  }

  function MkTableVm(vm: Vm, m: PageMap, i: int, j: int, va: int, f: int): Vm
    requires Shaped(m) && Index(i) && Index(j) && va != m.dirs[i] && m.dirs[i] in vm.kmap
    requires vm.kmap[m.dirs[i]] != f && vm.kmap[m.dirs[i]] in vm.mem && |vm.mem[vm.kmap[m.dirs[i]]]| == ENTRIES
  {
    var vm1 := Fill(vm.(kmap := vm.kmap[va := f]), va, Zeros());
    Store(vm1, m.dirs[i], j, OrUser(SetFrame(Peek(vm1, m.dirs[i], j), f)))
  }

  function WithTable(m: PageMap, i: int, j: int, va: int): PageMap
    requires Shaped(m) && Index(i) && Index(j)
  {
    m.(tables := m.tables[i := m.tables[i][j := va]])
  }

  /** The new table is zero and the directory entry points at it. */
  lemma MkTableMemory(vm: Vm, owner: Owner, id: int, m: PageMap, i: int, j: int, va: int, f: int)
    requires Shaped(m) && Index(i) && Index(j) && DirOk(vm, owner, id, m, i) && Fresh(vm, owner, va, f)
    ensures var vm' := MkTableVm(vm, m, i, j, va, f);
      var e, e' := EntryAt(vm.mem, m.dirsPhys[i], j), EntryAt(vm'.mem, m.dirsPhys[i], j);
      && f in vm'.mem && vm'.mem[f] == Zeros() && va in vm'.kmap && vm'.kmap[va] == f
      && m.dirs[i] in vm'.kmap && vm'.kmap[m.dirs[i]] == m.dirsPhys[i] && Peek(vm', m.dirs[i], j) == e'
      && e' >= 0 && Present(e') && Open(e') && Frame(e') == f && Large(e') == Large(e)
  {
    SetUser(vm.mem[m.dirsPhys[i]][j], f);
    FrameOfAligned(f);
  }

  lemma ZeroPage()
    ensures GoodPage(Zeros()) && PagesOk(Zeros())
  {
  }

  /** Nothing is mapped through a table of zeros. */
  lemma EmptyTable(vm: Vm, m: PageMap, i: int, j: int, k: int)
    requires Shaped(m) && Index(i) && Index(j) && Index(k)
    requires m.tables[i][j] in vm.kmap && vm.kmap[m.tables[i][j]] in vm.mem
    requires vm.mem[vm.kmap[m.tables[i][j]]] == Zeros()
    ensures Raw(vm, m, i, j, k) == 0
  {
  }

  lemma MkTableHere(vm: Vm, owner: Owner, id: int, m: PageMap, i: int, j: int, va: int, f: int)
    requires Shaped(m) && Index(i) && Index(j) && DirOk(vm, owner, id, m, i) && Fresh(vm, owner, va, f)
    ensures var vm' := MkTableVm(vm, m, i, j, va, f);
      var m' := WithTable(m, i, j, va);
      && Shaped(m') && TableOk(vm', owner[f := Table(id, i, j)], id, m', i, j)
      && vm'.mem[f] == Zeros() && EntryAt(vm'.mem, m.dirsPhys[i], j) >= 0
      && Large(EntryAt(vm'.mem, m.dirsPhys[i], j)) == Large(EntryAt(vm.mem, m.dirsPhys[i], j))
      && (forall k :: Index(k) ==> Raw(vm', m', i, j, k) == 0)
  {
    MkTableMemory(vm, owner, id, m, i, j, va, f);
    ZeroPage();
    assert WithTable(m, i, j, va).tables[i][j] == va;
    forall k | Index(k) ensures Raw(MkTableVm(vm, m, i, j, va, f), WithTable(m, i, j, va), i, j, k) == 0 {
      EmptyTable(MkTableVm(vm, m, i, j, va, f), WithTable(m, i, j, va), i, j, k);
    }
  }

  lemma MkTableExtends(vm: Vm, owner: Owner, id: int, m: PageMap, i: int, j: int, va: int, f: int)
    requires Shaped(m) && Index(i) && Index(j) && DirOk(vm, owner, id, m, i) && Fresh(vm, owner, va, f)
    ensures Extends(vm, owner, MkTableVm(vm, m, i, j, va, f), owner[f := Table(id, i, j)], id)
  {
  }

  /** The rest of the address space is as it was. */
  lemma MkTableDir(vm: Vm, owner: Owner, id: int, m: PageMap, i: int, j: int, va: int, f: int, i2: int)
    requires Shaped(m) && Index(i) && Index(j) && Index(i2) && Fresh(vm, owner, va, f)
    requires TopOk(vm, owner, id, m) && DirOk(vm, owner, id, m, i) && DirOk(vm, owner, id, m, i2)
    ensures var vm' := MkTableVm(vm, m, i, j, va, f);
      var m' := WithTable(m, i, j, va);
      && Shaped(m') && DirOk(vm', owner[f := Table(id, i, j)], id, m', i2)
      && TopOk(vm', owner[f := Table(id, i, j)], id, m')
  {
    SetUser(vm.mem[m.dirsPhys[i]][j], f);
  }

  lemma MkTableElsewhere(vm: Vm, owner: Owner, id: int, m: PageMap, i: int, j: int, va: int, f: int, i2: int, j2: int)
    requires Shaped(m) && Index(i) && Index(j) && Index(i2) && Index(j2) && (i, j) != (i2, j2)
    requires DirOk(vm, owner, id, m, i) && DirOk(vm, owner, id, m, i2) && TableOk(vm, owner, id, m, i2, j2)
    requires Fresh(vm, owner, va, f)
    ensures var vm' := MkTableVm(vm, m, i, j, va, f);
      var m' := WithTable(m, i, j, va);
      && Shaped(m') && TableOk(vm', owner[f := Table(id, i, j)], id, m', i2, j2)
      && CleanAt(vm', m', i2, j2) == CleanAt(vm, m, i2, j2)
      && (forall k :: Index(k) ==> Raw(vm', m', i2, j2, k) == Raw(vm, m, i2, j2, k))
  {
    assert WithTable(m, i, j, va).tables[i2][j2] == m.tables[i2][j2];
  }

  lemma MkTableCell(vm: Vm, owner: Owner, id: int, m: PageMap, i: int, j: int, va: int, f: int, a: int, b: int)
    requires MapOk(vm, owner, id, m) && Index(i) && Index(j) && m.tables[i][j] == 0 && Fresh(vm, owner, va, f)
    requires Index(a) && Index(b)
    ensures m.dirs[i] in vm.kmap && vm.kmap[m.dirs[i]] != f && vm.kmap[m.dirs[i]] in vm.mem
    ensures |vm.mem[vm.kmap[m.dirs[i]]]| == ENTRIES && va != m.dirs[i]
    ensures var vm' := MkTableVm(vm, m, i, j, va, f);
      var m' := WithTable(m, i, j, va);
      && Shaped(m') && TableOk(vm', owner[f := Table(id, i, j)], id, m', a, b)
      && DirOk(vm', owner[f := Table(id, i, j)], id, m', a) && TopOk(vm', owner[f := Table(id, i, j)], id, m')
      && SameCell(vm, m, vm', m', a, b)
  {
    assert DirOk(vm, owner, id, m, i) && TableOk(vm, owner, id, m, i, j);
    assert DirOk(vm, owner, id, m, a) && TableOk(vm, owner, id, m, a, b);
    MkTableDir(vm, owner, id, m, i, j, va, f, a);
    if a == i && b == j {
      MkTableHere(vm, owner, id, m, i, j, va, f);
    } else {
      MkTableElsewhere(vm, owner, id, m, i, j, va, f, a, b);
    }
  }

  /** page_mk_table on a well-formed address space with no table at (i, j): it stays well-formed and
      clean, and translates every address as before. */
  lemma MkTableKeeps(vm: Vm, owner: Owner, id: int, m: PageMap, i: int, j: int, va: int, f: int)
    requires MapOk(vm, owner, id, m) && Index(i) && Index(j) && m.tables[i][j] == 0 && Fresh(vm, owner, va, f)
    ensures m.dirs[i] in vm.kmap && vm.kmap[m.dirs[i]] != f && vm.kmap[m.dirs[i]] in vm.mem
    ensures |vm.mem[vm.kmap[m.dirs[i]]]| == ENTRIES && va != m.dirs[i]
    ensures var vm' := MkTableVm(vm, m, i, j, va, f);
      var m' := WithTable(m, i, j, va);
      && MapOk(vm', owner[f := Table(id, i, j)], id, m')
      && SameSpace(vm, m, vm', m')
  {
    MkTableCell(vm, owner, id, m, i, j, va, f, i, j);
    var vm', m' := MkTableVm(vm, m, i, j, va, f), WithTable(m, i, j, va);
    forall a | Index(a) ensures DirOk(vm', owner[f := Table(id, i, j)], id, m', a) {
      MkTableCell(vm, owner, id, m, i, j, va, f, a, j);
    }
    forall a, b | Index(a) && Index(b)
      ensures TableOk(vm', owner[f := Table(id, i, j)], id, m', a, b) && SameCell(vm, m, vm', m', a, b)
    {
      MkTableCell(vm, owner, id, m, i, j, va, f, a, b);
    }
  }

  // ---------------------------------------------------------------- one page of page_map_memory

  function SetPageVm(vm: Vm, m: PageMap, i: int, j: int, k: int, p: int): Vm
    requires Shaped(m) && Index(i) && Index(j) && Index(k) && m.tables[i][j] in vm.kmap
    requires vm.kmap[m.tables[i][j]] in vm.mem && |vm.mem[vm.kmap[m.tables[i][j]]]| == ENTRIES
  {
    Store(vm, m.tables[i][j], k, OrUser(SetFrame(Peek(vm, m.tables[i][j], k), p)))
  }

  /** The entry leads to p with all rights. */
  predicate Leads(e: int, p: int) { Present(e) && Frame(e) == Frame(p) && Open(e) }

  /** Directory entry (a, b) is as before, except that page k of (i, j) now leads to p. */
  ghost predicate OnePage(vm: Vm, vm': Vm, m: PageMap, i: int, j: int, k: int, p: int, a: int, b: int)
    requires Shaped(m) && Index(a) && Index(b)
  {
    && CleanAt(vm', m, a, b) == CleanAt(vm, m, a, b)
    && forall c :: Index(c) ==>
         if a == i && b == j && c == k then Leads(Raw(vm', m, a, b, c), p)
         else Raw(vm', m, a, b, c) == Raw(vm, m, a, b, c)
  }

  lemma SetPageCell(vm: Vm, owner: Owner, id: int, m: PageMap, i: int, j: int, k: int, p: int, a: int, b: int)
    requires MapOk(vm, owner, id, m) && Index(i) && Index(j) && Index(k) && p >= 0 && m.tables[i][j] != 0
    requires Index(a) && Index(b)
    ensures m.tables[i][j] in vm.kmap && vm.kmap[m.tables[i][j]] in vm.mem
    ensures |vm.mem[vm.kmap[m.tables[i][j]]]| == ENTRIES
    ensures var vm' := SetPageVm(vm, m, i, j, k, p);
      && TopOk(vm', owner, id, m) && DirOk(vm', owner, id, m, a) && TableOk(vm', owner, id, m, a, b)
      && OnePage(vm, vm', m, i, j, k, p, a, b) && Extends(vm, owner, vm', owner, id)
  {
    assert DirOk(vm, owner, id, m, i) && TableOk(vm, owner, id, m, i, j);
    assert DirOk(vm, owner, id, m, a) && TableOk(vm, owner, id, m, a, b);
    SetUser(vm.mem[vm.kmap[m.tables[i][j]]][k], p);
  }

  /** A page entry written into an existing table: exactly that translation changes. */
  lemma SetPageKeeps(vm: Vm, owner: Owner, id: int, m: PageMap, i: int, j: int, k: int, p: int)
    requires MapOk(vm, owner, id, m) && Index(i) && Index(j) && Index(k) && p >= 0 && m.tables[i][j] != 0
    ensures m.tables[i][j] in vm.kmap && vm.kmap[m.tables[i][j]] in vm.mem
    ensures |vm.mem[vm.kmap[m.tables[i][j]]]| == ENTRIES
    ensures var vm' := SetPageVm(vm, m, i, j, k, p);
      && MapOk(vm', owner, id, m) && Extends(vm, owner, vm', owner, id)
      && (forall a, b :: Index(a) && Index(b) ==> OnePage(vm, vm', m, i, j, k, p, a, b))
  {
    SetPageCell(vm, owner, id, m, i, j, k, p, i, j);
    var vm' := SetPageVm(vm, m, i, j, k, p);
    forall a | Index(a) ensures DirOk(vm', owner, id, m, a) {
      SetPageCell(vm, owner, id, m, i, j, k, p, a, j);
    }
    forall a, b | Index(a) && Index(b)
      ensures TableOk(vm', owner, id, m, a, b) && OnePage(vm, vm', m, i, j, k, p, a, b)
    {
      SetPageCell(vm, owner, id, m, i, j, k, p, a, b);
    }
  }
}
