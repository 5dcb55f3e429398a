/** Runs of page_mk_map, page_clone_map and page_map_memory over any number of address spaces. */
module SpaceRuns {
  import opened PageEntries
  import opened PageMaps
  import opened AddressSpaces

  datatype Op =
    | Create
    | Clone(src: nat)
    | Map(id: nat, virt: int, phys: int, cnt: int)

  /** Pages and frames one operation may take from the allocators. */
  function Cost(op: Op): nat {
    match op
    case Create => TOP + ENTRIES
    case Clone(_) => TOP + ENTRIES * (1 + ENTRIES)
    case Map(_, _, _, cnt) => if cnt < 0 then 0 else cnt
  }

  function Costs(ops: seq<Op>): nat {
    if ops == [] then 0 else Cost(ops[0]) + Costs(ops[1..])
  }

  /** The operation names existing address spaces and sensible numbers. */
  predicate Sensible(op: Op, maps: nat) {
    match op
    case Create => true
    case Clone(src) => src < maps
    case Map(id, virt, phys, cnt) => id < maps && virt >= 0 && phys >= 0 && cnt >= 0
  }

  /** The CPU and page_getphys agree on every user address. */
  ghost predicate Coherent(vm: Vm, m: PageMap) {
    Shaped(m) && forall v :: 0 <= v < PDP_SIZE ==> Agrees(vm, m, v)
  }

  lemma CleanIsCoherent(vm: Vm, owner: Owner, id: int, m: PageMap)
    requires MapOk(vm, owner, id, m)
    ensures Clean(vm, m) ==> Coherent(vm, m)
  {
    if Clean(vm, m) {
      forall v | 0 <= v < PDP_SIZE ensures Agrees(vm, m, v) {
        WalkAgrees(vm, owner, id, m, v);
      }
    }
  }

  /** The first address that directory entry (i, j) serves. */
  lemma CellAddress(i: int, j: int)
    requires Index(i) && Index(j)
    ensures var v := (i * ENTRIES + j) * PAGE_SIZE_2M; 0 <= v < PDP_SIZE && PdpIdx(v) == i && PdIdx(v) == j
  {
    var v := (i * ENTRIES + j) * PAGE_SIZE_2M;
    assert v / PAGE_SIZE_2M == i * ENTRIES + j && v / PAGE_SIZE_1G == i;
  }

  lemma CoherentIsClean(vm: Vm, owner: Owner, id: int, m: PageMap)
    requires MapOk(vm, owner, id, m) && Coherent(vm, m)
    ensures Clean(vm, m)
  {
    forall i, j | Index(i) && Index(j) ensures CleanAt(vm, m, i, j) {
      CellAddress(i, j);
      WalkAgrees(vm, owner, id, m, (i * ENTRIES + j) * PAGE_SIZE_2M);
    }
  }

  /** A clone is coherent exactly when no directory word it left uncleared, where the source has a
      table, carried the large-page bit. */
  lemma CloneCoherent(vm: Vm, owner: Owner, id: int, m: PageMap, vm0: Vm, src: PageMap)
    requires MapOk(vm, owner, id, m) && Shaped(src)
    requires forall i, j :: Index(i) && Index(j) ==> Copied(vm, m, vm0, src, i, j)
    ensures Coherent(vm, m) <==>
      forall i, j :: Index(i) && Index(j) && src.tables[i][j] != 0 ==> !Large(EntryAt(vm0.mem, m.dirsPhys[i], j))
  {
    if forall i, j :: Index(i) && Index(j) && src.tables[i][j] != 0 ==> !Large(EntryAt(vm0.mem, m.dirsPhys[i], j)) {
      forall i, j | Index(i) && Index(j) ensures CleanAt(vm, m, i, j) {
        assert Copied(vm, m, vm0, src, i, j);
      }
      CleanIsCoherent(vm, owner, id, m);
    }
    if Coherent(vm, m) {
      CoherentIsClean(vm, owner, id, m);
      forall i, j | Index(i) && Index(j) && src.tables[i][j] != 0 ensures !Large(EntryAt(vm0.mem, m.dirsPhys[i], j)) {
        assert Copied(vm, m, vm0, src, i, j) && CleanAt(vm, m, i, j);
      }
    }
  }

  /** Whether one address space is clean after a step that left it alone or mapped pages of it. */
  ghost predicate StaysClean(vm: Vm, m: PageMap, vm': Vm, m': PageMap) {
    Shaped(m) && Shaped(m') && (Clean(vm, m) ==> Clean(vm', m'))
  }

  lemma SameStaysClean(vm: Vm, m: PageMap, vm': Vm, m': PageMap)
    requires SameSpace(vm, m, vm', m')
    ensures StaysClean(vm, m, vm', m')
  {
    if Clean(vm, m) {
      forall i, j | Index(i) && Index(j) ensures CleanAt(vm', m', i, j) {
        assert SameCell(vm, m, vm', m', i, j) && CleanAt(vm, m, i, j);
      }
    }
  }

  lemma OthersStayClean(vm: Vm, maps: seq<PageMap>, vm': Vm, maps': seq<PageMap>, id: int)
    requires OthersSame(vm, maps, vm', maps', id)
    ensures forall o :: 0 <= o < |maps| && o != id ==> StaysClean(vm, maps[o], vm', maps'[o])
  {
    forall o | 0 <= o < |maps| && o != id ensures StaysClean(vm, maps[o], vm', maps'[o]) {
      SameStaysClean(vm, maps[o], vm', maps'[o]);
    }
  }

  /** One operation, in any order with others: address spaces it does not name are untouched. */
  method Perform(p: Paging, op: Op)
    requires p.Valid() && Sensible(op, |p.maps|) && |p.spare| >= Cost(op)
    modifies p
    ensures p.Valid() && |p.spare| >= |old(p.spare)| - Cost(op)
    ensures |p.maps| == |old(p.maps)| + if op.Map? then 0 else 1
    ensures AllStayClean(old(p.vm), old(p.maps), p.vm, p.maps)
    ensures op.Create? ==> Clean(p.vm, p.maps[|old(p.maps)|])
    ensures OthersSame(old(p.vm), old(p.maps), p.vm, p.maps, if op.Map? then op.id else |old(p.maps)|)
  {
    ghost var vm0, maps0 := p.vm, p.maps;
    match op {
      case Create =>
        var id := p.MkMap();
        OthersStayClean(vm0, maps0, p.vm, p.maps, id);
      case Clone(src) =>
        CountGrows(p.maps[src], 0, ENTRIES * ENTRIES);
        var id := p.CloneMap(src);
        OthersStayClean(vm0, maps0, p.vm, p.maps, id);
      case Map(id, virt, phys, cnt) =>
        p.MapMemory(id, virt, phys, cnt);
        OthersStayClean(vm0, maps0, p.vm, p.maps, id);
    }
  }

  /** The operations from ops[k..] on are sensible when they come up. */
  ghost predicate SensibleRun(ops: seq<Op>, maps: nat)
    decreases |ops|
  {
    ops == [] || (Sensible(ops[0], maps) && SensibleRun(ops[1..], maps + if ops[0].Map? then 0 else 1))
  }

  /** No clone in the run: every address space it made is clean. */
  ghost predicate MadeClean(maps: nat, vm': Vm, maps': seq<PageMap>, ops: seq<Op>) {
    NoClone(ops) ==> forall id :: maps <= id < |maps'| ==> WellMade(vm', maps'[id])
  }

  ghost predicate WellMade(vm: Vm, m: PageMap) {
    Shaped(m) && Clean(vm, m)
  }

  predicate NoClone(ops: seq<Op>) {
    ops == [] || (!ops[0].Clone? && NoClone(ops[1..]))
  }

  /** Some mapping of the run is for address space id. */
  predicate Names(ops: seq<Op>, id: int) {
    ops != [] && ((ops[0].Map? && ops[0].id == id) || Names(ops[1..], id))
  }

  /** Address spaces no mapping of the run names translate as before. */
  ghost predicate Spared(vm: Vm, maps: seq<PageMap>, vm': Vm, maps': seq<PageMap>, ops: seq<Op>) {
    && |maps| <= |maps'|
    && forall id :: 0 <= id < |maps| && !Names(ops, id) ==> SameSpace(vm, maps[id], vm', maps'[id])
  }

  ghost predicate AllStayClean(vm: Vm, maps: seq<PageMap>, vm': Vm, maps': seq<PageMap>) {
    |maps| <= |maps'| && forall id :: 0 <= id < |maps| ==> StaysClean(vm, maps[id], vm', maps'[id])
  }

  lemma StayCleanTrans(vm0: Vm, maps0: seq<PageMap>, vm1: Vm, maps1: seq<PageMap>, vm2: Vm, maps2: seq<PageMap>)
    requires AllStayClean(vm0, maps0, vm1, maps1) && AllStayClean(vm1, maps1, vm2, maps2)
    ensures AllStayClean(vm0, maps0, vm2, maps2)
  {
    forall id | 0 <= id < |maps0| ensures StaysClean(vm0, maps0[id], vm2, maps2[id]) {
      assert StaysClean(vm0, maps0[id], vm1, maps1[id]) && StaysClean(vm1, maps1[id], vm2, maps2[id]);
    }
  }

  lemma MadeCleanCons(maps0: nat, vm1: Vm, maps1: seq<PageMap>, vm2: Vm, maps2: seq<PageMap>, ops: seq<Op>)
    requires ops != [] && |maps1| == maps0 + (if ops[0].Map? then 0 else 1)
    requires ops[0].Create? ==> WellMade(vm1, maps1[maps0])
    requires AllStayClean(vm1, maps1, vm2, maps2) && MadeClean(|maps1|, vm2, maps2, ops[1..])
    ensures MadeClean(maps0, vm2, maps2, ops)
  {
    if NoClone(ops) {
      forall id | maps0 <= id < |maps2| ensures WellMade(vm2, maps2[id]) {
        if id < |maps1| {
          assert StaysClean(vm1, maps1[id], vm2, maps2[id]);
        }
      }
    }
  }

  lemma SparedCons(vm0: Vm, maps0: seq<PageMap>, vm1: Vm, maps1: seq<PageMap>, vm2: Vm, maps2: seq<PageMap>,
                   ops: seq<Op>)
    requires ops != [] && Spared(vm1, maps1, vm2, maps2, ops[1..])
    requires OthersSame(vm0, maps0, vm1, maps1, if ops[0].Map? then ops[0].id else |maps0|)
    ensures Spared(vm0, maps0, vm2, maps2, ops)
  {
    forall id | 0 <= id < |maps0| && !Names(ops, id) ensures SameSpace(vm0, maps0[id], vm2, maps2[id]) {
      SpaceTrans(vm0, maps0[id], vm1, maps1[id], vm2, maps2[id]);
    }
  }

  /** The top level holds the kernel's entries, so above 512 GiB the CPU goes as from any copy of kpml4. */
  ghost predicate SeesKernel(vm: Vm, kpml4: seq<int>, m: PageMap) {
    && m.pml4Phys in vm.mem && KernelIn(vm.mem[m.pml4Phys], kpml4)
    && forall root, v :: Frame(root) in vm.mem && vm.mem[Frame(root)] == kpml4 && Pml4Idx(v) != 0 ==>
         Walk(vm.mem, m.pml4Phys, v) == Walk(vm.mem, root, v)
  }

  lemma AllSeeKernel(vm: Vm, owner: Owner, maps: seq<PageMap>)
    requires AllOk(vm, owner, maps)
    ensures forall id :: 0 <= id < |maps| ==> SeesKernel(vm, vm.kpml4, maps[id])
  {
    forall id | 0 <= id < |maps| ensures SeesKernel(vm, vm.kpml4, maps[id]) {
      forall root, v | Frame(root) in vm.mem && vm.mem[Frame(root)] == vm.kpml4 && Pml4Idx(v) != 0
        ensures Walk(vm.mem, maps[id].pml4Phys, v) == Walk(vm.mem, root, v)
      {
        KernelSeen(vm, owner, id, maps[id], root, v);
      }
    }
  }

  /** Any run of the three calls. Clean address spaces stay clean, all those made by page_mk_map are,
      whatever no page_map_memory of the run names translates as at the start, and all see the kernel. */
  method AnyRun(p: Paging, ops: seq<Op>)
    requires p.Valid() && SensibleRun(ops, |p.maps|) && |p.spare| >= Costs(ops)
    modifies p
    ensures p.Valid() && AllStayClean(old(p.vm), old(p.maps), p.vm, p.maps)
    ensures MadeClean(|old(p.maps)|, p.vm, p.maps, ops)
    ensures Spared(old(p.vm), old(p.maps), p.vm, p.maps, ops)
    ensures p.vm.kpml4 == old(p.vm).kpml4
    ensures forall id :: 0 <= id < |p.maps| ==> SeesKernel(p.vm, old(p.vm).kpml4, p.maps[id])
    decreases |ops|
  {
    if ops == [] {
      SpaceRefl(p.vm, p.maps);
      AllSeeKernel(p.vm, p.owner, p.maps);
      return;
    }
    ghost var vm0, maps0 := p.vm, p.maps;
    Perform(p, ops[0]);
    ghost var vm1, maps1 := p.vm, p.maps;
    AnyRun(p, ops[1..]);
    StayCleanTrans(vm0, maps0, vm1, maps1, p.vm, p.maps);
    MadeCleanCons(|maps0|, vm1, maps1, p.vm, p.maps, ops);
    SparedCons(vm0, maps0, vm1, maps1, p.vm, p.maps, ops);
  }

  /** Over any run of page_mk_map and page_map_memory from the start, the shadow structure agrees
      with the hardware walk at every user address of every address space. */
  method CoherentRun(p: Paging, ops: seq<Op>)
    requires p.Valid() && p.maps == [] && SensibleRun(ops, 0) && |p.spare| >= Costs(ops)
    requires NoClone(ops)
    modifies p
    ensures p.Valid() && forall id :: 0 <= id < |p.maps| ==> Coherent(p.vm, p.maps[id])
  {
    AnyRun(p, ops);
    forall id | 0 <= id < |p.maps| ensures Coherent(p.vm, p.maps[id]) {
      CleanIsCoherent(p.vm, p.owner, id, p.maps[id]);
    }
  }
}
