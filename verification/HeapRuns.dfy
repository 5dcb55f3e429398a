/** Any number of flows of control in kmalloc and kfree at once, on processors of their own or as
    threads of one, since the heap lock masks no interrupts. The lock makes each search, each expansion
    and each release one atomic step; everything between the steps may interleave. */
module HeapRuns {
  import opened Options
  import opened HeapBlocks
  import opened Runs

  /** Where one flow of control, a CPU for short, stands between its lock-protected sections. */
  datatype Cpu =
    | Idle
    | Searching(n: int)  // about to take the lock for the search
    | Growing(n: int)    // the search failed, about to call kheap_expand
    | Clearing(b: Block, n: int)  // a block was found, about to clear its n bytes and return it

  datatype State = State(blocks: Blocks, cpus: seq<Cpu>, held: set<Block>)

  datatype Step =
    | Request(cpu: nat, n: int)  // kmalloc entered; n is the rounded size
    | Search(cpu: nat)
    | Grow(cpu: nat)
    | Clear(cpu: nat)            // the memset, outside the lock
    | Free(cpu: nat, b: Block)

  /** kmalloc has returned this block to its caller. */
  predicate Returned(cpus: seq<Cpu>, b: Block) {
    forall c :: 0 <= c < |cpus| ==> !(cpus[c].Clearing? && cpus[c].b == b)
  }

  /** The block a search that found block i hands out. */
  function Found(s: Blocks, i: nat, n: int): Block
    requires i < |s|
  {
    Block(s[i].addr, Granted(s, i, n), false)
  }

  ghost predicate Enabled(s: State, step: Step) {
    && |s.blocks| > 0 && step.cpu < |s.cpus|
    && match step
       case Request(c, n) => s.cpus[c].Idle? && n >= 0 && n % ALIGN == 0
       case Search(c) => s.cpus[c].Searching?
       case Grow(c) => s.cpus[c].Growing?
       case Clear(c) => s.cpus[c].Clearing?
       case Free(c, b) => s.cpus[c].Idle? && b in s.held && b in s.blocks && Returned(s.cpus, b)
  }

  ghost function IndexOf(s: Blocks, b: Block): (i: nat)
    requires b in s
    ensures i < |s| && s[i] == b
  {
    var i: nat :| i < |s| && s[i] == b; i
  }

  ghost function Next(s: State, step: Step): State
    requires Enabled(s, step)
  {
    match step
    case Request(c, n) => s.(cpus := s.cpus[c := Searching(n)])
    case Search(c) =>
      var n := s.cpus[c].n;
      var f := FirstFit(s.blocks, n, 0);
      if f.None? then s.(cpus := s.cpus[c := Growing(n)])
      else
        var b := Found(s.blocks, f.value, n);
        State(Take(s.blocks, f.value, n), s.cpus[c := Clearing(b, n)], s.held + {b})
    case Grow(c) =>
      var n := s.cpus[c].n;
      s.(blocks := Expand(s.blocks, n), cpus := s.cpus[c := Searching(n)])
    case Clear(c) => s.(cpus := s.cpus[c := Idle])
    case Free(c, b) =>
      s.(blocks := Release(s.blocks, IndexOf(s.blocks, b)), held := s.held - {b})
  }

  /** The block list is tiled, aligned and fully coalesced; what is handed out is what is live. */
  ghost predicate Sound(s: Blocks, held: set<Block>) {
    WellFormed(s) && Coalesced(s) && held == Live(s) && Apart(held)
  }

  predicate GoodCpu(c: Cpu, held: set<Block>) {
    match c
    case Idle => true
    case Searching(n) => n >= 0 && n % ALIGN == 0
    case Growing(n) => n >= 0 && n % ALIGN == 0
    case Clearing(b, n) => b in held && 0 <= n <= b.len
  }

  ghost predicate Safe(s: State) {
    Sound(s.blocks, s.held) && forall c :: 0 <= c < |s.cpus| ==> GoodCpu(s.cpus[c], s.held)
  }

  /** kheap_init with every CPU idle. */
  ghost function Boot(addr: int, cpus: nat): State {
    State([Block(addr, 0, true)], seq(cpus, _ => Idle), {})
  }

  lemma BootSafe(addr: int, cpus: nat)
    requires addr > 0 && addr % ALIGN == 0
    ensures Safe(Boot(addr, cpus))
  {
  }

  lemma TakeSound(s: Blocks, held: set<Block>, i: nat, n: int)
    requires Sound(s, held) && i < |s| && Fits(s[i], n) && n >= 0 && n % ALIGN == 0
    ensures Sound(Take(s, i, n), held + {Found(s, i, n)})
  {
    TakeKeeps(s, i, n);
    TakeCoalesced(s, i, n);
    TakeLive(s, i, n);
    LiveApart(Take(s, i, n));
  }

  lemma ExpandSound(s: Blocks, held: set<Block>, n: int)
    requires Sound(s, held) && n >= 0 && n % ALIGN == 0
    ensures Sound(Expand(s, n), held)
  {
    ExpandKeeps(s, n);
    ExpandCoalesced(s, n);
    ExpandLive(s, n);
  }

  lemma ReleaseSound(s: Blocks, held: set<Block>, i: nat)
    requires Sound(s, held) && i < |s| && !s[i].free
    ensures Sound(Release(s, i), held - {s[i]})
  {
    ReleaseKeeps(s, i);
    ReleaseCoalesced(s, i);
    ReleaseLive(s, i);
  }

  lemma SearchSafe(s: State, c: nat)
    requires Safe(s) && Enabled(s, Search(c))
    ensures Safe(Next(s, Search(c)))
  {
    assert GoodCpu(s.cpus[c], s.held);
    var f := FirstFit(s.blocks, s.cpus[c].n, 0);
    if f.Some? {
      TakeSound(s.blocks, s.held, f.value, s.cpus[c].n);
    }
  }

  lemma GrowSafe(s: State, c: nat)
    requires Safe(s) && Enabled(s, Grow(c))
    ensures Safe(Next(s, Grow(c)))
  {
    assert GoodCpu(s.cpus[c], s.held);
    ExpandSound(s.blocks, s.held, s.cpus[c].n);
  }

  lemma FreeSafe(s: State, c: nat, b: Block)
    requires Safe(s) && Enabled(s, Free(c, b))
    ensures Safe(Next(s, Free(c, b)))
  {
    LiveUsed(s.blocks, b);
    ReleaseSound(s.blocks, s.held, IndexOf(s.blocks, b));
    GoodWithout(s.cpus, s.held, b);
  }

  lemma LiveUsed(s: Blocks, b: Block)
    requires b in Live(s)
    ensures !b.free
  {
  }

  lemma GoodWithout(cpus: seq<Cpu>, held: set<Block>, b: Block)
    requires Returned(cpus, b) && forall c :: 0 <= c < |cpus| ==> GoodCpu(cpus[c], held)
    ensures forall c :: 0 <= c < |cpus| ==> GoodCpu(cpus[c], held - {b})
  {
  }

  lemma StepSafe(s: State, step: Step)
    requires Safe(s) && Enabled(s, step)
    ensures Safe(Next(s, step))
  {
    match step {
      case Request(c, n) =>
      case Search(c) => SearchSafe(s, c);
      case Grow(c) => GrowSafe(s, c);
      case Clear(c) =>
      case Free(c, b) => FreeSafe(s, c, b);
    }
  }

  ghost predicate Move(s: State, step: Step, t: State) {
    Enabled(s, step) && t == Next(s, step)
  }

  lemma MovesKeepSafe()
    ensures Keeps(Move, Safe)
  {
    forall s, step, t | Safe(s) && Move(s, step, t) ensures Safe(t) {
      StepSafe(s, step);
    }
  }

  /** Every interleaving from kheap_init keeps the heap tiled, aligned, fully coalesced, and its
      live blocks apart and exactly those handed out and not yet freed. */
  lemma EveryRunSafe(addr: int, cpus: nat, steps: seq<Step>, t: State)
    requires addr > 0 && addr % ALIGN == 0 && Run(Move, Boot(addr, cpus), steps, t)
    ensures Sound(t.blocks, t.held)
  {
    BootSafe(addr, cpus);
    StaySafe(Boot(addr, cpus), steps, t);
  }

  lemma StaySafe(s: State, steps: seq<Step>, t: State)
    requires Safe(s) && Run(Move, s, steps, t)
    ensures Safe(t)
  {
    MovesKeepSafe();
    RunKeeps(Move, Safe, s, steps, t);
  }

  /** A block stays where it is, with its length, as long as nobody frees it, and once it is returned
      whoever is idle can. */
  lemma {:induction false} HeldUntilFreed(s: State, steps: seq<Step>, t: State, b: Block)
    requires Safe(s) && Run(Move, s, steps, t) && b in s.held
    requires forall step :: step in steps && step.Free? ==> step.b != b
    ensures b in t.held && b in t.blocks
    ensures forall c: nat :: c < |t.cpus| && t.cpus[c].Idle? && Returned(t.cpus, b) ==> Enabled(t, Free(c, b))
    decreases |steps|
  {
    if steps != [] {
      var u :| Move(s, steps[0], u) && Run(Move, u, steps[1..], t);
      StepSafe(s, steps[0]);
      HeldAfterStep(s, steps[0], b);
      HeldUntilFreed(u, steps[1..], t, b);
    }
  }

  lemma HeldAfterStep(s: State, step: Step, b: Block)
    requires Safe(s) && Enabled(s, step) && b in s.held && (step.Free? ==> step.b != b)
    ensures b in Next(s, step).held
  {
  }

  lemma SomeUsed(s: Blocks)
    requires Coalesced(s)
    ensures |s| > 1 ==> !s[0].free || !s[1].free
  {
  }

  /** When every block handed out has been freed, the heap is one free block again. */
  lemma AllFreedMeansWhole(s: Blocks)
    requires Sound(s, {})
    ensures s == [Block(s[0].addr, End(s) - s[0].addr - HEADER, true)]
  {
    forall k | 0 <= k < |s| ensures s[k].free {
      assert s[k] in Live(s) <==> !s[k].free;
    }
    SomeUsed(s);
  }

  // ---------------------------------------------------------------- starvation

  /** CPU c has to expand, nothing fits, the tail is in use, and CPU d is idle. */
  ghost predicate Starved(s: State, c: nat, d: nat, n: int) {
    && Safe(s) && c < |s.cpus| && d < |s.cpus| && d != c
    && s.cpus[c] == Growing(n) && s.cpus[d].Idle?
    && FirstFit(s.blocks, n, 0).None? && !s.blocks[|s.blocks| - 1].free
  }

  ghost function LostSteps(c: nat, d: nat, n: int): seq<Step> {
    [Grow(c), Request(d, n), Search(d), Clear(d), Search(c)]
  }

  lemma LostGrow(s: Blocks, n: int)
    requires WellFormed(s) && FirstFit(s, n, 0).None? && !s[|s| - 1].free
    ensures Expand(s, n) == s + [Block(End(s), n, true)]
    ensures FirstFit(Expand(s, n), n, 0) == Some(|s|)
    ensures Take(Expand(s, n), |s|, n) == s + [Block(End(s), n, false)]
    ensures FirstFit(s + [Block(End(s), n, false)], n, 0).None?
  {
    var t := s + [Block(End(s), n, true)];
    var u := s + [Block(End(s), n, false)];
    assert forall k :: 0 <= k < |s| ==> t[k] == s[k] && u[k] == s[k] && !Fits(s[k], n);
    assert Fits(t[|s|], n) && !Fits(u[|s|], n);
  }

  /** One lost round: c grows the heap, d takes the new block, c's search fails again. */
  lemma LostRound(s: State, c: nat, d: nat, n: int) returns (t: State)
    requires Starved(s, c, d, n)
    ensures Run(Move, s, LostSteps(c, d, n), t) && Starved(t, c, d, n)
  {
    LostGrow(s.blocks, n);
    var b := Block(End(s.blocks), n, false);
    var s1 := State(s.blocks + [b.(free := true)], s.cpus[c := Searching(n)], s.held);
    var s2 := s1.(cpus := s1.cpus[d := Searching(n)]);
    var s3 := State(s.blocks + [b], s2.cpus[d := Clearing(b, n)], s.held + {b});
    var s4 := s3.(cpus := s3.cpus[d := Idle]);
    t := s4.(cpus := s4.cpus[c := Growing(n)]);
    assert GoodCpu(s.cpus[c], s.held);
    assert Move(s, Grow(c), s1) && Move(s1, Request(d, n), s2);
    LostSearch(s2, d, n, b, s3);
    assert Move(s3, Clear(d), s4) && Move(s4, Search(c), t);
    RunFive(s, Grow(c), s1, Request(d, n), s2, Search(d), s3, Clear(d), s4, Search(c), t);
    StaySafe(s, LostSteps(c, d, n), t);
  }

  /** The search of the other CPU takes the block at the end. */
  lemma LostSearch(s: State, d: nat, n: int, b: Block, t: State)
    requires d < |s.cpus| && s.cpus[d] == Searching(n) && |s.blocks| > 0
    requires b == Block(s.blocks[|s.blocks| - 1].addr, n, false)
    requires s.blocks[|s.blocks| - 1].len == n
    requires FirstFit(s.blocks, n, 0) == Some(|s.blocks| - 1)
    requires t == State(Take(s.blocks, |s.blocks| - 1, n), s.cpus[d := Clearing(b, n)], s.held + {b})
    ensures Move(s, Search(d), t)
  {
  }

  lemma RunFive(s: State, a: Step, s1: State, b: Step, s2: State, c: Step, s3: State, d: Step, s4: State, e: Step,
                t: State)
    requires Move(s, a, s1) && Move(s1, b, s2) && Move(s2, c, s3) && Move(s3, d, s4) && Move(s4, e, t)
    ensures Run(Move, s, [a, b, c, d, e], t)
  {
    RunOne(Move, s, a, s1);
    RunSnoc(Move, s, [a], s1, b, s2);
    RunSnoc(Move, s, [a] + [b], s2, c, s3);
    RunSnoc(Move, s, [a] + [b] + [c], s3, d, s4);
    RunSnoc(Move, s, [a] + [b] + [c] + [d], s4, e, t);
    assert [a] + [b] + [c] + [d] + [e] == [a, b, c, d, e];
  }

  ghost function Grows(steps: seq<Step>, c: nat): nat {
    if steps == [] then 0 else (if steps[0] == Grow(c) then 1 else 0) + Grows(steps[1..], c)
  }

  lemma {:induction false} GrowsConcat(xs: seq<Step>, ys: seq<Step>, c: nat)
    ensures Grows(xs + ys, c) == Grows(xs, c) + Grows(ys, c)
  {
    if xs == [] {
      assert xs + ys == ys;
    } else {
      GrowsConcat(xs[1..], ys, c);
      assert (xs + ys)[1..] == xs[1..] + ys;
    }
  }

  predicate NoRequest(steps: seq<Step>, c: nat) {
    forall k :: 0 <= k < |steps| ==> !(steps[k].Request? && steps[k].cpu == c)
  }

  /** From a starved state c expands the heap any number of times without being served. */
  lemma {:induction false} Unbounded(s: State, c: nat, d: nat, n: int, k: nat) returns (steps: seq<Step>, t: State)
    requires Starved(s, c, d, n)
    ensures Run(Move, s, steps, t) && Starved(t, c, d, n) && Grows(steps, c) == k && NoRequest(steps, c)
  {
    if k == 0 {
      steps, t := [], s;
    } else {
      var rest, u := Unbounded(s, c, d, n, k - 1);
      t := LostRound(u, c, d, n);
      RunConcat(Move, s, rest, u, LostSteps(c, d, n), t);
      GrowsConcat(rest, LostSteps(c, d, n), c);
      GrowsLost(c, d, n);
      NoRequestConcat(rest, LostSteps(c, d, n), c);
      steps := rest + LostSteps(c, d, n);
    }
  }

  lemma NoRequestConcat(xs: seq<Step>, ys: seq<Step>, c: nat)
    requires NoRequest(xs, c) && NoRequest(ys, c)
    ensures NoRequest(xs + ys, c)
  {
  }

  lemma GrowsLost(c: nat, d: nat, n: int)
    requires c != d
    ensures Grows(LostSteps(c, d, n), c) == 1
  {
    var l := LostSteps(c, d, n);
    assert l == [l[0]] + [l[1]] + [l[2]] + [l[3]] + [l[4]];
    GrowsConcat([l[0]] + [l[1]] + [l[2]] + [l[3]], [l[4]], c);
    GrowsConcat([l[0]] + [l[1]] + [l[2]], [l[3]], c);
    GrowsConcat([l[0]] + [l[1]], [l[2]], c);
    GrowsConcat([l[0]], [l[1]], c);
  }

  // ---------------------------------------------------------------- how often a request expands

  /** The expansions CPU c has made for the request it entered last. */
  function Since(steps: seq<Step>, c: nat): nat {
    if steps == [] then 0
    else
      var last, front := steps[|steps| - 1], steps[..|steps| - 1];
      if last.cpu == c && last.Request? then 0
      else Since(front, c) + if last == Grow(c) then 1 else 0
  }

  lemma {:induction false} SinceConcat(xs: seq<Step>, ys: seq<Step>, c: nat)
    requires NoRequest(ys, c)
    ensures Since(xs + ys, c) == Since(xs, c) + Grows(ys, c)
    decreases |ys|
  {
    if ys == [] {
      assert xs + ys == xs;
    } else {
      var n := |ys| - 1;
      SinceConcat(xs, ys[..n], c);
      GrowsConcat(ys[..n], [ys[n]], c);
      assert ys[..n] + [ys[n]] == ys;
      assert (xs + ys)[..|xs + ys| - 1] == xs + ys[..n];
    }
  }

  ghost function BootSteps(): seq<Step> {
    [Request(1, 0), Search(1), Clear(1), Request(0, 16), Search(0)]
  }

  lemma SinceBoot()
    ensures Since(BootSteps(), 0) == 0
  {
    assert BootSteps()[..4] == [Request(1, 0), Search(1), Clear(1), Request(0, 16)];
  }

  lemma EmptyTaken(addr: int)
    ensures var b := Block(addr, 0, true);
      && FirstFit([b], 0, 0) == Some(0) && Take([b], 0, 0) == [b.(free := false)]
      && Found([b], 0, 0) == b.(free := false)
      && FirstFit([b.(free := false)], 16, 0).None?
  {
    assert Fits(Block(addr, 0, true), 0);
  }

  /** Two CPUs get from kheap_init to a starved state: the second takes the empty block, the first
      then finds nothing. */
  lemma StarvedFromBoot(addr: int, cpus: nat) returns (t: State)
    requires addr > 0 && addr % ALIGN == 0 && cpus >= 2
    ensures Run(Move, Boot(addr, cpus), BootSteps(), t) && Starved(t, 0, 1, 16)
  {
    var s := Boot(addr, cpus);
    var b := Block(addr, 0, false);
    var idle := s.cpus;
    EmptyTaken(addr);
    var s1 := State(s.blocks, idle[1 := Searching(0)], {});
    var s2 := State([b], idle[1 := Clearing(b, 0)], {b});
    var s3 := State([b], idle, {b});
    var s4 := State([b], idle[0 := Searching(16)], {b});
    t := State([b], idle[0 := Growing(16)], {b});
    assert s1.cpus[1 := Clearing(b, 0)] == s2.cpus && s2.cpus[1 := Idle] == idle && s4.cpus[0 := Growing(16)] == t.cpus;
    assert Move(s, Request(1, 0), s1);
    assert Move(s1, Search(1), s2);
    assert Move(s2, Clear(1), s3);
    assert Move(s3, Request(0, 16), s4);
    assert Move(s4, Search(0), t);
    RunFive(s, Request(1, 0), s1, Search(1), s2, Clear(1), s3, Request(0, 16), s4, Search(0), t);
    BootSafe(addr, cpus);
    MovesKeepSafe();
    RunKeeps(Move, Safe, s, BootSteps(), t);
  }

  /** With a second flow of control a request can expand the heap any number of times. */
  lemma AnyNumber(addr: int, cpus: nat, k: nat) returns (steps: seq<Step>, t: State)
    requires addr > 0 && addr % ALIGN == 0 && cpus >= 2
    ensures Run(Move, Boot(addr, cpus), steps, t) && Since(steps, 0) == k
  {
    var s := StarvedFromBoot(addr, cpus);
    SinceBoot();
    var first := BootSteps();
    var rest;
    rest, t := Unbounded(s, 0, 1, 16, k);
    RunConcat(Move, Boot(addr, cpus), first, s, rest, t);
    SinceConcat(first, rest, 0);
    steps := first + rest;
  }

  /** What is left of the two expansions, while one CPU works alone. */
  ghost predicate Budget(blocks: Blocks, cpu: Cpu, grown: nat)
    requires |blocks| > 0
  {
    match cpu
    case Idle => grown <= 2
    case Searching(n) => grown + Retries(blocks, n) <= 2
    case Growing(n) => FirstFit(blocks, n, 0).None? && grown + Retries(blocks, n) <= 2
    case Clearing(_, _) => grown <= 2
  }

  ghost predicate WithinBudget(s: State, grown: nat) {
    |s.cpus| == 1 && Safe(s) && Budget(s.blocks, s.cpus[0], grown)
  }

  lemma BudgetBoot(addr: int)
    requires addr > 0 && addr % ALIGN == 0
    ensures WithinBudget(Boot(addr, 1), 0)
  {
    BootSafe(addr, 1);
  }

  lemma BudgetStep(s: State, step: Step, t: State, grown: nat)
    requires WithinBudget(s, grown) && Move(s, step, t)
    ensures WithinBudget(t, if step.Request? then 0 else grown + if step.Grow? then 1 else 0)
  {
    StepSafe(s, step);
    BudgetNext(s, step, grown);
  }

  lemma BudgetNext(s: State, step: Step, grown: nat)
    requires |s.cpus| == 1 && Enabled(s, step) && Budget(s.blocks, s.cpus[0], grown)
    requires WellFormed(s.blocks) && GoodCpu(s.cpus[0], s.held) && |Next(s, step).blocks| > 0
    ensures var t := Next(s, step);
      |t.cpus| == 1 && Budget(t.blocks, t.cpus[0], if step.Request? then 0 else grown + if step.Grow? then 1 else 0)
  {
    match step {
      case Request(c, n) =>
      case Search(c) =>
      case Grow(c) => KmallocGrows(s.blocks, s.cpus[0].n);
      case Clear(c) =>
      case Free(c, b) =>
    }
  }

  lemma {:induction false} OneCpuBudget(addr: int, steps: seq<Step>, t: State)
    requires addr > 0 && addr % ALIGN == 0 && Run(Move, Boot(addr, 1), steps, t)
    ensures WithinBudget(t, Since(steps, 0))
    decreases |steps|
  {
    if steps == [] {
      BudgetBoot(addr);
    } else {
      var front, last := steps[..|steps| - 1], steps[|steps| - 1];
      assert front + [last] == steps;
      var u := RunLast(Move, Boot(addr, 1), front, last, t);
      OneCpuBudget(addr, front, u);
      BudgetStep(u, last, t, Since(front, 0));
    }
  }

  /** A CPU that is not there takes no steps. */
  lemma {:induction false} AbsentCpu(s: State, steps: seq<Step>, t: State, c: nat)
    requires Run(Move, s, steps, t) && |s.cpus| <= c
    ensures |t.cpus| == |s.cpus| && Since(steps, c) == 0
    decreases |steps|
  {
    if steps != [] {
      var front, last := steps[..|steps| - 1], steps[|steps| - 1];
      assert front + [last] == steps;
      var u := RunLast(Move, s, front, last, t);
      AbsentCpu(s, front, u, c);
    }
  }

  /** In every run, no request makes more than two expansions. */
  ghost predicate TwoSuffice(addr: int, cpus: nat) {
    forall steps, t, c: nat :: Run(Move, Boot(addr, cpus), steps, t) ==> Since(steps, c) <= 2
  }

  /** Over every run from kheap_init, each request makes at most two expansions before it is served,
      exactly when there is at most one flow of control in the allocator. */
  lemma TwoSufficeAlone(addr: int, cpus: nat)
    requires addr > 0 && addr % ALIGN == 0
    ensures TwoSuffice(addr, cpus) <==> cpus <= 1
  {
    if cpus >= 2 {
      var steps, t := AnyNumber(addr, cpus, 3);
      assert Since(steps, 0) == 3;
    } else {
      forall steps, t, c: nat | Run(Move, Boot(addr, cpus), steps, t) ensures Since(steps, c) <= 2 {
        if c < cpus {
          OneCpuBudget(addr, steps, t);
        } else {
          AbsentCpu(Boot(addr, cpus), steps, t, c);
        }
      }
    }
  }
}
