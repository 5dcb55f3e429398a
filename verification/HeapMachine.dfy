/** The interleavings of HeapRuns carried out on the heap in memory, step by step. */
module HeapMachine {
  import opened PageEntries
  import opened Options
  import opened HeapBlocks
  import opened HeapRuns
  import opened Runs
  import opened KernelHeap

  /** Blocks a step leaves alone: all that are handed out, but the one it clears or frees. */
  ghost function Spared(s: State, step: Step): set<Block>
    requires Enabled(s, step)
  {
    match step
    case Clear(c) => s.held - {s.cpus[c].b}
    case Free(c, b) => s.held - {b}
    case _ => s.held
  }

  class Machine {
    const heap: Heap
    var cpus: seq<Cpu>
    ghost var held: set<Block>

    ghost function Now(): State
      reads this, heap
    {
      State(heap.blocks, cpus, held)
    }

    /** The list in memory is proper, with prev and next inverse and last_block at its end, and what
        was handed out is what is in use. */
    ghost predicate Valid()
      reads this, heap
    {
      heap.Valid() && Safe(Now())
    }

    constructor (addr: int, n: nat)
      requires addr > 0 && addr % PAGE_SIZE_4K == 0
      ensures fresh(heap) && Valid() && Now() == Boot(addr, n)
    {
      heap := new Heap(addr);
      cpus := seq(n, _ => Idle);
      held := {};
      new;
      PageAligned(addr);
      BootSafe(addr, n);
    }

    /** The search on the heap alone; the block found is read back from its header. */
    method Look(n: int) returns (r: Option<Block>)
      requires heap.Valid() && n >= 0 && n % ALIGN == 0
      modifies heap
      ensures heap.Valid() && WordsKept(old(heap.mem), heap.mem, Live(old(heap.blocks)))
      ensures var f := FirstFit(old(heap.blocks), n, 0);
        if f.None? then r.None? && heap.blocks == old(heap.blocks)
        else heap.blocks == Take(old(heap.blocks), f.value, n) && r == Some(Found(old(heap.blocks), f.value, n))
    {
      ghost var s := heap.blocks;
      var p := heap.AllocSection(n);
      if p == 0 {
        return None;
      }
      ghost var i := FirstFit(s, n, 0).value;
      TakeLive(s, i, n);
      ReadHeader(heap.mem, heap.blocks, i);
      return Some(Block(p - HEADER, heap.mem[p - HEADER + LEN], false));
    }

    method Search(c: nat)
      requires Valid() && Enabled(Now(), Step.Search(c))
      modifies this, heap
      ensures Valid() && Now() == Next(old(Now()), Step.Search(c))
      ensures WordsKept(old(heap.mem), heap.mem, old(held))
    {
      ghost var t := Next(Now(), Step.Search(c));
      StepSafe(Now(), Step.Search(c));
      GoodSearch(Now(), c);
      var n := cpus[c].n;
      var r := Look(n);
      if r.None? {
        cpus := cpus[c := Growing(n)];
      } else {
        held := held + {r.value};
        cpus := cpus[c := Clearing(r.value, n)];
      }
      assert Now() == t;
    }

    method Grow(c: nat)
      requires Valid() && Enabled(Now(), Step.Grow(c))
      modifies this, heap
      ensures Valid() && Now() == Next(old(Now()), Step.Grow(c))
      ensures WordsKept(old(heap.mem), heap.mem, old(held))
    {
      ghost var t := Next(Now(), Step.Grow(c));
      StepSafe(Now(), Step.Grow(c));
      GoodSearch(Now(), c);
      heap.ExpandSection(cpus[c].n);
      cpus := cpus[c := Searching(cpus[c].n)];
      assert Now() == t;
    }

    method Clear(c: nat)
      requires Valid() && Enabled(Now(), Step.Clear(c))
      modifies this, heap
      ensures Valid() && Now() == Next(old(Now()), Step.Clear(c))
      ensures WordsKept(old(heap.mem), heap.mem, old(held) - {old(cpus)[c].b})
      ensures Zeroed(heap.mem, old(cpus)[c].b.addr + HEADER, old(cpus)[c].n)
    {
      StepSafe(Now(), Step.Clear(c));
      assert GoodCpu(cpus[c], held);
      var b := cpus[c].b;
      heap.Zero(b.addr + HEADER, cpus[c].n, IndexOf(heap.blocks, b));
      cpus := cpus[c := Idle];
    }

    method Free(c: nat, b: Block)
      requires Valid() && Enabled(Now(), Step.Free(c, b))
      modifies this, heap
      ensures Valid() && Now() == Next(old(Now()), Step.Free(c, b))
      ensures WordsKept(old(heap.mem), heap.mem, old(held) - {b})
    {
      ghost var s, i := Now(), IndexOf(heap.blocks, b);
      ghost var t := State(Release(s.blocks, i), s.cpus, s.held - {b});
      FreedSafe(s, c, b, i);
      heap.Kfree(b.addr + HEADER, i);
      held := held - {b};
      assert Now() == t;
    }

    /** Any step of any CPU. */
    method Perform(step: Step)
      requires Valid() && Enabled(Now(), step)
      modifies this, heap
      ensures Valid() && Now() == Next(old(Now()), step)
      ensures WordsKept(old(heap.mem), heap.mem, Spared(old(Now()), step))
      ensures step.Clear? ==> Zeroed(heap.mem, old(cpus)[step.cpu].b.addr + HEADER, old(cpus)[step.cpu].n)
    {
      match step {
        case Request(c, n) =>
          StepSafe(Now(), step);
          cpus := cpus[c := Searching(n)];
        case Search(c) => Search(c);
        case Grow(c) => Grow(c);
        case Clear(c) => Clear(c);
        case Free(c, b) => Free(c, b);
      }
    }

    /** Any interleaving: memory follows the run, and a block that was returned to its caller and is
        not freed keeps every word its owner put there. */
    method AnyRun(steps: seq<Step>, ghost t: State)
      requires Valid() && Run(Move, Now(), steps, t)
      modifies this, heap
      ensures Valid() && Now() == t
      ensures AllKept(old(Now()), steps, old(heap.mem), heap.mem)
      decreases |steps|
    {
      if steps == [] {
        return;
      }
      ghost var s, m := Now(), heap.mem;
      RunHead(s, steps, t);
      Perform(steps[0]);
      ghost var m1 := heap.mem;
      AnyRun(steps[1..], t);
      KeptCons(s, steps, m, m1, heap.mem);
    }
  }

  lemma RunHead(s: State, steps: seq<Step>, t: State)
    requires Run(Move, s, steps, t) && steps != []
    ensures Enabled(s, steps[0]) && Run(Move, Next(s, steps[0]), steps[1..], t)
  {
    var u :| Move(s, steps[0], u) && Run(Move, u, steps[1..], t);
  }

  ghost predicate AllKept(s: State, steps: seq<Step>, m: Memory, m': Memory) {
    forall b :: Owned(s, b) && !Frees(steps, b) ==> WordsKept(m, m', {b})
  }

  lemma KeptCons(s: State, steps: seq<Step>, m: Memory, m1: Memory, m2: Memory)
    requires steps != [] && Safe(s) && Enabled(s, steps[0]) && WordsKept(m, m1, Spared(s, steps[0]))
    requires AllKept(Next(s, steps[0]), steps[1..], m1, m2)
    ensures AllKept(s, steps, m, m2)
  {
    forall b | Owned(s, b) && !Frees(steps, b) ensures WordsKept(m, m2, {b}) {
      assert steps[0] in steps && forall x :: x in steps[1..] ==> x in steps;
      StaysOwned(s, steps[0], b);
      assert !Frees(steps[1..], b) && WordsKept(m1, m2, {b}) && WordsKept(m, m1, {b});
      KeptChain(m, m1, m2, {b}, {b});
    }
  }

  /** Handed out and returned to a caller. */
  ghost predicate Owned(s: State, b: Block) {
    b in s.held && Returned(s.cpus, b)
  }

  predicate Frees(steps: seq<Step>, b: Block) {
    exists step :: step in steps && step.Free? && step.b == b
  }

  /** A block with an owner is spared by every step but its release, and keeps its owner. */
  lemma StaysOwned(s: State, step: Step, b: Block)
    requires Safe(s) && Enabled(s, step) && Owned(s, b) && !(step.Free? && step.b == b)
    ensures b in Spared(s, step) && Owned(Next(s, step), b)
  {
    if step.Search? {
      NewFound(s, step.cpu);
    }
  }

  /** A search finds a block that nobody had. */
  lemma NewFound(s: State, c: nat)
    requires Safe(s) && Enabled(s, Step.Search(c))
    ensures var f := FirstFit(s.blocks, s.cpus[c].n, 0); f.Some? ==> Found(s.blocks, f.value, s.cpus[c].n) !in s.held
  {
    var f := FirstFit(s.blocks, s.cpus[c].n, 0);
    if f.Some? {
      TakeNew(s.blocks, f.value, Granted(s.blocks, f.value, s.cpus[c].n));
    }
  }

  lemma FreedSafe(s: State, c: nat, b: Block, i: nat)
    requires Safe(s) && Enabled(s, Step.Free(c, b)) && i == IndexOf(s.blocks, b)
    ensures var t := State(Release(s.blocks, i), s.cpus, s.held - {b});
      t == Next(s, Step.Free(c, b)) && Safe(t) && !b.free && Live(s.blocks) == s.held
  {
    StepSafe(s, Step.Free(c, b));
  }

  lemma GoodSearch(s: State, c: nat)
    requires Safe(s) && c < |s.cpus| && (s.cpus[c].Searching? || s.cpus[c].Growing?)
    ensures s.cpus[c].n >= 0 && s.cpus[c].n % ALIGN == 0 && Live(s.blocks) == s.held
  {
    assert GoodCpu(s.cpus[c], s.held);
  }
}
