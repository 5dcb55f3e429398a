/** What every run of the scheduler's calls keeps. */
module SchedulerRuns {
  import opened Options
  import opened Runs
  import opened Semaphores
  import opened Scheduler

  // ---------------------------------------------------------------- every run

  ghost predicate Move(s: Sys, x: Step, u: Sys) {
    Enabled(s, x) && !Spins(s, x) && u == Next(s, x)
  }

  lemma MovesKeep()
    ensures Keeps(Move, Inv)
  {
    forall s, x, u | Inv(s) && Move(s, x, u) ensures Inv(u) {
      StepKeeps(s, x);
    }
  }

  ghost predicate Idle(s: Sys) {
    && (forall c :: 0 <= c < |s.cpus| ==> s.cpus[c] == Cpu(0, [], None))
    && s.st == map[] && s.exited == [] && forall i :: 0 <= i < |s.sems| ==> s.sems[i].wait == []
  }

  lemma {:induction false} NoneOnCpus(cpus: seq<Cpu>)
    requires forall c :: 0 <= c < |cpus| ==> cpus[c] == Cpu(0, [], None)
    ensures OnCpus(cpus) == multiset{}
  {
    if cpus != [] {
      NoneOnCpus(cpus[1..]);
    }
  }

  lemma {:induction false} NoneWaiting(sems: seq<Sem>)
    requires forall i :: 0 <= i < |sems| ==> sems[i].wait == []
    ensures Waiting(sems) == multiset{}
  {
    if sems != [] {
      NoneWaiting(sems[1..]);
    }
  }

  lemma IdleInv(s: Sys)
    requires Idle(s)
    ensures Inv(s)
  {
    NoneOnCpus(s.cpus);
    NoneWaiting(s.sems);
  }

  /** From idle CPUs, over any run of spawns, ticks, acquires, releases and exits on any number of
      CPUs, every thread spawned is in exactly one place. */
  lemma EveryRunOnePlace(s: Sys, xs: seq<Step>, u: Sys)
    requires Idle(s) && Run(Move, s, xs, u)
    ensures OnePlace(u) && Fits(u)
  {
    IdleInv(s);
    MovesKeep();
    RunKeeps(Move, Inv, s, xs, u);
  }

  // ---------------------------------------------------------------- exit is final

  lemma StepExited(s: Sys, x: Step)
    requires Enabled(s, x)
    ensures s.exited <= Next(s, x).exited
  {
  }

  lemma {:induction false} ExitedGrows(s: Sys, xs: seq<Step>, u: Sys)
    requires Run(Move, s, xs, u)
    ensures s.exited <= u.exited
    decreases |xs|
  {
    if xs != [] {
      var m :| Move(s, xs[0], m) && Run(Move, m, xs[1..], u);
      ExitedGrows(m, xs[1..], u);
      StepExited(s, xs[0]);
    }
  }

  /** A thread that has exited is never current, queued or waiting again. */
  lemma ExitIsFinal(s: Sys, xs: seq<Step>, u: Sys, t: Tid)
    requires Inv(s) && Run(Move, s, xs, u) && t in s.exited
    ensures t in u.exited && t !in OnCpus(u.cpus) && t !in Waiting(u.sems)
    ensures forall c :: 0 <= c < |u.cpus| ==> t !in u.cpus[c].queue && u.cpus[c].curr != Some(t)
  {
    ExitedGrows(s, xs, u);
    MovesKeep();
    RunKeeps(Move, Inv, s, xs, u);
    Apart(u, t);
    assert t in u.exited && multiset(u.exited)[t] > 0;
    forall c | 0 <= c < |u.cpus| ensures t !in u.cpus[c].queue && u.cpus[c].curr != Some(t) {
      OwnWithin(u.cpus, c);
      assert t !in Own(u.cpus[c]);
    }
  }

  // ---------------------------------------------------------------- round robin

  /** The step runs schedule on CPU c. */
  predicate Dispatches(s: Sys, x: Step, c: nat)
    requires Enabled(s, x)
  {
    match x
    case Spawn(_) => false
    case Tick(d) => d == c
    case SemAcquire(d, i) => d == c && s.sems[i].cnt >= s.sems[i].max
    case SemRelease(d, i) => d == c && s.sems[i].wait != [] && s.cpus[c].queue == []  // a queue of one
    case Exit(d) => d == c
  }

  /** Place k of a queue after a change that took one thread off the front, or none. */
  ghost predicate Moved(a: Cpu, b: Cpu, k: nat, served: bool)
    requires k < |a.queue|
  {
    if !served then k < |b.queue| && b.queue[k] == a.queue[k]
    else if k == 0 then b.curr == Some(a.queue[0])
    else k - 1 < |b.queue| && b.queue[k - 1] == a.queue[k]
  }

  lemma ScheduleMoves(s: Sys, d: nat, c: nat, k: nat)
    requires c < |s.cpus| && d < |s.cpus| && k < |s.cpus[c].queue|
    ensures c < |Schedule(s, d).cpus| && Moved(s.cpus[c], Schedule(s, d).cpus[c], k, c == d)
  {
    ScheduleRotates(s, d);
  }

  lemma ReleaseMoves(s: Sys, d: nat, i: nat, c: nat, k: nat)
    requires d < |s.cpus| && i < |s.sems| && c < |s.cpus| && k < |s.cpus[c].queue|
    ensures c < |ReleaseStep(s, d, i).cpus| && Moved(s.cpus[c], ReleaseStep(s, d, i).cpus[c], k, false)
  {
    var (sem, woken) := Release(s.sems[i]);
    if woken.Some? {
      var w := woken.value;
      var s1 := s.(sems := s.sems[i := sem], st := s.st[w := Running],
                   cpus := s.cpus[d := s.cpus[d].(queue := s.cpus[d].queue + [w])]);
      assert Moved(s.cpus[c], s1.cpus[c], k, false);
      if |s1.cpus[d].queue| == 1 {
        assert c != d;
        ScheduleMoves(s1, d, c, k);
      }
    }
  }

  /** Queues are served from the front and filled at the back, whoever does it. */
  lemma StepMoves(s: Sys, x: Step, c: nat, k: nat)
    requires Enabled(s, x) && c < |s.cpus| && k < |s.cpus[c].queue|
    ensures c < |Next(s, x).cpus| && Moved(s.cpus[c], Next(s, x).cpus[c], k, Dispatches(s, x, c))
  {
    match x {
      case Spawn(t) =>
      case Tick(d) =>
        ScheduleMoves(s, d, c, k);
      case SemAcquire(d, i) =>
        var t := s.cpus[d].curr.value;
        ScheduleMoves(s.(sems := s.sems[i := Acquire(s.sems[i], t).0], st := s.st[t := WaitLock]), d, c, k);
      case SemRelease(d, i) =>
        ReleaseMoves(s, d, i, c, k);
      case Exit(d) =>
        var t := s.cpus[d].curr.value;
        ScheduleMoves(s.(st := s.st[t := Killed], exited := s.exited + [t]), d, c, k);
    }
  }

  /** A run together with the number of schedules it has completed on one CPU. */
  datatype Counted = Counted(sys: Sys, done: nat)

  ghost predicate CountedMove(c: nat, a: Counted, x: Step, b: Counted) {
    && Move(a.sys, x, b.sys)
    && b.done == a.done + if Dispatches(a.sys, x, c) then 1 else 0
  }

  /** After done schedules, thread t, first at place k, is at place k - done. */
  ghost predicate InTurn(c: nat, k: nat, t: Tid, a: Counted) {
    && c < |a.sys.cpus|
    && (a.done <= k ==> k - a.done < |a.sys.cpus[c].queue| && a.sys.cpus[c].queue[k - a.done] == t)
  }

  lemma TurnKept(c: nat, k: nat, t: Tid, a: Counted, x: Step, b: Counted)
    requires InTurn(c, k, t, a) && CountedMove(c, a, x, b)
    ensures InTurn(c, k, t, b)
  {
    if a.done <= k {
      StepMoves(a.sys, x, c, k - a.done);
    }
    assert |b.sys.cpus| == |a.sys.cpus| by { CpusStay(a.sys, x); }
  }

  lemma CpusStay(s: Sys, x: Step)
    requires Enabled(s, x)
    ensures |Next(s, x).cpus| == |s.cpus|
  {
  }

  /** The thread at place k of a run queue is dispatched by exactly the (k+1)-th schedule completed
      on its CPU, whatever spawns, blocks and unblocks interleave. */
  lemma DispatchedInTurn(s: Sys, xs: seq<Step>, u: Sys, c: nat, k: nat, x: Step)
    requires c < |s.cpus| && k < |s.cpus[c].queue|
    requires Run((a, y, b) => CountedMove(c, a, y, b), Counted(s, 0), xs, Counted(u, k))
    requires Enabled(u, x) && Dispatches(u, x, c)
    ensures c < |Next(u, x).cpus| && Next(u, x).cpus[c].curr == Some(s.cpus[c].queue[k])
  {
    var t := s.cpus[c].queue[k];
    var move := (a, y, b) => CountedMove(c, a, y, b);
    var inv := a => InTurn(c, k, t, a);
    forall a, y, b | inv(a) && move(a, y, b) ensures inv(b) {
      TurnKept(c, k, t, a, y, b);
    }
    RunKeeps(move, inv, Counted(s, 0), xs, Counted(u, k));
    StepMoves(u, x, c, 0);
  }

  // ---------------------------------------------------------------- balance

  /** Thread counts of the CPUs within one of each other. */
  ghost predicate Balanced(cpus: seq<Cpu>) {
    forall a, b :: 0 <= a < |cpus| && 0 <= b < |cpus| ==> cpus[a].load <= cpus[b].load + 1
  }

  function SpawnAll(s: Sys, ts: seq<Tid>): Sys
    requires |s.cpus| > 0
    decreases |ts|
  {
    if ts == [] then s else SpawnAll(SpawnStep(s, ts[0]), ts[1..])
  }

  lemma {:induction false} SpawnBalances(s: Sys, ts: seq<Tid>)
    requires |s.cpus| > 0 && Balanced(s.cpus)
    ensures Balanced(SpawnAll(s, ts).cpus)
    decreases |ts|
  {
    if ts != [] {
      SpawnBalances(SpawnStep(s, ts[0]), ts[1..]);
    }
  }

  // ---------------------------------------------------------------- what goes wrong when a CPU spins

  /** A thread blocks with nobody else ready on its CPU c, so it stays current there; the release on
      another CPU d with an empty queue then runs it on d as well: one thread, two CPUs. */
  lemma TwiceRunning(s: Sys, c: nat, d: nat, i: nat)
    requires Inv(s) && c < |s.cpus| && d < |s.cpus| && c != d && i < |s.sems|
    requires s.cpus[c].curr.Some? && s.cpus[d].curr.Some? && s.cpus[c].queue == [] && s.cpus[d].queue == []
    requires s.sems[i].cnt >= s.sems[i].max && s.sems[i].wait == []
    ensures var u := ReleaseStep(AcquireStep(s, c, i), d, i);
      |u.cpus| == |s.cpus| && u.cpus[c].curr == s.cpus[c].curr && u.cpus[d].curr == s.cpus[c].curr
  {
    var t := s.cpus[c].curr.value;
    CurrentsDiffer(s, c, d);
    var s1 := AcquireStep(s, c, i);
    assert s1.cpus == s.cpus && s1.sems[i].wait == [t];
    assert CurrentRuns(s.cpus[d], s.st);
    var s2 := s1.(sems := s1.sems[i := Release(s1.sems[i]).0], st := s1.st[t := Running],
                  cpus := s1.cpus[d := s1.cpus[d].(queue := [t])]);
    ScheduleRotates(s2, d);
  }

  /** Two CPUs and one semaphore with one unit. */
  function Two(p: Cpu, q: Cpu, st: map<Tid, ThreadState>, cnt: nat): Sys {
    Sys([p, q], st, [Sem(1, cnt, [])], [])
  }

  lemma FirstSpawn(t: Tid)
    ensures Move(Two(Cpu(0, [], None), Cpu(0, [], None), map[], 0), Spawn(t),
                 Two(Cpu(1, [t], None), Cpu(0, [], None), map[t := Ready], 0))
  {
    var s := Two(Cpu(0, [], None), Cpu(0, [], None), map[], 0);
    assert LeastLoaded(s.cpus) == 0 && s.cpus[0].queue + [t] == [t];
  }

  lemma SecondSpawn(t: Tid, w: Tid)
    requires t != w
    ensures Move(Two(Cpu(1, [t], None), Cpu(0, [], None), map[t := Ready], 0), Spawn(w),
                 Two(Cpu(1, [t], None), Cpu(1, [w], None), map[t := Ready, w := Ready], 0))
  {
    var s := Two(Cpu(1, [t], None), Cpu(0, [], None), map[t := Ready], 0);
    assert LeastLoaded(s.cpus) == 1 && s.cpus[1].queue + [w] == [w];
  }

  lemma FirstTick(t: Tid, w: Tid)
    requires t != w
    ensures Move(Two(Cpu(1, [t], None), Cpu(1, [w], None), map[t := Ready, w := Ready], 0), Tick(0),
                 Two(Cpu(1, [], Some(t)), Cpu(1, [w], None), map[t := Running, w := Ready], 0))
  {
    assert [t][1..] == [];
  }

  lemma SecondTick(t: Tid, w: Tid)
    requires t != w
    ensures Move(Two(Cpu(1, [], Some(t)), Cpu(1, [w], None), map[t := Running, w := Ready], 0), Tick(1), Both(t, w, 0))
  {
    assert [w][1..] == [];
  }

  /** Each CPU runs a thread of its own; cnt units of the semaphore are taken. */
  function Both(t: Tid, w: Tid, cnt: nat): Sys {
    Two(Cpu(1, [], Some(t)), Cpu(1, [], Some(w)), map[t := Running, w := Running], cnt)
  }

  lemma OneHolds(t: Tid, w: Tid)
    ensures Move(Both(t, w, 0), SemAcquire(0, 0), Both(t, w, 1))
  {
  }

  /** From idle CPUs, two threads run, each on a CPU of its own, and the first holds the only unit. */
  lemma HeldReached(t: Tid, w: Tid)
    requires t != w
    ensures var s := Two(Cpu(0, [], None), Cpu(0, [], None), map[], 0);
      Idle(s) && Run(Move, s, [Spawn(t), Spawn(w), Tick(0), Tick(1), SemAcquire(0, 0)], Both(t, w, 1))
  {
    var s := Two(Cpu(0, [], None), Cpu(0, [], None), map[], 0);
    var s1 := Two(Cpu(1, [t], None), Cpu(0, [], None), map[t := Ready], 0);
    var s2 := Two(Cpu(1, [t], None), Cpu(1, [w], None), map[t := Ready, w := Ready], 0);
    var s3 := Two(Cpu(1, [], Some(t)), Cpu(1, [w], None), map[t := Running, w := Ready], 0);
    FirstSpawn(t);
    SecondSpawn(t, w);
    FirstTick(t, w);
    SecondTick(t, w);
    OneHolds(t, w);
    RunFive(s, s1, s2, s3, Both(t, w, 0), Both(t, w, 1), Spawn(t), Spawn(w), Tick(0), Tick(1), SemAcquire(0, 0));
  }

  lemma RunFive(s: Sys, s1: Sys, s2: Sys, s3: Sys, s4: Sys, s5: Sys, a: Step, b: Step, c: Step, d: Step, e: Step)
    requires Move(s, a, s1) && Move(s1, b, s2) && Move(s2, c, s3) && Move(s3, d, s4) && Move(s4, e, s5)
    ensures Run(Move, s, [a, b, c, d, e], s5)
  {
    RunOne(Move, s, a, s1);
    RunSnoc(Move, s, [a], s1, b, s2);
    assert [a] + [b] == [a, b];
    RunSnoc(Move, s, [a, b], s2, c, s3);
    assert [a, b] + [c] == [a, b, c];
    RunSnoc(Move, s, [a, b, c], s3, d, s4);
    assert [a, b, c] + [d] == [a, b, c, d];
    RunSnoc(Move, s, [a, b, c, d], s4, e, s5);
    assert [a, b, c, d] + [e] == [a, b, c, d, e];
  }

  /** The second thread then asks for the unit and blocks alone on its CPU, and the first releases
      it: both CPUs run the second thread. */
  lemma TwiceReached(t: Tid, w: Tid)
    requires t != w
    ensures var s := Both(t, w, 1);
      && Inv(s) && Enabled(s, SemAcquire(1, 0)) && Spins(s, SemAcquire(1, 0)) && !OnePlace(AcquireStep(s, 1, 0))
      && var u := ReleaseStep(AcquireStep(s, 1, 0), 0, 0);
         |u.cpus| == 2 && u.cpus[0].curr == Some(w) && u.cpus[1].curr == Some(w)
    ensures var s := Both(t, w, 1); Enabled(s, Exit(0)) && Spins(s, Exit(0)) && !OnePlace(Next(s, Exit(0)))
  {
    HeldReached(t, w);
    var s := Both(t, w, 1);
    EveryRunInv(Two(Cpu(0, [], None), Cpu(0, [], None), map[], 0),
                [Spawn(t), Spawn(w), Tick(0), Tick(1), SemAcquire(0, 0)], s);
    SpinBreaks(s, SemAcquire(1, 0));
    SpinBreaks(s, Exit(0));
    TwiceRunning(s, 1, 0, 0);
  }

  lemma EveryRunInv(s: Sys, xs: seq<Step>, u: Sys)
    requires Idle(s) && Run(Move, s, xs, u)
    ensures Inv(u)
  {
    EveryRunOnePlace(s, xs, u);
  }
}
