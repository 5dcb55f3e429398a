/** Who holds the semaphores while the scheduler runs, and where a woken thread goes. */
module SchedulerHolders {
  import opened Division
  import opened Options
  import opened Runs
  import opened Scheduler
  import S = Semaphores
  import R = SchedulerRuns

  /** A state of the scheduler and, for each semaphore, the threads that hold a unit of it. */
  datatype Held = Held(sys: Sys, holders: seq<multiset<S.Tid>>)

  /** The thread that runs on c. */
  function Current(s: Sys, c: nat): S.Tid
    requires c < |s.cpus| && s.cpus[c].curr.Some?
  {
    s.cpus[c].curr.value
  }

  /** What a step does to one semaphore, if anything. */
  function OpOn(s: Sys, x: Step, i: nat): Option<S.Op>
    requires Enabled(s, x)
  {
    match x
    case SemAcquire(c, j) => if j == i then Some(S.Get(Current(s, c))) else None
    case SemRelease(c, j) => if j == i then Some(S.Put(Current(s, c))) else None
    case _ => None
  }

  /** A step of the scheduler in which only a thread that holds a unit releases one: an acquire that
      does not block makes the caller a holder, a release makes the first waiter one in the caller's place. */
  ghost predicate HeldMove(a: Held, x: Step, b: Held) {
    && R.Move(a.sys, x, b.sys) && |a.holders| == |b.holders| == |a.sys.sems|
    && forall i :: 0 <= i < |a.holders| ==>
         match x
         case SemAcquire(c, j) =>
           b.holders[i] == if i == j && a.sys.sems[i].cnt < a.sys.sems[i].max
                           then a.holders[i] + multiset{Current(a.sys, c)} else a.holders[i]
         case SemRelease(c, j) =>
           && (i == j ==> Current(a.sys, c) in a.holders[i])
           && b.holders[i] == if i == j then a.holders[i] - multiset{Current(a.sys, c)} + Heir(a.sys.sems[i])
                              else a.holders[i]
         case _ => b.holders[i] == a.holders[i]
  }

  /** The waiter, if there is one, that a release hands the unit to. */
  function Heir(sem: S.Sem): multiset<S.Tid> {
    if sem.wait == [] then multiset{} else multiset{sem.wait[0]}
  }

  // ---------------------------------------------------------------- each semaphore on its own

  function Of(a: Held, i: nat): S.State
    requires i < |a.holders| && i < |a.sys.sems|
  {
    S.State(a.sys.sems[i], a.holders[i])
  }

  lemma {:induction false} WaitWithin(sems: seq<S.Sem>, i: nat)
    requires i < |sems|
    ensures multiset(sems[i].wait) <= Waiting(sems)
  {
    if i > 0 {
      WaitWithin(sems[1..], i - 1);
    }
  }

  /** The thread that runs waits for nothing. */
  lemma CurrentWaitsNot(s: Sys, c: nat, i: nat)
    requires Inv(s) && c < |s.cpus| && s.cpus[c].curr.Some? && i < |s.sems|
    ensures Current(s, c) !in s.sems[i].wait
  {
    var t, wait := Current(s, c), s.sems[i].wait;
    CurrentOnCpu(s, c);
    Apart(s, t);
    WaitWithin(s.sems, i);
    assert t in wait <==> multiset(wait)[t] > 0;
  }

  /** The semaphores after a step. */
  lemma SemsAfter(s: Sys, x: Step, i: nat)
    requires Enabled(s, x) && i < |s.sems|
    ensures |Next(s, x).sems| == |s.sems|
    ensures OpOn(s, x, i).None? ==> Next(s, x).sems[i] == s.sems[i]
    ensures OpOn(s, x, i).Some? && x.SemAcquire? ==> Next(s, x).sems[i] == S.Acquire(s.sems[i], Current(s, x.c)).0
    ensures OpOn(s, x, i).Some? && x.SemRelease? ==> Next(s, x).sems[i] == S.Release(s.sems[i]).0
  {
  }

  lemma IsGet(a: S.State, t: S.Tid, b: S.State)
    requires t !in a.sem.wait && b.sem == S.Acquire(a.sem, t).0
    requires b.holders == if a.sem.cnt < a.sem.max then a.holders + multiset{t} else a.holders
    ensures S.Move(a, S.Get(t), b)
  {
  }

  lemma IsPut(a: S.State, t: S.Tid, b: S.State)
    requires t in a.holders && b.sem == S.Release(a.sem).0 && b.holders == a.holders - multiset{t} + Heir(a.sem)
    ensures S.Move(a, S.Put(t), b)
  {
  }

  /** Seen from one semaphore, a step of the scheduler is an acquire, a release or nothing. */
  lemma Projects(a: Held, x: Step, b: Held, i: nat)
    requires Inv(a.sys) && HeldMove(a, x, b) && i < |a.holders|
    ensures |b.sys.sems| == |a.sys.sems|
    ensures var op := OpOn(a.sys, x, i);
      if op.None? then Of(b, i) == Of(a, i) else S.Move(Of(a, i), op.value, Of(b, i))
  {
    SemsAfter(a.sys, x, i);
    if x.SemAcquire? && x.i == i {
      CurrentWaitsNot(a.sys, x.c, i);
      IsGet(Of(a, i), Current(a.sys, x.c), Of(b, i));
    } else if x.SemRelease? && x.i == i {
      IsPut(Of(a, i), Current(a.sys, x.c), Of(b, i));
    }
  }

  // ---------------------------------------------------------------- every run

  ghost predicate HeldSound(a: Held) {
    && Inv(a.sys) && |a.holders| == |a.sys.sems|
    && forall i :: 0 <= i < |a.holders| ==> S.Sound(Of(a, i))
  }

  lemma HeldStep(a: Held, x: Step, b: Held)
    requires HeldSound(a) && HeldMove(a, x, b)
    ensures HeldSound(b)
  {
    StepKeeps(a.sys, x);
    SemsCount(a.sys, x);
    forall i | 0 <= i < |b.holders| ensures S.Sound(Of(b, i)) {
      Projects(a, x, b, i);
      assert S.Sound(Of(a, i));
      if OpOn(a.sys, x, i).Some? {
        S.StepSound(Of(a, i), OpOn(a.sys, x, i).value, Of(b, i));
      }
    }
  }

  lemma SemsCount(s: Sys, x: Step)
    requires Enabled(s, x)
    ensures |Next(s, x).sems| == |s.sems|
  {
  }

  /** CPUs with nothing to run and semaphores fresh from sem_create. */
  ghost predicate Fresh(a: Held) {
    && R.Idle(a.sys) && |a.holders| == |a.sys.sems|
    && forall i :: 0 <= i < |a.holders| ==>
         a.holders[i] == multiset{} && a.sys.sems[i].cnt == 0 && a.sys.sems[i].max < UINT32
  }

  /** Over any run of any number of CPUs and semaphores in which only holders release: a semaphore has
      as many holders as its counter says, never more than it has units, and nobody waits while a unit
      is free. With one unit this is mutual exclusion. */
  lemma EveryRunHeld(a: Held, xs: seq<Step>, b: Held, i: nat)
    requires Fresh(a) && Run(HeldMove, a, xs, b) && i < |b.holders|
    ensures |b.sys.sems| == |b.holders|
    ensures |b.holders[i]| == b.sys.sems[i].cnt <= b.sys.sems[i].max
    ensures b.sys.sems[i].wait != [] ==> |b.holders[i]| == b.sys.sems[i].max
  {
    R.IdleInv(a.sys);
    forall k | 0 <= k < |a.holders| ensures S.Sound(Of(a, k)) {
      assert a.holders[k] == multiset{} && a.sys.sems[k].wait == [];
    }
    forall s, x, u | HeldSound(s) && HeldMove(s, x, u) ensures HeldSound(u) {
      HeldStep(s, x, u);
    }
    RunKeeps(HeldMove, HeldSound, a, xs, b);
    assert S.Sound(Of(b, i));
  }

  // ---------------------------------------------------------------- where a thread goes

  /** A new thread joins the thread list and the back of the run queue of one CPU, the first of those
      with the fewest threads, and is ready. */
  lemma SpawnedHere(s: Sys, t: S.Tid) returns (c: nat)
    requires Enabled(s, Spawn(t))
    ensures c < |s.cpus|
    ensures forall d :: 0 <= d < |s.cpus| ==>
      s.cpus[c].load <= s.cpus[d].load && (d < c ==> s.cpus[c].load < s.cpus[d].load)
    ensures var cpu := s.cpus[c];
      Next(s, Spawn(t)) ==
      s.(cpus := s.cpus[c := Cpu(cpu.load + 1, cpu.queue + [t], cpu.curr)], st := s.st[t := Ready])
  {
    c := LeastLoaded(s.cpus);
  }

  /** A tick: the thread that runs goes to the back of its CPU's queue and the head runs; alone, it runs on. */
  lemma TickedHere(s: Sys, c: nat)
    requires Inv(s) && Enabled(s, Tick(c)) && s.cpus[c].curr.Some?
    ensures var (u, cpu) := (Next(s, Tick(c)), s.cpus[c]);
      && u.sems == s.sems && u.exited == s.exited
      && u.cpus == if cpu.queue == [] then s.cpus
                   else s.cpus[c := Cpu(cpu.load, cpu.queue[1..] + [cpu.curr.value], Some(cpu.queue[0]))]
  {
    var cpu := s.cpus[c];
    assert CurrentRuns(cpu, s.st);
    ScheduleRotates(s, c);
    if cpu.queue == [] {
      assert ReadyQueue(cpu, true) == [cpu.curr.value] && [cpu.curr.value][1..] == cpu.queue;
      assert s.cpus[c := cpu] == s.cpus;
    } else {
      assert (cpu.queue + [cpu.curr.value])[1..] == cpu.queue[1..] + [cpu.curr.value];
    }
  }

  /** An exit: the thread that runs is gone and the head of its CPU's queue runs. */
  lemma ExitedHere(s: Sys, c: nat)
    requires Inv(s) && Enabled(s, Exit(c)) && s.cpus[c].queue != []
    ensures var (u, t, cpu) := (Next(s, Exit(c)), s.cpus[c].curr.value, s.cpus[c]);
      && u.sems == s.sems && u.exited == s.exited + [t]
      && u.cpus == s.cpus[c := Cpu(cpu.load, cpu.queue[1..], Some(cpu.queue[0]))]
      && t in u.st && u.st[t] == Killed
  {
    var t := s.cpus[c].curr.value;
    ScheduleRotates(s.(st := s.st[t := Killed], exited := s.exited + [t]), c);
    NotQueued(s, c);
  }

  /** A release with waiters: the first waiter leaves the wait list and joins the run queue of the
      releasing CPU at the back. When that queue was empty it runs there at once and the releasing
      thread waits its turn. Nothing else moves and the counter stays. */
  lemma WokenHere(s: Sys, c: nat, i: nat)
    requires Inv(s) && Enabled(s, SemRelease(c, i)) && s.sems[i].wait != []
    ensures var (u, w, cpu) := (Next(s, SemRelease(c, i)), s.sems[i].wait[0], s.cpus[c]);
      && u.sems == s.sems[i := s.sems[i].(wait := s.sems[i].wait[1..])] && u.exited == s.exited
      && w in u.st && u.st[w] == Running
      && u.cpus == s.cpus[c := if cpu.queue == [] then Cpu(cpu.load, [cpu.curr.value], Some(w))
                               else cpu.(queue := cpu.queue + [w])]
  {
    assert CurrentRuns(s.cpus[c], s.st);
    CurrentWaitsNot(s, c, i);
    var w := s.sems[i].wait[0];
    assert w in s.sems[i].wait && w != Current(s, c);
    var s1 := s.(sems := s.sems[i := S.Release(s.sems[i]).0]);
    UnblockHere(s1, c, w);
  }

  lemma UnblockHere(s: Sys, c: nat, w: S.Tid)
    requires c < |s.cpus| && s.cpus[c].curr.Some? && CurrentRuns(s.cpus[c], s.st) && w != s.cpus[c].curr.value
    ensures var (u, cpu) := (Unblock(s, c, w), s.cpus[c]);
      && u.sems == s.sems && u.exited == s.exited && w in u.st && u.st[w] == Running
      && u.cpus == s.cpus[c := if cpu.queue == [] then Cpu(cpu.load, [cpu.curr.value], Some(w))
                               else cpu.(queue := cpu.queue + [w])]
  {
    var cpu := s.cpus[c];
    if cpu.queue == [] {
      var s1 := s.(st := s.st[w := Running], cpus := s.cpus[c := cpu.(queue := [w])]);
      assert cpu.queue + [w] == [w] && Unblock(s, c, w) == Schedule(s1, c);
      ScheduleRotates(s1, c);
      assert ([w] + [cpu.curr.value])[1..] == [cpu.curr.value];
    }
  }

  /** An acquire that finds no unit: the caller joins the wait list at the back, and the head of its
      CPU's queue runs in its place. */
  lemma BlockedHere(s: Sys, c: nat, i: nat)
    requires Inv(s) && Enabled(s, SemAcquire(c, i)) && s.sems[i].cnt >= s.sems[i].max && s.cpus[c].queue != []
    ensures var (u, t, cpu) := (Next(s, SemAcquire(c, i)), s.cpus[c].curr.value, s.cpus[c]);
      && u.sems == s.sems[i := s.sems[i].(wait := s.sems[i].wait + [t])] && u.exited == s.exited
      && u.cpus == s.cpus[c := Cpu(cpu.load, cpu.queue[1..], Some(cpu.queue[0]))]
      && t in u.st && u.st[t] == WaitLock && u.st[cpu.queue[0]] == Running
  {
    var t, cpu := s.cpus[c].curr.value, s.cpus[c];
    var s1 := s.(sems := s.sems[i := S.Acquire(s.sems[i], t).0], st := s.st[t := WaitLock]);
    ScheduleRotates(s1, c);
    NotQueued(s, c);
  }

  /** The thread that runs is not also in the queue. */
  lemma NotQueued(s: Sys, c: nat)
    requires Inv(s) && c < |s.cpus| && s.cpus[c].curr.Some?
    ensures s.cpus[c].curr.value !in s.cpus[c].queue
  {
    var t := s.cpus[c].curr.value;
    OwnWithin(s.cpus, c);
    Apart(s, t);
    assert Own(s.cpus[c])[t] == multiset(s.cpus[c].queue)[t] + 1;
  }
}
