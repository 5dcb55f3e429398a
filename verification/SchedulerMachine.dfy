/** sched/sched.c and sched/thread.c on the kernel's linked lists: every run queue, thread list and
    wait list is a list of nodes, and each call is the transition of the model on what they hold. */
module SchedulerMachine {
  import opened Division
  import opened Options
  import opened Runs
  import opened LinkedList
  import opened ListPool
  import opened Semaphores
  import opened Scheduler
  import SchedulerRuns

  // ---------------------------------------------------------------- what the lists stand for

  /** The two counters of sem_t. */
  datatype Counter = Counter(max: nat, cnt: nat)

  /** With n CPUs, list c is the run queue of CPU c, list n + c its thread list, and list 2n + i the
      wait list of semaphore i. */
  ghost predicate Reflects(s: Sys, n: nat, vals: seq<seq<Tid>>, curr: seq<Option<Tid>>,
                           st: map<Tid, ThreadState>, sems: seq<Counter>)
  {
    && |s.cpus| == |curr| == n && |s.sems| == |sems| && |vals| == 2 * n + |sems| && s.st == st
    && (forall c :: 0 <= c < n ==> s.cpus[c] == Cpu(|vals[n + c]|, vals[c], curr[c]))
    && (forall i :: 0 <= i < |sems| ==> s.sems[i] == Sem(sems[i].max, sems[i].cnt, vals[2 * n + i]))
  }

  /** The second half of schedule. */
  function Take(s: Sys, c: nat): Sys
    requires c < |s.cpus|
  {
    var cpu := s.cpus[c];
    if cpu.queue == [] then s
    else s.(cpus := s.cpus[c := cpu.(queue := cpu.queue[1..], curr := Some(cpu.queue[0]))],
            st := s.st[cpu.queue[0] := Running])
  }

  /** A thread joins a wait list. */
  function Waited(s: Sys, i: nat, t: Tid): Sys
    requires i < |s.sems|
  {
    s.(sems := s.sems[i := s.sems[i].(wait := s.sems[i].wait + [t])], st := s.st[t := WaitLock])
  }

  /** A thread joins a run queue. */
  function Queued(s: Sys, c: nat, t: Tid, state: ThreadState): Sys
    requires c < |s.cpus|
  {
    s.(cpus := s.cpus[c := s.cpus[c].(queue := s.cpus[c].queue + [t])], st := s.st[t := state])
  }

  lemma QueuedShows(s: Sys, n: nat, vals: seq<seq<Tid>>, curr: seq<Option<Tid>>, st: map<Tid, ThreadState>,
                    sems: seq<Counter>, c: nat, t: Tid, state: ThreadState)
    requires Reflects(s, n, vals, curr, st, sems) && c < n
    ensures Reflects(Queued(s, c, t, state), n, vals[c := vals[c] + [t]], curr, st[t := state], sems)
  {
  }

  /** The current thread still runs. */
  predicate Goes(curr: seq<Option<Tid>>, st: map<Tid, ThreadState>, c: nat)
    requires c < |curr|
  {
    curr[c].Some? && curr[c].value in st && st[curr[c].value] == Running
  }

  lemma RequeueShows(s: Sys, n: nat, vals: seq<seq<Tid>>, curr: seq<Option<Tid>>, st: map<Tid, ThreadState>,
                     sems: seq<Counter>, c: nat)
    requires Reflects(s, n, vals, curr, st, sems) && c < n
    ensures !Goes(curr, st, c) ==> Requeue(s, c) == s
    ensures Goes(curr, st, c) ==> var t := curr[c].value;
      Reflects(Requeue(s, c), n, vals[c := vals[c] + [t]], curr, st[t := Ready], sems)
  {
    assert s.cpus[c] == Cpu(|vals[n + c]|, vals[c], curr[c]);
    if Goes(curr, st, c) {
      QueuedShows(s, n, vals, curr, st, sems, c, curr[c].value, Ready);
    }
  }

  lemma TakeShows(s: Sys, n: nat, vals: seq<seq<Tid>>, curr: seq<Option<Tid>>, st: map<Tid, ThreadState>,
                  sems: seq<Counter>, c: nat)
    requires Reflects(s, n, vals, curr, st, sems) && c < n
    ensures vals[c] == [] ==> Take(s, c) == s
    ensures vals[c] != [] ==>
      Reflects(Take(s, c), n, vals[c := vals[c][1..]], curr[c := Some(vals[c][0])], st[vals[c][0] := Running], sems)
  {
    assert s.cpus[c] == Cpu(|vals[n + c]|, vals[c], curr[c]);
  }

  /** The lists after a thread has joined both of a CPU. */
  function Enlisted(vals: seq<seq<Tid>>, n: nat, c: nat, t: Tid): seq<seq<Tid>>
    requires n + c < |vals|
  {
    vals[n + c := vals[n + c] + [t]][c := vals[c] + [t]]
  }

  lemma SpawnShows(s: Sys, n: nat, vals: seq<seq<Tid>>, curr: seq<Option<Tid>>, st: map<Tid, ThreadState>,
                   sems: seq<Counter>, c: nat, t: Tid)
    requires Reflects(s, n, vals, curr, st, sems) && n > 0 && c == LeastLoaded(s.cpus)
    ensures Reflects(SpawnStep(s, t), n, Enlisted(vals, n, c, t), curr, st[t := Ready], sems)
  {
  }

  lemma WaitedShows(s: Sys, n: nat, vals: seq<seq<Tid>>, curr: seq<Option<Tid>>, st: map<Tid, ThreadState>,
                    sems: seq<Counter>, i: nat, k: nat, t: Tid)
    requires Reflects(s, n, vals, curr, st, sems) && i < |sems| && k == 2 * n + i
    ensures Reflects(Waited(s, i, t), n, vals[k := vals[k] + [t]], curr, st[t := WaitLock], sems)
  {
  }

  lemma HandoffShows(s: Sys, n: nat, vals: seq<seq<Tid>>, curr: seq<Option<Tid>>, st: map<Tid, ThreadState>,
                     sems: seq<Counter>, i: nat)
    requires Reflects(s, n, vals, curr, st, sems) && i < |sems| && vals[2 * n + i] != []
    ensures Reflects(s.(sems := s.sems[i := Release(s.sems[i]).0]), n, vals[2 * n + i := vals[2 * n + i][1..]], curr,
                     st, sems)
  {
  }

  lemma CountShows(s: Sys, n: nat, vals: seq<seq<Tid>>, curr: seq<Option<Tid>>, st: map<Tid, ThreadState>,
                   sems: seq<Counter>, i: nat, cnt: nat)
    requires Reflects(s, n, vals, curr, st, sems) && i < |sems|
    ensures Reflects(s.(sems := s.sems[i := s.sems[i].(cnt := cnt)]), n, vals, curr, st,
                     sems[i := sems[i].(cnt := cnt)])
  {
  }

  lemma Shown(s: Sys, n: nat, vals: seq<seq<Tid>>, curr: seq<Option<Tid>>, st: map<Tid, ThreadState>,
              sems: seq<Counter>, c: nat, i: nat)
    requires Reflects(s, n, vals, curr, st, sems) && c < n && i < |sems|
    ensures s.cpus[c] == Cpu(|vals[n + c]|, vals[c], curr[c])
    ensures s.sems[i] == Sem(sems[i].max, sems[i].cnt, vals[2 * n + i])
  {
  }

  lemma Shortest(s: Sys, n: nat, vals: seq<seq<Tid>>, curr: seq<Option<Tid>>, st: map<Tid, ThreadState>,
                 sems: seq<Counter>, cpu: nat)
    requires Reflects(s, n, vals, curr, st, sems) && cpu < n
    requires forall k :: n <= k < n + n ==> |vals[n + cpu]| <= |vals[k]|
    requires forall k :: n <= k < n + cpu ==> |vals[n + cpu]| < |vals[k]|
    ensures cpu == LeastLoaded(s.cpus)
  {
    var l := LeastLoaded(s.cpus);
    assert s.cpus[cpu].load == |vals[n + cpu]| && s.cpus[l].load == |vals[n + l]|;
  }

  // ---------------------------------------------------------------- the code

  class Kernel {
    const n: nat  // cpu_count
    var lists: seq<List<Tid>>
    var curr: seq<Option<Tid>>
    var st: map<Tid, ThreadState>
    var sems: seq<Counter>
    ghost var sys: Sys              // the state of the model
    ghost var vals: seq<seq<Tid>>   // what the lists hold
    ghost var repr: set<Node<Tid>>  // the nodes of all lists

    ghost predicate Pooled()
      reads this, lists, repr
    {
      Separate(lists, repr, vals)
    }

    ghost predicate Valid()
      reads this, lists, repr
    {
      Pooled() && Reflects(sys, n, vals, curr, st, sems)
    }

    /** n CPUs with nothing to run, as smp_init leaves them. */
    constructor (n: nat)
      ensures Valid() && this.n == n && SchedulerRuns.Idle(sys) && |sys.cpus| == n && sys.sems == []
      ensures fresh(lists) && fresh(repr)
    {
      var made := Make(2 * n);
      this.n, lists, curr, st, sems := n, made, seq(n, _ => None), map[], [];
      sys, vals, repr := Sys(seq(n, _ => Cpu(0, [], None)), map[], [], []), seq(2 * n, _ => []), {};
    }

    method Link(k: nat, t: Tid)
      requires Pooled() && k < |lists|
      modifies this`vals, this`repr, lists[k], repr
      ensures Pooled() && vals == old(vals)[k := old(vals)[k] + [t]] && fresh(repr - old(repr))
    {
      repr := Push(lists, repr, vals, k, t);
      vals := vals[k := vals[k] + [t]];
    }

    /** The thread gets a new state and joins one of the lists. */
    method Append(k: nat, t: Tid, state: ThreadState)
      requires Pooled() && k < |lists|
      modifies this`st, this`vals, this`repr, lists[k], repr
      ensures Pooled() && st == old(st)[t := state] && vals == old(vals)[k := old(vals)[k] + [t]]
      ensures fresh(repr - old(repr))
    {
      st := st[t := state];
      Link(k, t);
    }

    method Remove(k: nat) returns (t: Tid)
      requires Pooled() && k < |lists| && vals[k] != []
      modifies this`vals, lists[k], repr
      ensures Pooled() && t == old(vals)[k][0] && vals == old(vals)[k := old(vals)[k][1..]]
    {
      Heads(lists, repr, vals);
      t := Pop(lists, repr, vals, k);
      vals := vals[k := vals[k][1..]];
    }

    method Resume(c: nat)
      requires Pooled() && c < |lists| && c < |curr| && vals[c] != []
      modifies this`curr, this`st, this`vals, lists[c], repr
      ensures Pooled() && vals == old(vals)[c := old(vals)[c][1..]]
      ensures curr == old(curr)[c := Some(old(vals)[c][0])] && st == old(st)[old(vals)[c][0] := Running]
    {
      var t := Remove(c);
      curr, st := curr[c := Some(t)], st[t := Running];
    }

    /** The first half of schedule: a current thread that still runs goes to the back of the queue. */
    method GiveUp(c: nat)
      requires Valid() && c < n
      modifies this`st, this`sys, this`vals, this`repr, lists[c], repr
      ensures Valid() && sys == Requeue(old(sys), c) && fresh(repr - old(repr))
    {
      RequeueShows(sys, n, vals, curr, st, sems, c);
      if Goes(curr, st, c) {
        Append(c, curr[c].value, Ready);
        sys := Requeue(sys, c);
      }
    }

    /** The second half: the head of the queue runs next. */
    method Dispatch(c: nat)
      requires Valid() && c < n
      modifies this`curr, this`st, this`sys, this`vals, lists[c], repr
      ensures Valid() && sys == Take(old(sys), c)
    {
      Heads(lists, repr, vals);
      TakeShows(sys, n, vals, curr, st, sems, c);
      if lists[c].head != null {
        Resume(c);
        sys := Take(sys, c);
      }
    }

    /** schedule */
    method Schedule(c: nat)
      requires Valid() && c < n
      modifies this`curr, this`st, this`sys, this`vals, this`repr, lists, repr
      ensures Valid() && sys == Scheduler.Schedule(old(sys), c) && fresh(repr - old(repr))
    {
      GiveUp(c);
      Dispatch(c);
    }

    /** The loop of thread_spawn: the first CPU with the shortest thread list. */
    method LeastBusy() returns (cpu: nat)
      requires Valid() && n > 0
      ensures cpu == LeastLoaded(sys.cpus)
    {
      Heads(lists, repr, vals);
      cpu := 0;
      for i := 1 to n
        invariant cpu < i && forall k :: n <= k < n + i ==> |vals[n + cpu]| <= |vals[k]|
        invariant forall k :: n <= k < n + cpu ==> |vals[n + cpu]| < |vals[k]|
      {
        if lists[n + i].cnt < lists[n + cpu].cnt {
          cpu := i;
        }
      }
      Shortest(sys, n, vals, curr, st, sems, cpu);
    }

    /** The two pushes of thread_spawn; thread_creat had set the state. */
    method Enlist(c: nat, k: nat, t: Tid)
      requires Pooled() && 0 < n && k == n + c < |lists|
      modifies this`st, this`vals, this`repr, lists[c], lists[k], repr
      ensures Pooled() && st == old(st)[t := Ready] && vals == Enlisted(old(vals), n, c, t) && fresh(repr - old(repr))
    {
      Link(k, t);
      Append(c, t, Ready);
    }

    method SpawnOn(c: nat, k: nat, t: Tid)
      requires Valid() && n > 0 && c == LeastLoaded(sys.cpus) && k == n + c
      modifies this`st, this`sys, this`vals, this`repr, lists[c], lists[k], repr
      ensures Valid() && sys == SpawnStep(old(sys), t) && fresh(repr - old(repr))
    {
      SpawnShows(sys, n, vals, curr, st, sems, c, t);
      Enlist(c, k, t);
      sys := SpawnStep(sys, t);
    }

    /** thread_spawn */
    method Spawn(t: Tid)
      requires Valid() && n > 0
      modifies this`st, this`sys, this`vals, this`repr, lists, repr
      ensures Valid() && sys == SpawnStep(old(sys), t) && fresh(repr - old(repr))
    {
      var c := LeastBusy();
      SpawnOn(c, n + c, t);
    }

    /** sem_create */
    method SemCreate(max: nat) returns (i: nat)
      requires Valid()
      modifies this`lists, this`sems, this`sys, this`vals
      ensures Valid() && i == |old(sems)| && sys == old(sys).(sems := old(sys).sems + [Sem(max, 0, [])])
      ensures |lists| == |old(lists)| + 1 && lists[..|old(lists)|] == old(lists) && fresh(lists[|old(lists)|])
    {
      i := |sems|;
      var l := Add(lists, repr, vals);
      lists, vals, sems := lists + [l], vals + [[]], sems + [Counter(max, 0)];
      sys := sys.(sems := sys.sems + [Sem(max, 0, [])]);
    }

    method SetCount(i: nat, cnt: nat)
      requires Valid() && i < |sems|
      modifies this`sems, this`sys
      ensures Valid() && sys == old(sys).(sems := old(sys).sems[i := old(sys).sems[i].(cnt := cnt)])
    {
      CountShows(sys, n, vals, curr, st, sems, i, cnt);
      sems := sems[i := sems[i].(cnt := cnt)];
      sys := sys.(sems := sys.sems[i := sys.sems[i].(cnt := cnt)]);
    }

    /** The thread joins the wait list. */
    method Wait(i: nat, k: nat, t: Tid)
      requires Valid() && i < |sems| && k == 2 * n + i
      modifies this`st, this`sys, this`vals, this`repr, lists[k], repr
      ensures Valid() && sys == Waited(old(sys), i, t) && fresh(repr - old(repr))
    {
      WaitedShows(sys, n, vals, curr, st, sems, i, k, t);
      Append(k, t, WaitLock);
      sys := Waited(sys, i, t);
    }

    /** The blocking half of sem_acquire. */
    method Block(c: nat, i: nat, t: Tid)
      requires Valid() && c < n && i < |sems|
      modifies this`curr, this`st, this`sys, this`vals, this`repr, lists, repr
      ensures Valid() && sys == Scheduler.Schedule(Waited(old(sys), i, t), c) && fresh(repr - old(repr))
    {
      Wait(i, 2 * n + i, t);
      Schedule(c);
    }

    /** sem_acquire by the thread that runs on c */
    method SemAcquire(c: nat, i: nat)
      requires Valid() && c < n && i < |sems| && sys.cpus[c].curr.Some?
      modifies this`curr, this`st, this`sems, this`sys, this`vals, this`repr, lists, repr
      ensures Valid() && sys == AcquireStep(old(sys), c, i) && fresh(repr - old(repr))
    {
      Shown(sys, n, vals, curr, st, sems, c, i);
      if sems[i].cnt < sems[i].max {
        SetCount(i, sems[i].cnt + 1);
      } else {
        Block(c, i, curr[c].value);
      }
    }

    /** thread_unblock before the reschedule */
    method Wake(c: nat, w: Tid)
      requires Valid() && c < n
      modifies this`st, this`sys, this`vals, this`repr, lists, repr
      ensures Valid() && sys == Queued(old(sys), c, w, Running) && fresh(repr - old(repr))
      ensures lists[c].cnt == |sys.cpus[c].queue|
    {
      QueuedShows(sys, n, vals, curr, st, sems, c, w, Running);
      Append(c, w, Running);
      sys := Queued(sys, c, w, Running);
      Heads(lists, repr, vals);
      assert sys.cpus[c] == Cpu(|vals[n + c]|, vals[c], curr[c]);
    }

    /** thread_unblock */
    method Unblock(c: nat, w: Tid)
      requires Valid() && c < n
      modifies this`curr, this`st, this`sys, this`vals, this`repr, lists, repr
      ensures Valid() && sys == Scheduler.Unblock(old(sys), c, w) && fresh(repr - old(repr))
    {
      Wake(c, w);
      if lists[c].cnt == 1 {
        Schedule(c);
      }
    }

    /** The first waiter leaves the wait list. */
    method Handoff(i: nat) returns (w: Tid)
      requires Valid() && i < |sems| && vals[2 * n + i] != []
      modifies this`sys, this`vals, lists, repr
      ensures Valid() && Release(old(sys).sems[i]).1 == Some(w)
      ensures sys == old(sys).(sems := old(sys).sems[i := Release(old(sys).sems[i]).0])
    {
      HandoffShows(sys, n, vals, curr, st, sems, i);
      w := Remove(2 * n + i);
      sys := sys.(sems := sys.sems[i := Release(sys.sems[i]).0]);
    }

    /** The waking half of sem_release. */
    method Handover(c: nat, i: nat)
      requires Valid() && c < n && i < |sems| && vals[2 * n + i] != []
      modifies this`curr, this`st, this`sys, this`vals, this`repr, lists, repr
      ensures Valid() && sys == ReleaseStep(old(sys), c, i) && fresh(repr - old(repr))
    {
      var w := Handoff(i);
      Unblock(c, w);
    }

    /** sem_release */
    method SemRelease(c: nat, i: nat)
      requires Valid() && c < n && i < |sems|
      modifies this`curr, this`st, this`sems, this`sys, this`vals, this`repr, lists, repr
      ensures Valid() && sys == ReleaseStep(old(sys), c, i) && fresh(repr - old(repr))
    {
      Heads(lists, repr, vals);
      Shown(sys, n, vals, curr, st, sems, c, i);
      if lists[2 * n + i].head != null {
        Handover(c, i);
      } else {
        SetCount(i, (sems[i].cnt - 1) % UINT32);
      }
    }

    /** thread_exit by the thread that runs on c */
    method Exit(c: nat)
      requires Valid() && c < n && sys.cpus[c].curr.Some?
      modifies this`curr, this`st, this`sys, this`vals, this`repr, lists, repr
      ensures Valid() && sys == ExitStep(old(sys), c) && fresh(repr - old(repr))
    {
      assert sys.cpus[c] == Cpu(|vals[n + c]|, vals[c], curr[c]);
      var t := curr[c].value;
      st := st[t := Killed];
      sys := sys.(st := sys.st[t := Killed], exited := sys.exited + [t]);
      Schedule(c);
    }

    method Perform(x: Step)
      requires Valid() && Enabled(sys, x)
      modifies this`curr, this`st, this`sems, this`sys, this`vals, this`repr, lists, repr
      ensures Valid() && sys == Next(old(sys), x) && fresh(repr - old(repr))
    {
      match x
      case Spawn(t) => Spawn(t);
      case Tick(c) => Schedule(c);
      case SemAcquire(c, i) => SemAcquire(c, i);
      case SemRelease(c, i) => SemRelease(c, i);
      case Exit(c) => Exit(c);
    }

    method Follow(xs: seq<Step>, ghost u: Sys)
      requires Valid() && Run(SchedulerRuns.Move, sys, xs, u)
      modifies this`curr, this`st, this`sems, this`sys, this`vals, this`repr, lists, repr
      ensures Valid() && sys == u && fresh(repr - old(repr))
      decreases |xs|
    {
      if xs != [] {
        RunHead(sys, xs, u);
        Perform(xs[0]);
        Follow(xs[1..], u);
      }
    }

    /** Any run from idle CPUs: the lists follow the model, and every thread spawned is current on one
        CPU, once in one run queue, once in one wait list, or gone. */
    method AnyRun(xs: seq<Step>, ghost u: Sys)
      requires Valid() && SchedulerRuns.Idle(sys) && Run(SchedulerRuns.Move, sys, xs, u)
      modifies this`curr, this`st, this`sems, this`sys, this`vals, this`repr, lists, repr
      ensures Valid() && sys == u && OnePlace(sys) && fresh(repr - old(repr))
    {
      SchedulerRuns.EveryRunOnePlace(sys, xs, u);
      Follow(xs, u);
    }
  }

  lemma RunHead(s: Sys, xs: seq<Step>, u: Sys)
    requires Run(SchedulerRuns.Move, s, xs, u) && xs != []
    ensures Enabled(s, xs[0]) && !Spins(s, xs[0]) && Run(SchedulerRuns.Move, Next(s, xs[0]), xs[1..], u)
  {
    var m :| SchedulerRuns.Move(s, xs[0], m) && Run(SchedulerRuns.Move, m, xs[1..], u);
  }
}
