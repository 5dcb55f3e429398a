/** sched/sched.c and sched/thread.c: per-CPU run queues, blocking on semaphores, and exit. Each
    call, with the reschedule it triggers, is one atomic step. */
module Scheduler {
  import opened Options
  import opened Semaphores

  datatype ThreadState = Running | Ready | WaitLock | Killed

  /** load is threads->cnt. */
  datatype Cpu = Cpu(load: nat, queue: seq<Tid>, curr: Option<Tid>)

  datatype Sys = Sys(cpus: seq<Cpu>, st: map<Tid, ThreadState>, sems: seq<Sem>, exited: seq<Tid>)

  datatype Step =
    | Spawn(t: Tid)
    | Tick(c: nat)
    | SemAcquire(c: nat, i: nat)
    | SemRelease(c: nat, i: nat)
    | Exit(c: nat)

  // ---------------------------------------------------------------- schedule

  /** The current thread, if it has not blocked, goes to the back of the queue. */
  function Requeue(s: Sys, c: nat): Sys
    requires c < |s.cpus|
  {
    var cpu := s.cpus[c];
    if cpu.curr.Some? && cpu.curr.value in s.st && s.st[cpu.curr.value] == Running then
      s.(cpus := s.cpus[c := cpu.(queue := cpu.queue + [cpu.curr.value])], st := s.st[cpu.curr.value := Ready])
    else s
  }

  /** schedule: the head of the queue runs next; with an empty queue the CPU spins and currthread
      stays what it was. */
  function Schedule(s: Sys, c: nat): Sys
    requires c < |s.cpus|
  {
    var s1 := Requeue(s, c);
    var cpu := s1.cpus[c];
    if cpu.queue == [] then s1
    else s1.(cpus := s1.cpus[c := cpu.(queue := cpu.queue[1..], curr := Some(cpu.queue[0]))],
             st := s1.st[cpu.queue[0] := Running])
  }

  // ---------------------------------------------------------------- the steps

  /** The first CPU with the fewest threads. */
  function LeastLoaded(cpus: seq<Cpu>): (l: nat)
    requires |cpus| > 0
    ensures l < |cpus|
    ensures forall k :: 0 <= k < |cpus| ==> cpus[l].load <= cpus[k].load
    ensures forall k :: 0 <= k < l ==> cpus[l].load < cpus[k].load
  {
    if |cpus| == 1 then 0
    else
      var n := |cpus| - 1;
      var l := LeastLoaded(cpus[..n]);
      if cpus[n].load < cpus[l].load then n else l
  }

  function SpawnStep(s: Sys, t: Tid): Sys
    requires |s.cpus| > 0
  {
    var l := LeastLoaded(s.cpus);
    var cpu := s.cpus[l];
    s.(cpus := s.cpus[l := cpu.(load := cpu.load + 1, queue := cpu.queue + [t])], st := s.st[t := Ready])
  }

  function AcquireStep(s: Sys, c: nat, i: nat): Sys
    requires c < |s.cpus| && i < |s.sems| && s.cpus[c].curr.Some?
  {
    var t := s.cpus[c].curr.value;
    var (sem, granted) := Acquire(s.sems[i], t);
    var s1 := s.(sems := s.sems[i := sem]);
    if granted then s1 else Schedule(s1.(st := s1.st[t := WaitLock]), c)
  }

  /** thread_unblock: the woken thread joins the queue of the releasing CPU. */
  function Unblock(s: Sys, c: nat, w: Tid): Sys
    requires c < |s.cpus|
  {
    var s1 := s.(st := s.st[w := Running],
                 cpus := s.cpus[c := s.cpus[c].(queue := s.cpus[c].queue + [w])]);
    if |s1.cpus[c].queue| == 1 then Schedule(s1, c) else s1
  }

  function ReleaseStep(s: Sys, c: nat, i: nat): Sys
    requires c < |s.cpus| && i < |s.sems|
  {
    var (sem, woken) := Release(s.sems[i]);
    var s1 := s.(sems := s.sems[i := sem]);
    if woken.Some? then Unblock(s1, c, woken.value) else s1
  }

  function ExitStep(s: Sys, c: nat): Sys
    requires c < |s.cpus| && s.cpus[c].curr.Some?
  {
    var t := s.cpus[c].curr.value;
    Schedule(s.(st := s.st[t := Killed], exited := s.exited + [t]), c)
  }

  predicate Enabled(s: Sys, x: Step) {
    match x
    case Spawn(t) => t !in s.st && |s.cpus| > 0
    case Tick(c) => c < |s.cpus|
    case SemAcquire(c, i) => c < |s.cpus| && i < |s.sems| && s.cpus[c].curr.Some?
    case SemRelease(c, i) => c < |s.cpus| && i < |s.sems| && s.cpus[c].curr.Some?
    case Exit(c) => c < |s.cpus| && s.cpus[c].curr.Some?
  }

  function Next(s: Sys, x: Step): Sys
    requires Enabled(s, x)
  {
    match x
    case Spawn(t) => SpawnStep(s, t)
    case Tick(c) => Schedule(s, c)
    case SemAcquire(c, i) => AcquireStep(s, c, i)
    case SemRelease(c, i) => ReleaseStep(s, c, i)
    case Exit(c) => ExitStep(s, c)
  }

  // ---------------------------------------------------------------- where the threads are

  function Own(cpu: Cpu): multiset<Tid> {
    multiset(cpu.queue) + if cpu.curr.Some? then multiset{cpu.curr.value} else multiset{}
  }

  function OnCpus(cpus: seq<Cpu>): multiset<Tid> {
    if cpus == [] then multiset{} else Own(cpus[0]) + OnCpus(cpus[1..])
  }

  function Waiting(sems: seq<Sem>): multiset<Tid> {
    if sems == [] then multiset{} else multiset(sems[0].wait) + Waiting(sems[1..])
  }

  /** Every place a thread can be in, with repetitions. */
  function Everyone(s: Sys): multiset<Tid> {
    OnCpus(s.cpus) + Waiting(s.sems) + multiset(s.exited)
  }

  /** One summand exchanged for another. */
  lemma Exchange(h: multiset<Tid>, a: multiset<Tid>, o: multiset<Tid>, b: multiset<Tid>, x: multiset<Tid>)
    requires a + o == b + x
    ensures (h + a) + o == (h + b) + x
  {
    assert (h + a) + o == h + (a + o);
    assert (h + b) + x == h + (b + x);
  }

  lemma Cancel(a: multiset<Tid>, o: multiset<Tid>, b: multiset<Tid>, n: multiset<Tid>, l: multiset<Tid>)
    requires a + o == b + n && n + l == o
    ensures a + l == b
  {
    forall t: Tid ensures (a + l)[t] == b[t] {
      assert (a + o)[t] == (b + n)[t] && (n + l)[t] == o[t];
    }
  }

  lemma {:induction false} OnCpusUpdate(cpus: seq<Cpu>, c: nat, x: Cpu)
    requires c < |cpus|
    ensures OnCpus(cpus[c := x]) + Own(cpus[c]) == OnCpus(cpus) + Own(x)
  {
    var d := cpus[c := x];
    if c == 0 {
      assert d[1..] == cpus[1..];
      var r, o, n := OnCpus(cpus[1..]), Own(cpus[0]), Own(x);
      assert (n + r) + o == (o + r) + n;
    } else {
      OnCpusUpdate(cpus[1..], c - 1, x);
      assert d[1..] == cpus[1..][c - 1 := x];
      Exchange(Own(cpus[0]), OnCpus(d[1..]), Own(cpus[c]), OnCpus(cpus[1..]), Own(x));
    }
  }

  lemma {:induction false} WaitingUpdate(sems: seq<Sem>, i: nat, x: Sem)
    requires i < |sems|
    ensures Waiting(sems[i := x]) + multiset(sems[i].wait) == Waiting(sems) + multiset(x.wait)
  {
    var d := sems[i := x];
    if i == 0 {
      assert d[1..] == sems[1..];
      var r, o, n := Waiting(sems[1..]), multiset(sems[0].wait), multiset(x.wait);
      assert (n + r) + o == (o + r) + n;
    } else {
      WaitingUpdate(sems[1..], i - 1, x);
      assert d[1..] == sems[1..][i - 1 := x];
      Exchange(multiset(sems[0].wait), Waiting(d[1..]), multiset(sems[i].wait), Waiting(sems[1..]), multiset(x.wait));
    }
  }

  lemma {:induction false} OwnWithin(cpus: seq<Cpu>, c: nat)
    requires c < |cpus|
    ensures Own(cpus[c]) <= OnCpus(cpus)
  {
    if c > 0 {
      OwnWithin(cpus[1..], c - 1);
    }
  }

  lemma {:induction false} TwoOwners(cpus: seq<Cpu>, a: nat, b: nat, t: Tid)
    requires a < b < |cpus| && t in Own(cpus[a]) && t in Own(cpus[b])
    ensures OnCpus(cpus)[t] >= 2
  {
    if a == 0 {
      OwnWithin(cpus[1..], b - 1);
    } else {
      TwoOwners(cpus[1..], a - 1, b - 1, t);
    }
  }

  // ---------------------------------------------------------------- the invariant

  /** Each thread's state fits where it is. */
  ghost predicate StatesFit(on: multiset<Tid>, wait: multiset<Tid>, exited: seq<Tid>, st: map<Tid, ThreadState>) {
    && (forall t :: t in on ==> t in st && (st[t] == Ready || st[t] == Running))
    && (forall t :: t in wait ==> t in st && st[t] == WaitLock)
    && (forall t :: t in exited ==> t in st && st[t] == Killed)
  }

  predicate CurrentRuns(cpu: Cpu, st: map<Tid, ThreadState>) {
    cpu.curr.Some? ==> cpu.curr.value in st && st[cpu.curr.value] == Running
  }

  ghost predicate Fits(s: Sys) {
    && StatesFit(OnCpus(s.cpus), Waiting(s.sems), s.exited, s.st)
    && forall c :: 0 <= c < |s.cpus| ==> CurrentRuns(s.cpus[c], s.st)
  }

  /** Every thread spawned is in exactly one place: current on one CPU, once in one run queue, once
      in one wait list, or exited. */
  ghost predicate OnePlace(s: Sys) {
    Everyone(s) == multiset(s.st.Keys)
  }

  ghost predicate Inv(s: Sys) {
    OnePlace(s) && Fits(s)
  }

  /** The step blocks or ends the current thread and no other is ready: the CPU spins with the old
      thread still current. */
  predicate Spins(s: Sys, x: Step)
    requires Enabled(s, x)
  {
    match x
    case SemAcquire(c, i) => s.sems[i].cnt >= s.sems[i].max && s.cpus[c].queue == []
    case Exit(c) => s.cpus[c].queue == []
    case _ => false
  }

  // ---------------------------------------------------------------- schedule keeps it

  /** What schedule does to one CPU whose current thread is runnable or gone. */
  function Rotated(cpu: Cpu, runnable: bool): Cpu {
    var q := if runnable && cpu.curr.Some? then cpu.queue + [cpu.curr.value] else cpu.queue;
    if q == [] then cpu else cpu.(queue := q[1..], curr := Some(q[0]))
  }

  predicate Runnable(s: Sys, c: nat)
    requires c < |s.cpus|
  {
    s.cpus[c].curr.Some? && s.cpus[c].curr.value in s.st && s.st[s.cpus[c].curr.value] == Running
  }

  /** The queue the next thread is taken from. */
  function ReadyQueue(cpu: Cpu, runnable: bool): seq<Tid> {
    if runnable && cpu.curr.Some? then cpu.queue + [cpu.curr.value] else cpu.queue
  }

  lemma ScheduleRotates(s: Sys, c: nat)
    requires c < |s.cpus|
    ensures Schedule(s, c).cpus == s.cpus[c := Rotated(s.cpus[c], Runnable(s, c))]
    ensures Schedule(s, c).sems == s.sems && Schedule(s, c).exited == s.exited
    ensures var q := ReadyQueue(s.cpus[c], Runnable(s, c));
      Schedule(s, c).st.Keys == s.st.Keys + if q == [] then {} else {q[0]}
    ensures forall t :: t in s.st ==>
      var q := ReadyQueue(s.cpus[c], Runnable(s, c));
      Schedule(s, c).st[t] ==
        if q != [] && t == q[0] then Running else if Runnable(s, c) && t == s.cpus[c].curr.value then Ready else s.st[t]
  {
  }

  /** A runnable current thread stays on the CPU; one that is not leaves it when another is ready. */
  lemma RotatedOwn(cpu: Cpu, runnable: bool)
    ensures runnable || cpu.curr.None? ==> Own(Rotated(cpu, runnable)) == Own(cpu)
    ensures !runnable && cpu.curr.Some? && cpu.queue != [] ==>
      Own(Rotated(cpu, runnable)) + multiset{cpu.curr.value} == Own(cpu)
  {
    var q := ReadyQueue(cpu, runnable);
    if q != [] {
      assert q == [q[0]] + q[1..];
      assert multiset(q) == multiset{q[0]} + multiset(q[1..]);
      assert Own(Rotated(cpu, runnable)) == multiset(q);
    }
  }

  /** The current thread of c has blocked or ended but is still current. */
  predicate Leaving(s: Sys, c: nat)
    requires c < |s.cpus|
  {
    s.cpus[c].curr.Some? && !Runnable(s, c)
  }

  function LeavingThread(s: Sys, c: nat): multiset<Tid>
    requires c < |s.cpus|
  {
    if Leaving(s, c) then multiset{s.cpus[c].curr.value} else multiset{}
  }

  /** As Inv, but the current thread of c may have just blocked or ended. */
  ghost predicate AlmostInv(s: Sys, c: nat)
    requires c < |s.cpus|
  {
    && Everyone(s) == multiset(s.st.Keys) + LeavingThread(s, c)
    && StatesFit(OnCpus(s.cpus) - LeavingThread(s, c), Waiting(s.sems), s.exited, s.st)
    && (forall d :: 0 <= d < |s.cpus| && d != c ==> CurrentRuns(s.cpus[d], s.st))
    && (Leaving(s, c) ==> s.cpus[c].curr.value in Waiting(s.sems) || s.cpus[c].curr.value in s.exited)
  }

  /** Threads move between queue and CPU; nobody is lost and nobody is duplicated. */
  lemma ScheduleConserves(s: Sys, c: nat)
    requires c < |s.cpus| && (Leaving(s, c) ==> s.cpus[c].queue != [])
    ensures OnCpus(Schedule(s, c).cpus) + LeavingThread(s, c) == OnCpus(s.cpus)
  {
    ScheduleRotates(s, c);
    var old_, new_ := s.cpus[c], Rotated(s.cpus[c], Runnable(s, c));
    OnCpusUpdate(s.cpus, c, new_);
    RotatedOwn(old_, Runnable(s, c));
    assert Own(new_) + LeavingThread(s, c) == Own(old_);
    Cancel(OnCpus(Schedule(s, c).cpus), Own(old_), OnCpus(s.cpus), Own(new_), LeavingThread(s, c));
  }

  lemma ReadyQueueOwned(s: Sys, c: nat)
    requires c < |s.cpus|
    ensures var q := ReadyQueue(s.cpus[c], Runnable(s, c)); q != [] ==> q[0] in OnCpus(s.cpus)
    ensures s.cpus[c].curr.Some? ==> s.cpus[c].curr.value in OnCpus(s.cpus)
  {
    OwnWithin(s.cpus, c);
    var q := ReadyQueue(s.cpus[c], Runnable(s, c));
    if q != [] {
      assert q[0] in Own(s.cpus[c]);
    }
  }

  /** Nobody is counted in two kinds of places once the leaving thread has gone. */
  lemma CountsApart(a: multiset<Tid>, w: multiset<Tid>, e: multiset<Tid>, keys: set<Tid>, t: Tid)
    requires a + w + e == multiset(keys)
    ensures a[t] + w[t] + e[t] <= 1
  {
    assert (a + w + e)[t] == multiset(keys)[t];
  }

  lemma ScheduleKeys(s: Sys, c: nat)
    requires c < |s.cpus| && AlmostInv(s, c)
    ensures Schedule(s, c).st.Keys == s.st.Keys
  {
    ScheduleRotates(s, c);
    ReadyQueueOwned(s, c);
  }

  lemma ScheduleOnePlace(s: Sys, c: nat)
    requires c < |s.cpus| && AlmostInv(s, c) && (Leaving(s, c) ==> s.cpus[c].queue != [])
    ensures OnePlace(Schedule(s, c))
  {
    ScheduleKeys(s, c);
    ScheduleConserves(s, c);
    var u := Schedule(s, c);
    assert u.sems == s.sems && u.exited == s.exited by { ScheduleRotates(s, c); }
    Regroup(OnCpus(u.cpus), LeavingThread(s, c), OnCpus(s.cpus), Waiting(s.sems), multiset(s.exited),
            multiset(s.st.Keys));
  }

  lemma Regroup(a: multiset<Tid>, l: multiset<Tid>, b: multiset<Tid>, w: multiset<Tid>, e: multiset<Tid>,
                k: multiset<Tid>)
    requires a + l == b && b + w + e == k + l
    ensures a + w + e == k
  {
    forall t: Tid ensures (a + w + e)[t] == k[t] {
      assert (a + l)[t] == b[t] && (b + w + e)[t] == (k + l)[t];
    }
  }

  /** One thread after schedule: on a CPU it is ready or running, elsewhere its state is unchanged. */
  lemma ScheduleThread(s: Sys, c: nat, t: Tid)
    requires c < |s.cpus| && AlmostInv(s, c) && (Leaving(s, c) ==> s.cpus[c].queue != [])
    ensures var u := Schedule(s, c);
      && u.sems == s.sems && u.exited == s.exited
      && (t in OnCpus(u.cpus) ==> t in u.st && (u.st[t] == Ready || u.st[t] == Running))
      && (t in Waiting(s.sems) || t in s.exited ==> t in u.st && u.st[t] == s.st[t])
  {
    var u := Schedule(s, c);
    ScheduleKeys(s, c);
    ScheduleRotates(s, c);
    ScheduleConserves(s, c);
    ReadyQueueOwned(s, c);
    ScheduleOnePlace(s, c);
    CountsApart(OnCpus(u.cpus), Waiting(u.sems), multiset(u.exited), u.st.Keys, t);
    var l := LeavingThread(s, c);
    assert OnCpus(u.cpus)[t] + l[t] == OnCpus(s.cpus)[t];
    assert t in s.exited <==> multiset(s.exited)[t] > 0;
    KeptOnCpu(s, c, t);
  }

  /** The next thread and a runnable current thread are on the CPU afterwards. */
  lemma KeptOnCpu(s: Sys, c: nat, t: Tid)
    requires c < |s.cpus|
    ensures var q := ReadyQueue(s.cpus[c], Runnable(s, c));
      (q != [] && t == q[0]) || (Runnable(s, c) && t == s.cpus[c].curr.value) ==> t in OnCpus(Schedule(s, c).cpus)
  {
    ScheduleRotates(s, c);
    OwnWithin(Schedule(s, c).cpus, c);
    RotatedOwn(s.cpus[c], Runnable(s, c));
  }

  lemma ScheduleStatesFit(s: Sys, c: nat)
    requires c < |s.cpus| && AlmostInv(s, c) && (Leaving(s, c) ==> s.cpus[c].queue != [])
    ensures var u := Schedule(s, c); StatesFit(OnCpus(u.cpus), Waiting(u.sems), u.exited, u.st)
  {
    var u := Schedule(s, c);
    var on, wait, exited := OnCpus(u.cpus), Waiting(s.sems), s.exited;
    assert u.sems == s.sems && u.exited == s.exited by { ScheduleRotates(s, c); }
    forall t | t in on ensures t in u.st && (u.st[t] == Ready || u.st[t] == Running) {
      ScheduleThread(s, c, t);
    }
    forall t | t in wait ensures t in u.st && u.st[t] == WaitLock {
      ScheduleThread(s, c, t);
    }
    forall t | t in exited ensures t in u.st && u.st[t] == Killed {
      ScheduleThread(s, c, t);
    }
  }

  lemma ScheduleFits(s: Sys, c: nat)
    requires c < |s.cpus| && AlmostInv(s, c) && (Leaving(s, c) ==> s.cpus[c].queue != [])
    ensures Fits(Schedule(s, c))
  {
    ScheduleStatesFit(s, c);
    var u := Schedule(s, c);
    forall d | 0 <= d < |u.cpus| ensures CurrentRuns(u.cpus[d], u.st) {
      ScheduleRotates(s, c);
      OtherCurrent(s, c, d);
    }
  }

  lemma OtherCurrent(s: Sys, c: nat, d: nat)
    requires c < |s.cpus| && d < |s.cpus| && AlmostInv(s, c) && (Leaving(s, c) ==> s.cpus[c].queue != [])
    ensures var u := Schedule(s, c);
      |u.cpus| == |s.cpus| && CurrentRuns(u.cpus[d], u.st)
  {
    var u := Schedule(s, c);
    ScheduleRotates(s, c);
    ScheduleKeys(s, c);
    ScheduleOnePlace(s, c);
    if u.cpus[d].curr.Some? && d != c {
      assert CurrentRuns(s.cpus[d], s.st);
      var t := u.cpus[d].curr.value;
      assert t in Own(u.cpus[d]);
      OwnWithin(u.cpus, d);
      assert (OnCpus(u.cpus) + Waiting(u.sems) + multiset(u.exited))[t] == multiset(u.st.Keys)[t];
      if Runnable(s, c) && t == s.cpus[c].curr.value {
        assert t in Own(u.cpus[c]) by { RotatedOwn(s.cpus[c], true); }
        if c < d { TwoOwners(u.cpus, c, d, t); } else { TwoOwners(u.cpus, d, c, t); }
      }
    }
  }

  lemma ScheduleKeeps(s: Sys, c: nat)
    requires c < |s.cpus| && AlmostInv(s, c) && (Leaving(s, c) ==> s.cpus[c].queue != [])
    ensures Inv(Schedule(s, c))
  {
    ScheduleOnePlace(s, c);
    ScheduleFits(s, c);
  }

  // ---------------------------------------------------------------- each step keeps it

  lemma InvAlmost(s: Sys, c: nat)
    requires Inv(s) && c < |s.cpus|
    ensures AlmostInv(s, c) && !Leaving(s, c)
  {
    assert multiset(s.st.Keys) + multiset{} == multiset(s.st.Keys);
  }

  /** In a state with one place each, nobody is in two kinds of places. */
  lemma Apart(s: Sys, t: Tid)
    requires OnePlace(s)
    ensures OnCpus(s.cpus)[t] + Waiting(s.sems)[t] + multiset(s.exited)[t] <= 1
    ensures t in s.st <==> OnCpus(s.cpus)[t] + Waiting(s.sems)[t] + multiset(s.exited)[t] == 1
  {
    assert Everyone(s)[t] == multiset(s.st.Keys)[t];
  }

  lemma CurrentOnCpu(s: Sys, c: nat)
    requires c < |s.cpus| && s.cpus[c].curr.Some?
    ensures s.cpus[c].curr.value in OnCpus(s.cpus)
  {
    OwnWithin(s.cpus, c);
  }

  /** Two CPUs never run the same thread. */
  lemma CurrentsDiffer(s: Sys, c: nat, d: nat)
    requires Inv(s) && c < |s.cpus| && d < |s.cpus| && c != d && s.cpus[c].curr.Some? && s.cpus[d].curr.Some?
    ensures s.cpus[c].curr.value != s.cpus[d].curr.value
  {
    var t := s.cpus[c].curr.value;
    if t == s.cpus[d].curr.value {
      Apart(s, t);
      if c < d { TwoOwners(s.cpus, c, d, t); } else { TwoOwners(s.cpus, d, c, t); }
    }
  }

  lemma Cancel2(a: multiset<Tid>, o: multiset<Tid>, b: multiset<Tid>, x: multiset<Tid>)
    requires a + o == b + (o + x)
    ensures a == b + x
  {
    forall t: Tid ensures a[t] == (b + x)[t] {
      assert (a + o)[t] == (b + (o + x))[t];
    }
  }

  /** A thread appended to a queue, whatever else changes on that CPU. */
  lemma Append(cpus: seq<Cpu>, c: nat, x: Cpu, t: Tid)
    requires c < |cpus| && x.queue == cpus[c].queue + [t] && x.curr == cpus[c].curr
    ensures OnCpus(cpus[c := x]) == OnCpus(cpus) + multiset{t}
  {
    OnCpusUpdate(cpus, c, x);
    OwnAppend(cpus[c], x, t);
    Cancel2(OnCpus(cpus[c := x]), Own(cpus[c]), OnCpus(cpus), multiset{t});
  }

  lemma OwnAppend(cpu: Cpu, x: Cpu, t: Tid)
    requires x.queue == cpu.queue + [t] && x.curr == cpu.curr
    ensures Own(x) == Own(cpu) + multiset{t}
  {
    var q, r := multiset(cpu.queue), if cpu.curr.Some? then multiset{cpu.curr.value} else multiset{};
    assert multiset(x.queue) == q + multiset{t};
    assert (q + multiset{t}) + r == (q + r) + multiset{t};
  }

  lemma OneMore(a: multiset<Tid>, w: multiset<Tid>, e: multiset<Tid>, k: multiset<Tid>, t: Tid)
    requires a + w + e == k
    ensures (a + multiset{t}) + w + e == k + multiset{t}
    ensures a + (w + multiset{t}) + e == k + multiset{t}
    ensures a + w + (e + multiset{t}) == k + multiset{t}
  {
    assert (a + multiset{t}) + w + e == (a + w + e) + multiset{t};
    assert a + (w + multiset{t}) + e == (a + w + e) + multiset{t};
    assert a + w + (e + multiset{t}) == (a + w + e) + multiset{t};
  }

  lemma OneMoved(a: multiset<Tid>, w: multiset<Tid>, e: multiset<Tid>, w': multiset<Tid>, t: Tid)
    requires w' + multiset{t} == w
    ensures (a + multiset{t}) + w' + e == a + w + e
  {
    assert (a + multiset{t}) + w' + e == a + (w' + multiset{t}) + e;
  }

  lemma KeysAdd(st: map<Tid, ThreadState>, t: Tid, x: ThreadState)
    requires t !in st
    ensures multiset(st[t := x].Keys) == multiset(st.Keys) + multiset{t}
  {
    assert st[t := x].Keys == st.Keys + {t};
  }

  lemma SpawnOnePlace(s: Sys, t: Tid)
    requires OnePlace(s) && t !in s.st && |s.cpus| > 0
    ensures OnePlace(SpawnStep(s, t)) && OnCpus(SpawnStep(s, t).cpus) == OnCpus(s.cpus) + multiset{t}
  {
    var l := LeastLoaded(s.cpus);
    Append(s.cpus, l, SpawnStep(s, t).cpus[l], t);
    OneMore(OnCpus(s.cpus), Waiting(s.sems), multiset(s.exited), multiset(s.st.Keys), t);
    KeysAdd(s.st, t, Ready);
  }

  lemma SpawnFits(on: multiset<Tid>, wait: multiset<Tid>, exited: seq<Tid>, st: map<Tid, ThreadState>, t: Tid)
    requires StatesFit(on, wait, exited, st) && t !in st
    ensures StatesFit(on + multiset{t}, wait, exited, st[t := Ready])
  {
  }

  lemma SpawnKeeps(s: Sys, t: Tid)
    requires Inv(s) && t !in s.st && |s.cpus| > 0
    ensures Inv(SpawnStep(s, t))
  {
    var u := SpawnStep(s, t);
    SpawnOnePlace(s, t);
    SpawnFits(OnCpus(s.cpus), Waiting(s.sems), s.exited, s.st, t);
    forall d | 0 <= d < |u.cpus| ensures CurrentRuns(u.cpus[d], u.st) {
      assert CurrentRuns(s.cpus[d], s.st) && u.cpus[d].curr == s.cpus[d].curr;
    }
  }

  lemma GrantKeeps(s: Sys, i: nat, sem: Sem)
    requires Inv(s) && i < |s.sems| && sem.wait == s.sems[i].wait
    ensures Inv(s.(sems := s.sems[i := sem]))
  {
    WaitingUpdate(s.sems, i, sem);
    Cancel2(Waiting(s.sems[i := sem]), multiset(sem.wait), Waiting(s.sems), multiset{});
    assert Waiting(s.sems) + multiset{} == Waiting(s.sems);
  }

  /** The current thread has joined a wait list or the exited and changed state. */
  ghost predicate Left(s: Sys, c: nat, u: Sys)
    requires c < |s.cpus| && s.cpus[c].curr.Some?
  {
    var t := s.cpus[c].curr.value;
    && u.cpus == s.cpus
    && (|| (u.st == s.st[t := WaitLock] && Waiting(u.sems) == Waiting(s.sems) + multiset{t} && u.exited == s.exited)
        || (u.st == s.st[t := Killed] && u.sems == s.sems && u.exited == s.exited + [t]))
  }

  lemma LeftCounts(s: Sys, c: nat, u: Sys)
    requires Inv(s) && c < |s.cpus| && s.cpus[c].curr.Some? && Left(s, c, u)
    ensures Everyone(u) == multiset(u.st.Keys) + multiset{s.cpus[c].curr.value}
  {
    var t := s.cpus[c].curr.value;
    assert t in s.st && u.st.Keys == s.st.Keys;
    OneMore(OnCpus(s.cpus), Waiting(s.sems), multiset(s.exited), multiset(s.st.Keys), t);
    assert multiset(s.exited + [t]) == multiset(s.exited) + multiset{t};
  }

  lemma LeaveFits(on: multiset<Tid>, wait: multiset<Tid>, exited: seq<Tid>, st: map<Tid, ThreadState>, t: Tid)
    requires StatesFit(on, wait, exited, st) && t in on && on[t] + wait[t] + multiset(exited)[t] <= 1
    ensures StatesFit(on - multiset{t}, wait + multiset{t}, exited, st[t := WaitLock])
    ensures StatesFit(on - multiset{t}, wait, exited + [t], st[t := Killed])
  {
    assert t !in wait && t !in exited by {
      assert t in exited <==> multiset(exited)[t] > 0;
    }
  }

  lemma LeaveAlmost(s: Sys, c: nat, u: Sys)
    requires Inv(s) && c < |s.cpus| && s.cpus[c].curr.Some? && Left(s, c, u)
    ensures AlmostInv(u, c) && Leaving(u, c)
  {
    var t := s.cpus[c].curr.value;
    LeftCounts(s, c, u);
    CurrentOnCpu(s, c);
    Apart(s, t);
    LeaveFits(OnCpus(s.cpus), Waiting(s.sems), s.exited, s.st, t);
    forall d | 0 <= d < |u.cpus| && d != c ensures CurrentRuns(u.cpus[d], u.st) {
      assert CurrentRuns(s.cpus[d], s.st);
      if s.cpus[d].curr.Some? {
        CurrentsDiffer(s, c, d);
      }
    }
  }

  lemma AcquireKeeps(s: Sys, c: nat, i: nat)
    requires Inv(s) && c < |s.cpus| && i < |s.sems| && s.cpus[c].curr.Some?
    requires s.sems[i].cnt < s.sems[i].max || s.cpus[c].queue != []
    ensures Inv(AcquireStep(s, c, i))
  {
    var t := s.cpus[c].curr.value;
    var (sem, granted) := Acquire(s.sems[i], t);
    if granted {
      GrantKeeps(s, i, sem);
    } else {
      WaitingUpdate(s.sems, i, sem);
      assert multiset(sem.wait) == multiset(s.sems[i].wait) + multiset{t};
      Cancel2(Waiting(s.sems[i := sem]), multiset(s.sems[i].wait), Waiting(s.sems), multiset{t});
      var u := s.(sems := s.sems[i := sem], st := s.st[t := WaitLock]);
      LeaveAlmost(s, c, u);
      ScheduleKeeps(u, c);
    }
  }

  lemma ExitKeeps(s: Sys, c: nat)
    requires Inv(s) && c < |s.cpus| && s.cpus[c].curr.Some? && s.cpus[c].queue != []
    ensures Inv(ExitStep(s, c))
  {
    var t := s.cpus[c].curr.value;
    var u := s.(st := s.st[t := Killed], exited := s.exited + [t]);
    LeaveAlmost(s, c, u);
    ScheduleKeeps(u, c);
  }

  /** w has been taken off wait list i and put at the back of the queue of c. */
  ghost predicate Woken(s: Sys, c: nat, i: nat, u: Sys)
    requires c < |s.cpus| && i < |s.sems| && s.sems[i].wait != []
  {
    var w := s.sems[i].wait[0];
    u == s.(sems := s.sems[i := s.sems[i].(wait := s.sems[i].wait[1..])], st := s.st[w := Running],
            cpus := s.cpus[c := s.cpus[c].(queue := s.cpus[c].queue + [w])])
  }

  lemma WakeCounts(s: Sys, c: nat, i: nat, u: Sys)
    requires Inv(s) && c < |s.cpus| && i < |s.sems| && s.sems[i].wait != [] && Woken(s, c, i, u)
    ensures var w := s.sems[i].wait[0];
      && OnCpus(u.cpus) == OnCpus(s.cpus) + multiset{w} && Waiting(u.sems) + multiset{w} == Waiting(s.sems)
      && w in Waiting(s.sems)
  {
    var w := s.sems[i].wait[0];
    var sem := s.sems[i].(wait := s.sems[i].wait[1..]);
    WaitingUpdate(s.sems, i, sem);
    assert s.sems[i].wait == [w] + sem.wait;
    assert multiset(sem.wait) + multiset{w} == multiset(s.sems[i].wait);
    Cancel(Waiting(u.sems), multiset(s.sems[i].wait), Waiting(s.sems), multiset(sem.wait), multiset{w});
    Append(s.cpus, c, u.cpus[c], w);
  }

  lemma WakeKeeps(s: Sys, c: nat, i: nat, u: Sys)
    requires Inv(s) && c < |s.cpus| && i < |s.sems| && s.sems[i].wait != [] && Woken(s, c, i, u)
    ensures Inv(u)
  {
    var w := s.sems[i].wait[0];
    WakeCounts(s, c, i, u);
    OneMoved(OnCpus(s.cpus), Waiting(s.sems), multiset(s.exited), Waiting(u.sems), w);
    assert w in s.st && u.st.Keys == s.st.Keys;
    WakeFits(s, c, u, w);
  }

  lemma WakeStatesFit(on: multiset<Tid>, wait: multiset<Tid>, wait': multiset<Tid>, exited: seq<Tid>,
                      st: map<Tid, ThreadState>, w: Tid)
    requires StatesFit(on, wait, exited, st) && wait' + multiset{w} == wait
    requires on[w] + wait[w] + multiset(exited)[w] <= 1
    ensures StatesFit(on + multiset{w}, wait', exited, st[w := Running])
  {
    assert wait[w] == wait'[w] + 1;
    assert w !in exited by {
      assert w in exited <==> multiset(exited)[w] > 0;
    }
    forall t | t in wait' ensures t in st && st[t] == WaitLock {
      assert t in wait' + multiset{w};
    }
  }

  lemma WakeFits(s: Sys, c: nat, u: Sys, w: Tid)
    requires Inv(s) && c < |s.cpus| && w in Waiting(s.sems) && u.st == s.st[w := Running]
    requires u.cpus == s.cpus[c := s.cpus[c].(queue := s.cpus[c].queue + [w])] && u.exited == s.exited
    requires OnCpus(u.cpus) == OnCpus(s.cpus) + multiset{w} && Waiting(u.sems) + multiset{w} == Waiting(s.sems)
    ensures Fits(u)
  {
    Apart(s, w);
    WakeStatesFit(OnCpus(s.cpus), Waiting(s.sems), Waiting(u.sems), s.exited, s.st, w);
    forall d | 0 <= d < |u.cpus| ensures CurrentRuns(u.cpus[d], u.st) {
      assert CurrentRuns(s.cpus[d], s.st) && u.cpus[d].curr == s.cpus[d].curr;
    }
  }

  /** What a release with a waiter leaves: the woken system, scheduled if the queue was empty. */
  lemma ReleaseWakes(s: Sys, c: nat, i: nat) returns (u: Sys)
    requires c < |s.cpus| && i < |s.sems| && s.sems[i].wait != []
    ensures Woken(s, c, i, u) && |u.cpus| == |s.cpus|
    ensures ReleaseStep(s, c, i) == if |u.cpus[c].queue| == 1 then Schedule(u, c) else u
  {
    var w := s.sems[i].wait[0];
    u := s.(sems := s.sems[i := s.sems[i].(wait := s.sems[i].wait[1..])], st := s.st[w := Running],
            cpus := s.cpus[c := s.cpus[c].(queue := s.cpus[c].queue + [w])]);
  }

  lemma WokenKeeps(s: Sys, c: nat, i: nat, u: Sys)
    requires Inv(s) && c < |s.cpus| && i < |s.sems| && s.sems[i].wait != [] && Woken(s, c, i, u)
    ensures Inv(u) && Inv(Schedule(u, c))
  {
    WakeKeeps(s, c, i, u);
    InvAlmost(u, c);
    ScheduleKeeps(u, c);
  }

  lemma ReleaseKeeps(s: Sys, c: nat, i: nat)
    requires Inv(s) && c < |s.cpus| && i < |s.sems|
    ensures Inv(ReleaseStep(s, c, i))
  {
    if s.sems[i].wait == [] {
      GrantKeeps(s, i, Release(s.sems[i]).0);
    } else {
      var u := ReleaseWakes(s, c, i);
      WokenKeeps(s, c, i, u);
    }
  }

  /** A step keeps every thread in exactly one place exactly when it does not leave the CPU spinning
      with a blocked or ended thread still current. */
  lemma StepKeeps(s: Sys, x: Step)
    requires Inv(s) && Enabled(s, x)
    ensures Inv(Next(s, x)) <==> !Spins(s, x)
  {
    if Spins(s, x) {
      SpinBreaks(s, x);
    } else {
      match x {
        case Spawn(t) => SpawnKeeps(s, t);
        case Tick(c) => InvAlmost(s, c); ScheduleKeeps(s, c);
        case SemAcquire(c, i) => AcquireKeeps(s, c, i);
        case SemRelease(c, i) => ReleaseKeeps(s, c, i);
        case Exit(c) => ExitKeeps(s, c);
      }
    }
  }

  /** The thread is then both current and waiting or exited. */
  lemma SpinBreaks(s: Sys, x: Step)
    requires Inv(s) && Enabled(s, x) && Spins(s, x)
    ensures !OnePlace(Next(s, x))
  {
    match x {
      case SemAcquire(c, i) =>
        SpinWaits(s, c, i);
      case Exit(c) =>
        SpinExits(s, c);
    }
  }

  lemma InTwoPlaces(u: Sys, t: Tid)
    requires OnCpus(u.cpus)[t] + Waiting(u.sems)[t] + multiset(u.exited)[t] >= 2
    ensures !OnePlace(u)
  {
    assert Everyone(u)[t] >= 2 && multiset(u.st.Keys)[t] <= 1;
  }

  lemma SpinWaits(s: Sys, c: nat, i: nat)
    requires c < |s.cpus| && i < |s.sems| && s.cpus[c].curr.Some? && Spins(s, SemAcquire(c, i))
    ensures !OnePlace(AcquireStep(s, c, i))
  {
    var t := s.cpus[c].curr.value;
    var sem := Acquire(s.sems[i], t).0;
    CurrentOnCpu(s, c);
    WaitingUpdate(s.sems, i, sem);
    assert multiset(sem.wait) == multiset(s.sems[i].wait) + multiset{t};
    Cancel2(Waiting(s.sems[i := sem]), multiset(s.sems[i].wait), Waiting(s.sems), multiset{t});
    assert AcquireStep(s, c, i) == s.(sems := s.sems[i := sem], st := s.st[t := WaitLock]);
    InTwoPlaces(AcquireStep(s, c, i), t);
  }

  lemma SpinExits(s: Sys, c: nat)
    requires c < |s.cpus| && s.cpus[c].curr.Some? && s.cpus[c].queue == []
    ensures !OnePlace(ExitStep(s, c))
  {
    var t := s.cpus[c].curr.value;
    CurrentOnCpu(s, c);
    assert ExitStep(s, c) == s.(st := s.st[t := Killed], exited := s.exited + [t]);
    assert multiset(s.exited + [t]) == multiset(s.exited) + multiset{t};
    InTwoPlaces(ExitStep(s, c), t);
  }
}
