/** sched/sched.c: counting semaphores with direct handoff, and the mutex. */
module Semaphores {
  import opened Division
  import opened Options
  import opened Runs

  type Tid = nat

  datatype Sem = Sem(max: nat, cnt: nat, wait: seq<Tid>)

  /** sem_acquire by thread t; false when t has to block. */
  function Acquire(s: Sem, t: Tid): (Sem, bool) {
    if s.cnt < s.max then (s.(cnt := s.cnt + 1), true)
    else (s.(wait := s.wait + [t]), false)
  }

  /** sem_release: the first waiter takes over the unit, otherwise the 32-bit counter goes down. */
  function Release(s: Sem): (Sem, Option<Tid>) {
    if s.wait != [] then (s.(wait := s.wait[1..]), Some(s.wait[0]))
    else (s.(cnt := (s.cnt - 1) % UINT32), None)
  }

  // ---------------------------------------------------------------- holders

  datatype State = State(sem: Sem, holders: multiset<Tid>)

  datatype Op = Get(t: Tid) | Put(t: Tid)

  /** Only threads that hold a unit release one; a waiting thread cannot ask again. */
  ghost predicate Move(s: State, op: Op, u: State) {
    match op
    case Get(t) =>
      && t !in s.sem.wait
      && var (sem, granted) := Acquire(s.sem, t);
         u == State(sem, if granted then s.holders + multiset{t} else s.holders)
    case Put(t) =>
      && t in s.holders
      && var (sem, woken) := Release(s.sem);
         u == State(sem, s.holders - multiset{t} + if woken.None? then multiset{} else multiset{woken.value})
  }

  ghost predicate Sound(s: State) {
    && |s.holders| == s.sem.cnt <= s.sem.max < UINT32
    && (s.sem.wait != [] ==> s.sem.cnt == s.sem.max)
    && (forall i, j :: 0 <= i < j < |s.sem.wait| ==> s.sem.wait[i] != s.sem.wait[j])
  }

  lemma StepSound(s: State, op: Op, u: State)
    requires Sound(s) && Move(s, op, u)
    ensures Sound(u)
  {
    match op {
      case Get(t) =>
        assert |s.holders + multiset{t}| == |s.holders| + 1;
      case Put(t) =>
        assert |s.holders - multiset{t}| == |s.holders| - 1;
        if s.sem.wait != [] {
          assert |s.holders - multiset{t} + multiset{s.sem.wait[0]}| == |s.holders|;
        } else {
          assert s.holders - multiset{t} + multiset{} == s.holders - multiset{t};
        }
    }
  }

  /** sem_create, then any run of acquires and releases by holders: as many holders as the counter
      says, never more than max, and nobody waits while a unit is free. */
  lemma EveryRunSound(max: nat, ops: seq<Op>, u: State)
    requires max < UINT32 && Run(Move, State(Sem(max, 0, []), multiset{}), ops, u)
    ensures Sound(u)
  {
    forall s, op, t | Sound(s) && Move(s, op, t) ensures Sound(t) {
      StepSound(s, op, t);
    }
    RunKeeps(Move, Sound, State(Sem(max, 0, []), multiset{}), ops, u);
  }

  /** What a release does to the counter without the holder discipline: it stays within max exactly
      when somebody waits or the counter was not zero. */
  lemma ReleaseWithin(s: Sem)
    requires s.cnt <= s.max < UINT32 - 1
    ensures Release(s).0.cnt <= s.max <==> s.wait != [] || s.cnt > 0
  {
  }

  // ---------------------------------------------------------------- first come, first served

  function Puts(ops: seq<Op>): nat {
    if ops == [] then 0 else (if ops[0].Put? then 1 else 0) + Puts(ops[1..])
  }

  lemma {:induction false} WaiterAdvances(s: State, ops: seq<Op>, u: State, k: nat)
    requires Run(Move, s, ops, u) && k < |s.sem.wait| && Puts(ops) <= k
    ensures k - Puts(ops) < |u.sem.wait| && u.sem.wait[k - Puts(ops)] == s.sem.wait[k]
    decreases |ops|
  {
    if ops != [] {
      var m :| Move(s, ops[0], m) && Run(Move, m, ops[1..], u);
      WaiterAdvances(m, ops[1..], u, if ops[0].Put? then k - 1 else k);
    }
  }

  /** The waiter at place k is granted its unit by the (k+1)-th release, whoever else comes. */
  lemma WaiterServed(s: State, ops: seq<Op>, u: State, k: nat)
    requires Run(Move, s, ops, u) && k < |s.sem.wait| && Puts(ops) == k
    ensures Release(u.sem).1 == Some(s.sem.wait[k])
  {
    WaiterAdvances(s, ops, u, k);
  }

  // ---------------------------------------------------------------- the mutex

  datatype Mutex = Mutex(proc: bool, wait: seq<Tid>)

  function Lock(m: Mutex, t: Tid): (Mutex, bool) {
    if !m.proc then (m.(proc := true), true) else (m.(wait := m.wait + [t]), false)
  }

  function Unlock(m: Mutex): (Mutex, Option<Tid>) {
    if m.wait != [] then (m.(wait := m.wait[1..]), Some(m.wait[0])) else (m.(proc := false), None)
  }

  /** "A semaphore of max_cnt = 1". */
  predicate Alike(m: Mutex, s: Sem) {
    s.max == 1 && s.cnt == (if m.proc then 1 else 0) && s.wait == m.wait
  }

  lemma LockAlike(m: Mutex, s: Sem, t: Tid)
    requires Alike(m, s)
    ensures Alike(Lock(m, t).0, Acquire(s, t).0) && Lock(m, t).1 == Acquire(s, t).1
  {
  }

  /** A release keeps the mutex and the semaphore in step exactly when there is something to release. */
  lemma UnlockAlike(m: Mutex, s: Sem)
    requires Alike(m, s)
    ensures Unlock(m).1 == Release(s).1
    ensures Alike(Unlock(m).0, Release(s).0) <==> m.proc || m.wait != []
  {
  }

  datatype MutexState = MutexState(mutex: Mutex, holders: multiset<Tid>)

  ghost predicate MutexMove(s: MutexState, op: Op, u: MutexState) {
    match op
    case Get(t) =>
      && t !in s.mutex.wait
      && var (m, granted) := Lock(s.mutex, t);
         u == MutexState(m, if granted then s.holders + multiset{t} else s.holders)
    case Put(t) =>
      && t in s.holders
      && var (m, woken) := Unlock(s.mutex);
         u == MutexState(m, s.holders - multiset{t} + if woken.None? then multiset{} else multiset{woken.value})
  }

  ghost predicate Matches(m: MutexState, s: State) {
    Alike(m.mutex, s.sem) && m.holders == s.holders && Sound(s)
  }

  /** Each step of one is a step of the other, in both directions, to states that match again. */
  lemma Bisimilar(m: MutexState, s: State, op: Op)
    requires Matches(m, s)
    ensures forall m' :: MutexMove(m, op, m') ==> exists s' :: Move(s, op, s') && Matches(m', s')
    ensures forall s' :: Move(s, op, s') ==> exists m' :: MutexMove(m, op, m') && Matches(m', s')
  {
    match op {
      case Get(t) =>
        var s' := State(Acquire(s.sem, t).0, if Acquire(s.sem, t).1 then s.holders + multiset{t} else s.holders);
        var m' := MutexState(Lock(m.mutex, t).0, if Lock(m.mutex, t).1 then m.holders + multiset{t} else m.holders);
        if t !in s.sem.wait {
          LockAlike(m.mutex, s.sem, t);
          assert Move(s, op, s') && MutexMove(m, op, m');
          StepSound(s, op, s');
          assert Matches(m', s');
        }
      case Put(t) =>
        if t in s.holders {
          UnlockAlike(m.mutex, s.sem);
          var w := Release(s.sem).1;
          var h := s.holders - multiset{t} + if w.None? then multiset{} else multiset{w.value};
          var s', m' := State(Release(s.sem).0, h), MutexState(Unlock(m.mutex).0, h);
          assert Move(s, op, s') && MutexMove(m, op, m');
          StepSound(s, op, s');
          assert s.sem.cnt >= 1;
          assert Matches(m', s');
        }
    }
  }

  /** So at most one thread ever holds a mutex, over every run of locks and unlocks by holders. */
  lemma {:induction false} MutualExclusion(m: MutexState, s: State, ops: seq<Op>, u: MutexState)
    requires Matches(m, s) && Run(MutexMove, m, ops, u)
    ensures |u.holders| <= 1 && (u.mutex.proc <==> |u.holders| == 1)
    decreases |ops|
  {
    if ops != [] {
      var m' :| MutexMove(m, ops[0], m') && Run(MutexMove, m', ops[1..], u);
      Bisimilar(m, s, ops[0]);
      var s' :| Move(s, ops[0], s') && Matches(m', s');
      MutualExclusion(m', s', ops[1..], u);
    }
  }
}
