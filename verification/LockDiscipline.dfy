/**
 The two locks of the object driver: nobody holds both, nobody waits forever,
 and a watcher sees an event only after the pool has.
 */
module LockDiscipline {
  import opened Options
  import opened Pool
  import opened AdoptSystem

  /** The lock a thread is inside of, read off its program counter. */
  function Inside(s: System, t: Thread): Option<Lock> {
    match t
    case Tester => if s.test.Hold? then Some(JobLock(s.test.job)) else None
    case Informing(i) =>
      if i < |s.informers| && s.informers[i].pc.Holding? then Some(s.informers[i].pc.lock) else None
  }

  /** The mutexes agree with the program counters. */
  ghost predicate LocksOk(s: System) {
    forall t, lock :: Owner(s, lock) == Some(t) <==> Inside(s, t) == Some(lock)
  }

  lemma LockKeepsLocks(s: System, step: Step)
    requires LocksOk(s) && Enabled(s, step) && (step.TestLock? || step.InformerLock?)
    ensures LocksOk(Do(s, step))
  {
    var s' := Do(s, step);
    var me := if step.TestLock? then Tester else Informing(step.i);
    var mine := if step.TestLock? then JobLock(s.test.job) else s.informers[step.i].pc.lock;
    forall t, lock
      ensures Owner(s', lock) == Some(t) <==> Inside(s', t) == Some(lock)
    {
      assert Owner(s, lock) == Some(t) <==> Inside(s, t) == Some(lock);
      assert Inside(s, me) == None;
      assert t != me ==> Inside(s', t) == Inside(s, t);
      assert Inside(s', me) == Some(mine);
    }
  }

  lemma UnlockKeepsLocks(s: System, step: Step)
    requires LocksOk(s) && Enabled(s, step) && (step.TestWork? || step.InformerWork?)
    ensures LocksOk(Do(s, step))
  {
    var s' := Do(s, step);
    var me := if step.TestWork? then Tester else Informing(step.i);
    var mine := if step.TestWork? then JobLock(s.test.job) else s.informers[step.i].pc.lock;
    assert Inside(s, me) == Some(mine);
    assert Owner(s, mine) == Some(me);
    assert Inside(s', me) == None;
    forall t, lock
      ensures Owner(s', lock) == Some(t) <==> Inside(s', t) == Some(lock)
    {
      assert Owner(s, lock) == Some(t) <==> Inside(s, t) == Some(lock);
      assert t != me ==> Inside(s', t) == Inside(s, t);
      assert Owner(s', lock) == if lock == mine then None else Owner(s, lock);
    }
  }

  lemma OtherKeepsLocks(s: System, step: Step)
    requires LocksOk(s) && Enabled(s, step)
    requires !step.TestLock? && !step.InformerLock? && !step.TestWork? && !step.InformerWork?
    ensures LocksOk(Do(s, step))
  {
    var s' := Do(s, step);
    OthersStay(s, step);
    forall t
      ensures Inside(s', t) == Inside(s, t)
    {
    }
    forall t, lock
      ensures Owner(s', lock) == Some(t) <==> Inside(s', t) == Some(lock)
    {
      assert Owner(s, lock) == Some(t) <==> Inside(s, t) == Some(lock);
    }
  }

  lemma {:induction false} RunLocks(r: Run, n: nat)
    requires IsRun(r) && n < |r.states|
    ensures LocksOk(r.states[n])
  {
    if n > 0 {
      RunLocks(r, n - 1);
      var s, step := r.states[n - 1], r.steps[n - 1];
      if step.TestLock? || step.InformerLock? {
        LockKeepsLocks(s, step);
      } else if step.TestWork? || step.InformerWork? {
        UnlockKeepsLocks(s, step);
      } else {
        OtherKeepsLocks(s, step);
      }
    }
  }

  /** No thread ever holds both locks, and no lock has two threads inside. */
  lemma NobodyHoldsBoth(r: Run, n: nat, t: Thread, u: Thread)
    requires IsRun(r) && n < |r.states|
    ensures var s := r.states[n];
            && !(Owner(s, ObjectLock) == Some(t) && Owner(s, WatcherLock) == Some(t))
            && (t != u && Inside(s, t).Some? ==> Inside(s, t) != Inside(s, u))
  {
    RunLocks(r, n);
    var s := r.states[n];
    assert Owner(s, ObjectLock) == Some(t) <==> Inside(s, t) == Some(ObjectLock);
    assert Owner(s, WatcherLock) == Some(t) <==> Inside(s, t) == Some(WatcherLock);
    if Inside(s, t).Some? {
      var lock := Inside(s, t).value;
      assert Owner(s, lock) == Some(t) <==> Inside(s, t) == Some(lock);
      assert Owner(s, lock) == Some(u) <==> Inside(s, u) == Some(lock);
    }
  }

  // ---- What the locks protect ----

  /** The thread that makes the move, if it is one of the driver's. */
  function Actor(step: Step): Option<Thread> {
    match step
    case Take(i) => Some(Informing(i))
    case InformerLock(i) => Some(Informing(i))
    case InformerWork(i) => Some(Informing(i))
    case Outside(_) => None
    case InformOn => None
    case Emit(_, _) => None
    case _ => Some(Tester)
  }

  /** The move changes the pool, or what is remembered of it. */
  predicate ChangesPool(s: System, s': System) {
    s'.pool != s.pool || s'.history != s.history || s'.adopted != s.adopted
  }

  /** The test goroutine lists or scans the pool. */
  predicate ReadsPool(s: System, step: Step) {
    step.TestWork? && s.test.Hold? && (s.test.job.SnapshotJob? || s.test.job.ScanJob?)
  }

  /** The move attaches or detaches a watcher, or hands one an event. */
  predicate TouchesWatchers(s: System, s': System) {
    || s'.handlers != s.handlers || s'.nextIndex != s.nextIndex
    || exists i :: 0 <= i < |s.informers| <= |s'.informers| && s'.informers[i].watched != s.informers[i].watched
  }

  lemma WatchedMoves(s: System, step: Step, i: nat)
    requires Enabled(s, step) && i < |s.informers| && Do(s, step).informers[i].watched != s.informers[i].watched
    ensures step == InformerWork(i) && s.informers[i].pc.lock.WatcherLock?
  {
    OthersStay(s, step);
  }

  lemma PoolUnderLock(r: Run, n: nat)
    requires IsRun(r) && n < |r.steps|
    requires ChangesPool(r.states[n], r.states[n + 1]) || ReadsPool(r.states[n], r.steps[n])
    ensures Actor(r.steps[n]).Some? && Owner(r.states[n], ObjectLock) == Actor(r.steps[n])
  {
    var s, step := r.states[n], r.steps[n];
    RunLocks(r, n);
    RunMove(r, n + 1);
    StepPool(s, step);
    var me := Actor(step).value;
    assert Owner(s, ObjectLock) == Some(me) <==> Inside(s, me) == Some(ObjectLock);
  }

  lemma WatchersUnderLock(r: Run, n: nat)
    requires IsRun(r) && n < |r.steps| && TouchesWatchers(r.states[n], r.states[n + 1])
    ensures Actor(r.steps[n]).Some? && Owner(r.states[n], WatcherLock) == Actor(r.steps[n])
  {
    var s, s', step := r.states[n], r.states[n + 1], r.steps[n];
    RunLocks(r, n);
    RunMove(r, n + 1);
    if s'.handlers == s.handlers && s'.nextIndex == s.nextIndex {
      var i :| 0 <= i < |s.informers| <= |s'.informers| && s'.informers[i].watched != s.informers[i].watched;
      WatchedMoves(s, step, i);
    }
    var me := Actor(step).value;
    assert Owner(s, WatcherLock) == Some(me) <==> Inside(s, me) == Some(WatcherLock);
  }

  /**
   Whoever changes, lists or scans the pool holds the object lock, and whoever
   attaches, detaches or calls a watcher holds the watcher lock.
   */
  lemma LocksProtect(r: Run, n: nat)
    requires IsRun(r) && n < |r.steps|
    ensures ChangesPool(r.states[n], r.states[n + 1]) || ReadsPool(r.states[n], r.steps[n]) ==>
              Actor(r.steps[n]).Some? && Owner(r.states[n], ObjectLock) == Actor(r.steps[n])
    ensures TouchesWatchers(r.states[n], r.states[n + 1]) ==>
              Actor(r.steps[n]).Some? && Owner(r.states[n], WatcherLock) == Actor(r.steps[n])
  {
    if ChangesPool(r.states[n], r.states[n + 1]) || ReadsPool(r.states[n], r.steps[n]) {
      PoolUnderLock(r, n);
    }
    if TouchesWatchers(r.states[n], r.states[n + 1]) {
      WatchersUnderLock(r, n);
    }
  }

  /** Two threads are never at the pool together. */
  lemma PoolToOneThread(r: Run, n: nat, i: nat)
    requires IsRun(r) && n < |r.states| && i < |r.states[n].informers|
    requires var f := r.states[n].informers[i]; f.pc.Holding? && f.pc.lock.ObjectLock?
    ensures var t := r.states[n].test;
            t.Hold? ==> !t.job.AdoptJob? && !t.job.SnapshotJob? && !t.job.ScanJob? && !t.job.ForgetJob?
  {
    RunLocks(r, n);
    NobodyHoldsBoth(r, n, Tester, Informing(i));
  }

  // ---- What the critical sections do ----

  /** The move hands out the token and attaches a watcher under it. */
  predicate Attaches(s: System, step: Step, token: nat) {
    step.TestWork? && s.test.Hold? && s.test.job.AttachJob? && s.nextIndex == token
  }

  predicate Withdraws(s: System, step: Step, token: nat) {
    step.TestWork? && s.test.Hold? && (s.test.job == DetachJob(token) || s.test.job.ClearJob?)
  }

  ghost predicate AttachedSince(r: Run, a: nat, n: nat, token: nat)
    requires |r.states| == |r.steps| + 1 && n < |r.states|
  {
    a < n && Attaches(r.states[a], r.steps[a], token)
    && forall b :: a < b < n ==> !Withdraws(r.states[b], r.steps[b], token)
  }

  lemma HandlersMove(s: System, step: Step, token: nat)
    requires Enabled(s, step)
    ensures token in Do(s, step).handlers <==>
            Attaches(s, step, token) || (token in s.handlers && !Withdraws(s, step, token))
  {
  }

  /** A watcher is attached exactly if it was attached in the run and neither cancelled nor cleared since. */
  lemma {:induction false} AttachedExactly(r: Run, n: nat, token: nat)
    requires IsRun(r) && n < |r.states|
    ensures token in r.states[n].handlers <==> exists a: nat :: AttachedSince(r, a, n, token)
  {
    if n > 0 {
      AttachedExactly(r, n - 1, token);
      RunMove(r, n);
      HandlersMove(r.states[n - 1], r.steps[n - 1], token);
      hide IsRun, Do, Enabled, Attaches, Withdraws;
      if Attaches(r.states[n - 1], r.steps[n - 1], token) {
        assert AttachedSince(r, n - 1, n, token);
      } else if token in r.states[n].handlers {
        var a: nat :| AttachedSince(r, a, n - 1, token);
        assert AttachedSince(r, a, n, token);
      } else {
        assert forall a: nat :: AttachedSince(r, a, n, token) ==> a < n - 1 && AttachedSince(r, a, n - 1, token);
      }
    }
  }

  predicate InHistory(h: seq<Happening>, e: Event) {
    if e.Delete? then Vanished(e.o.uid) in h else Observed(e.o) in h
  }

  ghost predicate PooledInHistory(s: System) {
    forall i, k :: 0 <= i < |s.informers| && 0 <= k < |s.informers[i].pooled| ==> InHistory(s.history, s.informers[i].pooled[k])
  }

  lemma PooledMoves(s: System, step: Step, i: nat)
    requires Enabled(s, step) && i < |s.informers|
    ensures var f, f', h' := s.informers[i], Do(s, step).informers[i], Do(s, step).history;
            f'.pooled == f.pooled || (|f'.pooled| > 0 && f'.pooled == f.pooled + [f'.pooled[|f'.pooled| - 1]]
                                      && InHistory(h', f'.pooled[|f'.pooled| - 1]))
  {
    OthersStay(s, step);
  }

  lemma StepPooled(s: System, step: Step)
    requires Enabled(s, step) && PooledInHistory(s)
    ensures PooledInHistory(Do(s, step))
  {
    var s' := Do(s, step);
    StepPool(s, step);
    OthersStay(s, step);
    hide Do, Enabled;
    forall i, k | 0 <= i < |s'.informers| && 0 <= k < |s'.informers[i].pooled|
      ensures InHistory(s'.history, s'.informers[i].pooled[k])
    {
      if i < |s.informers| {
        PooledMoves(s, step, i);
        if k < |s.informers[i].pooled| {
          assert InHistory(s.history, s.informers[i].pooled[k]);
        }
      }
    }
  }

  /** Whatever an informer has handed to the pool, sightings and deletions alike, is in the history the pool follows. */
  lemma {:induction false} PooledIsRecorded(r: Run, n: nat)
    requires IsRun(r) && n < |r.states|
    ensures PooledInHistory(r.states[n])
  {
    if n > 0 {
      PooledIsRecorded(r, n - 1);
      RunMove(r, n);
      hide IsRun, Do, Enabled, PooledInHistory;
      StepPooled(r.states[n - 1], r.steps[n - 1]);
    }
  }

  /** Between clearing the watchers and forgetting the objects, and after that. */
  predicate Clearing(pc: TestPc) {
    pc.Over? || ((pc.Wait? || pc.Hold?) && pc.job.ForgetJob?)
  }

  predicate DoneOk(s: System) {
    && (Clearing(s.test) ==> s.handlers == {})
    && (s.test.Over? ==> s.pool == map[] && s.adopted == {})
  }

  lemma StepDone(s: System, step: Step)
    requires Enabled(s, step) && DoneOk(s)
    ensures DoneOk(Do(s, step))
  {
    StepPool(s, step);
  }

  /** When Done has returned, no watcher is attached and no object adopted, and late events change nothing of that. */
  lemma {:induction false} DoneIsFinal(r: Run, n: nat)
    requires IsRun(r) && n < |r.states|
    ensures DoneOk(r.states[n])
  {
    if n > 0 {
      DoneIsFinal(r, n - 1);
      RunMove(r, n);
      hide IsRun, Do, Enabled, DoneOk;
      StepDone(r.states[n - 1], r.steps[n - 1]);
    }
  }

  // ---- No deadlock ----

  /** Some thread is in the middle of an operation, or an event waits to be delivered. */
  ghost predicate Busy(s: System) {
    || s.test.Wait? || s.test.Hold? || s.test.Call?
    || exists i :: 0 <= i < |s.informers| && (!s.informers[i].pc.Idle? || |s.informers[i].queue| > 0)
  }

  /** A move by which a thread carries on with what it is doing. */
  predicate CarriesOn(step: Step) {
    step.Take? || step.InformerLock? || step.InformerWork? || step.TestLock? || step.TestWork? || step.TestCall?
  }

  ghost predicate Filed(pool: PoolMap) {
    forall uid :: uid in pool ==> pool[uid].uid == uid
  }

  lemma ListExtend(o: seq<Obj>, pool: PoolMap, uid: string)
    requires Filed(pool) && uid in pool && Lists(o, pool - {uid})
    ensures Lists(o + [pool[uid]], pool)
  {
    var order := o + [pool[uid]];
    forall u | u in pool
      ensures exists i :: 0 <= i < |order| && order[i] == pool[u]
    {
      if u == uid {
        assert order[|o|] == pool[u];
      } else {
        assert u in pool - {uid};
        var i :| 0 <= i < |o| && o[i] == (pool - {uid})[u];
        assert order[i] == pool[u];
      }
    }
  }

  lemma {:induction false} SomeOrder(pool: PoolMap) returns (order: seq<Obj>)
    requires Filed(pool)
    ensures Lists(order, pool)
    decreases pool.Keys
  {
    if pool == map[] {
      order := [];
    } else {
      var uid :| uid in pool;
      var rest := pool - {uid};
      assert rest.Keys == pool.Keys - {uid};
      order := SomeOrder(rest);
      ListExtend(order, pool, uid);
      order := order + [pool[uid]];
    }
  }

  lemma HolderCanMove(r: Run, n: nat, lock: Lock) returns (step: Step)
    requires IsRun(r) && n < |r.states| && Owner(r.states[n], lock).Some?
    ensures Enabled(r.states[n], step) && CarriesOn(step)
  {
    RunLocks(r, n);
    RunSafe(r, n);
    PoolKeys(r.states[n].history);
    var s := r.states[n];
    var t := Owner(s, lock).value;
    assert Inside(s, t) == Some(lock);
    match t {
      case Tester =>
        var order := SomeOrder(s.pool);
        step := TestWork(order);
      case Informing(i) =>
        step := InformerWork(i);
    }
  }

  lemma FreeThread(s: System, t: Thread)
    requires LocksOk(s) && s.objectOwner.None? && s.watcherOwner.None?
    ensures Inside(s, t) == None
  {
    assert forall lock :: Inside(s, t) == Some(lock) ==> Owner(s, lock) == Some(t);
  }

  /** No reachable state is a deadlock: while anything is unfinished, some thread can carry on. */
  lemma NoDeadlock(r: Run, n: nat) returns (step: Step)
    requires IsRun(r) && n < |r.states| && Busy(r.states[n])
    ensures Enabled(r.states[n], step) && CarriesOn(step)
  {
    var s := r.states[n];
    if Owner(s, ObjectLock).Some? {
      step := HolderCanMove(r, n, ObjectLock);
    } else if Owner(s, WatcherLock).Some? {
      step := HolderCanMove(r, n, WatcherLock);
    } else {
      RunLocks(r, n);
      FreeThread(s, Tester);
      if s.test.Wait? {
        assert Owner(s, JobLock(s.test.job)).None?;
        step := TestLock;
      } else if s.test.Call? {
        step := TestCall(Refused);
      } else {
        var i :| 0 <= i < |s.informers| && (!s.informers[i].pc.Idle? || |s.informers[i].queue| > 0);
        FreeThread(s, Informing(i));
        if s.informers[i].pc.Idle? {
          step := Take(i);
        } else {
          assert Owner(s, s.informers[i].pc.lock).None?;
          step := InformerLock(i);
        }
      }
    }
  }

  // ---- Everything unfinished gets finished ----

  function InformerEffort(f: Informer): nat {
    5 * |f.queue| +
    match f.pc
    case Idle => 0
    case WaitFor(lock, _) => if lock.ObjectLock? then 4 else 2
    case Holding(lock, _) => if lock.ObjectLock? then 3 else 1
  }

  function InformersEffort(fs: seq<Informer>): nat {
    if fs == [] then 0 else InformerEffort(fs[0]) + InformersEffort(fs[1..])
  }

  function JobEffort(pool: PoolMap, job: Job): nat {
    match job
    case SnapshotJob => 3 * |pool| + 1
    case ScanJob(_, rest) => 3 * |rest| + 2
    case ClearJob => 3
    case _ => 1
  }

  function TestEffort(pool: PoolMap, pc: TestPc): nat {
    match pc
    case Ready => 0
    case Over => 0
    case Wait(job) => JobEffort(pool, job) + 1
    case Hold(job) => JobEffort(pool, job)
    case Call(_, rest) => 3 * |rest| + 1
  }

  function Effort(s: System): nat {
    TestEffort(s.pool, s.test) + InformersEffort(s.informers)
  }

  lemma {:induction false} EffortUpdate(fs: seq<Informer>, i: nat, f: Informer)
    requires i < |fs|
    ensures InformersEffort(fs[i := f]) == InformersEffort(fs) - InformerEffort(fs[i]) + InformerEffort(f)
    decreases i
  {
    if i == 0 {
      assert fs[0 := f][1..] == fs[1..];
    } else {
      assert fs[i := f][1..] == fs[1..][i - 1 := f];
      EffortUpdate(fs[1..], i - 1, f);
    }
  }

  lemma {:induction false} ListLength(order: seq<Obj>, pool: PoolMap)
    requires Lists(order, pool) && Filed(pool)
    ensures |order| == |pool|
    decreases |order|
  {
    if order == [] {
      assert forall uid :: uid !in pool;
      assert pool.Keys == {};
    } else {
      var n := |order| - 1;
      var front, last := order[..n], order[n];
      var rest := pool - {last.uid};
      assert rest.Keys == pool.Keys - {last.uid};
      forall uid | uid in rest
        ensures exists i :: 0 <= i < n && front[i] == rest[uid]
      {
        var i :| 0 <= i < |order| && order[i] == pool[uid];
        assert i < n;
        assert front[i] == rest[uid];
      }
      ListLength(front, rest);
    }
  }

  /** Left alone by the server and the caller, the threads do a bounded amount of work. */
  lemma EffortDrops(s: System, step: Step)
    requires Enabled(s, step) && CarriesOn(step) && Filed(s.pool)
    ensures Effort(Do(s, step)) < Effort(s)
  {
    if step.Take? || step.InformerLock? || step.InformerWork? {
      EffortUpdate(s.informers, step.i, Do(s, step).informers[step.i]);
      InformerEffortDrops(s, step);
    } else {
      TestEffortDrops(s, step);
    }
  }

  lemma InformerEffortDrops(s: System, step: Step)
    requires Enabled(s, step) && (step.Take? || step.InformerLock? || step.InformerWork?)
    ensures var s' := Do(s, step);
            && s'.informers == s.informers[step.i := s'.informers[step.i]]
            && InformerEffort(s'.informers[step.i]) < InformerEffort(s.informers[step.i])
            && s'.test == s.test && |s'.pool| <= |s.pool|
  {
    var s' := Do(s, step);
    StepPool(s, step);
    match Recorded(s, step) {
      case None =>
      case Some(h) =>
        assert s'.pool.Keys <= s.pool.Keys;
        CardinalityMonotone(s'.pool.Keys, s.pool.Keys);
        assert |s'.pool| == |s'.pool.Keys| && |s.pool| == |s.pool.Keys|;
    }
  }

  lemma {:induction false} CardinalityMonotone(a: set<string>, b: set<string>)
    requires a <= b
    ensures |a| <= |b|
  {
    assert b == a + (b - a);
  }

  lemma TestEffortDrops(s: System, step: Step)
    requires Enabled(s, step) && (step.TestLock? || step.TestWork? || step.TestCall?) && Filed(s.pool)
    ensures Do(s, step).informers == s.informers
    ensures TestEffort(Do(s, step).pool, Do(s, step).test) < TestEffort(s.pool, s.test)
  {
    if step.TestWork? && s.test.job.SnapshotJob? {
      ListLength(step.order, s.pool);
    }
  }

  /** After at most Effort moves of its own, the driver has nothing left to do. */
  lemma {:induction false} DriverSettles(r: Run, m: nat, n: nat)
    requires IsRun(r) && m <= n < |r.states|
    requires forall k :: m <= k < n ==> CarriesOn(r.steps[k])
    ensures n - m <= Effort(r.states[m]) - Effort(r.states[n])
    decreases n
  {
    hide IsRun, Do, Enabled, CarriesOn, Effort, ServerOk, EventsOk, AdoptingOk, NoLeak;
    if m < n {
      DriverSettles(r, m, n - 1);
      RunSafe(r, n - 1);
      RunMove(r, n);
      EffortDrops(r.states[n - 1], r.steps[n - 1]);
    }
  }

  // ---- The pool first, then the watchers ----

  /** Where an event in hand is on its way through the two handlers. */
  ghost predicate FlowOk(f: Informer) {
    match f.pc
    case Idle => f.emitted == f.watched + f.queue && f.pooled == f.watched
    case WaitFor(lock, e) => InHand(f, lock, e)
    case Holding(lock, e) => InHand(f, lock, e)
  }

  ghost predicate InHand(f: Informer, lock: Lock, e: Event) {
    && f.emitted == f.watched + [e] + f.queue
    && f.pooled == f.watched + if lock.ObjectLock? then [] else [e]
  }

  ghost predicate FlowsOk(s: System) {
    forall i :: 0 <= i < |s.informers| ==> FlowOk(s.informers[i])
  }

  lemma MovedFlowOk(s: System, step: Step, i: nat)
    requires Enabled(s, step) && Moved(step) == Some(i) && FlowOk(s.informers[i])
    ensures FlowOk(Do(s, step).informers[i])
  {
    var f, f' := s.informers[i], Do(s, step).informers[i];
    match step {
      case Emit(_, e) =>
        assert f'.emitted == f.emitted + [e];
      case Take(_) =>
        assert f.queue == [f.queue[0]] + f.queue[1..];
        assert f.watched + f.queue == f.watched + [f.queue[0]] + f.queue[1..];
      case InformerLock(_) =>
      case InformerWork(_) =>
    }
  }

  lemma {:induction false} RunFlows(r: Run, n: nat)
    requires IsRun(r) && n < |r.states|
    ensures FlowsOk(r.states[n])
  {
    if n > 0 {
      RunFlows(r, n - 1);
      var s, step, s' := r.states[n - 1], r.steps[n - 1], r.states[n];
      OthersStay(s, step);
      forall i | 0 <= i < |s'.informers|
        ensures FlowOk(s'.informers[i])
      {
        if Moved(step) == Some(i) {
          MovedFlowOk(s, step, i);
        }
      }
    }
  }

  /** Events go through the pool and then to the watchers, each once and in the informer's order. */
  lemma PoolBeforeWatchers(r: Run, n: nat, i: nat)
    requires IsRun(r) && n < |r.states| && i < |r.states[n].informers|
    ensures var f := r.states[n].informers[i];
            && f.watched <= f.pooled <= f.emitted
            && (f.pc.Idle? && f.queue == [] ==> f.watched == f.pooled == f.emitted)
  {
    RunFlows(r, n);
  }

  predicate AttachedWereIssued(s: System) {
    forall k :: k in s.handlers ==> k < s.nextIndex
  }

  /** A removal token is never handed out twice, and only tokens handed out are attached. */
  lemma {:induction false} TokensFresh(r: Run, m: nat, n: nat)
    requires IsRun(r) && m <= n < |r.states|
    ensures r.states[m].nextIndex <= r.states[n].nextIndex
    ensures AttachedWereIssued(r.states[n])
    decreases n
  {
    if n > 0 {
      TokensFresh(r, if m < n then m else n - 1, n - 1);
      TokenStep(r.states[n - 1], r.steps[n - 1]);
    }
  }

  lemma TokenStep(s: System, step: Step)
    requires Enabled(s, step) && AttachedWereIssued(s)
    ensures s.nextIndex <= Do(s, step).nextIndex && AttachedWereIssued(Do(s, step))
  {
  }
}
