/**
 The object driver among its threads: the API server, one goroutine per
 informer, the test goroutine, the two locks and the pool. Each step is one
 atomic move of one thread or of the server.
 */
module AdoptSystem {
  import opened Options
  import opened Pool

  /** What a UID can never change, and what at most one live object can hold. */
  datatype Identity = Identity(kind: string, namespace: string, name: string)

  function IdentityOf(o: Obj): Identity {
    Identity(o.kind, o.namespace, o.name)
  }

  datatype Event = Add(o: Obj) | Update(o: Obj) | Delete(o: Obj)

  datatype Lock = ObjectLock | WatcherLock

  datatype Thread = Tester | Informing(i: nat)

  /** The critical sections of the test goroutine. */
  datatype Job =
    | AdoptJob(o: Obj)
    | SnapshotJob
    | ScanJob(u: Obj, rest: seq<Obj>)
    | AttachJob
    | DetachJob(token: nat)
    | ClearJob
    | ForgetJob

  function JobLock(job: Job): Lock {
    if job.AttachJob? || job.DetachJob? || job.ClearJob? then WatcherLock else ObjectLock
  }

  datatype TestPc = Ready | Wait(job: Job) | Hold(job: Job) | Call(u: Obj, rest: seq<Obj>) | Over

  datatype InformerPc = Idle | WaitFor(lock: Lock, e: Event) | Holding(lock: Lock, e: Event)

  /** An informer: undelivered events, and ghost logs of what the pool and the watchers have seen. */
  datatype Informer = Informer(pc: InformerPc, queue: seq<Event>, emitted: seq<Event>, pooled: seq<Event>, watched: seq<Event>)

  datatype Reply = Deleted | Refused

  /** The API server: live objects by UID, and the identity of every UID ever used. */
  datatype Server = Server(live: map<string, Obj>, identity: map<string, Identity>)

  datatype Request = Create(o: Obj) | Modify(o: Obj) | Destroy(uid: string) | DestroyNamed(id: Identity)

  ghost predicate Free(live: map<string, Obj>, id: Identity) {
    forall uid :: uid in live ==> IdentityOf(live[uid]) != id
  }

  /** UIDs are never reused, and identities never change. */
  ghost predicate Allowed(s: Server, r: Request) {
    match r
    case Create(o) => o.uid != "" && o.uid !in s.identity && Free(s.live, IdentityOf(o))
    case Modify(o) => o.uid in s.live && o.uid in s.identity && s.identity[o.uid] == IdentityOf(o)
    case Destroy(_) => true
    case DestroyNamed(_) => true
  }

  function Serve(s: Server, r: Request): Server {
    match r
    case Create(o) => Server(s.live[o.uid := o], s.identity[o.uid := IdentityOf(o)])
    case Modify(o) => s.(live := s.live[o.uid := o])
    case Destroy(uid) => s.(live := s.live - {uid})
    case DestroyNamed(id) => s.(live := map uid | uid in s.live && IdentityOf(s.live[uid]) != id :: s.live[uid])
  }

  ghost predicate ServerOk(s: Server) {
    && (forall uid :: uid in s.live ==>
          uid != "" && s.live[uid].uid == uid && uid in s.identity && s.identity[uid] == IdentityOf(s.live[uid]))
    && (forall a, b :: a in s.live && b in s.live && a != b ==> IdentityOf(s.live[a]) != IdentityOf(s.live[b]))
  }

  /** The object a UID names once existed. */
  ghost predicate Known(s: Server, o: Obj) {
    o.uid != "" && o.uid in s.identity && s.identity[o.uid] == IdentityOf(o)
  }

  /** A UID on an object can only have come from the server. */
  ghost predicate FromServer(s: Server, o: Obj) {
    o.uid == "" || Known(s, o)
  }

  datatype System = System(
    server: Server,
    informers: seq<Informer>,
    test: TestPc,
    pool: PoolMap,
    objectOwner: Option<Thread>,
    watcherOwner: Option<Thread>,
    handlers: set<nat>,
    nextIndex: nat,
    history: seq<Happening>,
    adopted: set<string>,
    snapshot: seq<Obj>,
    replies: seq<Reply>)

  datatype Step =
    | Outside(request: Request)
    | InformOn
    | Emit(i: nat, e: Event)
    | Take(i: nat)
    | InformerLock(i: nat)
    | InformerWork(i: nat)
    | BeginApply(o: Obj)
    | BeginDelete(o: Obj)
    | BeginDeleteAll
    | BeginWatch
    | BeginCancel(token: nat)
    | BeginDone
    | TestLock
    | TestWork(order: seq<Obj>)
    | TestCall(reply: Reply)

  function Owner(s: System, lock: Lock): Option<Thread> {
    if lock.ObjectLock? then s.objectOwner else s.watcherOwner
  }

  function WithOwner(s: System, lock: Lock, t: Option<Thread>): System {
    if lock.ObjectLock? then s.(objectOwner := t) else s.(watcherOwner := t)
  }

  /** The pool listed in some order, each entry once. */
  ghost predicate Lists(order: seq<Obj>, pool: PoolMap) {
    && (forall i :: 0 <= i < |order| ==> order[i].uid in pool && pool[order[i].uid] == order[i])
    && (forall i, j :: 0 <= i < j < |order| ==> order[i].uid != order[j].uid)
    && (forall uid :: uid in pool ==> exists i :: 0 <= i < |order| && order[i] == pool[uid])
  }

  ghost predicate Reports(events: seq<Event>, uid: string) {
    exists k :: 0 <= k < |events| && events[k].Delete? && events[k].o.uid == uid
  }

  /** What an informer may report: objects that existed, and only real deletions, each of them once. */
  ghost predicate Truthful(s: System, e: Event) {
    && Known(s.server, e.o)
    && (e.Delete? ==>
          && e.o.uid !in s.server.live
          && forall i :: 0 <= i < |s.informers| ==> !Reports(s.informers[i].emitted, e.o.uid))
  }

  ghost predicate Enabled(s: System, step: Step) {
    match step
    case Outside(r) => Allowed(s.server, r)
    case InformOn => true
    case Emit(i, e) => i < |s.informers| && Truthful(s, e)
    case Take(i) => i < |s.informers| && s.informers[i].pc.Idle? && |s.informers[i].queue| > 0
    case InformerLock(i) => i < |s.informers| && s.informers[i].pc.WaitFor? && Owner(s, s.informers[i].pc.lock).None?
    case InformerWork(i) => i < |s.informers| && s.informers[i].pc.Holding?
    case BeginApply(o) => s.test.Ready? && Known(s.server, o)
    case BeginDelete(o) => s.test.Ready? && FromServer(s.server, o)
    case BeginDeleteAll => s.test.Ready?
    case BeginWatch => s.test.Ready?
    case BeginCancel(_) => s.test.Ready?
    case BeginDone => s.test.Ready?
    case TestLock => s.test.Wait? && Owner(s, JobLock(s.test.job)).None?
    case TestWork(order) => s.test.Hold? && (s.test.job.SnapshotJob? ==> Lists(order, s.pool))
    case TestCall(_) => s.test.Call?
  }

  /** The head of the DeleteAll loop. */
  function NextTarget(rest: seq<Obj>): TestPc {
    if rest == [] then Ready else Wait(ScanJob(rest[0], rest[1..]))
  }

  function EventHappening(e: Event): Happening {
    if e.Delete? then Vanished(e.o.uid) else Observed(e.o)
  }

  function Note(s: System, h: Happening): System {
    s.(pool := Apply(s.pool, h), history := s.history + [h])
  }

  function InformerStep(s: System, i: nat): System
    requires i < |s.informers| && s.informers[i].pc.Holding?
  {
    var f := s.informers[i];
    var e := f.pc.e;
    if f.pc.lock.ObjectLock? then
      Note(s, EventHappening(e)).(
      objectOwner := None,
      informers := s.informers[i := f.(pc := WaitFor(WatcherLock, e), pooled := f.pooled + [e])])
    else
      s.(watcherOwner := None, informers := s.informers[i := f.(pc := Idle, watched := f.watched + [e])])
  }

  function TestStep(s: System, order: seq<Obj>): System
    requires s.test.Hold?
  {
    var r := WithOwner(s, JobLock(s.test.job), None);
    match s.test.job
    case AdoptJob(o) => Note(r, Adopted(o)).(test := Ready, adopted := s.adopted + {o.uid})
    case SnapshotJob => r.(test := NextTarget(order), snapshot := order, replies := [])
    case ScanJob(u, rest) => r.(test := Call(u, rest))
    case AttachJob => r.(test := Ready, handlers := s.handlers + {s.nextIndex}, nextIndex := s.nextIndex + 1)
    case DetachJob(token) => r.(test := Ready, handlers := s.handlers - {token})
    case ClearJob => r.(test := Wait(ForgetJob), handlers := {})
    case ForgetJob => Note(r, Reset).(test := Over, adopted := {})
  }

  function Do(s: System, step: Step): System
    requires Enabled(s, step)
  {
    match step
    case Outside(r) => s.(server := Serve(s.server, r))
    case InformOn => s.(informers := s.informers + [Informer(Idle, [], [], [], [])])
    case Emit(i, e) =>
      var f := s.informers[i];
      s.(informers := s.informers[i := f.(queue := f.queue + [e], emitted := f.emitted + [e])])
    case Take(i) =>
      var f := s.informers[i];
      s.(informers := s.informers[i := f.(pc := WaitFor(ObjectLock, f.queue[0]), queue := f.queue[1..])])
    case InformerLock(i) =>
      var f := s.informers[i];
      WithOwner(s, f.pc.lock, Some(Informing(i))).(informers := s.informers[i := f.(pc := Holding(f.pc.lock, f.pc.e))])
    case InformerWork(i) => InformerStep(s, i)
    case BeginApply(o) => s.(test := Wait(AdoptJob(o)))
    case BeginDelete(o) => s.(test := NextTarget([o]), snapshot := [o], replies := [])
    case BeginDeleteAll => s.(test := Wait(SnapshotJob))
    case BeginWatch => s.(test := Wait(AttachJob))
    case BeginCancel(token) => s.(test := Wait(DetachJob(token)))
    case BeginDone => s.(test := Wait(ClearJob))
    case TestLock => WithOwner(s, JobLock(s.test.job), Some(Tester)).(test := Hold(s.test.job))
    case TestWork(order) => TestStep(s, order)
    case TestCall(reply) =>
      s.(test := NextTarget(s.test.rest), replies := s.replies + [reply],
      server := if reply.Deleted? then Serve(s.server, DestroyNamed(IdentityOf(s.test.u))) else s.server)
  }

  ghost predicate Initial(s: System) {
    && s.informers == [] && s.test.Ready? && s.pool == map[] && s.history == []
    && s.objectOwner.None? && s.watcherOwner.None? && s.handlers == {} && s.nextIndex == 0
    && s.adopted == {} && s.snapshot == [] && s.replies == []
    && ServerOk(s.server)
  }

  datatype Run = Run(states: seq<System>, steps: seq<Step>)

  ghost predicate IsRun(r: Run) {
    && |r.states| == |r.steps| + 1 && Initial(r.states[0])
    && forall i :: 0 <= i < |r.steps| ==> Enabled(r.states[i], r.steps[i]) && r.states[i + 1] == Do(r.states[i], r.steps[i])
  }

  // ---- The server and the events ----

  /** Deletions are for good, and identities are only ever added. */
  ghost predicate Later(s: Server, s': Server) {
    && (forall uid :: uid in s.identity ==> uid in s'.identity && s'.identity[uid] == s.identity[uid])
    && (forall uid :: uid in s.identity && uid !in s.live ==> uid !in s'.live)
  }

  lemma ServeKeepsOk(s: Server, r: Request)
    requires ServerOk(s) && Allowed(s, r)
    ensures ServerOk(Serve(s, r)) && Later(s, Serve(s, r))
  {
  }

  lemma StepServer(s: System, step: Step)
    requires ServerOk(s.server) && Enabled(s, step)
    ensures ServerOk(Do(s, step).server) && Later(s.server, Do(s, step).server)
    ensures !step.Outside? && !step.TestCall? ==> Do(s, step).server == s.server
  {
    if step.Outside? {
      ServeKeepsOk(s.server, step.request);
    } else if step.TestCall? && step.reply.Deleted? {
      ServeKeepsOk(s.server, DestroyNamed(IdentityOf(s.test.u)));
    }
  }

  ghost predicate EventOk(s: Server, e: Event) {
    Known(s, e.o) && (e.Delete? ==> e.o.uid !in s.live)
  }

  /** No delete event is ever about an object that is live. */
  ghost predicate InformerOk(s: Server, f: Informer) {
    && (forall k :: 0 <= k < |f.queue| ==> EventOk(s, f.queue[k]))
    && (!f.pc.Idle? ==> EventOk(s, f.pc.e))
  }

  ghost predicate EventsOk(s: System) {
    forall i :: 0 <= i < |s.informers| ==> InformerOk(s.server, s.informers[i])
  }

  lemma InformerOkLater(s: Server, s': Server, f: Informer)
    requires InformerOk(s, f) && Later(s, s')
    ensures InformerOk(s', f)
  {
  }

  /** Which informer a step moves, if any. */
  function Moved(step: Step): Option<nat> {
    match step
    case Emit(i, _) => Some(i)
    case Take(i) => Some(i)
    case InformerLock(i) => Some(i)
    case InformerWork(i) => Some(i)
    case _ => None
  }

  lemma OthersStay(s: System, step: Step)
    requires Enabled(s, step)
    ensures |s.informers| <= |Do(s, step).informers| <= |s.informers| + 1
    ensures !step.InformOn? ==> |Do(s, step).informers| == |s.informers|
    ensures forall k :: 0 <= k < |s.informers| && Moved(step) != Some(k) ==> Do(s, step).informers[k] == s.informers[k]
    ensures step.InformOn? ==> Do(s, step).informers[|s.informers|] == Informer(Idle, [], [], [], [])
  {
  }

  lemma MovedInformerOk(s: System, step: Step, i: nat)
    requires Enabled(s, step) && Moved(step) == Some(i) && InformerOk(s.server, s.informers[i])
    ensures InformerOk(s.server, Do(s, step).informers[i])
  {
  }

  lemma StepEvents(s: System, step: Step)
    requires ServerOk(s.server) && EventsOk(s) && Enabled(s, step)
    ensures EventsOk(Do(s, step))
  {
    var s' := Do(s, step);
    StepServer(s, step);
    OthersStay(s, step);
    forall i | 0 <= i < |s'.informers|
      ensures InformerOk(s'.server, s'.informers[i])
    {
      if Moved(step) == Some(i) {
        MovedInformerOk(s, step, i);
      } else if i < |s.informers| {
        InformerOkLater(s.server, s'.server, s.informers[i]);
      }
    }
  }

  // ---- The pool ----

  ghost predicate AdoptingOk(s: System) {
    (s.test.Wait? || s.test.Hold?) && s.test.job.AdoptJob? ==>
      Known(s.server, s.test.job.o)
  }

  /** Every adopted object that is live on the server is in the pool. */
  ghost predicate NoLeak(s: System) {
    forall uid :: uid in s.adopted && uid in s.server.live ==> uid in s.pool
  }

  ghost predicate PoolOk(s: System) {
    && s.pool == After(s.history)
    && PoolKnown(s.server, s.pool)
    && (forall uid :: uid in s.adopted ==> uid in s.server.identity)
  }

  /** The happening a step records in the pool, if any. */
  function Recorded(s: System, step: Step): Option<Happening> {
    match step
    case InformerWork(i) =>
      if i < |s.informers| && s.informers[i].pc.Holding? && s.informers[i].pc.lock.ObjectLock?
      then Some(EventHappening(s.informers[i].pc.e)) else None
    case TestWork(_) =>
      if !s.test.Hold? then None
      else if s.test.job.AdoptJob? then Some(Adopted(s.test.job.o))
      else if s.test.job.ForgetJob? then Some(Reset)
      else None
    case _ => None
  }

  lemma StepPool(s: System, step: Step)
    requires Enabled(s, step)
    ensures var s' := Do(s, step);
            match Recorded(s, step)
            case None => s'.pool == s.pool && s'.history == s.history && s'.adopted == s.adopted
            case Some(h) =>
              && s'.pool == Apply(s.pool, h) && s'.history == s.history + [h]
              && s'.adopted == if h.Adopted? then s.adopted + {h.o.uid} else if h.Reset? then {} else s.adopted
  {
  }

  lemma StepNoLeak(s: System, step: Step)
    requires ServerOk(s.server) && EventsOk(s) && AdoptingOk(s) && PoolOk(s) && NoLeak(s) && Enabled(s, step)
    ensures NoLeak(Do(s, step))
  {
    StepPool(s, step);
    StepServer(s, step);
    match Recorded(s, step) {
      case None =>
      case Some(h) =>
        assert Do(s, step).server == s.server;
        if step.InformerWork? {
          assert InformerOk(s.server, s.informers[step.i]);
        }
    }
  }

  ghost predicate PoolKnown(server: Server, pool: PoolMap) {
    forall uid :: uid in pool ==> pool[uid].uid == uid && Known(server, pool[uid])
  }

  lemma ApplyKnown(server: Server, pool: PoolMap, h: Happening)
    requires PoolKnown(server, pool) && (h.Adopted? || h.Observed? ==> Known(server, h.o))
    ensures PoolKnown(server, Apply(pool, h))
  {
    hide Known;
  }

  /** What is recorded is about an object the server knows, and the server does not move meanwhile. */
  lemma RecordedKnown(s: System, step: Step)
    requires EventsOk(s) && AdoptingOk(s) && Enabled(s, step) && Recorded(s, step).Some?
    ensures var h := Recorded(s, step).value;
            (h.Adopted? || h.Observed? ==> Known(s.server, h.o)) && Do(s, step).server == s.server
  {
    if step.InformerWork? {
      assert InformerOk(s.server, s.informers[step.i]);
    }
  }

  lemma KnownLater(s: Server, s': Server, pool: PoolMap)
    requires PoolKnown(s, pool) && Later(s, s')
    ensures PoolKnown(s', pool)
  {
  }

  lemma StepPoolOk(s: System, step: Step)
    requires ServerOk(s.server) && EventsOk(s) && AdoptingOk(s) && PoolOk(s) && Enabled(s, step)
    ensures PoolOk(Do(s, step))
  {
    StepPool(s, step);
    StepServer(s, step);
    hide Do, Enabled, Recorded, Apply, After, PoolKnown, EventsOk, AdoptingOk, ServerOk;
    match Recorded(s, step) {
      case None => KnownLater(s.server, Do(s, step).server, s.pool);
      case Some(h) =>
        RecordedKnown(s, step);
        ApplyKnown(s.server, s.pool, h);
        AfterNext(s.history, h);
    }
  }

  lemma StepAdopting(s: System, step: Step)
    requires ServerOk(s.server) && AdoptingOk(s) && Enabled(s, step)
    ensures AdoptingOk(Do(s, step))
  {
    StepServer(s, step);
  }

  ghost predicate SafeInv(s: System) {
    ServerOk(s.server) && EventsOk(s) && AdoptingOk(s) && PoolOk(s) && NoLeak(s)
  }

  lemma {:induction false} RunSafe(r: Run, n: nat)
    requires IsRun(r) && n < |r.states|
    ensures SafeInv(r.states[n])
  {
    if n > 0 {
      RunSafe(r, n - 1);
      var s, step := r.states[n - 1], r.steps[n - 1];
      StepServer(s, step);
      StepEvents(s, step);
      StepAdopting(s, step);
      StepNoLeak(s, step);
      StepPoolOk(s, step);
    }
  }

  /** No adopted object leaks: while it is live it is in the pool, in every run, until Done forgets. */
  lemma NoAdoptedObjectLeaks(r: Run, n: nat, uid: string)
    requires IsRun(r) && n < |r.states|
    requires uid in r.states[n].adopted && uid in r.states[n].server.live
    ensures uid in r.states[n].pool && r.states[n].pool[uid].uid == uid
  {
    RunSafe(r, n);
    PoolKeys(r.states[n].history);
  }

  // ---- DeleteAll ----

  predicate InCleaning(pc: TestPc) {
    pc.Call? || ((pc.Wait? || pc.Hold?) && pc.job.ScanJob?)
  }

  ghost predicate TargetsLeft(s: System, rest: seq<Obj>) {
    |s.replies| <= |s.snapshot| && s.snapshot[|s.replies|..] == rest
  }

  /** The deletes so far are the snapshot's, in order, and each success is final. */
  ghost predicate CleaningOk(s: System) {
    && |s.replies| <= |s.snapshot|
    && (s.test.Call? ==> TargetsLeft(s, [s.test.u] + s.test.rest))
    && ((s.test.Wait? || s.test.Hold?) && s.test.job.ScanJob? ==> TargetsLeft(s, [s.test.job.u] + s.test.job.rest))
    && (!InCleaning(s.test) ==> |s.replies| == |s.snapshot|)
    && (forall k :: 0 <= k < |s.snapshot| ==> FromServer(s.server, s.snapshot[k]))
    && (forall k :: 0 <= k < |s.replies| && s.replies[k].Deleted? && Known(s.server, s.snapshot[k]) ==>
          s.snapshot[k].uid !in s.server.live)
  }

  lemma NextTargetLeft(s: System, rest: seq<Obj>)
    requires TargetsLeft(s, rest) && s.test == NextTarget(rest)
    ensures s.test.Ready? ==> |s.replies| == |s.snapshot|
    ensures s.test.Wait? ==> s.test.job.ScanJob? && TargetsLeft(s, [s.test.job.u] + s.test.job.rest)
  {
    if rest != [] {
      assert rest == [rest[0]] + rest[1..];
    }
  }

  lemma StepCleaningBegin(s: System, step: Step)
    requires ServerOk(s.server) && CleaningOk(s) && Enabled(s, step) && step.BeginDelete?
    ensures CleaningOk(Do(s, step))
  {
    NextTargetLeft(Do(s, step), [step.o]);
  }

  lemma StepCleaningWork(s: System, step: Step)
    requires ServerOk(s.server) && PoolOk(s) && CleaningOk(s) && Enabled(s, step) && step.TestWork?
    ensures CleaningOk(Do(s, step))
  {
    var s' := Do(s, step);
    assert s'.server == s.server;
    if s.test.job.SnapshotJob? {
      NextTargetLeft(s', step.order);
    } else {
      assert s'.snapshot == s.snapshot && s'.replies == s.replies;
    }
  }

  lemma StepCleaningCall(s: System, step: Step)
    requires ServerOk(s.server) && CleaningOk(s) && Enabled(s, step) && step.TestCall?
    ensures CleaningOk(Do(s, step))
  {
    var s' := Do(s, step);
    StepServer(s, step);
    var k := |s.replies|;
    var u, rest := s.test.u, s.test.rest;
    assert s.snapshot[k] == u by { assert s.snapshot[k..][0] == s.snapshot[k]; }
    assert s.snapshot[k + 1..] == rest by { assert s.snapshot[k..][1..] == s.snapshot[k + 1..]; }
    NextTargetLeft(s', rest);
    assert forall j :: 0 <= j < |s.snapshot| ==> FromServer(s'.server, s.snapshot[j]);
    if step.reply.Deleted? && Known(s.server, u) {
      DestroyNamedDestroys(s.server, u);
    }
  }

  /** A successful delete by name removes the known object of that name. */
  lemma DestroyNamedDestroys(s: Server, u: Obj)
    requires ServerOk(s) && Known(s, u)
    ensures u.uid !in Serve(s, DestroyNamed(IdentityOf(u))).live
  {
  }

  lemma StepCleaningOther(s: System, step: Step)
    requires ServerOk(s.server) && CleaningOk(s) && Enabled(s, step)
    requires !(step.BeginDelete? || step.TestCall? || step.TestWork?)
    ensures CleaningOk(Do(s, step))
  {
    StepServer(s, step);
    var s' := Do(s, step);
    assert s'.snapshot == s.snapshot && s'.replies == s.replies;
    forall k | 0 <= k < |s.replies| && s.replies[k].Deleted? && Known(s'.server, s.snapshot[k])
      ensures s.snapshot[k].uid !in s'.server.live
    {
      assert Known(s.server, s.snapshot[k]);
    }
  }

  lemma {:induction false} RunCleaning(r: Run, n: nat)
    requires IsRun(r) && n < |r.states|
    ensures CleaningOk(r.states[n])
  {
    if n > 0 {
      RunCleaning(r, n - 1);
      RunSafe(r, n - 1);
      var s, step := r.states[n - 1], r.steps[n - 1];
      if step.BeginDelete? {
        StepCleaningBegin(s, step);
      } else if step.TestCall? {
        StepCleaningCall(s, step);
      } else if step.TestWork? {
        StepCleaningWork(s, step);
      } else {
        StepCleaningOther(s, step);
      }
    }
  }

  /** The test goroutine took its snapshot at move m and had not come back before state n. */
  ghost predicate CleaningFrom(r: Run, m: nat, n: nat) {
    && m < n < |r.states| && m < |r.steps| && r.steps[m].TestWork?
    && r.states[m].test.Hold? && r.states[m].test.job.SnapshotJob?
    && forall k :: m < k < n ==> !r.states[k].test.Ready?
  }

  lemma {:induction false} SnapshotStays(r: Run, m: nat, n: nat)
    requires IsRun(r) && CleaningFrom(r, m, n)
    ensures r.states[n].snapshot == r.steps[m].order
    ensures n > m + 1 && !r.states[n].test.Ready? ==> InCleaning(r.states[n].test)
    ensures n == m + 1 ==> InCleaning(r.states[n].test) || r.states[n].test.Ready?
    decreases n
  {
    var s, step := r.states[n - 1], r.steps[n - 1];
    if n > m + 1 {
      SnapshotStays(r, m, n - 1);
      CleaningGoesOn(s, step);
    }
  }

  lemma CleaningGoesOn(s: System, step: Step)
    requires Enabled(s, step) && InCleaning(s.test)
    ensures Do(s, step).snapshot == s.snapshot
    ensures InCleaning(Do(s, step).test) || Do(s, step).test.Ready?
  {
  }

  /** The object is a target, and if its delete succeeded it is gone. */
  ghost predicate Covered(after: System, uid: string) {
    && |after.replies| == |after.snapshot|
    && exists k :: 0 <= k < |after.snapshot| && after.snapshot[k].uid == uid
                   && (after.replies[k].Deleted? ==> uid !in after.server.live)
  }

  lemma CoveredByList(before: System, after: System, uid: string)
    requires PoolOk(before) && NoLeak(before) && CleaningOk(after) && Later(before.server, after.server)
    requires Lists(after.snapshot, before.pool) && after.test.Ready?
    requires uid in before.adopted && uid in before.server.live
    ensures Covered(after, uid)
  {
    var k :| 0 <= k < |after.snapshot| && after.snapshot[k] == before.pool[uid];
    assert Known(after.server, after.snapshot[k]);
    assert after.snapshot[k].uid == uid;
  }

  /**
   DeleteAll issues exactly one delete for each pool entry at the snapshot; the
   snapshot has every adopted object that was live; and an object that is still
   live at the end is one whose delete the server refused.
   */
  lemma DeleteAllCovers(r: Run, m: nat, n: nat)
    requires IsRun(r) && CleaningFrom(r, m, n) && r.states[n].test.Ready?
    ensures Lists(r.states[n].snapshot, r.states[m].pool) && |r.states[n].replies| == |r.states[n].snapshot|
    ensures forall uid :: uid in r.states[m].adopted && uid in r.states[m].server.live ==> Covered(r.states[n], uid)
  {
    RunSafe(r, m);
    RunCleaning(r, n);
    SnapshotStays(r, m, n);
    LaterRun(r, m, n);
    var before, after := r.states[m], r.states[n];
    assert Enabled(before, r.steps[m]);
    forall uid | uid in before.adopted && uid in before.server.live
      ensures Covered(after, uid)
    {
      CoveredByList(before, after, uid);
    }
  }

  lemma LaterTrans(a: Server, b: Server, c: Server)
    requires Later(a, b) && Later(b, c)
    ensures Later(a, c)
  {
  }

  /** The move between two states of a run. */
  lemma RunMove(r: Run, n: nat)
    requires IsRun(r) && 0 < n < |r.states|
    ensures n <= |r.steps| && Enabled(r.states[n - 1], r.steps[n - 1]) && r.states[n] == Do(r.states[n - 1], r.steps[n - 1])
  {
    hide Do, Enabled, Initial;
    assert r.states[n - 1 + 1] == r.states[n];
  }

  lemma LaterMove(r: Run, n: nat)
    requires IsRun(r) && 0 < n < |r.states|
    ensures Later(r.states[n - 1].server, r.states[n].server)
  {
    hide IsRun, Do, Enabled, Later, ServerOk, EventsOk, AdoptingOk, PoolOk, NoLeak;
    RunSafe(r, n - 1);
    RunMove(r, n);
    StepServer(r.states[n - 1], r.steps[n - 1]);
  }

  lemma LaterRefl(s: Server)
    ensures Later(s, s)
  {
  }

  lemma {:induction false} LaterRun(r: Run, m: nat, n: nat)
    requires IsRun(r) && m <= n < |r.states|
    ensures Later(r.states[m].server, r.states[n].server)
    decreases n
  {
    hide IsRun, Later;
    if m < n {
      LaterRun(r, m, n - 1);
      LaterMove(r, n);
      LaterTrans(r.states[m].server, r.states[n - 1].server, r.states[n].server);
    } else {
      LaterRefl(r.states[m].server);
    }
  }

  /** When every delete succeeded, nothing adopted before the snapshot is left on the server. */
  lemma CleanDeleteAllLeavesNothing(r: Run, m: nat, n: nat)
    requires IsRun(r) && CleaningFrom(r, m, n) && r.states[n].test.Ready?
    requires forall k :: 0 <= k < |r.states[n].replies| ==> r.states[n].replies[k].Deleted?
    ensures r.states[m].adopted !! r.states[n].server.live.Keys
  {
    DeleteAllCovers(r, m, n);
    RunSafe(r, m);
    LaterRun(r, m, n);
    forall uid | uid in r.states[m].adopted
      ensures uid !in r.states[n].server.live
    {
      if uid in r.states[m].server.live {
        assert Covered(r.states[n], uid);
      }
    }
  }
}
