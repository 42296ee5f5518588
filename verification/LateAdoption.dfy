/**
 Adopting an object whose delete event has already been handled. Nothing will
 take it out of the pool again until Done, although it is dead.
 */
module LateAdoption {
  import opened Options
  import opened Pool
  import opened AdoptSystem
  import opened LockDiscipline

  lemma {:induction false} GoneStaysGone(r: Run, n: nat, uid: string)
    requires IsRun(r) && n < |r.states| && Vanished(uid) in r.states[n].history
    ensures uid in r.states[n].server.identity && uid !in r.states[n].server.live
  {
    if n > 0 {
      RunSafe(r, n - 1);
      var s, step := r.states[n - 1], r.steps[n - 1];
      StepServer(s, step);
      StepPool(s, step);
      if Vanished(uid) in s.history {
        GoneStaysGone(r, n - 1, uid);
      } else {
        assert step.InformerWork? && InformerOk(s.server, s.informers[step.i]);
      }
    }
  }

  // ---- A deletion is handled once ----

  /** The deletion of the UID stands at this place in what the informer has emitted. */
  predicate DeletesAt(s: System, uid: string, i: nat, k: nat) {
    && i < |s.informers| && k < |s.informers[i].emitted|
    && s.informers[i].emitted[k].Delete? && s.informers[i].emitted[k].o.uid == uid
  }

  ghost predicate EmittedOnce(s: System) {
    forall uid, i: nat, k: nat, j: nat, l: nat :: DeletesAt(s, uid, i, k) && DeletesAt(s, uid, j, l) ==> i == j && k == l
  }

  lemma StepEmitted(s: System, step: Step, i: nat)
    requires Enabled(s, step) && i < |Do(s, step).informers|
    ensures var f' := Do(s, step).informers[i];
            f'.emitted == if i == |s.informers| then []
                          else s.informers[i].emitted + if step.Emit? && step.i == i then [step.e] else []
  {
    OthersStay(s, step);
  }

  lemma DeleteOrigin(s: System, step: Step, uid: string, i: nat, k: nat)
    requires Enabled(s, step) && DeletesAt(Do(s, step), uid, i, k)
    ensures DeletesAt(s, uid, i, k) || EmitsAt(s, step, uid, i, k)
  {
    OthersStay(s, step);
    StepEmitted(s, step, i);
  }

  lemma EmitsFresh(s: System, step: Step, uid: string, i: nat, k: nat)
    requires Enabled(s, step) && DeletesAt(s, uid, i, k)
    ensures step.Emit? && step.e.Delete? ==> step.e.o.uid != uid
  {
    assert Reports(s.informers[i].emitted, uid);
  }

  lemma StepEmittedOnce(s: System, step: Step)
    requires Enabled(s, step) && EmittedOnce(s)
    ensures EmittedOnce(Do(s, step))
  {
    hide Do, Enabled, DeletesAt;
    forall uid, i: nat, k: nat | DeletesAt(Do(s, step), uid, i, k)
      ensures DeletesAt(s, uid, i, k) || EmitsAt(s, step, uid, i, k)
    {
      DeleteOrigin(s, step, uid, i, k);
    }
    forall uid, i: nat, k: nat | DeletesAt(s, uid, i, k)
      ensures step.Emit? && step.e.Delete? ==> step.e.o.uid != uid
    {
      EmitsFresh(s, step, uid, i, k);
    }
  }

  predicate EmitsAt(s: System, step: Step, uid: string, i: nat, k: nat) {
    && step.Emit? && step.i == i < |s.informers| && k == |s.informers[i].emitted|
    && step.e.Delete? && step.e.o.uid == uid
  }

  /** A handled deletion is one that some informer has handed to the pool. */
  ghost predicate HandledWasPooled(s: System) {
    forall uid :: Vanished(uid) in s.history ==> exists i: nat, k: nat :: PooledAt(s, uid, i, k)
  }

  predicate PooledAt(s: System, uid: string, i: nat, k: nat) {
    DeletesAt(s, uid, i, k) && k < |s.informers[i].pooled|
  }

  lemma StepKeepsDeletes(s: System, step: Step, uid: string, i: nat, k: nat)
    requires Enabled(s, step) && PooledAt(s, uid, i, k)
    ensures PooledAt(Do(s, step), uid, i, k)
  {
    OthersStay(s, step);
    StepEmitted(s, step, i);
  }

  /** The pool step of a delete event hands over the event at the end of what was pooled. */
  lemma PoolsNext(s: System, step: Step)
    requires Enabled(s, step) && FlowsOk(s) && step.InformerWork? && Recorded(s, step).Some? && Recorded(s, step).value.Vanished?
    ensures var uid := Recorded(s, step).value.uid;
            var k := |s.informers[step.i].pooled|;
            DeletesAt(s, uid, step.i, k) && PooledAt(Do(s, step), uid, step.i, k)
  {
    var f := s.informers[step.i];
    assert FlowOk(f) && f.emitted == f.watched + [f.pc.e] + f.queue && f.pooled == f.watched;
  }

  lemma StepHandled(s: System, step: Step)
    requires Enabled(s, step) && FlowsOk(s) && HandledWasPooled(s)
    ensures HandledWasPooled(Do(s, step))
  {
    var s' := Do(s, step);
    StepPool(s, step);
    forall uid | Vanished(uid) in s'.history
      ensures exists i: nat, k: nat :: PooledAt(s', uid, i, k)
    {
      if Vanished(uid) in s.history {
        var i: nat, k: nat :| PooledAt(s, uid, i, k);
        StepKeepsDeletes(s, step, uid, i, k);
      } else {
        PoolsNext(s, step);
      }
    }
  }

  lemma {:induction false} RunOnce(r: Run, n: nat)
    requires IsRun(r) && n < |r.states|
    ensures EmittedOnce(r.states[n]) && HandledWasPooled(r.states[n])
  {
    if n > 0 {
      RunOnce(r, n - 1);
      RunFlows(r, n - 1);
      StepEmittedOnce(r.states[n - 1], r.steps[n - 1]);
      StepHandled(r.states[n - 1], r.steps[n - 1]);
    }
  }

  /** What a step records is not a deletion that was handled before. */
  lemma NotAgain(r: Run, n: nat)
    requires IsRun(r) && n < |r.steps| && Recorded(r.states[n], r.steps[n]).Some?
    ensures var h := Recorded(r.states[n], r.steps[n]).value;
            h.Vanished? ==> h !in r.states[n].history
  {
    var s, step := r.states[n], r.steps[n];
    var h := Recorded(s, step).value;
    RunOnce(r, n);
    RunFlows(r, n);
    if h.Vanished? {
      PoolsNext(s, step);
      assert forall i: nat, k: nat :: !PooledAt(s, h.uid, i, k);
    }
  }

  lemma {:induction false} HandledOnce(r: Run, n: nat, a: nat, b: nat)
    requires IsRun(r) && n < |r.states| && a < b < |r.states[n].history| && r.states[n].history[a].Vanished?
    ensures r.states[n].history[b] != r.states[n].history[a]
  {
    if n > 0 {
      var h := r.states[n - 1].history;
      StepPool(r.states[n - 1], r.steps[n - 1]);
      if b < |h| {
        HandledOnce(r, n - 1, a, b);
      } else {
        NotAgain(r, n - 1);
        assert h[a] in h;
      }
    }
  }

  // ---- What becomes of an object adopted too late ----

  predicate NoResetSince(h: seq<Happening>, i: nat) {
    forall k :: i <= k < |h| ==> !h[k].Reset?
  }

  ghost predicate AdoptedLateAt(h: seq<Happening>, uid: string, i: nat) {
    AdoptedAt(h, uid, i) && Vanished(uid) in h[..i] && NoResetSince(h, i)
  }

  lemma TrackedWasLate(h: seq<Happening>, uid: string)
    requires Vanished(uid) in h && Tracked(h, uid)
    ensures exists i: nat :: AdoptedLateAt(h, uid, i)
  {
    var v: nat :| v < |h| && h[v] == Vanished(uid);
    var i: nat :| AdoptedAt(h, uid, i) && NotDroppedSince(h, uid, i);
    assert Drops(h[v], uid);
    assert v < i && h[..i][v] == h[v];
    assert AdoptedLateAt(h, uid, i);
  }

  lemma LateStaysTracked(r: Run, n: nat, uid: string, i: nat)
    requires IsRun(r) && n < |r.states| && AdoptedLateAt(r.states[n].history, uid, i)
    ensures Tracked(r.states[n].history, uid)
  {
    hide IsRun;
    var h := r.states[n].history;
    var w: nat :| w < i && h[..i][w] == Vanished(uid);
    forall k | i < k < |h|
      ensures !Drops(h[k], uid)
    {
      HandledOnce(r, n, w, k);
    }
    assert NotDroppedSince(h, uid, i);
  }

  /** Once its deletion has been handled, an object is pooled exactly when it was adopted after that and not forgotten since. */
  lemma PooledWhenDead(r: Run, n: nat, uid: string)
    requires IsRun(r) && n < |r.states| && Vanished(uid) in r.states[n].history && uid != ""
    ensures uid in r.states[n].pool <==> exists i: nat :: AdoptedLateAt(r.states[n].history, uid, i)
  {
    var h := r.states[n].history;
    RunSafe(r, n);
    PoolIsHistory(h, uid);
    hide IsRun, Tracked, AdoptedLateAt, EventsOk, AdoptingOk, NoLeak, ServerOk;
    if Tracked(h, uid) {
      TrackedWasLate(h, uid);
    }
    if i: nat :| AdoptedLateAt(h, uid, i) {
      LateStaysTracked(r, n, uid, i);
    }
  }

  lemma {:induction false} HistoryGrows(r: Run, m: nat, n: nat)
    requires IsRun(r) && m <= n < |r.states|
    ensures r.states[m].history <= r.states[n].history
    decreases n
  {
    hide Do, Recorded;
    if m < n {
      HistoryGrows(r, m, n - 1);
      StepPool(r.states[n - 1], r.steps[n - 1]);
    }
  }

  /** A dead entry stays until everything is forgotten. */
  lemma DeadEntryStays(r: Run, m: nat, n: nat, uid: string)
    requires IsRun(r) && m <= n < |r.states| && uid != ""
    requires Vanished(uid) in r.states[m].history && uid in r.states[m].pool
    requires NoResetSince(r.states[n].history, |r.states[m].history|)
    ensures uid in r.states[n].pool && uid !in r.states[n].server.live
  {
    HistoryGrows(r, m, n);
    var h, h' := r.states[m].history, r.states[n].history;
    PooledWhenDead(r, m, uid);
    var i: nat :| AdoptedLateAt(h, uid, i);
    assert h'[..i] == h[..i] && forall k :: 0 <= k < |h| ==> h'[k] == h[k];
    assert AdoptedLateAt(h', uid, i);
    assert Vanished(uid) in h';
    PooledWhenDead(r, n, uid);
    GoneStaysGone(r, n, uid);
  }

  /**
   Adopt leaves an entry that outlives its object exactly when the delete event
   has been handled before it takes the lock: once that event has been handled,
   with no adoption or reset in between, the object is pooled in the one case
   and not in the other.
   */
  lemma AdoptingTooLate(r: Run, n: nat, m: nat)
    requires IsRun(r) && n < m < |r.states| && r.steps[n].TestWork?
    requires r.states[n].test.Hold? && r.states[n].test.job.AdoptJob? && r.states[n].test.job.o.uid != ""
    requires var uid := r.states[n].test.job.o.uid;
             var h, h' := r.states[n].history, r.states[m].history;
             && Vanished(uid) in h' && NoResetSince(h', |h|)
             && forall i: nat :: |h| < i ==> !AdoptedAt(h', uid, i)
    ensures var uid := r.states[n].test.job.o.uid;
            uid in r.states[m].pool <==> Vanished(uid) in r.states[n].history
  {
    var o := r.states[n].test.job.o;
    var h, h' := r.states[n].history, r.states[m].history;
    StepPool(r.states[n], r.steps[n]);
    HistoryGrows(r, n + 1, m);
    assert r.states[n + 1].history == h + [Adopted(o)];
    assert h'[..|h|] == h && h'[|h|] == Adopted(o);
    PooledWhenDead(r, m, o.uid);
    if Vanished(o.uid) in h {
      assert AdoptedLateAt(h', o.uid, |h|);
    } else {
      forall i: nat | AdoptedAt(h', o.uid, i)
        ensures Vanished(o.uid) !in h'[..i]
      {
        assert h'[..i] <= h;
      }
    }
  }

  // ---- It does happen ----

  function Final(r: Run): System
    requires |r.states| > 0
  {
    r.states[|r.states| - 1]
  }

  lemma Extend(r: Run, step: Step) returns (r': Run)
    requires IsRun(r) && Enabled(Final(r), step)
    ensures IsRun(r') && Final(r') == Do(Final(r), step)
  {
    r' := Run(r.states + [Do(Final(r), step)], r.steps + [step]);
  }

  /** No informer has anything left to deliver. */
  ghost predicate Quiet(s: System) {
    forall i :: 0 <= i < |s.informers| ==> s.informers[i].pc.Idle? && s.informers[i].queue == []
  }

  /** The delete event has come and gone, and yet the object is in the pool: dead, with no event to take it out. */
  ghost predicate AdoptedTooLate(r: Run, uid: string) {
    IsRun(r) && Vanished(uid) in Final(r).history && uid in Final(r).pool && uid !in Final(r).server.live && Quiet(Final(r))
  }

  const LATE := Obj("7", "Pod", "default", "web", 1, "")

  function LateState(live: map<string, Obj>, informers: seq<Informer>, test: TestPc, pool: PoolMap, history: seq<Happening>): System {
    var s := System(Server(live, map[LATE.uid := IdentityOf(LATE)]), informers, test, map[], None, None, {}, 0, [], {}, [], []);
    s.(pool := pool, history := history, adopted := pool.Keys)
  }

  lemma AppliedThenDestroyed() returns (r: Run)
    ensures IsRun(r) && Final(r) == LateState(map[], [Informer(Idle, [], [], [], [])], Wait(AdoptJob(LATE)), map[], [])
  {
    r := Run([System(Server(map[], map[]), [], Ready, map[], None, None, {}, 0, [], {}, [], [])], []);
    assert IsRun(r);
    hide IsRun;
    r := Extend(r, InformOn);
    r := Extend(r, Outside(Create(LATE)));
    r := Extend(r, BeginApply(LATE));
    r := Extend(r, Outside(Destroy(LATE.uid)));
  }

  lemma DeletionTaken() returns (r: Run)
    ensures var e := Delete(LATE);
            IsRun(r) && Final(r) == LateState(map[], [Informer(WaitFor(ObjectLock, e), [], [e], [], [])], Wait(AdoptJob(LATE)), map[], [])
  {
    hide IsRun;
    var e := Delete(LATE);
    r := AppliedThenDestroyed();
    var none: seq<Event> := [];
    assert none + [e] == [e] && [e][1..] == none;
    r := Extend(r, Emit(0, e));
    assert Final(r).informers == [Informer(Idle, [e], [e], [], [])];
    r := Extend(r, Take(0));
  }

  lemma DeletionPooled() returns (r: Run)
    ensures var e := Delete(LATE);
            IsRun(r) && Final(r) == LateState(map[], [Informer(WaitFor(WatcherLock, e), [], [e], [e], [])], Wait(AdoptJob(LATE)),
                                              map[], [Vanished(LATE.uid)])
  {
    hide IsRun;
    var e := Delete(LATE);
    r := DeletionTaken();
    var none: seq<Event> := [];
    var pool: PoolMap := map[];
    assert pool - {LATE.uid} == pool && none + [e] == [e];
    r := Extend(r, InformerLock(0));
    r := Extend(r, InformerWork(0));
  }

  lemma DeletionReported() returns (r: Run)
    ensures var e := Delete(LATE);
            IsRun(r) && Final(r) == LateState(map[], [Informer(Idle, [], [e], [e], [e])], Wait(AdoptJob(LATE)),
                                              map[], [Vanished(LATE.uid)])
  {
    hide IsRun;
    r := DeletionPooled();
    var none: seq<Event> := [];
    assert none + [Delete(LATE)] == [Delete(LATE)];
    r := Extend(r, InformerLock(0));
    r := Extend(r, InformerWork(0));
  }

  /** Applying, being deleted and being reported deleted can all precede the adoption. */
  lemma LateAdoptionHappens()
    ensures exists r: Run, uid: string :: AdoptedTooLate(r, uid)
  {
    hide IsRun;
    var r := DeletionReported();
    r := Extend(r, TestLock);
    r := Extend(r, TestWork([]));
    assert Final(r).history == [Vanished(LATE.uid), Adopted(LATE)];
    assert AdoptedTooLate(r, LATE.uid);
  }
}
