/**
 The pool of adopted objects, as a value, and what it means: a function of the
 whole history of adoptions, informer events and resets.
 */
module Pool {

  datatype Obj = Obj(uid: string, kind: string, namespace: string, name: string, generation: int, content: string)

  type PoolMap = map<string, Obj>

  /** updateAdoptedObject: only an adopted object is updated, and only by a newer generation. */
  function Observe(pool: PoolMap, o: Obj): PoolMap {
    if o.uid in pool && o.generation > pool[o.uid].generation then pool[o.uid := o] else pool
  }

  function Adopt(pool: PoolMap, o: Obj): PoolMap {
    if o.uid == "" then pool
    else if o.uid in pool then Observe(pool, o)
    else pool[o.uid := o]
  }

  datatype Happening =
    | Adopted(o: Obj)
    | Observed(o: Obj)
    | Vanished(uid: string)
    | Reset

  function Apply(pool: PoolMap, h: Happening): PoolMap {
    match h
    case Adopted(o) => Adopt(pool, o)
    case Observed(o) => Observe(pool, o)
    case Vanished(uid) => pool - {uid}
    case Reset => map[]
  }

  function After(h: seq<Happening>): PoolMap {
    if h == [] then map[] else Apply(After(h[..|h| - 1]), h[|h| - 1])
  }

  // ---- The declarative reading of a history ----

  predicate Drops(h: Happening, uid: string) {
    h.Reset? || h == Vanished(uid)
  }

  predicate Shows(h: Happening, uid: string) {
    (h.Adopted? || h.Observed?) && h.o.uid == uid
  }

  predicate AdoptedAt(h: seq<Happening>, uid: string, i: nat) {
    i < |h| && h[i].Adopted? && h[i].o.uid == uid
  }

  ghost predicate NotDroppedSince(h: seq<Happening>, uid: string, i: nat) {
    forall k :: i < k < |h| ==> !Drops(h[k], uid)
  }

  /** The object has been adopted and neither deleted nor forgotten since. */
  ghost predicate Tracked(h: seq<Happening>, uid: string) {
    exists i: nat :: AdoptedAt(h, uid, i) && NotDroppedSince(h, uid, i)
  }

  /** The adoption by which the object last entered the pool. */
  ghost predicate EnteredAt(h: seq<Happening>, uid: string, e: nat) {
    && AdoptedAt(h, uid, e) && NotDroppedSince(h, uid, e)
    && forall i: nat :: i < e && AdoptedAt(h, uid, i) ==> !NotDroppedSince(h[..e], uid, i)
  }

  /** The earliest sighting of the highest generation seen since then. */
  ghost predicate BestSince(h: seq<Happening>, uid: string, e: nat, j: nat) {
    && e <= j < |h| && Shows(h[j], uid)
    && (forall k :: e <= k < |h| && Shows(h[k], uid) ==> h[k].o.generation <= h[j].o.generation)
    && (forall k :: e <= k < j && Shows(h[k], uid) ==> h[k].o.generation < h[j].o.generation)
  }

  /** The pool is exactly this function of the history: who is in it, and with what content. */
  lemma {:induction false} PoolIsHistory(h: seq<Happening>, uid: string)
    requires uid != ""
    ensures uid in After(h) <==> Tracked(h, uid)
    ensures uid in After(h) ==> exists e: nat, j: nat :: EnteredAt(h, uid, e) && BestSince(h, uid, e, j) && After(h)[uid] == h[j].o
    decreases |h|
  {
    if h != [] {
      var n := |h| - 1;
      var front, last := h[..n], h[n];
      assert h == front + [last];
      PoolIsHistory(front, uid);
      TrackedStep(front, last, uid);
      PoolMoves(front, last, uid);
      AfterNext(front, last);
      hide After, Tracked, EnteredAt, BestSince;
      if uid in After(front) && !Drops(last, uid) {
        var e: nat, j: nat :| EnteredAt(front, uid, e) && BestSince(front, uid, e, j) && After(front)[uid] == front[j].o;
        StayEntered(front, last, uid, e);
        BestNext(front, last, uid, e, j);
      } else if uid in After(h) {
        EnterAfresh(front, last, uid);
      }
    }
  }

  lemma AfterNext(h: seq<Happening>, x: Happening)
    ensures After(h + [x]) == Apply(After(h), x)
  {
    assert (h + [x])[..|h|] == h;
  }

  /** The copy to hold after one more happening: the newcomer only if its generation is higher. */
  lemma BestNext(front: seq<Happening>, last: Happening, uid: string, e: nat, j: nat)
    requires EnteredAt(front, uid, e) && BestSince(front, uid, e, j) && !Drops(last, uid)
    ensures var best := if Shows(last, uid) && last.o.generation > front[j].o.generation then |front| else j;
            BestSince(front + [last], uid, e, best)
  {
  }

  /** An untracked UID that is adopted enters there and then, with the content adopted. */
  lemma EnterAfresh(front: seq<Happening>, last: Happening, uid: string)
    requires last.Adopted? && last.o.uid == uid && !Tracked(front, uid)
    ensures EnteredAt(front + [last], uid, |front|) && BestSince(front + [last], uid, |front|, |front|)
  {
    var h, n := front + [last], |front|;
    assert h[..n] == front;
    forall i: nat | i < n && AdoptedAt(h, uid, i)
      ensures !NotDroppedSince(h[..n], uid, i)
    {
      assert AdoptedAt(front, uid, i);
    }
  }

  lemma TrackedStep(front: seq<Happening>, last: Happening, uid: string)
    ensures Tracked(front + [last], uid) <==>
            (last.Adopted? && last.o.uid == uid) || (Tracked(front, uid) && !Drops(last, uid))
  {
    var h := front + [last];
    if Tracked(front, uid) && !Drops(last, uid) {
      var i: nat :| AdoptedAt(front, uid, i) && NotDroppedSince(front, uid, i);
      assert AdoptedAt(h, uid, i) && NotDroppedSince(h, uid, i);
    }
    if last.Adopted? && last.o.uid == uid {
      assert AdoptedAt(h, uid, |front|) && NotDroppedSince(h, uid, |front|);
    }
    if Tracked(h, uid) && !(last.Adopted? && last.o.uid == uid) {
      var i: nat :| AdoptedAt(h, uid, i) && NotDroppedSince(h, uid, i);
      assert h[|front|] == last;
      assert AdoptedAt(front, uid, i);
      forall k | i < k < |front|
        ensures !Drops(front[k], uid)
      {
        assert h[k] == front[k];
      }
    }
  }

  lemma StayEntered(front: seq<Happening>, last: Happening, uid: string, e: nat)
    requires EnteredAt(front, uid, e) && !Drops(last, uid)
    ensures EnteredAt(front + [last], uid, e)
  {
    var h := front + [last];
    assert h[..e] == front[..e];
    forall i: nat | i < e && AdoptedAt(h, uid, i)
      ensures !NotDroppedSince(h[..e], uid, i)
    {
      assert AdoptedAt(front, uid, i);
    }
  }

  /** Every entry is filed under its own UID, and never under the empty one. */
  lemma {:induction false} PoolKeys(h: seq<Happening>)
    ensures "" !in After(h)
    ensures forall uid :: uid in After(h) ==> After(h)[uid].uid == uid
    decreases |h|
  {
    if h != [] {
      PoolKeys(h[..|h| - 1]);
    }
  }

  /** What one more happening can do to the pool. */
  lemma PoolMoves(h: seq<Happening>, x: Happening, uid: string)
    ensures uid in After(h) && uid in After(h + [x]) ==> After(h)[uid].generation <= After(h + [x])[uid].generation
    ensures uid !in After(h) && uid in After(h + [x]) ==> x.Adopted? && x.o.uid == uid
    ensures uid in After(h) && uid !in After(h + [x]) ==> Drops(x, uid)
  {
    assert (h + [x])[..|h|] == h;
  }

  /** A newcomer always enters, whatever was forgotten before. */
  lemma AdoptEnters(h: seq<Happening>, o: Obj)
    requires o.uid != ""
    ensures o.uid in After(h + [Adopted(o)]) && o.generation <= After(h + [Adopted(o)])[o.uid].generation
  {
    assert (h + [Adopted(o)])[..|h|] == h;
  }
}
