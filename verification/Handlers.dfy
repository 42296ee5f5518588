/**
 The multiplexer of event handlers. Every method runs under the watcher lock,
 so its operations happen one at a time.
 */
module Handlers {
  import opened Options

  /** One event arriving at one handler. */
  datatype Delivery<E, H> = Delivery(token: nat, handler: H, event: E)

  /** A run of the multiplexer, as its callers see it. */
  datatype Call<E, H> = Attach(handler: H) | Detach(token: nat) | DetachAll | Send(event: E)

  class Muxer<E, H> {
    var handlers: Option<map<nat, H>>
    var nextIndex: nat
    ghost var deliveries: seq<Delivery<E, H>>
    ghost var calls: seq<Call<E, H>>

    ghost predicate Valid()
      reads this
    {
      && nextIndex == Issued(calls)
      && Attached() == AttachedAfter(calls)
    }

    function Attached(): map<nat, H>
      reads this
    {
      if handlers.Some? then handlers.value else map[]
    }

    constructor ()
      ensures Valid() && calls == [] && deliveries == []
    {
      handlers := None;
      nextIndex := 0;
      deliveries := [];
      calls := [];
    }

    method Clear()
      requires Valid()
      modifies this
      ensures Valid() && calls == old(calls) + [DetachAll] && deliveries == old(deliveries)
    {
      handlers := None;
      calls := calls + [DetachAll];
    }

    method Add(h: H) returns (token: nat)
      requires Valid()
      modifies this
      ensures Valid() && calls == old(calls) + [Attach(h)] && deliveries == old(deliveries)
      ensures token == Issued(old(calls))
    {
      if handlers.None? {
        handlers := Some(map[]);
      }
      token := nextIndex;
      nextIndex := nextIndex + 1;
      handlers := Some(handlers.value[token := h]);
      calls := calls + [Attach(h)];
    }

    method Remove(which: nat)
      requires Valid()
      modifies this
      ensures Valid() && calls == old(calls) + [Detach(which)] && deliveries == old(deliveries)
    {
      if handlers.Some? {
        handlers := Some(handlers.value - {which});
      }
      calls := calls + [Detach(which)];
    }

    /** Sends the event to every attached handler, in no particular order. */
    method OnEvent(e: E) returns (ghost order: seq<nat>)
      requires Valid()
      modifies this
      ensures Valid() && calls == old(calls) + [Send(e)]
      ensures Enumerates(order, AttachedAfter(old(calls)).Keys)
      ensures deliveries == old(deliveries) + DeliveriesTo(order, AttachedAfter(old(calls)), e)
    {
      var todo := Attached().Keys;
      order := [];
      while todo != {}
        invariant unchanged(this`handlers) && unchanged(this`nextIndex) && unchanged(this`calls)
        invariant todo <= Attached().Keys
        invariant Enumerates(order, Attached().Keys - todo)
        invariant deliveries == old(deliveries) + DeliveriesTo(order, Attached(), e)
        decreases todo
      {
        var k :| k in todo;
        EnumerateNext(order, Attached().Keys - todo, k);
        todo := todo - {k};
        deliveries := deliveries + [Delivery(k, Attached()[k], e)];
        assert Attached().Keys - todo == Attached().Keys - (todo + {k}) + {k};
        order := order + [k];
      }
      assert Attached().Keys - {} == Attached().Keys;
      calls := calls + [Send(e)];
    }
  }

  /** Each token of the set is listed once. */
  ghost predicate Enumerates(order: seq<nat>, tokens: set<nat>) {
    && (forall i, j :: 0 <= i < j < |order| ==> order[i] != order[j])
    && (forall k :: k in tokens <==> k in order)
  }

  lemma EnumerateNext(order: seq<nat>, tokens: set<nat>, k: nat)
    requires Enumerates(order, tokens) && k !in tokens
    ensures Enumerates(order + [k], tokens + {k})
  {
  }

  ghost function DeliveriesTo<E, H>(order: seq<nat>, handlers: map<nat, H>, e: E): (ds: seq<Delivery<E, H>>)
    requires forall k :: k in order ==> k in handlers
    ensures |ds| == |order|
    ensures forall i :: 0 <= i < |order| ==> ds[i] == Delivery(order[i], handlers[order[i]], e)
  {
    seq(|order|, i requires 0 <= i < |order| => Delivery(order[i], handlers[order[i]], e))
  }

  /** How many tokens the calls have handed out. */
  function Issued<E, H>(calls: seq<Call<E, H>>): nat {
    if calls == [] then 0
    else Issued(calls[..|calls| - 1]) + if calls[|calls| - 1].Attach? then 1 else 0
  }

  function AttachedAfter<E, H>(calls: seq<Call<E, H>>): map<nat, H> {
    if calls == [] then map[]
    else
      var before := AttachedAfter(calls[..|calls| - 1]);
      match calls[|calls| - 1]
      case Attach(h) => before[Issued(calls[..|calls| - 1]) := h]
      case Detach(token) => before - {token}
      case DetachAll => map[]
      case Send(_) => before
  }

  /** A token still stands for the handler it was issued for, unless it has been withdrawn. */
  ghost predicate StillAttached<E, H>(calls: seq<Call<E, H>>, a: nat) {
    && a < |calls| && calls[a].Attach?
    && forall k :: a < k < |calls| ==> calls[k] != DetachAll && calls[k] != Detach(Issued(calls[..a]))
  }

  lemma {:induction false} IssuedGrows<E, H>(calls: seq<Call<E, H>>, a: nat, b: nat)
    requires a <= b <= |calls|
    ensures Issued(calls[..a]) <= Issued(calls[..b])
    ensures a < b && calls[a].Attach? ==> Issued(calls[..a]) < Issued(calls[..b])
    decreases b
  {
    if a < b {
      assert calls[..b][..b - 1] == calls[..b - 1];
      IssuedGrows(calls, a, b - 1);
    }
  }

  /** No token is handed out twice, even across Clear. */
  lemma TokensDistinct<E, H>(calls: seq<Call<E, H>>, a: nat, b: nat)
    requires a < b < |calls| && calls[a].Attach? && calls[b].Attach?
    ensures Issued(calls[..a]) < Issued(calls[..b])
  {
    IssuedGrows(calls, a, b);
  }

  ghost predicate StandsFor<E, H>(calls: seq<Call<E, H>>, a: nat, token: nat) {
    StillAttached(calls, a) && Issued(calls[..a]) == token
  }

  lemma StandsForStep<E, H>(calls: seq<Call<E, H>>, a: nat, token: nat)
    requires calls != [] && a < |calls| - 1
    ensures var n := |calls| - 1;
            StandsFor(calls, a, token) <==>
            StandsFor(calls[..n], a, token) && calls[n] != DetachAll && calls[n] != Detach(token)
  {
    var n := |calls| - 1;
    var front := calls[..n];
    assert front[..a] == calls[..a];
    assert forall k :: a < k < n ==> front[k] == calls[k];
  }

  /** The attached handlers are exactly those whose Add has not been undone. */
  lemma {:induction false} AttachedExactly<E, H>(calls: seq<Call<E, H>>, token: nat)
    ensures token in AttachedAfter(calls) <==> exists a: nat :: StandsFor(calls, a, token)
    ensures forall a: nat :: StandsFor(calls, a, token) ==>
                               token in AttachedAfter(calls) && AttachedAfter(calls)[token] == calls[a].handler
    decreases |calls|
  {
    if calls != [] {
      var n := |calls| - 1;
      var front := calls[..n];
      AttachedExactly(front, token);
      forall a: nat | a < n
        ensures StandsFor(calls, a, token) <==>
                StandsFor(front, a, token) && calls[n] != DetachAll && calls[n] != Detach(token)
        ensures calls[n].Attach? && StandsFor(calls, a, token) ==> token != Issued(front)
      {
        StandsForStep(calls, a, token);
        IssuedGrows(calls, a, n);
      }
      if token in AttachedAfter(calls) {
        if calls[n].Attach? && Issued(front) == token {
          assert StandsFor(calls, n, token);
        } else {
          var a: nat :| StandsFor(front, a, token);
          assert StandsFor(calls, a, token);
        }
      }
      forall a: nat | StandsFor(calls, a, token)
        ensures token in AttachedAfter(calls) && AttachedAfter(calls)[token] == calls[a].handler
      {
        if a < n {
          assert StandsFor(front, a, token);
        }
      }
    }
  }
}
