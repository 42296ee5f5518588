/**
 The object driver as the test goroutine uses it: the pool updated in place,
 and requests sent to an API server that may answer anything.
 */
module ObjectDriver {
  import opened Options
  import opened Pool
  import opened AdoptSystem
  import opened ErrorChain
  import Handlers

  datatype Failure = DeleteFailed | NoKind(kind: string) | NoUid | StatusError(code: int) | HardError(text: string)

  /** The server's answer to a create, a patch or a delete. */
  datatype Answer = Done(latest: Obj) | AlreadyExists | Rejected(code: int) | Broken(text: string)

  datatype Call = CreateCall(o: Obj) | PatchCall(o: Obj) | DeleteCall(id: Identity)

  class ApiServer {
    ghost var calls: seq<Call>
    ghost var answers: seq<Answer>

    constructor ()
      ensures calls == [] && answers == []
    {
      calls, answers := [], [];
    }

    /** Any request gets any answer. */
    method Request(ghost c: Call) returns (a: Answer)
      modifies this
      ensures calls == old(calls) + [c] && answers == old(answers) + [a]
    {
      a := *;
      calls, answers := calls + [c], answers + [a];
    }
  }

  /** A watcher, as the multiplexer holds it. */
  datatype Handler = Handler(id: nat)

  /** What discovery knows about a kind. */
  datatype Discovery = Discovery(resolves: string -> bool, namespaced: string -> bool)

  /** The object with its namespace defaulted, as it is sent to the server. */
  function Defaulted(d: Discovery, o: Obj): Obj {
    if d.namespaced(o.kind) && o.namespace == "" then o.(namespace := "default") else o
  }

  /** A request for a cluster-scoped kind names no namespace. */
  function TargetOf(d: Discovery, o: Obj): Identity {
    Identity(o.kind, if d.namespaced(o.kind) then Defaulted(d, o).namespace else "", o.name)
  }

  /** The object with the namespace that requests about it go to. */
  lemma DefaultedExactly(d: Discovery, o: Obj)
    ensures Defaulted(d, o) == o.(namespace := if d.namespaced(o.kind) && o.namespace == "" then "default" else o.namespace)
  {
  }

  /** Which object a request is about: kind and name are its own, and the namespace is none, the default one or its own. */
  lemma TargetExactly(d: Discovery, o: Obj)
    ensures TargetOf(d, o) ==
            Identity(o.kind, if !d.namespaced(o.kind) then "" else if o.namespace == "" then "default" else o.namespace, o.name)
  {
  }

  /** The namespace is one that the server gives to an object of this kind. */
  predicate Fits(d: Discovery, o: Obj) {
    d.namespaced(o.kind) <==> o.namespace != ""
  }

  /** A request about an object as the server returned it is about that very object. */
  lemma TargetIsObject(d: Discovery, o: Obj)
    requires Fits(d, o)
    ensures TargetOf(d, o) == IdentityOf(o)
  {
    TargetExactly(d, o);
  }

  datatype OperationResult = OperationResult(error: Option<int>, latest: Obj)

  datatype Outcome = Failed(failure: Failure) | Result(result: OperationResult)

  function Succeeded(out: Outcome): bool {
    out.Result? && out.result.error.None?
  }

  /** What an answer to the create or the patch comes to; an object without a UID cannot be adopted. */
  function OutcomeOf(sent: Obj, answer: Answer): Outcome {
    match answer
    case Done(latest) => if latest.uid == "" then Failed(NoUid) else Result(OperationResult(None, latest))
    case Rejected(code) => Result(OperationResult(Some(code), sent))
    case AlreadyExists => Result(OperationResult(Some(CONFLICT), sent))
    case Broken(text) => Failed(HardError(text))
  }

  /** What is wrong with an answer to a delete, if anything. */
  function Complaint(a: Answer): seq<Failure> {
    match a
    case Done(_) => []
    case Rejected(code) => [StatusError(code)]
    case AlreadyExists => [StatusError(CONFLICT)]
    case Broken(text) => [HardError(text)]
  }

  function FailureOf(out: Outcome): seq<Failure> {
    match out
    case Failed(f) => [f]
    case Result(r) => if r.error.Some? then [StatusError(r.error.value)] else []
  }

  /** The delete requests for the targets whose kind resolves. */
  function DeleteCalls(d: Discovery, targets: seq<Obj>): seq<Call> {
    if targets == [] then []
    else
      var last := targets[|targets| - 1];
      DeleteCalls(d, targets[..|targets| - 1])
      + if d.resolves(last.kind) then [DeleteCall(TargetOf(d, last))] else []
  }

  /** The failures of a run of deletes, in order, given the server's answers to them. */
  function Report(d: Discovery, targets: seq<Obj>, answers: seq<Answer>): seq<Failure>
    requires |answers| == |DeleteCalls(d, targets)|
  {
    if targets == [] then []
    else
      var front, last := targets[..|targets| - 1], targets[|targets| - 1];
      if d.resolves(last.kind) then
        Report(d, front, answers[..|answers| - 1]) + Complaint(answers[|answers| - 1])
      else
        Report(d, front, answers) + [NoKind(last.kind)]
  }

  predicate AllResolve(d: Discovery, targets: seq<Obj>) {
    forall i :: 0 <= i < |targets| ==> d.resolves(targets[i].kind)
  }

  predicate AllDone(answers: seq<Answer>) {
    forall i :: 0 <= i < |answers| ==> answers[i].Done?
  }

  lemma AllDoneLast(answers: seq<Answer>)
    requires answers != []
    ensures AllDone(answers) <==> AllDone(answers[..|answers| - 1]) && answers[|answers| - 1].Done?
  {
  }

  lemma AllResolveLast(d: Discovery, targets: seq<Obj>)
    requires targets != []
    ensures AllResolve(d, targets) <==>
            AllResolve(d, targets[..|targets| - 1]) && d.resolves(targets[|targets| - 1].kind)
  {
  }

  /** Nothing is reported exactly when every kind resolved and every delete was done. */
  lemma {:induction false} ReportExact(d: Discovery, targets: seq<Obj>, answers: seq<Answer>)
    requires |answers| == |DeleteCalls(d, targets)|
    ensures Report(d, targets, answers) == [] <==> AllResolve(d, targets) && AllDone(answers)
    decreases |targets|
  {
    if targets != [] {
      var front, last := targets[..|targets| - 1], targets[|targets| - 1];
      AllResolveLast(d, targets);
      if d.resolves(last.kind) {
        AllDoneLast(answers);
        ReportExact(d, front, answers[..|answers| - 1]);
      } else {
        ReportExact(d, front, answers);
      }
    }
  }

  lemma NothingReported(d: Discovery)
    ensures DeleteCalls(d, []) == [] && Report(d, [], []) == []
    ensures forall t: Obj :: |DeleteCalls(d, [t])| == if d.resolves(t.kind) then 1 else 0
  {
    forall t: Obj
      ensures |DeleteCalls(d, [t])| == if d.resolves(t.kind) then 1 else 0
    {
      assert [t][..0] == [];
    }
  }

  lemma ReportNext(d: Discovery, targets: seq<Obj>, i: nat, answers: seq<Answer>, more: seq<Answer>)
    requires i < |targets| && |answers| == |DeleteCalls(d, targets[..i])|
    requires |more| == |DeleteCalls(d, [targets[i]])|
    ensures DeleteCalls(d, targets[..i + 1]) == DeleteCalls(d, targets[..i]) + DeleteCalls(d, [targets[i]])
    ensures Report(d, targets[..i + 1], answers + more) ==
            Report(d, targets[..i], answers)
            + if d.resolves(targets[i].kind) then Complaint(more[0]) else [NoKind(targets[i].kind)]
  {
    assert targets[..i + 1][..i] == targets[..i];
    assert [targets[i]][..0] == [];
    assert DeleteCalls(d, []) == [];
    hide TargetOf, Complaint;
    if d.resolves(targets[i].kind) {
      assert (answers + more)[..|answers|] == answers;
    } else {
      assert answers + more == answers;
    }
  }

  /** When every kind resolves, each target gets exactly one delete, in order, of the target itself. */
  lemma {:induction false} OneDeleteEach(d: Discovery, targets: seq<Obj>)
    requires AllResolve(d, targets)
    ensures |DeleteCalls(d, targets)| == |targets|
    ensures forall i :: 0 <= i < |targets| ==>
              && DeleteCalls(d, targets)[i] == DeleteCall(TargetOf(d, targets[i]))
              && (Fits(d, targets[i]) ==> DeleteCalls(d, targets)[i] == DeleteCall(IdentityOf(targets[i])))
  {
    if targets != [] {
      OneDeleteEach(d, targets[..|targets| - 1]);
    }
    forall i | 0 <= i < |targets| && Fits(d, targets[i])
      ensures TargetOf(d, targets[i]) == IdentityOf(targets[i])
    {
      TargetIsObject(d, targets[i]);
    }
  }

  class Driver {
    const discovery: Discovery
    var objectPool: PoolMap
    var informers: set<string>
    const watchers: Handlers.Muxer<Event, Handler>
    var stopped: bool
    ghost var history: seq<Happening>

    ghost predicate Valid()
      reads this, watchers
    {
      objectPool == After(history) && watchers.Valid()
    }

    constructor (d: Discovery)
      ensures Valid() && fresh(watchers) && watchers.calls == []
      ensures history == [] && discovery == d && informers == {} && !stopped
    {
      discovery := d;
      watchers := new Handlers.Muxer();
      stopped := false;
      objectPool := map[];
      informers := {};
      history := [];
    }

    ghost method Record(h: Happening)
      requires objectPool == Pool.Apply(After(history), h) && watchers.Valid()
      modifies this`history
      ensures Valid() && history == old(history) + [h]
    {
      assert (history + [h])[..|history|] == history;
      history := history + [h];
    }

    /** An informer's add or update event. */
    method UpdateAdoptedObject(o: Obj)
      requires Valid()
      modifies this`objectPool, this`history
      ensures Valid() && history == old(history) + [Observed(o)]
    {
      if o.uid in objectPool {
        if o.generation > objectPool[o.uid].generation {
          objectPool := objectPool[o.uid := o];
        }
      }
      Record(Observed(o));
    }

    /** An informer's delete event. */
    method ForgetObject(uid: string)
      requires Valid()
      modifies this`objectPool, this`history
      ensures Valid() && history == old(history) + [Vanished(uid)]
    {
      objectPool := objectPool - {uid};
      Record(Vanished(uid));
    }

    method Adopt(o: Obj) returns (err: Option<Failure>)
      requires Valid()
      modifies this`objectPool, this`history
      ensures Valid() && (err.Some? <==> o.uid == "")
      ensures err.Some? ==> err == Some(NoUid) && history == old(history)
      ensures err.None? ==> history == old(history) + [Adopted(o)]
    {
      if o.uid == "" {
        return Some(NoUid);
      }
      if o.uid in objectPool {
        if o.generation > objectPool[o.uid].generation {
          objectPool := objectPool[o.uid := o];
        }
      } else {
        objectPool := objectPool[o.uid := o];
      }
      Record(Adopted(o));
      return None;
    }

    /** Stops the informers, detaches the watchers and forgets the objects; stopping twice is not possible. */
    method Done()
      requires Valid() && !stopped
      modifies this, watchers
      ensures Valid() && stopped && watchers.calls == old(watchers.calls) + [Handlers.DetachAll]
      ensures history == old(history) + [Reset] && objectPool == map[] && informers == {}
    {
      stopped := true;
      watchers.Clear();
      objectPool := map[];
      Record(Reset);
      informers := {};
    }

    /** Attaches a watcher; the token is what its cancel function holds. */
    method Watch(h: Handler) returns (token: nat)
      requires Valid()
      modifies watchers
      ensures Valid() && watchers.calls == old(watchers.calls) + [Handlers.Attach(h)]
      ensures token == Handlers.Issued(old(watchers.calls))
    {
      token := watchers.Add(h);
    }

    method Cancel(token: nat)
      requires Valid()
      modifies watchers
      ensures Valid() && watchers.calls == old(watchers.calls) + [Handlers.Detach(token)]
    {
      watchers.Remove(token);
    }

    /** Creates the object, or patches it if it exists, and adopts what comes back. */
    method Apply(o: Obj, server: ApiServer) returns (out: Outcome, ghost replies: seq<Answer>)
      requires Valid()
      modifies this, server
      ensures Valid() && server.answers == old(server.answers) + replies
      ensures !discovery.resolves(o.kind) ==> out == Failed(NoKind(o.kind)) && replies == [] && history == old(history)
      ensures !discovery.resolves(o.kind) ==> server.calls == old(server.calls)
      ensures discovery.resolves(o.kind) ==>
                var namespace := if discovery.namespaced(o.kind) && o.namespace == "" then "default" else o.namespace;
                var sent := o.(namespace := namespace);
                && o.kind in informers
                && replies != [] && |replies| == (if replies[0].AlreadyExists? then 2 else 1)
                && server.calls == old(server.calls) + [CreateCall(sent)] + (if |replies| == 2 then [PatchCall(sent)] else [])
                && out == OutcomeOf(sent, replies[|replies| - 1])
                && history == old(history) + (if Succeeded(out) then [Adopted(out.result.latest)] else [])
    {
      hide After;
      if !discovery.resolves(o.kind) {
        return Failed(NoKind(o.kind)), [];
      }
      var sent := Defaulted(discovery, o);
      informers := informers + {o.kind};
      var answer := server.Request(CreateCall(sent));
      replies := [answer];
      if answer.AlreadyExists? {
        answer := server.Request(PatchCall(sent));
        replies := replies + [answer];
        assert server.calls == old(server.calls) + [CreateCall(sent)] + [PatchCall(sent)];
      } else {
        assert server.calls == old(server.calls) + [CreateCall(sent)];
      }
      assert replies[|replies| - 1] == answer;
      match answer
      case Done(latest) =>
        var err := Adopt(latest);
        if err.Some? {
          return Failed(err.value), replies;
        }
        return Result(OperationResult(None, latest)), replies;
      case Rejected(code) => return Result(OperationResult(Some(code), sent)), replies;
      case AlreadyExists => return Result(OperationResult(Some(CONFLICT), sent)), replies;
      case Broken(text) => return Failed(HardError(text)), replies;
    }

    /** Deletes by name; reports the adopted copy of the object if there is one. */
    method Delete(o: Obj, server: ApiServer) returns (out: Outcome)
      requires Valid()
      modifies server
      ensures server.calls == old(server.calls) + DeleteCalls(discovery, [o])
      ensures discovery.resolves(o.kind) ==>
                var namespace := if !discovery.namespaced(o.kind) then "" else if o.namespace == "" then "default" else o.namespace;
                server.calls == old(server.calls) + [DeleteCall(Identity(o.kind, namespace, o.name))]
      ensures !discovery.resolves(o.kind) ==> out == Failed(NoKind(o.kind)) && server.answers == old(server.answers)
      ensures discovery.resolves(o.kind) ==>
                && |server.answers| == |old(server.answers)| + 1 && old(server.answers) <= server.answers
                && FailureOf(out) == Complaint(server.answers[|old(server.answers)|])
      ensures out.Result? ==>
                var namespace := if discovery.namespaced(o.kind) && o.namespace == "" then "default" else o.namespace;
                var sent := o.(namespace := namespace);
                || (out.result.latest == sent && forall uid :: uid in objectPool ==> IdentityOf(objectPool[uid]) != IdentityOf(sent))
                || exists uid :: uid in objectPool && out.result.latest == objectPool[uid] && IdentityOf(objectPool[uid]) == IdentityOf(sent)
    {
      if !discovery.resolves(o.kind) {
        return Failed(NoKind(o.kind));
      }
      var sent := Defaulted(discovery, o);
      var latest := sent;
      var todo := objectPool.Keys;
      while todo != {}
        invariant todo <= objectPool.Keys && latest == sent
        invariant forall uid :: uid in objectPool.Keys - todo ==> IdentityOf(objectPool[uid]) != IdentityOf(sent)
        decreases todo
      {
        var uid :| uid in todo;
        var adopted := objectPool[uid];
        if adopted.name == sent.name && adopted.namespace == sent.namespace && adopted.kind == sent.kind {
          latest := adopted;
          break;
        }
        todo := todo - {uid};
      }
      var answer := server.Request(DeleteCall(TargetOf(discovery, o)));
      match answer
      case Done(_) => return Result(OperationResult(None, latest));
      case Rejected(code) => return Result(OperationResult(Some(code), latest));
      case AlreadyExists => return Result(OperationResult(Some(CONFLICT), latest));
      case Broken(text) => return Failed(HardError(text));
    }

    /** A snapshot of the pool, in no particular order. */
    method Targets() returns (targets: seq<Obj>)
      requires Valid()
      ensures Lists(targets, objectPool)
    {
      PoolKeys(history);
      targets := [];
      var todo := objectPool.Keys;
      assert objectPool - todo == map[];
      while todo != {}
        invariant todo <= objectPool.Keys
        invariant Lists(targets, objectPool - todo)
        decreases todo
      {
        var uid :| uid in todo;
        ListNext(targets, objectPool, todo, uid);
        targets := targets + [objectPool[uid]];
        todo := todo - {uid};
      }
      assert objectPool - {} == objectPool;
    }

    /** Deletes the targets one after the other, collecting what went wrong. */
    method DeleteEach(order: seq<Obj>, server: ApiServer) returns (errs: seq<Failure>, ghost replies: seq<Answer>)
      requires Valid()
      modifies server
      ensures server.calls == old(server.calls) + DeleteCalls(discovery, order)
      ensures server.answers == old(server.answers) + replies && |replies| == |DeleteCalls(discovery, order)|
      ensures errs == Report(discovery, order, replies)
    {
      hide TargetOf, Report, DeleteCalls, After;
      NothingReported(discovery);
      errs, replies := [], [];
      for i := 0 to |order|
        invariant server.calls == old(server.calls) + DeleteCalls(discovery, order[..i])
        invariant server.answers == old(server.answers) + replies && |replies| == |DeleteCalls(discovery, order[..i])|
        invariant errs == Report(discovery, order[..i], replies)
      {
        ghost var before := server.answers;
        var out := Delete(order[i], server);
        ghost var more := server.answers[|before|..];
        ReportNext(discovery, order, i, replies, more);
        replies := replies + more;
        match out {
          case Failed(f) => errs := errs + [f];
          case Result(r) =>
            if r.error.Some? {
              errs := errs + [StatusError(r.error.value)];
            }
        }
      }
      assert order[..|order|] == order;
    }

    /** Deletes everything in the pool; the error is nil or a chain of all the failures. */
    method DeleteAll(server: ApiServer)
      returns (err: Link?<Failure>, ghost targets: seq<Obj>, ghost replies: seq<Answer>, ghost links: seq<Link<Failure>>)
      requires Valid()
      modifies server
      ensures Lists(targets, objectPool)
      ensures server.calls == old(server.calls) + DeleteCalls(discovery, targets)
      ensures (forall uid :: uid in objectPool ==> discovery.resolves(objectPool[uid].kind) && Fits(discovery, objectPool[uid])) ==>
                server.calls == old(server.calls) + seq(|targets|, i requires 0 <= i < |targets| => DeleteCall(IdentityOf(targets[i])))
      ensures server.answers == old(server.answers) + replies && |replies| == |DeleteCalls(discovery, targets)|
      ensures err == null <==> AllResolve(discovery, targets) && AllDone(replies)
      ensures err != null ==>
                Chained(links, [DeleteFailed] + Report(discovery, targets, replies)) && err == links[0]
    {
      var order := Targets();
      var errs: seq<Failure>;
      errs, replies := DeleteEach(order, server);
      targets, links := order, [];
      ReportExact(discovery, targets, replies);
      if forall uid :: uid in objectPool ==> discovery.resolves(objectPool[uid].kind) && Fits(discovery, objectPool[uid]) {
        OneDeleteEach(discovery, targets);
        assert DeleteCalls(discovery, targets) ==
               seq(|targets|, i requires 0 <= i < |targets| => DeleteCall(IdentityOf(targets[i])));
      }
      if errs == [] {
        return null, targets, replies, links;
      }
      err, links := ChainErrors([DeleteFailed] + errs);
    }
  }

  const CONFLICT := 409

  lemma ListNext(order: seq<Obj>, pool: PoolMap, todo: set<string>, uid: string)
    requires uid in todo && todo <= pool.Keys && Lists(order, pool - todo)
    requires forall u :: u in pool ==> pool[u].uid == u
    ensures Lists(order + [pool[uid]], pool - (todo - {uid}))
  {
    var next := order + [pool[uid]];
    forall u | u in pool - (todo - {uid})
      ensures exists i :: 0 <= i < |next| && next[i] == pool[u]
    {
      if u == uid {
        assert next[|order|] == pool[u];
      } else {
        assert u in pool - todo;
        var i :| 0 <= i < |order| && order[i] == (pool - todo)[u];
        assert next[i] == pool[u];
      }
    }
  }
}
