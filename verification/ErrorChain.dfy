/**
 A chain of errors: a linked list built in place, and the walks that the
 standard errors functions make over it.
 */
module ErrorChain {

  class Link<E> {
    const err: E
    var next: Link?<E>

    constructor (err: E)
      ensures this.err == err && next == null
    {
      this.err := err;
      next := null;
    }

    /** The rest of the chain; null ends the walk. */
    method Unwrap() returns (rest: Link?<E>)
      ensures rest == next
    {
      rest := next;
    }
  }

  /** The links are a chain from the head, in order, holding these errors. */
  ghost predicate Chained<E>(links: seq<Link<E>>, errs: seq<E>)
    reads set i | 0 <= i < |links| :: links[i]
  {
    && |links| == |errs|
    && (forall i :: 0 <= i < |links| ==> links[i].err == errs[i])
    && (forall i :: 0 <= i < |links| ==> links[i].next == if i + 1 < |links| then links[i + 1] else null)
  }

  lemma ChainedAt<E>(links: seq<Link<E>>, errs: seq<E>, k: nat)
    requires Chained(links, errs) && k < |links|
    ensures links[k].err == errs[k]
    ensures links[k].next == if k + 1 < |links| then links[k + 1] else null
  {
    var link := links[k];
    assert link.next == if k + 1 < |links| then links[k + 1] else null;
  }

  /** Builds the chain; no errors give no chain at all. */
  method ChainErrors<E>(errs: seq<E>) returns (head: Link?<E>, ghost links: seq<Link<E>>)
    ensures Chained(links, errs) && fresh(set i | 0 <= i < |links| :: links[i])
    ensures head == if errs == [] then null else links[0]
  {
    head := null;
    var tail: Link?<E> := null;
    links := [];
    for i := 0 to |errs|
      invariant Chained(links, errs[..i]) && fresh(set i | 0 <= i < |links| :: links[i])
      invariant forall j, k :: 0 <= j < k < |links| ==> links[j] != links[k]
      invariant i == 0 ==> head == null && tail == null
      invariant i > 0 ==> head == links[0] && tail == links[i - 1]
    {
      var e := errs[i];
      var link := new Link(e);
      if tail == null {
        head := link;
        tail := head;
      } else {
        tail.next := link;
        tail := tail.next;
      }
      links := links + [link];
    }
    assert errs[..|errs|] == errs;
  }

  /** Walking the chain with Unwrap terminates and gives back the errors in order. */
  method Walk<E>(head: Link?<E>, ghost links: seq<Link<E>>, ghost errs: seq<E>) returns (seen: seq<E>)
    requires Chained(links, errs)
    requires head == if errs == [] then null else links[0]
    ensures seen == errs
  {
    seen := [];
    var here := head;
    while here != null
      invariant |seen| <= |errs| && seen == errs[..|seen|]
      invariant here == if |seen| < |links| then links[|seen|] else null
      decreases |errs| - |seen|
    {
      ChainedAt(links, errs, |seen|);
      seen := seen + [here.err];
      here := here.Unwrap();
    }
  }

  /** errors.Is on a chain: some element matches the target. */
  method Is<E>(head: Link?<E>, matches: E -> bool, ghost links: seq<Link<E>>, ghost errs: seq<E>) returns (found: bool)
    requires Chained(links, errs)
    requires head == if errs == [] then null else links[0]
    ensures found <==> exists i :: 0 <= i < |errs| && matches(errs[i])
  {
    var here := head;
    ghost var k := 0;
    while here != null
      invariant 0 <= k <= |errs|
      invariant |links| == |errs| && here == (if k < |links| then links[k] else null)
      invariant forall i :: 0 <= i < k ==> !matches(errs[i])
      decreases |errs| - k
    {
      ChainedAt(links, errs, k);
      if matches(here.err) {
        return true;
      }
      here := here.Unwrap();
      k := k + 1;
    }
    return false;
  }
}
