/**
 The Rego driver: each method runs one write transaction of the store. A
 transaction works on a copy of the tree that is dropped on abort and becomes
 the tree on commit.
 */
module RegoDriver {
  import opened Options
  import opened Store

  /** What StoreItem leaves behind and reports, on any path. */
  function StoreItemSpec(t: Value, p: Path, v: Value): (Value, Option<Error>) {
    if |p| == 0 then
      if v.Object? then (v, None) else (t, Some(InvalidPatch))
    else if HasParents(t, p) then (Alter(t, p, Put(v)), None)
    else (t, Some(NotFound))
  }

  ghost function StorePathSpec(t: Value, p: Path): (Value, Option<Error>) {
    if |p| == 0 then (t, None)
    else if Blocked(t, p) then (t, Some(NotFound))
    else (Alter(t, p, Touch), None)
  }

  function RemovePathSpec(t: Value, p: Path): (Value, Option<Error>) {
    if |p| == 0 then (t, Some(InvalidPatch))
    else if Read(t, p).Some? then (Alter(t, p, Drop), None)
    else (t, Some(NotFound))
  }

  /** storeItem in the runner: exact and all-or-nothing. */
  ghost function StoreWithParentsSpec(t: Value, p: Path, v: Value): (Value, Option<Error>) {
    if |p| == 0 then StoreItemSpec(t, p, v)
    else if Blocked(t, p) then (t, Some(NotFound))
    else (Alter(t, p, Put(v)), None)
  }

  class Driver {
    var tree: Value

    constructor (root: Value)
      ensures tree == root
    {
      tree := root;
    }

    /** Replaces the item at the path, or adds it when it is not there yet. */
    method StoreItem(where: Path, what: Value) returns (err: Option<Error>)
      modifies this
      ensures (tree, err) == StoreItemSpec(old(tree), where, what)
    {
      var txn := Write(tree, ReplaceOp, where, what);
      if txn == Err(NotFound) {
        txn := Write(tree, AddOp, where, what);
      }
      if |where| > 0 {
        WriteIsAlter(tree, ReplaceOp, where, what);
        WriteIsAlter(tree, AddOp, where, what);
      }
      match txn
      case Err(e) => return Some(e);
      case Ok(t) =>
        tree := t;
        return None;
    }

    /** Covers every missing element of the path with an empty object. */
    method StorePath(where: Path) returns (err: Option<Error>)
      modifies this
      ensures (tree, err) == StorePathSpec(old(tree), where)
    {
      var txn := tree;
      var currentPath: Path := [];
      for i := 0 to |where|
        invariant currentPath == where[..i]
        invariant tree == old(tree)
        invariant i == 0 ==> txn == tree
        invariant i > 0 ==> txn == Alter(tree, where[..i], Touch)
        invariant Read(txn, where[..i]).Some?
        invariant forall j :: 0 <= j < i ==> IsObjectAt(txn, where[..j]) && !ReadsLeaf(tree, where[..j])
      {
        assert where[..i + 1] == where[..i] + [where[i]];
        currentPath := currentPath + [where[i]];
        TouchNext(tree, txn, where, i);
        if Read(txn, currentPath).None? {
          var w := Write(txn, AddOp, currentPath, EmptyNode);
          if w.Err? {
            return Some(w.error);
          }
          txn := w.value;
        }
      }
      tree := txn;
      assert where[..|where|] == where;
      return None;
    }

    method RemovePath(where: Path) returns (err: Option<Error>)
      modifies this
      ensures (tree, err) == RemovePathSpec(old(tree), where)
    {
      var txn := Write(tree, RemoveOp, where, EmptyNode);
      if |where| > 0 {
        WriteIsAlter(tree, RemoveOp, where, EmptyNode);
        if Read(tree, where).Some? {
          ReadNeedsObjects(tree, where, |where| - 1);
        }
      }
      match txn
      case Err(e) => return Some(e);
      case Ok(t) =>
        tree := t;
        return None;
    }

    /** The runner's storeItem: up to three transactions, creating parents on demand. */
    method StoreWithParents(where: Path, what: Value) returns (err: Option<Error>)
      modifies this
      ensures (tree, err) == StoreWithParentsSpec(old(tree), where, what)
    {
      err := StoreItem(where, what);
      if err == Some(NotFound) {
        err := StorePath(where);
        if err.Some? {
          return;
        }
        assert tree == Alter(old(tree), where, Touch);
        TouchMakesParents(old(tree), where);
        err := StoreItem(where, what);
        TouchAbsorbed(old(tree), where, where, Put(what));
      } else if |where| > 0 {
        ParentsUnblock(old(tree), where);
      }
    }
  }

  predicate ReadsLeaf(t: Value, p: Path) {
    Read(t, p).Some? && Read(t, p).value.Leaf?
  }

  lemma TouchMakesParents(t: Value, p: Path)
    requires |p| > 0
    ensures HasParents(Alter(t, p, Touch), p)
  {
    AlterReads(t, p, Touch, p[..|p| - 1]);
  }

  /** One iteration of StorePath, from the touched prefix to the next one. */
  lemma TouchNext(t: Value, txn: Value, p: Path, i: nat)
    requires i < |p|
    requires i == 0 ==> txn == t
    requires i > 0 ==> txn == Alter(t, p[..i], Touch)
    requires Read(txn, p[..i]).Some?
    requires forall j :: 0 <= j < i ==> IsObjectAt(txn, p[..j]) && !ReadsLeaf(t, p[..j])
    ensures Read(txn, p[..i + 1]).Some? ==>
              txn == Alter(t, p[..i + 1], Touch) && IsObjectAt(txn, p[..i]) && !ReadsLeaf(t, p[..i])
    ensures Read(txn, p[..i + 1]).None? && IsObjectAt(txn, p[..i]) ==>
              && Write(txn, AddOp, p[..i + 1], EmptyNode) == Ok(Alter(t, p[..i + 1], Touch))
              && !ReadsLeaf(t, p[..i])
    ensures Read(txn, p[..i + 1]).None? && !IsObjectAt(txn, p[..i]) ==>
              Write(txn, AddOp, p[..i + 1], EmptyNode) == Err(NotFound) && Blocked(t, p)
    ensures forall j :: 0 <= j <= i ==> IsObjectAt(Alter(t, p[..i + 1], Touch), p[..j])
    ensures Read(Alter(t, p[..i + 1], Touch), p[..i + 1]).Some?
  {
    var q := p[..i + 1];
    var here := p[..i];
    assert q[..|q| - 1] == here && q[..i] == here;
    if i > 0 {
      TouchAbsorbed(t, here, q, Touch);
      AlterReads(t, here, Touch, here);
      assert here[|here|..] == [];
    }
    AlterReads(t, q, Touch, q);
    assert q[|q|..] == [];
    forall j | 0 <= j <= i
      ensures IsObjectAt(Alter(t, q, Touch), p[..j])
    {
      AlterReads(t, q, Touch, p[..j]);
    }
    WriteIsAlter(txn, AddOp, q, EmptyNode);
    if Read(txn, q).Some? {
      TouchPresent(txn, q);
      ReadNeedsObjects(txn, q, i);
    } else {
      TouchAbsent(txn, q);
    }
    if ReadsLeaf(t, here) {
      assert Blocked(t, p);
    }
  }

  // ---- What the driver operations mean ----

  /** storeItem is exact: it fails only below a leaf, and otherwise changes just the path and its parents. */
  lemma StoreWithParentsExact(t: Value, p: Path, v: Value, q: Path)
    requires |p| > 0
    ensures var (t', err) := StoreWithParentsSpec(t, p, v);
            && (err.Some? <==> Blocked(t, p))
            && (err.Some? ==> t' == t)
            && (err.None? && q < p ==> IsObjectAt(t', q))
            && (err.None? && p <= q ==> Read(t', q) == Read(v, q[|p|..]))
            && (err.None? && Apart(p, q) ==> Read(t', q) == Read(t, q))
  {
    AlterReads(t, p, Put(v), q);
  }

  /**
   StoreItem on its own, its error ignored as it is for the run ID: the value is
   there afterwards exactly when the parent was an object, and otherwise nothing
   has happened.
   */
  lemma StoreItemTakesEffect(t: Value, p: Path, v: Value)
    requires |p| > 0
    ensures var t' := StoreItemSpec(t, p, v).0;
            && (Read(t', p) == Some(v) <==> IsObjectAt(t, p[..|p| - 1]))
            && (!IsObjectAt(t, p[..|p| - 1]) ==> t' == t)
  {
    if HasParents(t, p) {
      AlterReads(t, p, Put(v), p);
      assert p[|p|..] == [];
    } else if Read(t, p).Some? {
      ReadNeedsObjects(t, p, |p| - 1);
    }
  }

  /** In an empty document, where no parameter has been stored, the run ID is lost. */
  lemma RunIdLost()
    ensures var p := ["test", "params", "run-id"];
            StoreItemSpec(EmptyNode, p, Leaf("run")) == (EmptyNode, Some(NotFound)) && Read(EmptyNode, p).None?
  {
    var p := ["test", "params", "run-id"];
    assert p[..2] == ["test", "params"];
    ReadEmpty(p);
    ReadEmpty(["test", "params"]);
  }

  /** StorePath twice is StorePath once, and a failed one changes nothing. */
  lemma StorePathIdempotent(t: Value, p: Path)
    ensures var (t', err) := StorePathSpec(t, p);
            && (err.Some? ==> t' == t)
            && (err.None? ==> StorePathSpec(t', p) == (t', None))
  {
    if |p| > 0 && !Blocked(t, p) {
      var t' := Alter(t, p, Touch);
      TouchAbsorbed(t, p, p, Touch);
      TouchMakesParents(t, p);
      ParentsUnblock(t', p);
    }
  }

  /** StorePath keeps every value: only prefixes of the path can be new, and those are objects. */
  lemma StorePathKeepsValues(t: Value, p: Path, q: Path)
    ensures var (t', _) := StorePathSpec(t, p);
            && (Read(t, q).Some? ==> Read(t', q).Some?)
            && (ReadsLeaf(t, q) ==> Read(t', q) == Read(t, q))
            && (Read(t, q).None? && Read(t', q).Some? ==> q <= p && IsObjectAt(t', q))
  {
    if |p| > 0 && !Blocked(t, p) {
      AlterReads(t, p, Touch, q);
      if q < p {
        assert p[..|q|] == q;
      }
      if p <= q {
        ReadEmpty(q[|p|..]);
        if Read(t, p).None? {
          assert q == p + q[|p|..];
          ReadConcat(t, p, q[|p|..]);
        }
      }
    }
  }

  /** Removing what storeItem put restores the document for everyone off the path. */
  lemma RemoveUndoesStore(t: Value, p: Path, v: Value)
    requires |p| > 0 && Read(t, p).None? && HasParents(t, p)
    ensures RemovePathSpec(StoreWithParentsSpec(t, p, v).0, p) == (t, None)
  {
    ParentsUnblock(t, p);
    AlterReads(t, p, Put(v), p);
    assert p[|p|..] == [];
    DropUndoesPut(t, p, v);
  }

  lemma {:induction false} DropUndoesPut(t: Value, p: Path, v: Value)
    requires |p| > 0 && Read(t, p).None? && HasParents(t, p)
    ensures Alter(Alter(t, p, Put(v)), p, Drop) == t
    decreases |p|
  {
    var k, rest := p[0], p[1..];
    var c := AlterField(Field(t, k), rest, Put(v));
    FieldOfWithField(t, k, c, k);
    WithFieldTwice(t, k, c, AlterField(c, rest, Drop));
    if |p| == 1 {
      assert p[..0] == [];
      assert t.fields - {k} == t.fields;
    } else {
      assert p[..|p| - 1][1..] == rest[..|rest| - 1];
      assert p[..|p| - 1][0] == k;
      DropUndoesPut(t.fields[k], rest, v);
      assert t.fields[k := t.fields[k]] == t.fields;
    }
  }
}
