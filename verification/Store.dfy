/**
 The OPA in-memory store, as a tree value: objects are inner nodes, everything
 else is a leaf. `Write` and `Read` are the store's own operations; `Alter` is
 the one total update that every driver operation is proved to amount to.
 */
module Store {
  import opened Options

  datatype Value = Leaf(text: string) | Object(fields: map<string, Value>)

  type Path = seq<string>

  datatype Error = NotFound | InvalidPatch

  datatype Result<+T> = Ok(value: T) | Err(error: Error)

  datatype PatchOp = AddOp | ReplaceOp | RemoveOp

  const EmptyNode := Object(map[])

  function Read(t: Value, p: Path): Option<Value>
    decreases |p|
  {
    if |p| == 0 then Some(t)
    else if t.Object? && p[0] in t.fields then Read(t.fields[p[0]], p[1..])
    else None
  }

  function Write(t: Value, op: PatchOp, p: Path, v: Value): Result<Value>
    decreases |p|
  {
    if |p| == 0 then
      if op.RemoveOp? || !v.Object? then Err(InvalidPatch) else Ok(v)
    else if t.Leaf? then Err(NotFound)
    else if |p| == 1 then
      if !op.AddOp? && p[0] !in t.fields then Err(NotFound)
      else if op.RemoveOp? then Ok(Object(t.fields - {p[0]}))
      else Ok(Object(t.fields[p[0] := v]))
    else if p[0] !in t.fields then Err(NotFound)
    else
      match Write(t.fields[p[0]], op, p[1..], v)
      case Ok(sub) => Ok(Object(t.fields[p[0] := sub]))
      case Err(e) => Err(e)
  }

  /** A path is incomparable to another when neither is a prefix of the other. */
  predicate Apart(p: Path, q: Path) {
    !(p <= q) && !(q <= p)
  }

  predicate IsObjectAt(t: Value, p: Path) {
    Read(t, p).Some? && Read(t, p).value.Object?
  }

  /** Some proper prefix of p holds a leaf, so nothing can ever live at p. */
  ghost predicate Blocked(t: Value, p: Path) {
    exists i :: 0 <= i < |p| && Read(t, p[..i]).Some? && Read(t, p[..i]).value.Leaf?
  }

  /** Every proper prefix of p is an object: the parents of p are in place. */
  predicate HasParents(t: Value, p: Path)
    requires |p| > 0
  {
    IsObjectAt(t, p[..|p| - 1])
  }

  datatype Update = Put(v: Value) | Touch | Drop

  function Fields(t: Value): map<string, Value> {
    if t.Object? then t.fields else map[]
  }

  function Field(t: Value, k: string): Option<Value> {
    if k in Fields(t) then Some(Fields(t)[k]) else None
  }

  function WithField(t: Value, k: string, c: Option<Value>): Value {
    match c
    case None => Object(Fields(t) - {k})
    case Some(v) => Object(Fields(t)[k := v])
  }

  function OrEmpty(c: Option<Value>): Value {
    match c
    case None => EmptyNode
    case Some(v) => v
  }

  /** Applies an update at a path, creating the parents that are missing. */
  function Alter(t: Value, p: Path, u: Update): Value
    requires |p| > 0
    decreases |p|, 1
  {
    WithField(t, p[0], AlterField(Field(t, p[0]), p[1..], u))
  }

  function AlterField(c: Option<Value>, rest: Path, u: Update): Option<Value>
    decreases |rest|, 2
  {
    if |rest| > 0 then Some(Alter(OrEmpty(c), rest, u))
    else
      match u
      case Put(v) => Some(v)
      case Touch => Some(OrEmpty(c))
      case Drop => None
  }

  // ---- Reading ----

  lemma {:induction false} ReadConcat(t: Value, p: Path, q: Path)
    ensures Read(t, p + q) == match Read(t, p) case None => None case Some(s) => Read(s, q)
    decreases |p|
  {
    if |p| == 0 {
      assert p + q == q;
    } else {
      assert (p + q)[1..] == p[1..] + q;
      if t.Object? && p[0] in t.fields {
        ReadConcat(t.fields[p[0]], p[1..], q);
      }
    }
  }

  /** A path that reads as something has an object at each of its proper prefixes. */
  lemma {:induction false} ReadNeedsObjects(t: Value, p: Path, i: nat)
    requires Read(t, p).Some? && i < |p|
    ensures IsObjectAt(t, p[..i])
  {
    assert p == p[..i] + p[i..];
    ReadConcat(t, p[..i], p[i..]);
  }

  lemma ParentsUnblock(t: Value, p: Path)
    requires |p| > 0 && HasParents(t, p)
    ensures !Blocked(t, p)
  {
    var front := p[..|p| - 1];
    forall i | 0 <= i < |p|
      ensures IsObjectAt(t, p[..i])
    {
      if i < |p| - 1 {
        ReadNeedsObjects(t, front, i);
        assert front[..i] == p[..i];
      }
    }
  }

  // ---- What Write does, in terms of Alter ----

  /** Add works exactly when the parents exist; Replace and Remove also need the key. */
  lemma {:induction false} WriteIsAlter(t: Value, op: PatchOp, p: Path, v: Value)
    requires |p| > 0
    ensures Write(t, op, p, v) ==
            if HasParents(t, p) && (op.AddOp? || Read(t, p).Some?)
            then Ok(Alter(t, p, if op.RemoveOp? then Drop else Put(v)))
            else Err(NotFound)
    decreases |p|
  {
    if |p| > 1 && t.Object? && p[0] in t.fields {
      WriteIsAlter(t.fields[p[0]], op, p[1..], v);
      assert p[..|p| - 1][1..] == p[1..][..|p| - 2];
    } else if |p| == 1 {
      assert p[1..] == [] && p[..0] == [];
    }
  }

  // ---- What Alter does ----

  /** The four ways a path can sit relative to the updated one. */
  lemma {:induction false} AlterReads(t: Value, p: Path, u: Update, q: Path)
    requires |p| > 0
    ensures q < p ==> IsObjectAt(Alter(t, p, u), q)
    ensures p <= q && u.Put? ==> Read(Alter(t, p, u), q) == Read(u.v, q[|p|..])
    ensures p <= q && u.Drop? ==> Read(Alter(t, p, u), q) == None
    ensures p <= q && u.Touch? ==>
              Read(Alter(t, p, u), q) == if Read(t, p).Some? then Read(t, q) else Read(EmptyNode, q[|p|..])
    ensures Apart(p, q) ==> Read(Alter(t, p, u), q) == Read(t, q)
    decreases |p|
  {
    hide WithField, Field;
    if |q| == 0 {
      AlterIsObject(t, p, u);
    } else {
      AlterDown(t, p, u, q);
      ReadDown(t, q);
      ReadDown(t, p);
      if p[0] != q[0] {
        assert !(p <= q) && !(q <= p);
      } else {
        PrefixDown(p, q);
        if |p| == 1 {
          assert p[1..] == [] && q[1..] == q[|p|..];
        } else {
          AlterReads(OrEmpty(Field(t, p[0])), p[1..], u, q[1..]);
          assert p <= q ==> q[1..][|p| - 1..] == q[|p|..];
          ReadEmpty(p[1..]);
          ReadEmpty(q[1..]);
        }
      }
    }
  }

  function ReadIn(c: Option<Value>, q: Path): Option<Value> {
    match c
    case None => None
    case Some(v) => Read(v, q)
  }

  lemma ReadDown(t: Value, q: Path)
    requires |q| > 0
    ensures Read(t, q) == ReadIn(Field(t, q[0]), q[1..])
  {
  }

  lemma AlterDown(t: Value, p: Path, u: Update, q: Path)
    requires |p| > 0 && |q| > 0
    ensures Read(Alter(t, p, u), q) ==
            if p[0] == q[0] then ReadIn(AlterField(Field(t, p[0]), p[1..], u), q[1..]) else Read(t, q)
  {
  }

  lemma AlterIsObject(t: Value, p: Path, u: Update)
    requires |p| > 0
    ensures IsObjectAt(Alter(t, p, u), [])
  {
  }

  lemma PrefixDown(p: Path, q: Path)
    requires |p| > 0 && |q| > 0 && p[0] == q[0]
    ensures (p <= q <==> p[1..] <= q[1..]) && (q <= p <==> q[1..] <= p[1..])
    ensures Apart(p, q) <==> Apart(p[1..], q[1..])
  {
    assert p == [p[0]] + p[1..] && q == [q[0]] + q[1..];
  }

  lemma ReadEmpty(p: Path)
    ensures |p| > 0 ==> Read(EmptyNode, p) == None
  {
  }

  lemma FieldOfWithField(t: Value, k: string, c: Option<Value>, l: string)
    ensures Field(WithField(t, k, c), l) == if l == k then c else Field(t, l)
  {
  }

  lemma WithFieldTwice(t: Value, k: string, c: Option<Value>, d: Option<Value>)
    ensures WithField(WithField(t, k, c), k, d) == WithField(t, k, d)
  {
    assert Fields(WithField(WithField(t, k, c), k, d)) == Fields(WithField(t, k, d));
  }

  lemma WithFieldCommutes(t: Value, k: string, c: Option<Value>, l: string, d: Option<Value>)
    requires k != l
    ensures WithField(WithField(t, k, c), l, d) == WithField(WithField(t, l, d), k, c)
  {
    assert Fields(WithField(WithField(t, k, c), l, d)) == Fields(WithField(WithField(t, l, d), k, c));
  }

  /** Updates at incomparable paths commute. */
  lemma {:induction false} AlterCommutes(t: Value, p: Path, u: Update, q: Path, w: Update)
    requires |p| > 0 && |q| > 0 && Apart(p, q)
    ensures Alter(Alter(t, p, u), q, w) == Alter(Alter(t, q, w), p, u)
    decreases |p|, 0
  {
    var k, l := p[0], q[0];
    var c, d := AlterField(Field(t, k), p[1..], u), AlterField(Field(t, l), q[1..], w);
    FieldOfWithField(t, k, c, l);
    FieldOfWithField(t, l, d, k);
    if k == l {
      AlterFieldCommutes(Field(t, k), p[1..], u, q[1..], w) by {
        assert p == [k] + p[1..] && q == [k] + q[1..];
        assert p[1..] <= q[1..] ==> p <= q;
        assert q[1..] <= p[1..] ==> q <= p;
      }
      WithFieldTwice(t, k, c, AlterField(c, q[1..], w));
      WithFieldTwice(t, k, d, AlterField(d, p[1..], u));
    } else {
      WithFieldCommutes(t, k, c, l, d);
    }
  }

  lemma {:induction false} AlterFieldCommutes(f: Option<Value>, p: Path, u: Update, q: Path, w: Update)
    requires Apart(p, q)
    ensures AlterField(AlterField(f, p, u), q, w) == AlterField(AlterField(f, q, w), p, u)
    decreases |p|, 1
  {
    assert |p| > 0 && |q| > 0 by {
      assert [] <= p && [] <= q;
    }
    AlterCommutes(OrEmpty(f), p, u, q, w);
  }

  /** Creating a prefix of a path first makes no difference to an update at the path. */
  lemma {:induction false} TouchAbsorbed(t: Value, a: Path, p: Path, u: Update)
    requires 0 < |a| && a <= p
    ensures Alter(Alter(t, a, Touch), p, u) == Alter(t, p, u)
    decreases |a|
  {
    var k, rest := p[0], p[1..];
    var c := AlterField(Field(t, k), a[1..], Touch);
    FieldOfWithField(t, k, c, k);
    WithFieldTwice(t, k, c, AlterField(c, rest, u));
    if |a| > 1 {
      TouchAbsorbed(OrEmpty(Field(t, k)), a[1..], rest, u);
    }
  }

  /** Creating an absent path puts an empty object there. */
  lemma {:induction false} TouchAbsent(t: Value, p: Path)
    requires |p| > 0 && Read(t, p).None?
    ensures Alter(t, p, Touch) == Alter(t, p, Put(EmptyNode))
    decreases |p|
  {
    if |p| > 1 {
      ReadEmpty(p[1..]);
      TouchAbsent(OrEmpty(Field(t, p[0])), p[1..]);
    }
  }

  /** Creating a path that already reads as something changes nothing. */
  lemma {:induction false} TouchPresent(t: Value, p: Path)
    requires |p| > 0 && Read(t, p).Some?
    ensures Alter(t, p, Touch) == t
    decreases |p|
  {
    if |p| > 1 {
      TouchPresent(t.fields[p[0]], p[1..]);
    }
    assert Fields(Alter(t, p, Touch)) == t.fields;
  }

  /** An update away from p never blocks p. */
  lemma AlterKeepsUnblocked(t: Value, p: Path, u: Update, q: Path)
    requires |p| > 0 && Apart(p, q)
    requires !Blocked(t, q)
    ensures !Blocked(Alter(t, p, u), q)
  {
    forall i | 0 <= i < |q|
      ensures Read(Alter(t, p, u), q[..i]).Some? ==> Read(Alter(t, p, u), q[..i]).value.Object?
    {
      AlterReads(t, p, u, q[..i]);
      assert p <= q[..i] ==> p <= q;
    }
  }

  /** An update at an open path away from q neither blocks q nor opens it. */
  lemma AlterKeepsBlocked(t: Value, p: Path, u: Update, q: Path)
    requires |p| > 0 && Apart(p, q) && !Blocked(t, p)
    ensures Blocked(Alter(t, p, u), q) <==> Blocked(t, q)
  {
    if Blocked(t, q) {
      var i :| 0 <= i < |q| && Read(t, q[..i]).Some? && Read(t, q[..i]).value.Leaf?;
      AlterReads(t, p, u, q[..i]);
      assert p <= q[..i] ==> p <= q;
      if i < |p| {
        assert p[..i] != q[..i];
      }
    } else {
      AlterKeepsUnblocked(t, p, u, q);
    }
  }

  /** Once the parents of q exist, no update apart from q takes them away. */
  lemma AlterKeepsParents(t: Value, p: Path, u: Update, q: Path)
    requires |p| > 0 && |q| > 0 && Apart(p, q) && HasParents(t, q)
    ensures HasParents(Alter(t, p, u), q)
  {
    var front := q[..|q| - 1];
    AlterReads(t, p, u, front);
    assert p <= front ==> p <= q;
  }
}
