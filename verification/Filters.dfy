/**
 The YAML filters: taking the special operations out of an object, putting the
 test's metadata into it, and renaming it. A node is what the YAML library
 parsed; finding and setting a field are that library's.
 */
module Filters {
  import opened Options

  type Path = seq<string>

  const STR_TAG := "!!str"
  const LABEL_RUN_ID := "modden/run-id"
  const LABEL_MANAGED_BY := "app.kubernetes.io/managed-by"

  datatype Node =
    | Scalar(tag: string, value: string)
    | Alias(name: string)
    | Sequence(items: seq<Node>)
    | Mapping(fields: seq<Field>)

  datatype Field = Field(key: Node, value: Node)

  // ---- Special operations ----

  /** A decoded `$` field: a plain string, or the fixture structure. */
  datatype OpValue = Text(text: string) | Fixture(rename: string)

  predicate IsStringNode(n: Node) {
    n.Scalar? && n.tag == STR_TAG
  }

  predicate Special(f: Field) {
    f.key.Scalar? && f.key.tag == "!!str" && |f.key.value| > 0 && f.key.value[0] == '$'
  }

  /** How the values of special fields are decoded: by a decoder of their own, or as a string. */
  datatype Decoders = Decoders(own: map<string, Node -> Option<OpValue>>, text: Node -> Option<string>)

  function Decode(d: Decoders, f: Field): Option<OpValue>
    requires Special(f)
  {
    if f.key.value in d.own then d.own[f.key.value](f.value)
    else match d.text(f.value)
         case None => None
         case Some(t) => Some(Text(t))
  }

  /** The fields that stay. */
  function Kept(fs: seq<Field>): seq<Field> {
    if fs == [] then []
    else Kept(fs[..|fs| - 1]) + if Special(fs[|fs| - 1]) then [] else [fs[|fs| - 1]]
  }

  /** What the special fields decode to, unless one of them does not decode. */
  function Collected(d: Decoders, fs: seq<Field>): Option<map<string, OpValue>> {
    if fs == [] then Some(map[])
    else
      var front, last := Collected(d, fs[..|fs| - 1]), fs[|fs| - 1];
      if front.None? || !Special(last) then front
      else match Decode(d, last)
           case None => None
           case Some(v) => Some(front.value[last.key.value := v])
  }

  /** A node's contents are read as keys and values in turn; an odd number of them has no value for the last key. */
  predicate Alternates(n: Node) {
    n.Sequence? ==> |n.items| % 2 == 0
  }

  function Pairs(n: Node): seq<Field>
    requires Alternates(n)
  {
    match n
    case Mapping(fs) => fs
    case Sequence(items) => seq(|items| / 2, i requires 0 <= i < |items| / 2 => Field(items[2 * i], items[2 * i + 1]))
    case _ => []
  }

  function Unpaired(fs: seq<Field>): seq<Node> {
    if fs == [] then [] else Unpaired(fs[..|fs| - 1]) + [fs[|fs| - 1].key, fs[|fs| - 1].value]
  }

  /** The node with these contents; a scalar and an alias have none. */
  function WithPairs(n: Node, fs: seq<Field>): Node {
    match n
    case Mapping(_) => Mapping(fs)
    case Sequence(_) => Sequence(Unpaired(fs))
    case _ => n
  }

  /** Reading a node's contents in pairs loses nothing. */
  lemma PairsWhole(n: Node)
    requires Alternates(n)
    ensures WithPairs(n, Pairs(n)) == n
  {
    if n.Sequence? {
      UnpairedWhole(n.items, Pairs(n), |n.items| / 2);
      assert Pairs(n)[..|n.items| / 2] == Pairs(n);
      assert n.items[..|n.items|] == n.items;
    }
  }

  lemma {:induction false} UnpairedWhole(items: seq<Node>, fs: seq<Field>, k: nat)
    requires k <= |fs| && 2 * |fs| <= |items|
    requires forall i :: 0 <= i < |fs| ==> fs[i] == Field(items[2 * i], items[2 * i + 1])
    ensures Unpaired(fs[..k]) == items[..2 * k]
  {
    if k > 0 {
      UnpairedWhole(items, fs, k - 1);
      assert fs[..k][..k - 1] == fs[..k - 1];
      assert items[..2 * k] == items[..2 * (k - 1)] + [items[2 * (k - 1)], items[2 * (k - 1) + 1]];
    }
  }

  /** A parsed document's root, which the filters change in place. */
  class RNode {
    var node: Node

    constructor (n: Node)
      ensures node == n
    {
      node := n;
    }
  }

  class SpecialOpsFilter {
    var ops: map<string, OpValue>
    const decoders: Decoders

    constructor (d: Decoders)
      ensures decoders == d && ops == map[]
    {
      decoders, ops := d, map[];
    }

    /** Moves the special fields out of the object; a field that does not decode leaves the object alone. */
    method Filter(rn: RNode) returns (ok: bool)
      requires Alternates(rn.node)
      modifies this`ops, rn
      ensures ok <==> Collected(decoders, Pairs(old(rn.node))).Some?
      ensures ok ==> rn.node == WithPairs(old(rn.node), Kept(Pairs(old(rn.node))))
      ensures ok ==> Collected(decoders, Pairs(old(rn.node))) == Some(ops)
      ensures !ok ==> rn.node == old(rn.node) && StoppedAt(decoders, Pairs(old(rn.node)), ops)
    {
      ops := map[];
      var keep: seq<Field> := [];
      var fields := Pairs(rn.node);
      for i := 0 to |fields|
        invariant keep == Kept(fields[..i]) && Collected(decoders, fields[..i]) == Some(ops)
        invariant rn.node == old(rn.node)
      {
        var key, val := fields[i].key, fields[i].value;
        assert fields[..i + 1][..i] == fields[..i];
        if !IsStringNode(key) {
          keep := keep + [fields[i]];
          continue;
        }
        if !("$" <= key.value) {
          keep := keep + [fields[i]];
          continue;
        }
        var decoded: Option<OpValue>;
        if key.value in decoders.own {
          decoded := decoders.own[key.value](val);
        } else {
          var str := decoders.text(val);
          decoded := if str.Some? then Some(Text(str.value)) else None;
        }
        if decoded.None? {
          NothingDecodes(decoders, fields, i + 1);
          return false;
        }
        ops := ops[key.value := decoded.value];
      }
      assert fields[..|fields|] == fields;
      rn.node := WithPairs(rn.node, keep);
      return true;
    }
  }

  /** What had been collected when a field did not decode. */
  ghost predicate StoppedAt(d: Decoders, fs: seq<Field>, ops: map<string, OpValue>) {
    exists i :: 0 <= i < |fs| && Collected(d, fs[..i]) == Some(ops) && Collected(d, fs[..i + 1]).None?
  }

  lemma {:induction false} NothingDecodes(d: Decoders, fs: seq<Field>, i: nat)
    requires i <= |fs| && Collected(d, fs[..i]).None?
    ensures Collected(d, fs).None?
    decreases |fs|
  {
    if i < |fs| {
      assert fs[..|fs| - 1][..i] == fs[..i];
      NothingDecodes(d, fs[..|fs| - 1], i);
    } else {
      assert fs[..i] == fs;
    }
  }

  /** How many of the first n fields stay. */
  function Rank(fs: seq<Field>, n: nat): nat
    requires n <= |fs|
  {
    if n == 0 then 0 else Rank(fs, n - 1) + if Special(fs[n - 1]) then 0 else 1
  }

  /** Every ordinary field stays, at the place its predecessors leave it, and nothing else does. */
  lemma {:induction false} KeptExactly(fs: seq<Field>, n: nat, i: nat)
    requires i <= n <= |fs|
    ensures |Kept(fs[..n])| == Rank(fs, n)
    ensures Rank(fs, i) <= Rank(fs, n)
    ensures i < n && !Special(fs[i]) ==> Rank(fs, i) < Rank(fs, n) && Kept(fs[..n])[Rank(fs, i)] == fs[i]
    decreases n
  {
    if n > 0 {
      assert fs[..n][..n - 1] == fs[..n - 1];
      KeptExactly(fs, n - 1, if i < n then i else n - 1);
    }
  }

  lemma {:induction false} CollectedSome(d: Decoders, fs: seq<Field>)
    ensures Collected(d, fs).Some? <==> forall i :: 0 <= i < |fs| && Special(fs[i]) ==> Decode(d, fs[i]).Some?
  {
    if fs != [] {
      var n := |fs| - 1;
      CollectedSome(d, fs[..n]);
      assert forall i :: 0 <= i < n ==> fs[..n][i] == fs[i];
    }
  }

  /** The operations are those of the special fields; of several with one name, the last one's. */
  lemma {:induction false} CollectedExactly(d: Decoders, fs: seq<Field>, name: string)
    requires Collected(d, fs).Some?
    ensures name in Collected(d, fs).value <==> exists i :: Named(fs, name, i)
    ensures name in Collected(d, fs).value ==>
              exists i :: LastNamed(fs, name, i) && Decode(d, fs[i]) == Some(Collected(d, fs).value[name])
  {
    if fs != [] {
      var n := |fs| - 1;
      var front := fs[..n];
      CollectedExactly(d, front, name);
      if Named(fs, name, n) {
        assert LastNamed(fs, name, n);
      } else {
        assert forall i :: Named(fs, name, i) ==> Named(front, name, i);
        assert forall i :: Named(front, name, i) ==> Named(fs, name, i);
        if name in Collected(d, front).value {
          var i :| LastNamed(front, name, i) && Decode(d, front[i]) == Some(Collected(d, front).value[name]);
          assert LastNamed(fs, name, i);
        }
      }
    }
  }

  predicate Named(fs: seq<Field>, name: string, i: int) {
    0 <= i < |fs| && Special(fs[i]) && fs[i].key.value == name
  }

  ghost predicate LastNamed(fs: seq<Field>, name: string, i: int) {
    Named(fs, name, i) && forall k :: Named(fs, name, k) ==> k <= i
  }

  /** Filtering once more finds nothing to do. */
  lemma {:induction false} SpecialOpsIdempotent(d: Decoders, fs: seq<Field>)
    ensures Kept(Kept(fs)) == Kept(fs) && Collected(d, Kept(fs)) == Some(map[])
    decreases |fs|
  {
    if fs != [] {
      var n := |fs| - 1;
      SpecialOpsIdempotent(d, fs[..n]);
      var kept := Kept(fs[..n]);
      if Special(fs[n]) {
        assert Kept(fs) == kept;
      } else {
        assert Kept(fs) == kept + [fs[n]] && (kept + [fs[n]])[..|kept|] == kept;
      }
    }
  }

  // ---- Finding and setting fields ----

  datatype Lookup = Found(node: Node) | Missing | Refused

  function KeyText(n: Node): string {
    match n
    case Scalar(_, value) => value
    case Alias(name) => name
    case _ => ""
  }

  /** The first field with the given name, or the number of fields. */
  function FieldIndex(fs: seq<Field>, name: string): (i: nat)
    ensures i <= |fs| && (i < |fs| ==> KeyText(fs[i].key) == name)
    ensures forall k :: 0 <= k < i ==> KeyText(fs[k].key) != name
  {
    if fs == [] || KeyText(fs[0].key) == name then 0 else 1 + FieldIndex(fs[1..], name)
  }

  function Get(n: Node, path: Path): Lookup
    decreases |path|
  {
    if path == [] then Found(n)
    else if !n.Mapping? then Refused
    else
      var i := FieldIndex(n.fields, path[0]);
      if i == |n.fields| then Missing else Get(n.fields[i].value, path[1..])
  }

  function SetField(fs: seq<Field>, name: string, v: Node): seq<Field> {
    var i := FieldIndex(fs, name);
    if i < |fs| then fs[i := Field(fs[i].key, v)] else fs + [Field(Scalar("", name), v)]
  }

  function ClearField(fs: seq<Field>, name: string): seq<Field> {
    var i := FieldIndex(fs, name);
    if i < |fs| then fs[..i] + fs[i + 1..] else fs
  }

  /** Gets or creates the mappings on the way, then sets or clears the last field; None where a non-mapping is in the way. */
  function Write(n: Node, path: Path, v: Option<Node>): (r: Option<Node>)
    requires |path| > 0
    decreases |path|
  {
    if !n.Mapping? then None
    else if |path| == 1 then
      Some(Mapping(if v.Some? then SetField(n.fields, path[0], v.value) else ClearField(n.fields, path[0])))
    else
      var i := FieldIndex(n.fields, path[0]);
      var child := if i < |n.fields| then n.fields[i].value else Mapping([]);
      match Write(child, path[1..], v)
      case None => None
      case Some(c) => Some(Mapping(SetField(n.fields, path[0], c)))
  }

  /** The text a field is set to; an empty one clears the field. */
  function FromText(text: string): Option<Node> {
    if text == "" then None else Some(Scalar("", text))
  }

  predicate Apart(p: Path, q: Path) {
    !(p <= q) && !(q <= p)
  }

  lemma {:induction false} IndexOf(fs: seq<Field>, name: string, i: nat)
    requires i <= |fs| && (forall k :: 0 <= k < i ==> KeyText(fs[k].key) != name)
    requires i < |fs| ==> KeyText(fs[i].key) == name
    ensures FieldIndex(fs, name) == i
  {
    assert !(FieldIndex(fs, name) < i);
  }

  /** Setting a field moves no other: those there stay in place, and a new one comes last. */
  lemma SetFieldKeeps(fs: seq<Field>, name: string, v: Node)
    ensures var out := SetField(fs, name, v); var i := FieldIndex(fs, name);
            && FieldIndex(out, name) == i < |out| && out[i].value == v
            && |out| == (if i < |fs| then |fs| else |fs| + 1)
            && (forall k :: 0 <= k < |fs| && k != i ==> out[k] == fs[k])
            && (i < |fs| ==> out[i].key == fs[i].key)
            && (i == |fs| ==> out[i].key == Scalar("", name))
  {
    IndexOf(SetField(fs, name, v), name, FieldIndex(fs, name));
  }

  lemma SetFieldOther(fs: seq<Field>, name: string, v: Node, other: string)
    requires other != name
    ensures Get(Mapping(SetField(fs, name, v)), [other]) == Get(Mapping(fs), [other])
    ensures var out := SetField(fs, name, v); var j := FieldIndex(fs, other);
            FieldIndex(out, other) == (if j < |fs| then j else |out|) && (j < |fs| ==> out[j] == fs[j])
  {
    SetFieldKeeps(fs, name, v);
    var out := SetField(fs, name, v);
    var j := FieldIndex(fs, other);
    IndexOf(out, other, if j < |fs| then j else |out|);
  }

  lemma ClearFieldOther(fs: seq<Field>, name: string, other: string)
    requires other != name
    ensures var out := ClearField(fs, name); var j := FieldIndex(fs, other); var j' := FieldIndex(out, other);
            (j < |fs| <==> j' < |out|) && (j < |fs| ==> out[j'] == fs[j])
  {
    var out := ClearField(fs, name);
    var i, j := FieldIndex(fs, name), FieldIndex(fs, other);
    if i < |fs| {
      assert forall k :: 0 <= k < |out| ==> out[k] == if k < i then fs[k] else fs[k + 1];
      IndexOf(out, other, if i < j then j - 1 else j);
    }
  }

  /** A write fails exactly where looking the same path up is refused. */
  lemma {:induction false} WriteSucceeds(n: Node, path: Path, v: Option<Node>)
    requires |path| > 0
    ensures Write(n, path, v).Some? <==> !Get(n, path).Refused?
    decreases |path|
  {
    if n.Mapping? && |path| > 1 {
      var i := FieldIndex(n.fields, path[0]);
      var child := if i < |n.fields| then n.fields[i].value else Mapping([]);
      WriteSucceeds(child, path[1..], v);
    }
  }

  lemma {:induction false} WriteReads(n: Node, path: Path, v: Node)
    requires |path| > 0 && Write(n, path, Some(v)).Some?
    ensures Get(Write(n, path, Some(v)).value, path) == Found(v)
    decreases |path|
  {
    var i := FieldIndex(n.fields, path[0]);
    if |path| == 1 {
      SetFieldKeeps(n.fields, path[0], v);
    } else {
      var child := if i < |n.fields| then n.fields[i].value else Mapping([]);
      WriteReads(child, path[1..], v);
      SetFieldKeeps(n.fields, path[0], Write(child, path[1..], Some(v)).value);
    }
  }

  /** What a write leaves alone: every path neither on the way to it nor below it. */
  lemma {:induction false} WriteFrame(n: Node, path: Path, v: Option<Node>, q: Path)
    requires |path| > 0 && Write(n, path, v).Some? && Apart(path, q)
    ensures Get(Write(n, path, v).value, q) == Get(n, q)
    decreases |path|
  {
    var fs := n.fields;
    var i := FieldIndex(fs, path[0]);
    if q[0] != path[0] {
      if |path| > 1 {
        var child := if i < |fs| then fs[i].value else Mapping([]);
        SetFieldOther(fs, path[0], Write(child, path[1..], v).value, q[0]);
      } else if v.Some? {
        SetFieldOther(fs, path[0], v.value, q[0]);
      } else {
        ClearFieldOther(fs, path[0], q[0]);
      }
    } else {
      ApartTail(path, q);
      var child := if i < |fs| then fs[i].value else Mapping([]);
      WriteFrame(child, path[1..], v, q[1..]);
      SetFieldKeeps(fs, path[0], Write(child, path[1..], v).value);
    }
  }

  lemma ApartTail(p: Path, q: Path)
    requires Apart(p, q) && p[0] == q[0]
    ensures |p| > 1 && |q| > 1 && Apart(p[1..], q[1..])
  {
    assert p == [p[0]] + p[1..] && q == [q[0]] + q[1..];
  }

  /** Writing what is there already changes nothing. */
  lemma {:induction false} WriteSame(n: Node, path: Path, v: Node)
    requires |path| > 0 && Get(n, path) == Found(v)
    ensures Write(n, path, Some(v)) == Some(n)
    decreases |path|
  {
    var i := FieldIndex(n.fields, path[0]);
    if |path| > 1 {
      WriteSame(n.fields[i].value, path[1..], v);
    }
    assert SetField(n.fields, path[0], n.fields[i].value) == n.fields;
  }

  /** Where a longer path leads, its shorter ones lead to mappings. */
  lemma {:induction false} GetPrefix(n: Node, p: Path, q: Path)
    ensures Get(n, p + q) == match Get(n, p) case Found(m) => Get(m, q) case Missing => Missing case Refused => Refused
    decreases |p|
  {
    if p == [] {
      assert p + q == q;
    } else if n.Mapping? {
      var i := FieldIndex(n.fields, p[0]);
      assert (p + q)[1..] == p[1..] + q;
      if i < |n.fields| {
        GetPrefix(n.fields[i].value, p[1..], q);
      }
    }
  }

  /** The mapping around a field that has been written. */
  lemma WriteParent(n: Node, p: Path, f: string, v: Node)
    requires Write(n, p + [f], Some(v)).Some?
    ensures Get(n, p).Found? ==> Get(n, p).node.Mapping?
    ensures Get(Write(n, p + [f], Some(v)).value, p) ==
            Found(Mapping(SetField(if Get(n, p).Found? then Get(n, p).node.fields else [], f, v)))
    decreases |p|
  {
    if p == [] {
      assert p + [f] == [f];
    } else {
      assert (p + [f])[1..] == p[1..] + [f];
      var i := FieldIndex(n.fields, p[0]);
      var child := if i < |n.fields| then n.fields[i].value else Mapping([]);
      WriteParent(child, p[1..], f, v);
      SetFieldKeeps(n.fields, p[0], Write(child, p[1..] + [f], Some(v)).value);
      assert p[1..] != [] ==> Get(Mapping([]), p[1..]).Missing?;
    }
  }

  lemma {:induction false} ClearReads(n: Node, path: Path)
    requires |path| > 0 && Get(n, path).Missing?
    ensures Write(n, path, None).Some? && Get(Write(n, path, None).value, path).Missing?
    decreases |path|
  {
    if |path| > 1 {
      var i := FieldIndex(n.fields, path[0]);
      var child := if i < |n.fields| then n.fields[i].value else Mapping([]);
      ClearReads(child, path[1..]);
      SetFieldKeeps(n.fields, path[0], Write(child, path[1..], None).value);
    }
  }

  // ---- Metadata injection ----

  const ANNOTATIONS: Path := ["metadata", "annotations"]
  const MANAGED: Path := ["metadata", "labels", LABEL_MANAGED_BY]
  const RUN: Path := ["metadata", "annotations", LABEL_RUN_ID]
  const TEMPLATE_LABELS: Path := ["spec", "template", "metadata", "labels"]
  const TEMPLATE_MANAGED: Path := ["spec", "template", "metadata", "labels", LABEL_MANAGED_BY]
  const TEMPLATE_RUN: Path := ["spec", "template", "metadata", "annotations", LABEL_RUN_ID]
  const CONTAINERS: Path := ["spec", "template", "spec", "containers"]

  datatype Filtered = Filtered(node: Node, ok: bool)

  function Labelled(n: Node, manager: string): Filtered {
    match Write(n, MANAGED, FromText(manager))
    case None => Filtered(n, false)
    case Some(n1) =>
      if !Get(n1, TEMPLATE_LABELS).Found? then Filtered(n1, true)
      else match Write(n1, TEMPLATE_MANAGED, FromText(manager))
           case None => Filtered(n1, false)
           case Some(n2) => Filtered(n2, true)
  }

  function Annotated(n: Node, run: string): Filtered {
    match Write(n, RUN, FromText(run))
    case None => Filtered(n, false)
    case Some(n1) =>
      match Get(n1, CONTAINERS)
      case Refused => Filtered(n1, false)
      case Missing => Filtered(n1, true)
      case Found(_) =>
        match Write(n1, TEMPLATE_RUN, FromText(run))
        case None => Filtered(n1, false)
        case Some(n2) => Filtered(n2, true)
  }

  /** The object with its metadata; where that fails, with what had been put in before the failure. */
  function Inject(n: Node, run: string, manager: string): Filtered {
    var labelled := Labelled(n, manager);
    if labelled.ok then Annotated(labelled.node, run) else labelled
  }

  class MetaInjectionFilter {
    const runId: string
    const managedBy: string

    constructor (run: string, manager: string)
      ensures runId == run && managedBy == manager
    {
      runId, managedBy := run, manager;
    }

    method Filter(rn: RNode) returns (ok: bool)
      modifies rn
      ensures Filtered(rn.node, ok) == Inject(old(rn.node), runId, managedBy)
    {
      var done := Write(rn.node, MANAGED, FromText(managedBy));
      if done.None? {
        return false;
      }
      rn.node := done.value;
      if Get(rn.node, TEMPLATE_LABELS).Found? {
        done := Write(rn.node, TEMPLATE_MANAGED, FromText(managedBy));
        if done.None? {
          return false;
        }
        rn.node := done.value;
      }
      done := Write(rn.node, RUN, FromText(runId));
      if done.None? {
        return false;
      }
      rn.node := done.value;
      var containers := Get(rn.node, CONTAINERS);
      if !containers.Found? {
        return containers.Missing?;
      }
      done := Write(rn.node, TEMPLATE_RUN, FromText(runId));
      if done.None? {
        return false;
      }
      rn.node := done.value;
      return true;
    }
  }

  lemma ApartAt(p: Path, q: Path, i: nat)
    requires i < |p| && i < |q| && p[i] != q[i]
    ensures Apart(p, q)
  {
  }

  /** No target is on the way to another, nor to the containers. */
  lemma TargetsApart()
    ensures Apart(MANAGED, RUN) && Apart(MANAGED, CONTAINERS) && Apart(MANAGED, TEMPLATE_RUN)
    ensures Apart(MANAGED, TEMPLATE_MANAGED) && Apart(MANAGED, TEMPLATE_LABELS) && Apart(MANAGED, ANNOTATIONS)
    ensures Apart(TEMPLATE_MANAGED, RUN) && Apart(TEMPLATE_MANAGED, CONTAINERS) && Apart(TEMPLATE_MANAGED, TEMPLATE_RUN)
    ensures Apart(TEMPLATE_MANAGED, ANNOTATIONS) && Apart(RUN, TEMPLATE_MANAGED) && Apart(TEMPLATE_MANAGED, MANAGED)
    ensures Apart(RUN, CONTAINERS) && Apart(RUN, TEMPLATE_RUN) && Apart(RUN, MANAGED) && Apart(RUN, TEMPLATE_LABELS)
    ensures Apart(TEMPLATE_RUN, MANAGED) && Apart(TEMPLATE_RUN, RUN) && Apart(TEMPLATE_RUN, TEMPLATE_MANAGED)
    ensures Apart(TEMPLATE_RUN, CONTAINERS) && Apart(TEMPLATE_RUN, TEMPLATE_LABELS) && Apart(TEMPLATE_RUN, ANNOTATIONS)
  {
    ApartAt(MANAGED, RUN, 1);
    ApartAt(MANAGED, ANNOTATIONS, 1);
    ApartAt(TEMPLATE_MANAGED, TEMPLATE_RUN, 3);
    ApartAt(TEMPLATE_MANAGED, CONTAINERS, 2);
    ApartAt(TEMPLATE_RUN, CONTAINERS, 2);
    ApartAt(TEMPLATE_RUN, TEMPLATE_LABELS, 3);
    ApartAt(MANAGED, CONTAINERS, 0);
    ApartAt(MANAGED, TEMPLATE_RUN, 0);
    ApartAt(MANAGED, TEMPLATE_MANAGED, 0);
    ApartAt(MANAGED, TEMPLATE_LABELS, 0);
    ApartAt(TEMPLATE_MANAGED, ANNOTATIONS, 0);
    ApartAt(TEMPLATE_RUN, ANNOTATIONS, 0);
    ApartAt(RUN, TEMPLATE_MANAGED, 0);
    ApartAt(RUN, TEMPLATE_LABELS, 0);
    ApartAt(RUN, TEMPLATE_RUN, 0);
    ApartAt(RUN, CONTAINERS, 0);
  }

  lemma LabelledExactly(n: Node, manager: string, q: Path)
    ensures Labelled(n, manager).ok <==>
              (!Get(n, MANAGED).Refused? && (Get(n, TEMPLATE_LABELS).Found? ==> !Get(n, TEMPLATE_MANAGED).Refused?))
    ensures Apart(MANAGED, q) && Apart(TEMPLATE_MANAGED, q) ==> Get(Labelled(n, manager).node, q) == Get(n, q)
    ensures Labelled(n, manager).ok && manager != "" ==>
              && Get(Labelled(n, manager).node, MANAGED) == Found(Scalar("", manager))
              && Get(Labelled(n, manager).node, TEMPLATE_MANAGED) ==
                 if Get(n, TEMPLATE_LABELS).Found? then Found(Scalar("", manager)) else Get(n, TEMPLATE_MANAGED)
  {
    hide Apart;
    TargetsApart();
    WriteSucceeds(n, MANAGED, FromText(manager));
    if !Get(n, MANAGED).Refused? {
      var n1 := Write(n, MANAGED, FromText(manager)).value;
      WriteFrame(n, MANAGED, FromText(manager), TEMPLATE_LABELS);
      WriteFrame(n, MANAGED, FromText(manager), TEMPLATE_MANAGED);
      WriteSucceeds(n1, TEMPLATE_MANAGED, FromText(manager));
      if Apart(MANAGED, q) {
        WriteFrame(n, MANAGED, FromText(manager), q);
      }
      if manager != "" {
        WriteReads(n, MANAGED, Scalar("", manager));
      }
      if Get(n, TEMPLATE_LABELS).Found? && !Get(n, TEMPLATE_MANAGED).Refused? {
        WriteFrame(n1, TEMPLATE_MANAGED, FromText(manager), MANAGED);
        if Apart(TEMPLATE_MANAGED, q) {
          WriteFrame(n1, TEMPLATE_MANAGED, FromText(manager), q);
        }
        if manager != "" {
          WriteReads(n1, TEMPLATE_MANAGED, Scalar("", manager));
        }
      }
    }
  }

  lemma AnnotatedExactly(n: Node, run: string, q: Path)
    ensures Annotated(n, run).ok <==>
              (!Get(n, RUN).Refused? && !Get(n, CONTAINERS).Refused?
               && (Get(n, CONTAINERS).Found? ==> !Get(n, TEMPLATE_RUN).Refused?))
    ensures Apart(RUN, q) && Apart(TEMPLATE_RUN, q) ==> Get(Annotated(n, run).node, q) == Get(n, q)
    ensures Annotated(n, run).ok && run != "" ==>
              && Get(Annotated(n, run).node, RUN) == Found(Scalar("", run))
              && Get(Annotated(n, run).node, TEMPLATE_RUN) ==
                 if Get(n, CONTAINERS).Found? then Found(Scalar("", run)) else Get(n, TEMPLATE_RUN)
  {
    hide Apart;
    TargetsApart();
    WriteSucceeds(n, RUN, FromText(run));
    if !Get(n, RUN).Refused? {
      var n1 := Write(n, RUN, FromText(run)).value;
      WriteFrame(n, RUN, FromText(run), CONTAINERS);
      WriteFrame(n, RUN, FromText(run), TEMPLATE_RUN);
      WriteSucceeds(n1, TEMPLATE_RUN, FromText(run));
      if Apart(RUN, q) {
        WriteFrame(n, RUN, FromText(run), q);
      }
      if run != "" {
        WriteReads(n, RUN, Scalar("", run));
      }
      if Get(n, CONTAINERS).Found? && !Get(n, TEMPLATE_RUN).Refused? {
        WriteFrame(n1, TEMPLATE_RUN, FromText(run), RUN);
        if Apart(TEMPLATE_RUN, q) {
          WriteFrame(n1, TEMPLATE_RUN, FromText(run), q);
        }
        if run != "" {
          WriteReads(n1, TEMPLATE_RUN, Scalar("", run));
        }
      }
    }
  }

  /** Nothing but a non-mapping on the way to a target makes injection fail. */
  ghost predicate Injectable(n: Node) {
    && !Get(n, MANAGED).Refused? && !Get(n, RUN).Refused? && !Get(n, CONTAINERS).Refused?
    && (Get(n, TEMPLATE_LABELS).Found? ==> !Get(n, TEMPLATE_MANAGED).Refused?)
    && (Get(n, CONTAINERS).Found? ==> !Get(n, TEMPLATE_RUN).Refused?)
  }

  lemma InjectSucceeds(n: Node, run: string, manager: string)
    ensures Inject(n, run, manager).ok <==> Injectable(n)
  {
    hide Apart, Get, Labelled, Annotated;
    TargetsApart();
    LabelledExactly(n, manager, RUN);
    LabelledExactly(n, manager, CONTAINERS);
    LabelledExactly(n, manager, TEMPLATE_RUN);
    AnnotatedExactly(Labelled(n, manager).node, run, []);
  }

  /** Whether it succeeds or not, injection touches its four targets and nothing else. */
  lemma InjectFrame(n: Node, run: string, manager: string, q: Path)
    requires Apart(MANAGED, q) && Apart(TEMPLATE_MANAGED, q) && Apart(RUN, q) && Apart(TEMPLATE_RUN, q)
    ensures Get(Inject(n, run, manager).node, q) == Get(n, q)
  {
    LabelledExactly(n, manager, q);
    AnnotatedExactly(Labelled(n, manager).node, run, q);
  }

  /** The template is labelled exactly where it has labels, and annotated exactly where it has containers. */
  lemma InjectReads(n: Node, run: string, manager: string)
    requires Inject(n, run, manager).ok && run != "" && manager != ""
    ensures var out := Inject(n, run, manager).node;
            && Get(out, ["metadata", "labels", "app.kubernetes.io/managed-by"]) == Found(Scalar("", manager))
            && Get(out, ["metadata", "annotations", "modden/run-id"]) == Found(Scalar("", run))
            && Get(out, ["spec", "template", "metadata", "labels", "app.kubernetes.io/managed-by"]) ==
               (if Get(n, ["spec", "template", "metadata", "labels"]).Found? then Found(Scalar("", manager))
                else Get(n, TEMPLATE_MANAGED))
            && Get(out, ["spec", "template", "metadata", "annotations", "modden/run-id"]) ==
               (if Get(n, ["spec", "template", "spec", "containers"]).Found? then Found(Scalar("", run))
                else Get(n, TEMPLATE_RUN))
  {
    hide Apart, Get;
    TargetsApart();
    var n1 := Labelled(n, manager).node;
    LabelledExactly(n, manager, CONTAINERS);
    LabelledExactly(n, manager, TEMPLATE_RUN);
    AnnotatedExactly(n1, run, MANAGED);
    AnnotatedExactly(n1, run, TEMPLATE_MANAGED);
  }

  lemma LabelsStay(n: Node, run: string, manager: string)
    requires Inject(n, run, manager).ok && run != "" && manager != ""
    ensures Get(Inject(n, run, manager).node, TEMPLATE_LABELS).Found? <==> Get(n, TEMPLATE_LABELS).Found?
  {
    hide Apart;
    TargetsApart();
    var out := Inject(n, run, manager).node;
    if Get(n, TEMPLATE_LABELS).Found? {
      InjectReads(n, run, manager);
      GetPrefix(out, TEMPLATE_LABELS, [LABEL_MANAGED_BY]);
      assert TEMPLATE_LABELS + [LABEL_MANAGED_BY] == TEMPLATE_MANAGED;
    } else {
      WriteSucceeds(n, MANAGED, FromText(manager));
      WriteFrame(n, MANAGED, FromText(manager), TEMPLATE_LABELS);
      AnnotatedExactly(Labelled(n, manager).node, run, TEMPLATE_LABELS);
    }
  }

  /** Injecting once more changes nothing. */
  lemma InjectIdempotent(n: Node, run: string, manager: string)
    requires Inject(n, run, manager).ok && run != "" && manager != ""
    ensures Inject(Inject(n, run, manager).node, run, manager) == Inject(n, run, manager)
  {
    hide Apart;
    TargetsApart();
    var out := Inject(n, run, manager).node;
    InjectReads(n, run, manager);
    LabelsStay(n, run, manager);
    InjectFrame(n, run, manager, CONTAINERS);
    InjectSucceeds(n, run, manager);
    WriteSame(out, MANAGED, Scalar("", manager));
    WriteSame(out, RUN, Scalar("", run));
    if Get(n, TEMPLATE_LABELS).Found? {
      WriteSame(out, TEMPLATE_MANAGED, Scalar("", manager));
    }
    if Get(n, CONTAINERS).Found? {
      WriteSame(out, TEMPLATE_RUN, Scalar("", run));
    }
  }

  // ---- Reading the run ID back ----

  predicate Distinct(fs: seq<Field>) {
    forall i, j :: 0 <= i < j < |fs| ==> KeyText(fs[i].key) != KeyText(fs[j].key)
  }

  /** Annotations that are not all strings do not count as annotations. */
  ghost function AnnotationMap(fs: seq<Field>, text: Node -> Option<string>): map<string, string> {
    if Distinct(fs) && forall i :: 0 <= i < |fs| ==> text(fs[i].value).Some? then
      map i | 0 <= i < |fs| :: KeyText(fs[i].key) := text(fs[i].value).value
    else map[]
  }

  function FieldsAt(n: Node, path: Path): seq<Field> {
    match Get(n, path)
    case Found(Mapping(fs)) => fs
    case _ => []
  }

  /** The annotations other than the run ID's own are strings, each key once. */
  ghost predicate OthersReadable(fs: seq<Field>, text: Node -> Option<string>) {
    Distinct(fs) && forall i :: 0 <= i < |fs| && KeyText(fs[i].key) != LABEL_RUN_ID ==> text(fs[i].value).Some?
  }

  function RunIdIn(annotations: map<string, string>): string {
    if "modden/run-id" in annotations then annotations["modden/run-id"] else ""
  }

  /** Looks through the annotations, in whatever order they come. */
  method ObjectRunID(annotations: map<string, string>) returns (id: string)
    ensures id == RunIdIn(annotations)
  {
    var todo := annotations.Keys;
    while todo != {}
      invariant todo <= annotations.Keys
      invariant LABEL_RUN_ID in annotations ==> LABEL_RUN_ID in todo
      decreases todo
    {
      var key :| key in todo;
      if key == LABEL_RUN_ID {
        return annotations[key];
      }
      todo := todo - {key};
    }
    return "";
  }

  /** The run ID reads back exactly when every other annotation is a string. */
  lemma RunIdReadsBack(n: Node, run: string, manager: string, text: Node -> Option<string>)
    requires Inject(n, run, manager).ok && run != "" && manager != "" && text(Scalar("", run)) == Some(run)
    ensures RunIdIn(AnnotationMap(FieldsAt(Inject(n, run, manager).node, ANNOTATIONS), text)) == run <==>
            OthersReadable(FieldsAt(n, ANNOTATIONS), text)
  {
    AnnotationsAfter(n, run, manager);
    RunIdAmong(FieldsAt(n, ANNOTATIONS), text, run);
  }

  lemma AnnotationsAfter(n: Node, run: string, manager: string)
    requires Inject(n, run, manager).ok && run != ""
    ensures FieldsAt(Inject(n, run, manager).node, ANNOTATIONS) ==
            SetField(FieldsAt(n, ANNOTATIONS), LABEL_RUN_ID, Scalar("", run))
  {
    hide Apart, Get;
    TargetsApart();
    var n1 := Labelled(n, manager).node;
    LabelledExactly(n, manager, ANNOTATIONS);
    assert RUN == ANNOTATIONS + [LABEL_RUN_ID];
    WriteParent(n1, ANNOTATIONS, LABEL_RUN_ID, Scalar("", run));
    var n2 := Write(n1, RUN, FromText(run)).value;
    if Get(n2, CONTAINERS).Found? {
      WriteFrame(n2, TEMPLATE_RUN, FromText(run), ANNOTATIONS);
    }
  }

  lemma RunIdAmong(fs: seq<Field>, text: Node -> Option<string>, run: string)
    requires text(Scalar("", run)) == Some(run) && run != ""
    ensures RunIdIn(AnnotationMap(SetField(fs, LABEL_RUN_ID, Scalar("", run)), text)) == run <==> OthersReadable(fs, text)
  {
    var out := SetField(fs, LABEL_RUN_ID, Scalar("", run));
    var i := FieldIndex(fs, LABEL_RUN_ID);
    SetFieldKeeps(fs, LABEL_RUN_ID, Scalar("", run));
    DistinctAfterSet(fs, Scalar("", run));
    hide SetField;
    if OthersReadable(fs, text) {
      assert forall k :: 0 <= k < |out| ==> text(out[k].value).Some?;
      DistinctMap(out, text, i);
    } else if Distinct(fs) {
      var k :| 0 <= k < |fs| && KeyText(fs[k].key) != LABEL_RUN_ID && text(fs[k].value).None?;
      assert out[k] == fs[k];
    }
  }

  lemma DistinctAfterSet(fs: seq<Field>, v: Node)
    ensures Distinct(SetField(fs, LABEL_RUN_ID, v)) <==> Distinct(fs)
  {
    var out := SetField(fs, LABEL_RUN_ID, v);
    SetFieldKeeps(fs, LABEL_RUN_ID, v);
    assert forall k :: 0 <= k < |fs| ==> KeyText(out[k].key) == KeyText(fs[k].key);
  }

  lemma DistinctMap(fs: seq<Field>, text: Node -> Option<string>, i: nat)
    requires Distinct(fs) && (forall k :: 0 <= k < |fs| ==> text(fs[k].value).Some?) && i < |fs|
    ensures var m := AnnotationMap(fs, text);
            KeyText(fs[i].key) in m && m[KeyText(fs[i].key)] == text(fs[i].value).value
  {
  }

  // ---- Renaming ----

  const NAME: Path := ["metadata", "name"]
  const NAMESPACE: Path := ["metadata", "namespace"]

  class Rename {
    const name: string
    const namespace: string

    constructor (n: string, ns: string)
      ensures name == n && namespace == ns
    {
      name, namespace := n, ns;
    }

    method SetNode(rn: RNode, path: Path, value: string) returns (ok: bool)
      requires |path| > 0
      modifies rn
      ensures ok <==> !Get(old(rn.node), path).Refused?
      ensures Some(rn.node) == if ok then Reset(old(rn.node), path, value, name) else Some(old(rn.node))
    {
      WriteSucceeds(rn.node, path, FromText(value));
      WriteSucceeds(rn.node, path, Some(Scalar(STR_TAG, name)));
      var found := Get(rn.node, path);
      if found.Refused? {
        return false;
      }
      if found.Found? {
        if found.node.Scalar? {
          rn.node := Write(rn.node, path, Some(Scalar(STR_TAG, name))).value;
        }
        return true;
      }
      rn.node := Write(rn.node, path, FromText(value)).value;
      return true;
    }

    method Filter(rn: RNode) returns (ok: bool)
      modifies rn
      ensures ok <==> !Get(old(rn.node), NAME).Refused?
      ensures rn.node == if ok then Renamed(old(rn.node), name, namespace) else old(rn.node)
    {
      if !Get(rn.node, NAME).Refused? {
        RenameSucceeds(rn.node, name);
      }
      ok := SetNode(rn, NAME, name);
      if !ok {
        return;
      }
      ok := SetNode(rn, NAMESPACE, namespace);
    }
  }

  /** A scalar at the path becomes the object's name, whichever path it is; nothing there becomes the value. */
  function Reset(n: Node, path: Path, value: string, name: string): Option<Node>
    requires |path| > 0
  {
    match Get(n, path)
    case Refused => None
    case Found(at) => if at.Scalar? then Write(n, path, Some(Scalar(STR_TAG, name))) else Some(n)
    case Missing => Write(n, path, FromText(value))
  }

  /** What is found where a field was reset. */
  function ResetTo(was: Lookup, value: string, name: string): Lookup {
    match was
    case Found(at) => if at.Scalar? then Found(Scalar(STR_TAG, name)) else was
    case Missing => if value == "" then Missing else Found(Scalar("", value))
    case Refused => Refused
  }

  lemma ResetExactly(n: Node, path: Path, value: string, name: string, q: Path)
    requires |path| > 0 && !Get(n, path).Refused?
    ensures Reset(n, path, value, name).Some?
    ensures Get(Reset(n, path, value, name).value, path) == ResetTo(Get(n, path), value, name)
    ensures Apart(path, q) ==> Get(Reset(n, path, value, name).value, q) == Get(n, q)
  {
    var v := if Get(n, path).Found? then Some(Scalar(STR_TAG, name)) else FromText(value);
    WriteSucceeds(n, path, v);
    if Apart(path, q) {
      WriteFrame(n, path, v, q);
    }
    if v.Some? {
      WriteReads(n, path, v.value);
    } else {
      ClearReads(n, path);
    }
  }

  lemma RenameSucceeds(n: Node, name: string)
    requires !Get(n, NAME).Refused?
    ensures Reset(n, NAME, name, name).Some? && !Get(Reset(n, NAME, name, name).value, NAMESPACE).Refused?
    ensures !Get(n, NAMESPACE).Refused?
  {
    ResetExactly(n, NAME, name, name, NAMESPACE);
    assert n.Mapping?;
    var i := FieldIndex(n.fields, "metadata");
    assert i < |n.fields| ==> n.fields[i].value.Mapping?;
  }

  function Renamed(n: Node, name: string, ns: string): Node
    requires !Get(n, NAME).Refused?
  {
    RenameSucceeds(n, name);
    var named := Reset(n, NAME, name, name).value;
    ResetExactly(named, NAMESPACE, ns, name, []);
    Reset(named, NAMESPACE, ns, name).value
  }

  /** Renaming resets name and namespace, and nothing else. */
  lemma RenamedExactly(n: Node, name: string, ns: string, q: Path)
    requires !Get(n, NAME).Refused?
    ensures Get(Renamed(n, name, ns), NAME) == ResetTo(Get(n, NAME), name, name)
    ensures Get(Renamed(n, name, ns), NAMESPACE) == ResetTo(Get(n, NAMESPACE), ns, name)
    ensures Apart(NAME, q) && Apart(NAMESPACE, q) ==> Get(Renamed(n, name, ns), q) == Get(n, q)
  {
    RenameSucceeds(n, name);
    ResetExactly(n, NAME, name, name, NAMESPACE);
    ResetExactly(n, NAME, name, name, q);
    var named := Reset(n, NAME, name, name).value;
    ResetExactly(named, NAMESPACE, ns, name, NAME);
    ResetExactly(named, NAMESPACE, ns, name, q);
  }

  predicate Reads(n: Node, path: Path, t: string) {
    Get(n, path).Found? && Get(n, path).node.Scalar? && Get(n, path).node.value == t
  }

  /** A namespace asked for is given exactly to an object that had none, or by chance where it equals the name. */
  lemma NamespaceGiven(n: Node, name: string, ns: string)
    requires !Get(n, NAME).Refused? && name != "" && ns != ""
    ensures Reads(Renamed(n, name, ns), ["metadata", "namespace"], ns) <==>
            Get(n, ["metadata", "namespace"]).Missing? || (Get(n, ["metadata", "namespace"]).node.Scalar? && name == ns)
    ensures Reads(Renamed(n, name, ns), ["metadata", "name"], name) <==> Get(n, ["metadata", "name"]).Missing? || Get(n, ["metadata", "name"]).node.Scalar?
  {
    RenamedExactly(n, name, ns, []);
    RenameSucceeds(n, name);
  }

  /** The text of a scalar. */
  function TextAt(n: Node, path: Path): Option<string> {
    match Get(n, path)
    case Found(Scalar(_, value)) => Some(value)
    case _ => None
  }

  /** Renaming once more changes the namespace exactly where the first renaming gave one that is not the name. */
  lemma RenamedTwice(n: Node, name: string, ns: string)
    requires !Get(n, NAME).Refused?
    ensures !Get(Renamed(n, name, ns), NAME).Refused?
    ensures var once := Renamed(n, name, ns);
            TextAt(Renamed(once, name, ns), NAMESPACE) == TextAt(once, NAMESPACE) <==>
            !(Get(n, NAMESPACE).Missing? && ns != "" && ns != name)
  {
    RenamedExactly(n, name, ns, []);
    RenamedExactly(Renamed(n, name, ns), name, ns, []);
    RenameSucceeds(n, name);
  }

  lemma {:induction false} WriteFindsParent(n: Node, path: Path, v: Option<Node>)
    requires |path| > 0 && Write(n, path, v).Some?
    ensures Get(Write(n, path, v).value, path[..|path| - 1]).Found?
    decreases |path|
  {
    if |path| > 1 {
      var i := FieldIndex(n.fields, path[0]);
      var child := if i < |n.fields| then n.fields[i].value else Mapping([]);
      WriteFindsParent(child, path[1..], v);
      SetFieldKeeps(n.fields, path[0], Write(child, path[1..], v).value);
      assert path[..|path| - 1][1..] == path[1..][..|path| - 2];
    }
  }

  /** Clearing a field that is not there changes nothing, where its mapping is. */
  lemma {:induction false} ClearSame(n: Node, path: Path)
    requires |path| > 0 && Get(n, path).Missing? && Get(n, path[..|path| - 1]).Found?
    ensures Write(n, path, None) == Some(n)
    decreases |path|
  {
    if |path| > 1 {
      var i := FieldIndex(n.fields, path[0]);
      assert path[..|path| - 1][1..] == path[1..][..|path| - 2];
      ClearSame(n.fields[i].value, path[1..]);
      assert SetField(n.fields, path[0], n.fields[i].value) == n.fields;
    }
  }

  /** Resetting has nothing left to do. */
  predicate Settled(at: Lookup, value: string, name: string) {
    ResetTo(at, value, name) == at
  }

  lemma ResetFixed(n: Node, path: Path, value: string, name: string)
    requires |path| > 0 && !Get(n, path).Refused? && (Get(n, path).Missing? ==> Get(n, path[..|path| - 1]).Found?)
    requires Settled(Get(n, path), value, name)
    ensures Reset(n, path, value, name) == Some(n)
  {
    match Get(n, path)
    case Found(at) =>
      if at.Scalar? {
        WriteSame(n, path, at);
      }
    case Missing => ClearSame(n, path);
  }

  lemma RenamedFindsMetadata(n: Node, name: string, ns: string)
    requires !Get(n, NAME).Refused?
    ensures Get(Renamed(n, name, ns), ["metadata"]).Found?
  {
    RenameSucceeds(n, name);
    var named := Reset(n, NAME, name, name).value;
    assert NAMESPACE[..1] == ["metadata"] && NAMESPACE == ["metadata"] + ["namespace"];
    match Get(named, NAMESPACE)
    case Found(at) =>
      GetPrefix(named, ["metadata"], ["namespace"]);
      if at.Scalar? {
        WriteFindsParent(named, NAMESPACE, Some(Scalar(STR_TAG, name)));
      }
    case Missing => WriteFindsParent(named, NAMESPACE, FromText(ns));
  }

  lemma RenameFixed(n: Node, name: string, ns: string)
    requires !Get(n, NAME).Refused? && Get(n, ["metadata"]).Found?
    ensures Renamed(n, name, ns) == n <==> Settled(Get(n, NAME), name, name) && Settled(Get(n, NAMESPACE), ns, name)
  {
    RenamedExactly(n, name, ns, []);
    RenameSucceeds(n, name);
    assert NAME[..1] == ["metadata"] && NAMESPACE[..1] == ["metadata"];
    if Settled(Get(n, NAME), name, name) && Settled(Get(n, NAMESPACE), ns, name) {
      ResetFixed(n, NAME, name, name);
      ResetFixed(n, NAMESPACE, ns, name);
    }
  }

  /** Renaming is idempotent exactly where it adds neither a name nor a namespace: what it adds, it retags. */
  lemma RenameIdempotent(n: Node, name: string, ns: string)
    requires !Get(n, NAME).Refused?
    ensures !Get(Renamed(n, name, ns), NAME).Refused?
    ensures Renamed(Renamed(n, name, ns), name, ns) == Renamed(n, name, ns) <==>
            (Get(n, NAME).Missing? ==> name == "") && (Get(n, NAMESPACE).Missing? ==> ns == "")
  {
    RenamedExactly(n, name, ns, []);
    RenameSucceeds(n, name);
    RenamedFindsMetadata(n, name, ns);
    RenameFixed(Renamed(n, name, ns), name, ns);
  }

  /** An object without metadata, renamed twice: first into the namespace asked for, and then out of it. */
  lemma RenameNotIdempotent()
    ensures var n := Mapping([]);
            && !Get(n, NAME).Refused? && TextAt(Renamed(n, "pod", "new"), NAMESPACE) == Some("new")
            && !Get(Renamed(n, "pod", "new"), NAME).Refused?
            && TextAt(Renamed(Renamed(n, "pod", "new"), "pod", "new"), NAMESPACE) == Some("pod")
  {
    RenamedExactly(Mapping([]), "pod", "new", []);
    RenamedExactly(Renamed(Mapping([]), "pod", "new"), "pod", "new", []);
  }

  /** An object in namespace "old" that is to go to "new" as "pod" ends up in namespace "pod". */
  lemma NamespaceLost()
    ensures exists n :: !Get(n, NAME).Refused? && Reads(n, NAMESPACE, "old")
                        && Reads(Renamed(n, "pod", "new"), NAMESPACE, "pod")
  {
    var key := (k: string) => Scalar(STR_TAG, k);
    var metadata := Mapping([Field(key("name"), key("web")), Field(key("namespace"), key("old"))]);
    var n := Mapping([Field(key("metadata"), metadata)]);
    IndexOf(n.fields, "metadata", 0);
    IndexOf(metadata.fields, "name", 0);
    IndexOf(metadata.fields, "namespace", 1);
    assert Get(metadata, ["name"]).Found? && Get(metadata, ["namespace"]) == Found(key("old"));
    assert NAME[1..] == ["name"] && NAMESPACE[1..] == ["namespace"];
    assert Get(n, NAMESPACE) == Found(key("old"));
    RenamedExactly(n, "pod", "new", []);
  }
}
