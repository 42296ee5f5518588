/** Hydrating a document fragment: from its parsed node to the object and the operation on it. */
module Environment {
  import opened Options
  import opened Filters

  /** What the cluster's clients see of an object. */
  datatype Meta = Meta(name: string, namespace: string)

  /** A hydrated object: its node, its check, if it brings one, and the operation to perform. */
  datatype Hydrated = Hydrated(node: Node, name: string, namespace: string, check: Option<string>, operation: string)

  datatype HydrateError = BadYaml | BadOperations | NoFixture | BadRename | BadMetadata | BadCheck | BadApply | BadObject

  datatype HydrateResult = Ready(hydrated: Hydrated) | Broken(error: HydrateError)

  const UPDATE := "update"
  const DELETE := "delete"

  /** The outside world's part: the parsed fragment, the fixtures, the Rego parser and the object decoder. */
  datatype World = World(
    parsed: Option<seq<Field>>,
    decoders: Decoders,
    fixtures: Node -> Option<Node>,
    regoParses: string -> bool,
    decode: Node -> Option<Meta>,
    uniqueId: string,
    manager: string)

  type Operations = map<string, OpValue>

  // ---- The stages, each on the success of the one before ----

  function OperationsOf(w: World): Option<Operations> {
    if w.parsed.Some? then Collected(w.decoders, w.parsed.value) else None
  }

  /** The part before the first slash, and the rest; a name without a slash is in the default namespace. */
  function SplitObjectName(full: string): (r: (string, string))
    ensures '/' !in full ==> r == ("default", full)
    ensures '/' in full ==> '/' !in r.0 && full == r.0 + "/" + r.1
  {
    if full == "" then ("default", "")
    else if full[0] == '/' then ("", full[1..])
    else
      var (ns, name) := SplitObjectName(full[1..]);
      if '/' in full[1..] then ([full[0]] + ns, name) else ("default", full)
  }

  predicate WantsFixture(ops: Operations) {
    "$apply" in ops && ops["$apply"].Fixture?
  }

  /** What a fixture is put under another name by. */
  function FixtureNode(fixture: Node, rename: string): Option<Node> {
    if rename == "" then Some(fixture)
    else if Get(fixture, NAME).Refused? then None
    else
      var (ns, name) := SplitObjectName(rename);
      Some(Renamed(fixture, name, ns))
  }

  /** The object without its special fields, or the fixture that takes its place. */
  function ResourceOf(w: World): Option<Node> {
    match OperationsOf(w)
    case None => None
    case Some(ops) =>
      var own := Mapping(Kept(w.parsed.value));
      if !WantsFixture(ops) then Some(own)
      else match w.fixtures(own)
           case None => None
           case Some(fixture) => FixtureNode(fixture, ops["$apply"].rename)
  }

  predicate CheckAccepted(w: World, ops: Operations) {
    "$check" in ops ==> ops["$check"].Text? && w.regoParses(ops["$check"].text)
  }

  predicate ApplyAccepted(ops: Operations) {
    "$apply" in ops ==>
      match ops["$apply"]
      case Fixture(_) => true
      case Text(t) => t == "update" || t == "delete" || t == "fixture"
  }

  /** Objects are updated unless `$apply` says to delete them. */
  function OperationOf(w: World): (op: string)
    ensures op == "update" || op == "delete"
  {
    var ops := OperationsOf(w);
    if ops.Some? && "$apply" in ops.value && ops.value["$apply"] == Text("delete") then "delete" else "update"
  }

  /** The check that the fragment brings. */
  function CheckOf(w: World): Option<string> {
    var ops := OperationsOf(w);
    if ops.Some? && "$check" in ops.value && ops.value["$check"].Text? then Some(ops.value["$check"].text) else None
  }

  /** Every stage of hydration succeeds. */
  predicate Hydrates(w: World) {
    MetaOf(w).Some? && CheckAccepted(w, OperationsOf(w).value) && ApplyAccepted(OperationsOf(w).value)
  }

  /** The node of the object, with the test's metadata in it. */
  function NodeOf(w: World): Option<Node> {
    match ResourceOf(w)
    case None => None
    case Some(n) =>
      var injected := Inject(n, w.uniqueId, w.manager);
      if injected.ok then Some(injected.node) else None
  }

  function MetaOf(w: World): Option<Meta> {
    match NodeOf(w)
    case None => None
    case Some(n) => w.decode(n)
  }

  /** Runs one special-operation handler on the object being built. */
  method Handle(key: string, val: OpValue, w: World, o: Hydrated) returns (r: HydrateResult)
    requires key == "$check" || key == "$apply"
    ensures key == "$check" ==>
              r == if val.Text? && w.regoParses(val.text) then Ready(o.(check := Some(val.text))) else Broken(BadCheck)
    ensures key == "$apply" ==>
              r == match val
                   case Fixture(_) => Ready(o.(operation := UPDATE))
                   case Text(t) =>
                     if t == DELETE then Ready(o.(operation := DELETE))
                     else if t == UPDATE || t == "fixture" then Ready(o.(operation := UPDATE))
                     else Broken(BadApply)
  {
    if key == "$check" {
      if !val.Text? {
        return Broken(BadCheck);
      }
      if !w.regoParses(val.text) {
        return Broken(BadCheck);
      }
      return Ready(o.(check := Some(val.text)));
    }
    match val {
      case Fixture(_) => return Ready(o.(operation := UPDATE));
      case Text(t) =>
        if t == UPDATE {
          return Ready(o.(operation := UPDATE));
        } else if t == DELETE {
          return Ready(o.(operation := DELETE));
        } else if t == "fixture" {
          return Ready(o.(operation := UPDATE));
        }
        return Broken(BadApply);
    }
  }

  /** Runs the handlers, in no particular order. */
  method HandleAll(w: World, ops: Operations, start: Hydrated) returns (r: HydrateResult)
    requires start.operation == UPDATE && start.check.None?
    ensures r.Ready? <==> CheckAccepted(w, ops) && ApplyAccepted(ops)
    ensures r.Ready? ==>
              r.hydrated == start.(
              operation := if "$apply" in ops && ops["$apply"] == Text(DELETE) then DELETE else UPDATE,
              check := if "$check" in ops then Some(ops["$check"].text) else None)
  {
    var o := start;
    var todo := {"$check", "$apply"};
    while todo != {}
      invariant todo <= {"$check", "$apply"}
      invariant o == start.(operation := o.operation, check := o.check)
      invariant o.operation == if "$apply" in ops && "$apply" !in todo && ops["$apply"] == Text(DELETE) then DELETE else UPDATE
      invariant "$check" !in todo ==> CheckAccepted(w, ops)
      invariant o.check == if "$check" in ops && "$check" !in todo then Some(ops["$check"].text) else None
      invariant "$apply" !in todo ==> ApplyAccepted(ops)
      decreases todo
    {
      var key :| key in todo;
      todo := todo - {key};
      if key !in ops {
        continue;
      }
      var step := Handle(key, ops[key], w, o);
      if step.Broken? {
        return step;
      }
      o := step.hydrated;
    }
    return Ready(o);
  }

  /** The fixture under its new name, if it is given one. */
  method RenameFixture(fixture: Node, rename: string) returns (node: Option<Node>)
    ensures node == FixtureNode(fixture, rename)
  {
    if rename == "" {
      return Some(fixture);
    }
    var rn := new RNode(fixture);
    var (ns, name) := SplitObjectName(rename);
    var renamer := new Rename(name, ns);
    var ok := renamer.Filter(rn);
    return if ok then Some(rn.node) else None;
  }

  /**
   Hydration succeeds exactly when every stage does. The object then is the
   fragment without its special fields, or its fixture, with the test's
   metadata; and the operation is an update or a delete.
   */
  method HydrateObject(w: World) returns (r: HydrateResult)
    ensures r.Ready? <==> Hydrates(w)
    ensures r.Ready? ==>
              && NodeOf(w) == Some(r.hydrated.node)
              && MetaOf(w) == Some(Meta(r.hydrated.name, r.hydrated.namespace))
              && r.hydrated.operation == OperationOf(w) && r.hydrated.check == CheckOf(w)
  {
    hide Collected, Kept, Inject, FixtureNode, ApplyAccepted, StoppedAt;
    if !w.parsed.Some? {
      return Broken(BadYaml);
    }
    var resource := new RNode(Mapping(w.parsed.value));
    var special := new SpecialOpsFilter(w.decoders);
    var ok := special.Filter(resource);
    if !ok {
      return Broken(BadOperations);
    }
    var ops := special.ops;
    if "$apply" in ops && ops["$apply"].Fixture? {
      var found := w.fixtures(resource.node);
      if found.None? {
        return Broken(NoFixture);
      }
      var node := RenameFixture(found.value, ops["$apply"].rename);
      if node.None? {
        return Broken(BadRename);
      }
      resource := new RNode(node.value);
    }
    var injection := new MetaInjectionFilter(w.uniqueId, w.manager);
    ok := injection.Filter(resource);
    if !ok {
      return Broken(BadMetadata);
    }
    r := HandleAll(w, ops, Hydrated(resource.node, "", "", None, UPDATE));
    if r.Broken? {
      return;
    }
    var meta := w.decode(resource.node);
    if meta.None? {
      return Broken(BadObject);
    }
    return Ready(r.hydrated.(name := meta.value.name, namespace := meta.value.namespace));
  }

  // ---- What a hydrated object carries ----

  /** Fragment or fixture, it bears the run's ID and its manager's label. */
  lemma CarriesRunId(w: World)
    requires NodeOf(w).Some? && w.uniqueId != "" && w.manager != ""
    ensures Get(NodeOf(w).value, ["metadata", "annotations", "modden/run-id"]) == Found(Scalar("", w.uniqueId))
    ensures Get(NodeOf(w).value, ["metadata", "labels", "app.kubernetes.io/managed-by"]) == Found(Scalar("", w.manager))
  {
    InjectReads(ResourceOf(w).value, w.uniqueId, w.manager);
  }

  /** An object's own fields are those of the fragment, special ones aside, wherever the metadata does not go. */
  lemma KeepsFragment(w: World, q: Path)
    requires NodeOf(w).Some? && !WantsFixture(OperationsOf(w).value)
    requires Apart(MANAGED, q) && Apart(TEMPLATE_MANAGED, q) && Apart(RUN, q) && Apart(TEMPLATE_RUN, q)
    ensures Get(NodeOf(w).value, q) == Get(Mapping(Kept(w.parsed.value)), q)
  {
    InjectFrame(ResourceOf(w).value, w.uniqueId, w.manager, q);
  }

  /**
   A fragment that asks for a fixture becomes the fixture: wherever neither the
   metadata nor a new name goes, it reads as the fixture found, and its name and
   namespace are the fixture's, reset if a new name is asked for.
   */
  lemma KeepsFixture(w: World, fixture: Node, q: Path)
    requires NodeOf(w).Some? && WantsFixture(OperationsOf(w).value)
    requires w.fixtures(Mapping(Kept(w.parsed.value))) == Some(fixture)
    requires Apart(MANAGED, q) && Apart(TEMPLATE_MANAGED, q) && Apart(RUN, q) && Apart(TEMPLATE_RUN, q)
    ensures var rename := OperationsOf(w).value["$apply"].rename;
            var (ns, name) := SplitObjectName(rename);
            var node := NodeOf(w).value;
            && (rename == "" || (Apart(NAME, q) && Apart(NAMESPACE, q)) ==> Get(node, q) == Get(fixture, q))
            && (rename != "" ==>
                  && Get(node, NAME) == ResetTo(Get(fixture, NAME), name, name)
                  && Get(node, NAMESPACE) == ResetTo(Get(fixture, NAMESPACE), ns, name))
  {
    var rename := OperationsOf(w).value["$apply"].rename;
    var resource := ResourceOf(w).value;
    TargetsMissNamespace();
    InjectFrame(resource, w.uniqueId, w.manager, q);
    InjectFrame(resource, w.uniqueId, w.manager, NAME);
    InjectFrame(resource, w.uniqueId, w.manager, NAMESPACE);
    if rename != "" {
      var (ns, name) := SplitObjectName(rename);
      RenamedExactly(fixture, name, ns, q);
    }
  }

  /** A fixture that has a namespace and is asked for in another ends up in the one that bears its new name. */
  lemma FixtureMisplaced(fixture: Node, ns: string, name: string, uniqueId: string, manager: string)
    requires '/' !in ns && Get(fixture, NAMESPACE).Found? && Get(fixture, NAMESPACE).node.Scalar?
    ensures var renamed := FixtureNode(fixture, ns + "/" + name);
            renamed.Some? && Reads(Inject(renamed.value, uniqueId, manager).node, NAMESPACE, name)
  {
    SplitAt(ns, name);
    assert !Get(fixture, NAME).Refused? by {
      assert NAMESPACE[1..] == ["namespace"] && NAME[1..] == ["name"];
    }
    RenamedExactly(fixture, name, ns, []);
    TargetsMissNamespace();
    InjectFrame(Renamed(fixture, name, ns), uniqueId, manager, NAMESPACE);
  }

  lemma {:induction false} SplitAt(ns: string, name: string)
    requires '/' !in ns
    ensures SplitObjectName(ns + "/" + name) == (ns, name)
    decreases |ns|
  {
    var full := ns + "/" + name;
    if ns == "" {
      assert full == "/" + name && full[1..] == name;
    } else {
      assert full[1..] == ns[1..] + "/" + name;
      assert full[1..][|ns| - 1] == '/';
      SplitAt(ns[1..], name);
      assert [full[0]] + ns[1..] == ns;
    }
  }

  lemma TargetsMissNamespace()
    ensures Apart(MANAGED, NAMESPACE) && Apart(TEMPLATE_MANAGED, NAMESPACE)
    ensures Apart(RUN, NAMESPACE) && Apart(TEMPLATE_RUN, NAMESPACE)
    ensures Apart(MANAGED, NAME) && Apart(TEMPLATE_MANAGED, NAME) && Apart(RUN, NAME) && Apart(TEMPLATE_RUN, NAME)
  {
    ApartAt(MANAGED, NAME, 1);
    ApartAt(RUN, NAME, 1);
    ApartAt(TEMPLATE_MANAGED, NAME, 0);
    ApartAt(TEMPLATE_RUN, NAME, 0);
    ApartAt(MANAGED, NAMESPACE, 1);
    ApartAt(RUN, NAMESPACE, 1);
    ApartAt(TEMPLATE_MANAGED, NAMESPACE, 0);
    ApartAt(TEMPLATE_RUN, NAMESPACE, 0);
  }
}
