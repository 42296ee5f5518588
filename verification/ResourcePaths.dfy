/**
 Where cluster objects live in the Rego data document. Paths are built with
 path.Join, which splits its arguments at slashes and cleans the result.
 */
module ResourcePaths {
  import opened Store
  import Mirror

  /** The parts of s between slashes. */
  function SplitSlash(s: string): seq<string> {
    SplitFrom(s, "")
  }

  function SplitFrom(s: string, part: string): seq<string> {
    if s == "" then [part]
    else if s[0] == '/' then [part] + SplitFrom(s[1..], "")
    else SplitFrom(s[1..], part + [s[0]])
  }

  function Components(elems: seq<string>): seq<string> {
    if elems == [] then [] else SplitSlash(elems[0]) + Components(elems[1..])
  }

  /** path.Clean on the components of a rooted path. */
  function Clean(done: Path, todo: seq<string>): Path
    decreases |todo|
  {
    if todo == [] then done
    else if todo[0] == "" || todo[0] == "." then Clean(done, todo[1..])
    else if todo[0] == ".." then Clean(if done == [] then [] else done[..|done| - 1], todo[1..])
    else Clean(done + [todo[0]], todo[1..])
  }

  function Join(elems: seq<string>): Path {
    Clean([], Components(elems))
  }

  datatype Resource = Resource(resource: string, namespace: string, name: string)

  function PathForResource(r: Resource): Path {
    if r.namespace == "default" then Join(["/", "resources", r.resource, r.name])
    else Join(["/", "resources", r.namespace, r.resource, r.name])
  }

  function VersionsPath(resource: string): Path {
    Join(["/", "resources", resource, ".versions"])
  }

  /** /resources/applied/last, where the latest operation result goes. */
  const LAST_APPLIED: Path := ["resources", "applied", "last"]

  /** A name that path.Join keeps as one component. */
  predicate Segment(s: string) {
    s != "" && s != "." && s != ".." && '/' !in s
  }

  predicate Named(r: Resource) {
    Segment(r.resource) && Segment(r.name) && (r.namespace == "" || Segment(r.namespace))
  }

  /** Cluster scope and the default namespace are stored alike. */
  predicate Unscoped(r: Resource) {
    r.namespace == "" || r.namespace == "default"
  }

  function NonEmpty(elems: seq<string>): seq<string> {
    if elems == [] then []
    else (if elems[0] == "" then [] else [elems[0]]) + NonEmpty(elems[1..])
  }

  lemma {:induction false} SplitPlain(s: string, part: string)
    requires '/' !in s
    ensures SplitFrom(s, part) == [part + s]
    decreases |s|
  {
    if s == "" {
      assert part + s == part;
    } else {
      SplitPlain(s[1..], part + [s[0]]);
      assert part + [s[0]] + s[1..] == part + s;
    }
  }

  lemma ComponentsPlain(elems: seq<string>)
    requires elems != [] && '/' !in elems[0]
    ensures Components(elems) == [elems[0]] + Components(elems[1..])
  {
    SplitPlain(elems[0], "");
    assert "" + elems[0] == elems[0];
  }

  lemma CleanNext(done: Path, e: string, rest: seq<string>)
    requires e == "" || Segment(e)
    ensures Clean(done, [e] + rest) == Clean(if e == "" then done else done + [e], rest)
  {
    assert ([e] + rest)[1..] == rest;
  }

  lemma {:induction false} CleanPlain(done: Path, elems: seq<string>)
    requires forall i :: 0 <= i < |elems| ==> elems[i] == "" || Segment(elems[i])
    ensures Clean(done, Components(elems)) == done + NonEmpty(elems)
    decreases |elems|
  {
    if elems == [] {
      assert done + NonEmpty(elems) == done;
    } else {
      hide Clean, Components;
      var e := elems[0];
      ComponentsPlain(elems);
      CleanNext(done, e, Components(elems[1..]));
      CleanPlain(if e == "" then done else done + [e], elems[1..]);
    }
  }

  /** Join of a root and plain names is just the names. */
  lemma JoinPlain(elems: seq<string>)
    requires forall i :: 0 <= i < |elems| ==> elems[i] == "" || Segment(elems[i])
    ensures Join(["/"] + elems) == NonEmpty(elems)
  {
    hide Components, Clean, Segment, NonEmpty;
    RootComponents(elems);
    CleanSkipsTwo(Components(elems));
    CleanPlain([], elems);
    assert [] + NonEmpty(elems) == NonEmpty(elems);
  }

  lemma CleanSkipsTwo(rest: seq<string>)
    ensures Clean([], ["", ""] + rest) == Clean([], rest)
  {
    CleanSkips([""] + rest);
    CleanSkips(rest);
    hide Clean;
    assert ["", ""] + rest == [""] + ([""] + rest);
  }

  /** The slash of the root comes apart into two empty components. */
  lemma RootComponents(elems: seq<string>)
    ensures Components(["/"] + elems) == ["", ""] + Components(elems)
  {
    assert SplitSlash("/") == ["", ""];
    assert (["/"] + elems)[1..] == elems;
    hide SplitSlash;
  }

  lemma CleanSkips(rest: seq<string>)
    ensures Clean([], [""] + rest) == Clean([], rest)
  {
    assert ([""] + rest)[1..] == rest;
  }

  lemma {:induction false} NonEmptyAll(elems: seq<string>)
    requires forall i :: 0 <= i < |elems| ==> elems[i] != ""
    ensures NonEmpty(elems) == elems
    decreases |elems|
  {
    if elems != [] {
      NonEmptyAll(elems[1..]);
    }
  }

  lemma PathShape(r: Resource)
    requires Named(r)
    ensures PathForResource(r) ==
            if Unscoped(r) then ["resources", r.resource, r.name]
            else ["resources", r.namespace, r.resource, r.name]
  {
    if r.namespace == "default" {
      var e := ["resources", r.resource, r.name];
      JoinPlain(e);
      assert ["/"] + e == ["/", "resources", r.resource, r.name];
      NonEmptyAll(e);
    } else {
      var e := ["resources", r.namespace, r.resource, r.name];
      JoinPlain(e);
      assert ["/"] + e == ["/", "resources", r.namespace, r.resource, r.name];
      var tail := [r.resource, r.name];
      NonEmptyAll(tail);
      assert e[1..] == [r.namespace] + tail && ([r.namespace] + tail)[1..] == tail;
      assert NonEmpty(e) == ["resources"] + NonEmpty([r.namespace] + tail);
    }
  }

  lemma VersionsShape(resource: string)
    requires Segment(resource)
    ensures VersionsPath(resource) == ["resources", resource, ".versions"]
  {
    var e := ["resources", resource, ".versions"];
    JoinPlain(e);
    assert ["/"] + e == ["/", "resources", resource, ".versions"];
    NonEmptyAll(e);
  }

  /** Two objects share a path exactly when resource and name agree and so do their namespaces, up to default. */
  lemma SamePath(a: Resource, b: Resource)
    requires Named(a) && Named(b)
    ensures PathForResource(a) == PathForResource(b) <==>
            && a.resource == b.resource && a.name == b.name
            && (a.namespace == b.namespace || (Unscoped(a) && Unscoped(b)))
  {
    PathShape(a);
    PathShape(b);
    var p, q := PathForResource(a), PathForResource(b);
    if p == q {
      assert p[1] == q[1] && p[2] == q[2];
      assert !Unscoped(a) ==> p[3] == q[3];
    }
  }

  /** The first object's resource is the second one's namespace, and its name the second one's resource. */
  predicate Nested(a: Resource, b: Resource) {
    Unscoped(a) && !Unscoped(b) && b.namespace == a.resource && b.resource == a.name
  }

  /** An object sits inside another exactly when a namespace is mistaken for a resource. */
  lemma NestedPath(a: Resource, b: Resource)
    requires Named(a) && Named(b)
    ensures PathForResource(a) < PathForResource(b) <==> Nested(a, b)
  {
    PathShape(a);
    PathShape(b);
    var p, q := PathForResource(a), PathForResource(b);
    if p < q {
      assert p == q[..|p|];
      assert p[1] == q[1] && p[2] == q[2];
    }
  }

  /** The nesting does happen: a default-namespace path can be a prefix of a namespaced one. */
  lemma NestingExample()
    ensures PathForResource(Resource("pods", "default", "services")) <
            PathForResource(Resource("services", "pods", "web"))
  {
    NestedPath(Resource("pods", "default", "services"), Resource("services", "pods", "web"));
  }

  predicate MeetsVersions(r: Resource, resource: string) {
    || (Unscoped(r) && r.resource == resource && r.name == ".versions")
    || (!Unscoped(r) && r.namespace == resource && r.resource == ".versions")
  }

  predicate MeetsLast(r: Resource) {
    || (Unscoped(r) && r.resource == "applied" && r.name == "last")
    || (!Unscoped(r) && r.namespace == "applied" && r.resource == "last")
  }

  /** Which object paths meet a path of three components below resources. */
  lemma ObjectMeets(r: Resource, x: string, y: string)
    requires Named(r)
    ensures !Apart(PathForResource(r), ["resources", x, y]) <==>
            (Unscoped(r) && r.resource == x && r.name == y) || (!Unscoped(r) && r.namespace == x && r.resource == y)
  {
    PathShape(r);
    var p, q := PathForResource(r), ["resources", x, y];
    if p <= q {
      assert p == q[..|p|];
      assert p[1] == q[1] && p[2] == q[2];
    }
    if q <= p {
      assert q == p[..|q|];
      assert p[1] == q[1] && p[2] == q[2];
    }
  }

  /** The only object paths that meet a .versions path. */
  lemma VersionsMeetsObject(r: Resource, resource: string)
    requires Named(r) && Segment(resource)
    ensures !Apart(PathForResource(r), VersionsPath(resource)) <==> MeetsVersions(r, resource)
  {
    VersionsShape(resource);
    ObjectMeets(r, resource, ".versions");
  }

  /** The only object paths that meet the path of the latest result. */
  lemma LastMeetsObject(r: Resource)
    requires Named(r)
    ensures !Apart(PathForResource(r), LAST_APPLIED) <==> MeetsLast(r)
  {
    ObjectMeets(r, "applied", "last");
  }

  // ---- The paths one run uses ----

  function ObjectPaths(objects: set<Resource>): set<Path> {
    set r | r in objects :: PathForResource(r)
  }

  function RunnerPaths(resources: set<string>): set<Path> {
    (set r | r in resources :: VersionsPath(r)) + {LAST_APPLIED}
  }

  /** Object names start with a letter or digit (RFC 1123, section 2.1), so never with a dot. */
  predicate HostLike(s: string) {
    Segment(s) && s[0] != '.'
  }

  /** Names that path.Join keeps as they are. */
  ghost predicate AllNamed(objects: set<Resource>, resources: set<string>) {
    (forall r :: r in objects ==> Named(r)) && (forall r :: r in resources ==> Segment(r))
  }

  /** No path of the run meets another. */
  ghost predicate NoneMeet(objects: set<Resource>, resources: set<string>) {
    && (forall a, b :: a in objects && b in objects ==> !Nested(a, b))
    && (forall a :: a in objects ==> !MeetsLast(a))
    && (forall a, r :: a in objects && r in resources ==> !MeetsVersions(a, r))
  }

  /** Ordinary names: RFC 1123 for objects and resources, no namespace that is a resource, nothing at the latest result. */
  ghost predicate WellNamed(objects: set<Resource>, resources: set<string>) {
    && AllNamed(objects, resources)
    && (forall a :: a in objects ==> HostLike(a.name) && HostLike(a.resource) && !MeetsLast(a))
    && (forall a, b :: a in objects && b in objects ==> a.namespace != b.resource)
  }

  lemma OrdinaryNamesApart(objects: set<Resource>, resources: set<string>)
    requires WellNamed(objects, resources)
    ensures NoneMeet(objects, resources)
  {
  }

  lemma ObjectPathsPrefixFree(objects: set<Resource>, resources: set<string>)
    requires AllNamed(objects, resources) && NoneMeet(objects, resources)
    ensures Mirror.PrefixFree(ObjectPaths(objects))
  {
    forall p, q | p in ObjectPaths(objects) && q in ObjectPaths(objects)
      ensures |p| > 0 && (p == q || Apart(p, q))
    {
      var a :| a in objects && p == PathForResource(a);
      var b :| b in objects && q == PathForResource(b);
      PathShape(a);
      NestedPath(a, b);
      NestedPath(b, a);
    }
  }

  lemma RunnerPathsPrefixFree(objects: set<Resource>, resources: set<string>)
    requires AllNamed(objects, resources)
    ensures Mirror.PrefixFree(RunnerPaths(resources))
  {
    forall p | p in RunnerPaths(resources)
      ensures |p| == 3
    {
      if p != LAST_APPLIED {
        var r :| r in resources && p == VersionsPath(r);
        VersionsShape(r);
      }
    }
    forall p, q | p in RunnerPaths(resources) && q in RunnerPaths(resources) && p != q
      ensures Apart(p, q)
    {
      assert |p| == |q| == 3;
    }
  }

  lemma RunnerApartFromObjects(objects: set<Resource>, resources: set<string>, p: Path, q: Path)
    requires AllNamed(objects, resources) && NoneMeet(objects, resources)
    requires p in ObjectPaths(objects) && q in RunnerPaths(resources)
    ensures Apart(p, q)
  {
    var a :| a in objects && p == PathForResource(a);
    if q == LAST_APPLIED {
      LastMeetsObject(a);
    } else {
      var r :| r in resources && q == VersionsPath(r);
      VersionsMeetsObject(a, r);
    }
  }

  lemma UnionPrefixFree(a: set<Path>, b: set<Path>)
    requires Mirror.PrefixFree(a) && Mirror.PrefixFree(b)
    requires forall p, q :: p in a && q in b ==> Apart(p, q)
    ensures Mirror.PrefixFree(a + b) && a !! b
  {
    forall p, q | p in a + b && q in a + b
      ensures p == q || Apart(p, q)
    {
      if p in b && q in a {
        assert Apart(q, p);
      }
    }
    forall p | p in a
      ensures p !in b
    {
      assert !Apart(p, p);
    }
  }

  /** The paths of a run satisfy what the sharing theorem asks for exactly when none of them meet. */
  lemma RunPathsPrefixFree(objects: set<Resource>, resources: set<string>)
    requires AllNamed(objects, resources)
    ensures Mirror.PrefixFree(RunnerPaths(resources) + ObjectPaths(objects)) && RunnerPaths(resources) !! ObjectPaths(objects)
            <==> NoneMeet(objects, resources)
  {
    if NoneMeet(objects, resources) {
      NoneMeetSuffices(objects, resources);
    } else {
      SomeMeet(objects, resources);
    }
  }

  lemma NoneMeetSuffices(objects: set<Resource>, resources: set<string>)
    requires AllNamed(objects, resources) && NoneMeet(objects, resources)
    ensures Mirror.PrefixFree(RunnerPaths(resources) + ObjectPaths(objects))
    ensures RunnerPaths(resources) !! ObjectPaths(objects)
  {
    ObjectPathsPrefixFree(objects, resources);
    RunnerPathsPrefixFree(objects, resources);
    var a, b := RunnerPaths(resources), ObjectPaths(objects);
    forall p, q | p in a && q in b
      ensures Apart(p, q)
    {
      RunnerApartFromObjects(objects, resources, q, p);
    }
    UnionPrefixFree(a, b);
  }

  lemma SomeMeet(objects: set<Resource>, resources: set<string>)
    requires AllNamed(objects, resources) && !NoneMeet(objects, resources)
    ensures !Mirror.PrefixFree(RunnerPaths(resources) + ObjectPaths(objects)) || !(RunnerPaths(resources) !! ObjectPaths(objects))
  {
    var p: Path, q: Path;
    if a, b :| a in objects && b in objects && Nested(a, b) {
      NestedPath(a, b);
      p, q := PathForResource(a), PathForResource(b);
    } else if a :| a in objects && MeetsLast(a) {
      LastMeetsObject(a);
      p, q := PathForResource(a), LAST_APPLIED;
    } else {
      var a, r :| a in objects && r in resources && MeetsVersions(a, r);
      VersionsMeetsObject(a, r);
      p, q := PathForResource(a), VersionsPath(r);
    }
    assert p in ObjectPaths(objects) && q in RunnerPaths(resources) + ObjectPaths(objects) && !Apart(p, q);
    assert p == q ==> q in RunnerPaths(resources);
  }
}
