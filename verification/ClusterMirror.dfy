/**
 The runner's writes of cluster objects and API versions into the Rego
 data document.
 */
module ClusterMirror {
  import opened Options
  import opened Store
  import opened RegoDriver
  import opened ResourcePaths
  import Mirror

  /** A cluster object: its kind resolves to a resource, or to nothing. */
  datatype ClusterObject = ClusterObject(resource: Option<string>, namespace: string, name: string, content: Value)

  datatype Failure = UnknownKind | StoreFailed(error: Error)

  function PathOf(u: ClusterObject): Path
    requires u.resource.Some?
  {
    PathForResource(Resource(u.resource.value, u.namespace, u.name))
  }

  /** Every part of the path is a name that path.Join keeps. */
  predicate Spelled(u: ClusterObject) {
    && u.resource.Some? && Segment(u.resource.value) && Segment(u.name)
    && (u.namespace == "" || Segment(u.namespace))
  }

  /** Where an object is kept: below its namespace, unless it has none or the default one. */
  function Place(u: ClusterObject): Path
    requires u.resource.Some?
  {
    if u.namespace == "" || u.namespace == "default" then ["resources", u.resource.value, u.name]
    else ["resources", u.namespace, u.resource.value, u.name]
  }

  lemma PathOfIsPlace(u: ClusterObject)
    requires Spelled(u)
    ensures PathOf(u) == Place(u)
  {
    PathShape(Resource(u.resource.value, u.namespace, u.name));
  }

  method StoreResource(c: Driver, u: ClusterObject) returns (err: Option<Failure>)
    modifies c
    ensures u.resource.None? ==> err == Some(UnknownKind) && c.tree == old(c.tree)
    ensures u.resource.Some? ==>
              var (t, e) := StoreWithParentsSpec(old(c.tree), PathOf(u), u.content);
              c.tree == t && err == if e.None? then None else Some(StoreFailed(e.value))
    ensures Spelled(u) ==> (err.None? <==> !Blocked(old(c.tree), Place(u)))
    ensures Spelled(u) && err.None? ==> Read(c.tree, Place(u)) == Some(u.content)
  {
    if u.resource.None? {
      return Some(UnknownKind);
    }
    var e := c.StoreWithParents(PathOf(u), u.content);
    err := if e.None? then None else Some(StoreFailed(e.value));
    if Spelled(u) {
      PathOfIsPlace(u);
      StoreWithParentsExact(old(c.tree), Place(u), u.content, Place(u));
    }
  }

  method RemoveResource(c: Driver, u: ClusterObject) returns (err: Option<Failure>)
    modifies c
    ensures u.resource.None? ==> err == Some(UnknownKind) && c.tree == old(c.tree)
    ensures u.resource.Some? ==>
              var (t, e) := RemovePathSpec(old(c.tree), PathOf(u));
              c.tree == t && err == if e.None? then None else Some(StoreFailed(e.value))
    ensures Spelled(u) ==> (err.None? <==> Read(old(c.tree), Place(u)).Some?)
    ensures Spelled(u) && err.None? ==> Read(c.tree, Place(u)).None?
  {
    if u.resource.None? {
      return Some(UnknownKind);
    }
    var e := c.RemovePath(PathOf(u));
    err := if e.None? then None else Some(StoreFailed(e.value));
    if Spelled(u) {
      PathOfIsPlace(u);
      AlterReads(old(c.tree), Place(u), Drop, Place(u));
    }
  }

  /** A stored object is found again at its place, and objects whose places are apart from it are not touched. */
  lemma StoredFoundAgain(t: Value, u: ClusterObject, v: ClusterObject)
    requires Spelled(u) && Spelled(v) && !Blocked(t, Place(u))
    ensures var t' := StoreWithParentsSpec(t, PathOf(u), u.content).0;
            && Read(t', Place(u)) == Some(u.content)
            && (Apart(Place(u), Place(v)) ==> Read(t', Place(v)) == Read(t, Place(v)))
  {
    PathOfIsPlace(u);
    StoreWithParentsExact(t, Place(u), u.content, Place(u));
    StoreWithParentsExact(t, Place(u), u.content, Place(v));
  }

  datatype ApiResource = ApiResource(name: string, group: string, version: string, kind: string)

  datatype Kind = Kind(group: string, version: string, kind: string)

  /** The kinds the API server lists for one resource, in order. */
  function VersionsOf(resources: seq<ApiResource>, name: string): seq<Kind>
    decreases |resources|
  {
    if resources == [] then []
    else
      var last := resources[|resources| - 1];
      VersionsOf(resources[..|resources| - 1], name)
      + if last.name == name then [Kind(last.group, last.version, last.kind)] else []
  }

  /** The names that are stored: subresources, which contain a slash, are not. */
  function TopLevel(resources: seq<ApiResource>): set<string> {
    set r | r in resources && '/' !in r.name :: r.name
  }

  lemma VersionsPathsPrefixFree(names: set<string>)
    requires forall n :: n in names ==> Segment(n)
    ensures Mirror.PrefixFree(set n | n in names :: VersionsPath(n))
    ensures forall m, n :: m in names && n in names && m != n ==> Apart(VersionsPath(m), VersionsPath(n))
    ensures forall n :: n in names ==> |VersionsPath(n)| == 3
  {
    forall n | n in names
      ensures |VersionsPath(n)| == 3 && VersionsPath(n)[1] == n
    {
      VersionsShape(n);
    }
  }

  /** The groups hold the kinds of every name without a slash. */
  ghost predicate Grouped(groups: map<string, seq<Kind>>, resources: seq<ApiResource>) {
    && groups.Keys == TopLevel(resources)
    && (forall n :: n in groups ==> groups[n] == VersionsOf(resources, n))
    && (forall n :: n !in groups && '/' !in n ==> VersionsOf(resources, n) == [])
  }

  lemma GroupedNext(groups: map<string, seq<Kind>>, resources: seq<ApiResource>, i: nat)
    requires i < |resources| && Grouped(groups, resources[..i])
    ensures var v := resources[i];
            var before := if v.name in groups then groups[v.name] else [];
            Grouped(if '/' in v.name then groups else groups[v.name := before + [Kind(v.group, v.version, v.kind)]], resources[..i + 1])
  {
    var v := resources[i];
    assert resources[..i + 1][..i] == resources[..i];
    assert TopLevel(resources[..i + 1]) == TopLevel(resources[..i]) + if '/' in v.name then {} else {v.name} by {
      assert resources[..i + 1] == resources[..i] + [v];
    }
  }

  method GroupVersions(resources: seq<ApiResource>) returns (groups: map<string, seq<Kind>>)
    ensures groups.Keys == TopLevel(resources)
    ensures forall n :: n in groups ==> groups[n] == VersionsOf(resources, n)
  {
    groups := map[];
    for i := 0 to |resources|
      invariant Grouped(groups, resources[..i])
    {
      var v := resources[i];
      GroupedNext(groups, resources, i);
      if '/' in v.name {
        continue;
      }
      var before := if v.name in groups then groups[v.name] else [];
      groups := groups[v.name := before + [Kind(v.group, v.version, v.kind)]];
    }
    assert resources[..|resources|] == resources;
  }

  /** The document while the groups are being stored, with those in todo still to come. */
  ghost predicate Storing(start: Value, t: Value, names: set<string>, todo: set<string>, content: map<string, Value>) {
    && todo <= names == content.Keys
    && (forall n :: n in names - todo ==> !Blocked(start, VersionsPath(n)))
    && (forall n :: n in todo ==> (Blocked(t, VersionsPath(n)) <==> Blocked(start, VersionsPath(n))))
    && (forall n :: n in names - todo ==> Read(t, VersionsPath(n)) == Some(content[n]))
    && (forall q :: (forall n :: n in names ==> Apart(VersionsPath(n), q)) ==> Read(t, q) == Read(start, q))
  }

  lemma StoringStep(start: Value, t: Value, names: set<string>, todo: set<string>, content: map<string, Value>, k: string)
    requires Storing(start, t, names, todo, content) && k in todo && !Blocked(t, VersionsPath(k))
    requires forall n :: n in names ==> Segment(n)
    ensures |VersionsPath(k)| > 0
    ensures Storing(start, Alter(t, VersionsPath(k), Put(content[k])), names, todo - {k}, content)
  {
    VersionsPathsPrefixFree(names);
    var p := VersionsPath(k);
    var t' := Alter(t, p, Put(content[k]));
    AlterReads(t, p, Put(content[k]), p);
    assert p[|p|..] == [];
    forall q | Apart(p, q)
      ensures Read(t', q) == Read(t, q) && (Blocked(t', q) <==> Blocked(t, q))
    {
      AlterReads(t, p, Put(content[k]), q);
      AlterKeepsBlocked(t, p, Put(content[k]), q);
    }
  }

  /** Groups the API resources by name and stores each group under `.versions`. */
  method StoreResourceVersions(r: Driver, resources: seq<ApiResource>, encode: seq<Kind> -> Value)
    returns (err: Option<Error>)
    requires forall n :: n in TopLevel(resources) ==> Segment(n)
    modifies r
    ensures err.None? <==> forall n :: n in TopLevel(resources) ==> !Blocked(old(r.tree), VersionsPath(n))
    ensures err.None? ==> forall n :: n in TopLevel(resources) ==>
                                        Read(r.tree, VersionsPath(n)) == Some(encode(VersionsOf(resources, n)))
    ensures forall q :: (forall n :: n in TopLevel(resources) ==> Apart(VersionsPath(n), q)) ==>
                          Read(r.tree, q) == Read(old(r.tree), q)
  {
    var groups := GroupVersions(resources);
    ghost var content := map n | n in groups :: encode(groups[n]);
    ghost var start := r.tree;
    var todo := groups.Keys;
    while todo != {}
      invariant Storing(start, r.tree, groups.Keys, todo, content)
      decreases todo
    {
      var k :| k in todo;
      VersionsShape(k);
      ghost var before := r.tree;
      err := r.StoreWithParents(VersionsPath(k), encode(groups[k]));
      if err.Some? {
        return;
      }
      StoringStep(start, before, groups.Keys, todo, content, k);
      todo := todo - {k};
    }
    err := None;
  }

  // ---- A run of modden ----

  /** A document in which nothing has been stored for the cluster yet. */
  predicate NoResources(t: Value) {
    t.Object? && "resources" !in t.fields
  }

  lemma UnderResources(objects: set<Resource>, resources: set<string>, p: Path)
    requires AllNamed(objects, resources) && p in RunnerPaths(resources) + ObjectPaths(objects)
    ensures |p| > 0 && p[0] == "resources"
  {
    if p in ObjectPaths(objects) {
      var a :| a in objects && p == PathForResource(a);
      PathShape(a);
    } else if p != LAST_APPLIED {
      var r :| r in resources && p == VersionsPath(r);
      VersionsShape(r);
    }
  }

  /** The runner's stores and the handlers' events, on a fresh document, are what the sharing theorems are about. */
  lemma RunIsValidJob(init: Value, testOps: seq<Mirror.Op>, watchOps: seq<Mirror.Op>, objects: set<Resource>, resources: set<string>)
    requires AllNamed(objects, resources) && NoneMeet(objects, resources) && NoResources(init)
    requires Mirror.Within(testOps, RunnerPaths(resources)) && forall i :: 0 <= i < |testOps| ==> testOps[i].Save?
    requires Mirror.Within(watchOps, ObjectPaths(objects)) && Mirror.ErasesStored(watchOps, init)
    ensures Mirror.ValidJob(Mirror.Job(init, testOps, watchOps, RunnerPaths(resources), ObjectPaths(objects)))
  {
    RunPathsPrefixFree(objects, resources);
    forall p | p in RunnerPaths(resources) + ObjectPaths(objects)
      ensures !Blocked(init, p)
    {
      UnderResources(objects, resources, p);
      assert forall i :: 0 < i < |p| ==> Read(init, p[..i]).None?;
    }
  }
}
