/**
 Adding a captured file to the built-in assets: a flat map from path to loader
 and a tree of directories that have to tell the same story. A path is the
 list of its components between slashes.
 */
module Assets {
  import opened Options

  type Path = seq<string>

  datatype Loader = Loader(asset: string)

  /** The tree by path: a directory has no loader. */
  type Tree = map<Path, Option<Loader>>

  // ---- Where an insertion leads ----

  predicate Skipped(p: string) {
    p == "" || p == "."
  }

  function Steps(dirs: seq<string>): Path {
    if dirs == [] then []
    else Steps(dirs[..|dirs| - 1]) + if Skipped(dirs[|dirs| - 1]) then [] else [dirs[|dirs| - 1]]
  }

  function Walk(path: Path): Path
    requires |path| > 0
  {
    Steps(path[..|path| - 1]) + [path[|path| - 1]]
  }

  predicate Clean(path: Path) {
    |path| > 0 && forall i :: 0 <= i < |path| - 1 ==> path[i] != "" && path[i] != "."
  }

  /** Exactly the empty components and the dots are left out on the way. */
  lemma {:induction false} StepsExactly(dirs: seq<string>, c: string)
    ensures c in Steps(dirs) <==> c in dirs && c != "" && c != "."
    decreases |dirs|
  {
    if dirs != [] {
      var front, last := dirs[..|dirs| - 1], dirs[|dirs| - 1];
      StepsExactly(front, c);
      assert dirs == front + [last];
    }
  }

  lemma {:induction false} StepsClean(dirs: seq<string>)
    requires forall i :: 0 <= i < |dirs| ==> !Skipped(dirs[i])
    ensures Steps(dirs) == dirs
    decreases |dirs|
  {
    if dirs != [] {
      StepsClean(dirs[..|dirs| - 1]);
    }
  }

  lemma CleanWalk(path: Path)
    requires Clean(path)
    ensures Walk(path) == path
  {
    StepsClean(path[..|path| - 1]);
  }

  lemma {:induction false} StepsPrefix(dirs: seq<string>, i: nat)
    requires i <= |dirs|
    ensures Steps(dirs[..i]) <= Steps(dirs)
    decreases |dirs| - i
  {
    if i < |dirs| {
      assert dirs[..i + 1][..i] == dirs[..i];
      StepsPrefix(dirs, i + 1);
    } else {
      assert dirs[..i] == dirs;
    }
  }

  /** No file is on the way along p. */
  ghost predicate Open(v: Tree, p: Path) {
    forall i :: 0 <= i <= |p| && p[..i] in v ==> v[p[..i]].None?
  }

  ghost predicate FileAt(v: Tree, p: Path) {
    p in v && v[p].Some?
  }

  /** The tree with every directory down to p in it. */
  ghost function WithDirs(v: Tree, p: Path): Tree {
    map q | q in v.Keys + (set i | 0 <= i <= |p| :: p[..i]) :: if q in v then v[q] else None
  }

  /** Without w and everything below it. */
  ghost function Cut<T>(m: map<Path, T>, w: Path): map<Path, T> {
    map q | q in m && !(w <= q) :: m[q]
  }

  /** With x at w and nothing below it. */
  ghost function Grafted<T>(m: map<Path, T>, w: Path, x: T): map<Path, T> {
    Cut(m, w)[w := x]
  }

  /** The tree with a file put at w: its directories are made, and whatever was below w is gone. */
  ghost function WithFile(v: Tree, w: Path, a: Loader): Tree
    requires |w| > 0
  {
    Grafted(WithDirs(v, ParentOf(w)), w, Some(a))
  }

  function ParentOf(p: Path): Path
    requires p != []
  {
    p[..|p| - 1]
  }

  function LastOf(p: Path): string
    requires p != []
  {
    p[|p| - 1]
  }

  function Kid(p: Path, c: string): (k: Path)
    ensures k != [] && ParentOf(k) == p && LastOf(k) == c
  {
    p + [c]
  }

  ghost predicate Rooted(v: Tree) {
    [] in v && v[[]].None? && forall p :: p in v && p != [] ==> ParentOf(p) in v && v[ParentOf(p)].None?
  }

  lemma {:induction false} RootedPrefix(v: Tree, p: Path, i: nat)
    requires Rooted(v) && p in v && i <= |p|
    ensures p[..i] in v && (i < |p| ==> v[p[..i]].None?)
    decreases |p|
  {
    if i < |p| {
      assert ParentOf(p)[..i] == p[..i];
      RootedPrefix(v, ParentOf(p), i);
    } else {
      assert p[..i] == p;
    }
  }

  /** Directories that are all there need not be made. */
  lemma WithDirsPresent(v: Tree, p: Path)
    requires Rooted(v) && p in v
    ensures WithDirs(v, p) == v
  {
    forall i | 0 <= i <= |p|
      ensures p[..i] in v
    {
      RootedPrefix(v, p, i);
    }
  }

  lemma NothingBelow(v: Tree, w: Path, q: Path)
    requires Rooted(v) && w !in v && q in v
    ensures !(w <= q)
  {
    if |w| <= |q| && q[..|w|] == w {
      RootedPrefix(v, q, |w|);
      assert false;
    }
  }

  lemma WithDirsChild(v: Tree, p: Path, c: string)
    requires Rooted(v) && p in v && p + [c] !in v
    ensures WithDirs(v, p + [c]) == Grafted(v, Kid(p, c), None)
  {
    var now := p + [c];
    WithDirsNext(v, p, c);
    WithDirsPresent(v, p);
    assert now[..|now|] == now;
    forall i | 0 <= i < |now|
      ensures now[..i] in v
    {
      assert now[..i] == p[..i];
      RootedPrefix(v, p, i);
    }
    forall q | q in v
      ensures !(now <= q)
    {
      NothingBelow(v, now, q);
    }
  }

  lemma WithDirsNext(v: Tree, p: Path, c: string)
    ensures WithDirs(WithDirs(v, p), Kid(p, c)) == WithDirs(v, Kid(p, c))
    ensures FileAt(WithDirs(v, p), Kid(p, c)) <==> FileAt(v, Kid(p, c))
  {
    var q := Kid(p, c);
    assert forall i :: 0 <= i <= |p| ==> q[..i] == p[..i];
    assert forall i :: 0 <= i <= |q| ==> i <= |p| || q[..i] == q;
  }

  lemma OpenRoot(v: Tree)
    requires Rooted(v)
    ensures Open(v, [])
  {
  }

  lemma OpenNext(v: Tree, cur: Path, c: string, dirs: Path)
    requires Open(v, cur) && Kid(cur, c) <= dirs
    ensures Open(v, Kid(cur, c)) <==> !FileAt(v, Kid(cur, c))
    ensures !Open(v, Kid(cur, c)) ==> !Open(v, dirs)
  {
    var next := Kid(cur, c);
    assert next[..|next|] == next && dirs[..|next|] == next;
    assert forall i :: 0 <= i < |next| ==> next[..i] == cur[..i];
    assert forall i :: 0 <= i <= |next| ==> dirs[..i] == next[..i];
  }

  lemma StepsNext(dirs: seq<string>, i: nat)
    requires i < |dirs|
    ensures Steps(dirs[..i + 1]) == if Skipped(dirs[i]) then Steps(dirs[..i]) else Kid(Steps(dirs[..i]), dirs[i])
    ensures Steps(dirs[..i + 1]) <= Steps(dirs)
  {
    assert dirs[..i + 1][..i] == dirs[..i];
    StepsPrefix(dirs, i + 1);
  }

  // ---- Nodes and the paths they stand for ----

  type Nodes = map<Path, Bintree>

  type Links = map<Path, map<string, Bintree>>

  /** A node's parent is a directory and lists it under its last component. */
  ghost predicate Placed(at: Nodes, links: Links, v: Tree, p: Path)
    requires at.Keys == links.Keys == v.Keys && p in at && p != []
  {
    && ParentOf(p) in at && v[ParentOf(p)].None?
    && LastOf(p) in links[ParentOf(p)] && links[ParentOf(p)][LastOf(p)] == at[p]
  }

  ghost predicate InPlace(at: Nodes, links: Links, v: Tree) {
    && at.Keys == links.Keys == v.Keys
    && [] in at && v[[]].None?
    && (forall p :: p in at && p != [] ==> Placed(at, links, v, p))
    && (forall p, c :: p in at && c in links[p] ==> Kid(p, c) in at)
  }

  ghost predicate Once(at: Nodes) {
    forall p, q :: p in at && q in at && at[p] == at[q] ==> p == q
  }

  /** The directory at cur, its links changed, with nothing below its new entry. */
  ghost function Relinked(links: Links, cur: Path, c: string, n: Bintree): Links
    requires cur in links
  {
    Grafted(links, Kid(cur, c), map[])[cur := links[cur][c := n]]
  }

  lemma AttachPlaces(at: Nodes, links: Links, v: Tree, cur: Path, c: string, n: Bintree, f: Option<Loader>, p: Path)
    requires at.Keys == links.Keys == v.Keys && cur in at && v[cur].None?
    requires p in Grafted(at, Kid(cur, c), n) && p != [] && (p in at ==> Placed(at, links, v, p))
    ensures Placed(Grafted(at, Kid(cur, c), n), Relinked(links, cur, c, n), Grafted(v, Kid(cur, c), f), p)
  {
    var now := Kid(cur, c);
    if p == now {
      assert !(now <= cur);
    } else {
      var q := ParentOf(p);
      assert p == q + [LastOf(p)];
      assert q == cur ==> LastOf(p) != c;
    }
  }

  lemma AttachLists(at: Nodes, links: Links, v: Tree, cur: Path, c: string, n: Bintree, p: Path, d: string)
    requires InPlace(at, links, v) && cur in at && v[cur].None?
    requires p in Grafted(at, Kid(cur, c), n) && d in Relinked(links, cur, c, n)[p]
    ensures Kid(p, d) in Grafted(at, Kid(cur, c), n)
  {
    var now, k := Kid(cur, c), Kid(p, d);
    if k != now {
      assert d in links[p];
      assert !(now <= k);
    }
  }

  lemma AttachKeepsRoot(at: Nodes, links: Links, v: Tree, cur: Path, c: string, n: Bintree, f: Option<Loader>)
    requires at.Keys == links.Keys == v.Keys && [] in at && cur in at
    ensures Grafted(at, Kid(cur, c), n).Keys == Relinked(links, cur, c, n).Keys == Grafted(v, Kid(cur, c), f).Keys
    ensures [] in Grafted(at, Kid(cur, c), n) && Grafted(at, Kid(cur, c), n)[[]] == at[[]]
    ensures Grafted(v, Kid(cur, c), f)[[]] == v[[]]
    ensures Grafted(at, Kid(cur, c), n).Values <= at.Values + {n}
  {
  }

  lemma AttachKeepsOnce(at: Nodes, w: Path, n: Bintree)
    requires Once(at) && n !in at.Values
    ensures Once(Grafted(at, w, n))
  {
  }

  lemma AttachKeepsPlace(at: Nodes, links: Links, v: Tree, cur: Path, c: string, n: Bintree, f: Option<Loader>)
    requires InPlace(at, links, v) && cur in at && v[cur].None? && n !in at.Values
    ensures InPlace(Grafted(at, Kid(cur, c), n), Relinked(links, cur, c, n), Grafted(v, Kid(cur, c), f))
  {
    hide Placed, Grafted, Relinked;
    AttachKeepsRoot(at, links, v, cur, c, n, f);
    forall p | p in Grafted(at, Kid(cur, c), n) && p != []
      ensures Placed(Grafted(at, Kid(cur, c), n), Relinked(links, cur, c, n), Grafted(v, Kid(cur, c), f), p)
    {
      assert p in at ==> Placed(at, links, v, p);
      AttachPlaces(at, links, v, cur, c, n, f, p);
    }
    forall p, d | p in Grafted(at, Kid(cur, c), n) && d in Relinked(links, cur, c, n)[p]
      ensures Kid(p, d) in Grafted(at, Kid(cur, c), n)
    {
      AttachLists(at, links, v, cur, c, n, p, d);
    }
  }

  lemma InPlaceRooted(at: Nodes, links: Links, v: Tree)
    requires InPlace(at, links, v)
    ensures Rooted(v)
  {
    assert forall p :: p in v && p != [] ==> Placed(at, links, v, p);
  }

  /** After an attachment every other path keeps its node, and only the directory's links have changed. */
  lemma AttachMoves(at: Nodes, links: Links, v: Tree, cur: Path, c: string, n: Bintree, f: Option<Loader>, p: Path)
    requires at.Keys == links.Keys == v.Keys && Once(at) && cur in at && n !in at.Values
    requires p in Grafted(at, Kid(cur, c), n)
    ensures var m := Grafted(at, Kid(cur, c), n)[p];
            p in Relinked(links, cur, c, n) && p in Grafted(v, Kid(cur, c), f)
            && if m == n then Relinked(links, cur, c, n)[p] == map[] && Grafted(v, Kid(cur, c), f)[p] == f
               else p in at && m == at[p] && Grafted(v, Kid(cur, c), f)[p] == v[p]
                    && Relinked(links, cur, c, n)[p] == if m == at[cur] then links[cur][c := n] else links[p]
  {
  }

  lemma AttachAll(at: Nodes, links: Links, v: Tree, cur: Path, c: string, n: Bintree, f: Option<Loader>)
    requires at.Keys == links.Keys == v.Keys && InPlace(at, links, v) && Once(at)
    requires [] in at && cur in at && v[cur].None? && n !in at.Values
    ensures var at', links', v' := Grafted(at, Kid(cur, c), n), Relinked(links, cur, c, n), Grafted(v, Kid(cur, c), f);
            && at'.Keys == links'.Keys == v'.Keys && InPlace(at', links', v') && Once(at')
            && [] in at' && at'[[]] == at[[]] && at'.Values <= at.Values + {n}
  {
    hide InPlace, Once, Grafted, Relinked;
    AttachKeepsPlace(at, links, v, cur, c, n, f);
    AttachKeepsOnce(at, Kid(cur, c), n);
    AttachKeepsRoot(at, links, v, cur, c, n, f);
  }

  lemma ListedExactly(at: Nodes, links: Links, v: Tree, p: Path, c: string)
    requires InPlace(at, links, v) && p in at
    ensures c in links[p] <==> Kid(p, c) in at
    ensures c in links[p] ==> at[Kid(p, c)] == links[p][c]
  {
    if Kid(p, c) in at {
      assert Placed(at, links, v, Kid(p, c));
    }
  }

  // ---- The tree and the map in place ----

  class Bintree {
    var func: Option<Loader>
    var children: map<string, Bintree>

    constructor (f: Option<Loader>)
      ensures func == f && children == map[]
    {
      func, children := f, map[];
    }
  }

  class Assets {
    var bindata: map<Path, Loader>
    const bintree: Bintree
    ghost var at: Nodes
    ghost var links: Links
    ghost var tree: Tree

    constructor ()
      ensures Shape() && fresh(at.Values)
      ensures bindata == map[] && tree == map[[] := None]
    {
      bindata := map[];
      var root := new Bintree(None);
      bintree := root;
      at, links, tree := map[[] := root], map[[] := map[]], map[[] := None];
    }

    /** Every node stands for one path, and the tree of pointers is the tree of paths. */
    ghost predicate Shape()
      reads this`at, this`links, this`tree, at.Values
    {
      && at.Keys == links.Keys == tree.Keys && InPlace(at, links, tree) && Once(at)
      && [] in at && at[[]] == bintree
      && forall p :: p in at ==> at[p].func == tree[p] && at[p].children == links[p]
    }

    /** Walking down from the root leads to the node that the path stands for, or nowhere. */
    ghost function Reach(p: Path): (n: Option<Bintree>)
      requires Shape()
      reads this`at, this`links, this`tree, at.Values
      ensures n == if p in at then Some(at[p]) else None
      decreases |p|
    {
      if p == [] then Some(bintree)
      else
        var dir := Reach(ParentOf(p));
        assert Kid(ParentOf(p), LastOf(p)) == p;
        if dir.Some? && LastOf(p) in dir.value.children then Some(dir.value.children[LastOf(p)]) else None
    }

    lemma RootInPlace()
      requires Shape()
      ensures [] in at && at[[]] == bintree && bintree.func.None? && Rooted(tree)
    {
      InPlaceRooted(at, links, tree);
    }

    /** Makes an entry of a directory, in place of whatever had its name. */
    method Attach(dir: Bintree, name: string, f: Option<Loader>, ghost cur: Path) returns (entry: Bintree)
      requires Shape() && cur in at && at[cur] == dir && dir.func.None?
      modifies this`at, this`links, this`tree, dir`children
      ensures Shape() && fresh(entry) && entry.func == f && entry.children == map[]
      ensures at == Grafted(old(at), Kid(cur, name), entry) && fresh(at.Values - old(at.Values))
      ensures tree == Grafted(old(tree), Kid(cur, name), f)
    {
      hide InPlace, Grafted, Relinked, Once, Kid;
      entry := new Bintree(f);
      AttachAll(at, links, tree, cur, name, entry, f);
      ghost var was, listed, v := at, links, tree;
      dir.children := dir.children[name := entry];
      ghost var now := Kid(cur, name);
      at, links, tree := Grafted(at, now, entry), Relinked(links, cur, name, entry), Grafted(tree, now, f);
      forall p | p in at
        ensures at[p].func == tree[p] && at[p].children == links[p]
      {
        AttachMoves(was, listed, v, cur, name, entry, f, p);
      }
    }

    /** The entry for one more component, made if there is none. */
    method Enter(dir: Bintree, p: string, ghost cur: Path) returns (entry: Bintree)
      requires Shape() && cur in at && at[cur] == dir && dir.func.None?
      modifies this`at, this`links, this`tree, dir`children
      ensures Shape() && Kid(cur, p) in at && at[Kid(cur, p)] == entry && fresh(at.Values - old(at.Values))
      ensures tree == WithDirs(old(tree), Kid(cur, p))
      ensures p in old(dir.children) ==> at == old(at) && tree == old(tree) && links == old(links)
      ensures p !in old(dir.children) ==> entry.func.None? && entry.children == map[]
      ensures entry.func.Some? <==> FileAt(old(tree), Kid(cur, p))
    {
      hide InPlace, WithDirs, Rooted;
      InPlaceRooted(at, links, tree);
      ListedExactly(at, links, tree, cur, p);
      if p in dir.children {
        WithDirsPresent(tree, Kid(cur, p));
        entry := dir.children[p];
      } else {
        WithDirsChild(tree, cur, p);
        entry := Attach(dir, p, None, cur);
      }
    }

    /** Walks down the directories, making those that are missing; where a file is in the way nothing is changed. */
    method WalkDirs(dirs: seq<string>) returns (dir: Bintree, ok: bool)
      requires Shape()
      modifies this`at, this`links, this`tree, at.Values
      ensures Shape() && fresh(at.Values - old(at.Values))
      ensures ok <==> Open(old(tree), Steps(dirs))
      ensures ok ==> Steps(dirs) in at && at[Steps(dirs)] == dir && dir.func.None?
      ensures ok ==> tree == WithDirs(old(tree), Steps(dirs))
      ensures !ok ==> at == old(at) && tree == old(tree) && links == old(links)
    {
      hide Assets.Shape, WithDirs, Rooted, Open, Kid, FileAt;
      RootInPlace();
      dir := bintree;
      ghost var cur: Path := [];
      ghost var v := tree;
      ghost var made := false;
      WithDirsPresent(v, []);
      OpenRoot(v);
      for i := 0 to |dirs|
        invariant Shape() && fresh(at.Values - old(at.Values))
        invariant cur == Steps(dirs[..i]) && cur in at && at[cur] == dir && dir.func.None?
        invariant tree == WithDirs(v, cur) && Open(v, cur)
        invariant made ==> dir.children == map[]
        invariant !made ==> at == old(at) && tree == v && links == old(links)
      {
        var p := dirs[i];
        StepsNext(dirs, i);
        if Skipped(p) {
          continue;
        }
        WithDirsNext(v, cur, p);
        OpenNext(v, cur, p, Steps(dirs));
        made := made || p !in dir.children;
        var entry := Enter(dir, p, cur);
        if entry.func.Some? {
          return dir, false;
        }
        dir, cur := entry, Kid(cur, p);
      }
      assert dirs[..|dirs|] == dirs;
      return dir, true;
    }

    /** Adds a file, unless its path is taken or a file is on the way; then nothing is changed. */
    method Insert(path: Path, a: Loader) returns (ok: bool)
      requires Shape() && |path| > 0
      modifies this`bindata, this`at, this`links, this`tree, at.Values
      ensures Shape() && fresh(at.Values - old(at.Values))
      ensures ok <==> Accepted(State(old(bindata), old(tree)), path)
      ensures State(bindata, tree) == Take(State(old(bindata), old(tree)), Request(path, a))
      ensures !ok ==> bindata == old(bindata) && at == old(at) && tree == old(tree) && links == old(links)
    {
      hide Assets.Shape, WithDirs, Grafted, Open;
      if path in bindata {
        return false;
      }
      var dirs, fname := path[..|path| - 1], path[|path| - 1];
      assert Walk(path) == Kid(Steps(dirs), fname);
      var dir: Bintree;
      dir, ok := WalkDirs(dirs);
      if ok {
        var file := Attach(dir, fname, Some(a), Steps(dirs));
        bindata := bindata[path := a];
      }
    }
  }

  // ---- The map and the tree agree ----

  datatype State = State(bindata: map<Path, Loader>, tree: Tree)

  datatype Request = Request(path: Path, loader: Loader)

  ghost predicate Accepted(s: State, path: Path)
    requires |path| > 0
  {
    path !in s.bindata && Open(s.tree, ParentOf(Walk(path)))
  }

  /** What an insertion makes of the map and the tree. */
  ghost function Take(s: State, r: Request): State
    requires |r.path| > 0
  {
    if Accepted(s, r.path) then State(s.bindata[r.path := r.loader], WithFile(s.tree, Walk(r.path), r.loader)) else s
  }

  ghost function After(s: State, rs: seq<Request>): State
    requires forall k :: 0 <= k < |rs| ==> Clean(rs[k].path)
  {
    if rs == [] then s
    else
      var last := rs[|rs| - 1];
      assert Clean(last.path);
      Take(After(s, rs[..|rs| - 1]), last)
  }

  /** A path is in the map exactly when it leads to a file of the tree, with the same loader. */
  ghost predicate Agree(s: State) {
    && (forall p :: p in s.bindata ==> p in s.tree && s.tree[p] == Some(s.bindata[p]))
    && (forall p :: FileAt(s.tree, p) ==> p in s.bindata)
  }

  /** Every directory but the root has a file somewhere below it. */
  ghost predicate NoneEmpty(v: Tree) {
    forall p :: p in v && v[p].None? && p != [] ==> exists q :: Under(p, q) && FileAt(v, q)
  }

  ghost predicate Under(p: Path, q: Path) {
    p < q
  }

  ghost predicate Sound(s: State) {
    Rooted(s.tree) && Agree(s) && NoneEmpty(s.tree)
  }

  ghost predicate DirectoryAt(v: Tree, p: Path) {
    p in v && v[p].None?
  }

  lemma WithFileExactly(v: Tree, w: Path, a: Loader, q: Path)
    requires |w| > 0
    ensures FileAt(WithFile(v, w, a), q) <==> q == w || (FileAt(v, q) && !(w <= q))
    ensures q in v && !(w <= q) ==> q in WithFile(v, w, a) && WithFile(v, w, a)[q] == v[q]
    ensures DirectoryAt(WithFile(v, w, a), q) ==> q < w || (DirectoryAt(v, q) && !(w <= q))
    ensures q < w && (q in v ==> v[q].None?) ==> DirectoryAt(WithFile(v, w, a), q)
  {
    if q < w {
      assert ParentOf(w)[..|q|] == q;
    }
  }

  lemma WithFileRooted(v: Tree, w: Path, a: Loader)
    requires Rooted(v) && |w| > 0 && Open(v, ParentOf(w))
    ensures Rooted(WithFile(v, w, a))
  {
    var v' := WithFile(v, w, a);
    WithFileExactly(v, w, a, []);
    forall p | p in v' && p != []
      ensures ParentOf(p) in v' && v'[ParentOf(p)].None?
    {
      WithFileExactly(v, w, a, p);
      WithFileExactly(v, w, a, ParentOf(p));
      assert ParentOf(p) < p;
      if p <= w {
        assert ParentOf(w)[..|ParentOf(p)|] == ParentOf(p);
      } else {
        assert p in v;
      }
    }
  }

  /** An accepted insertion keeps map and tree in agreement exactly when no file of the map lies below its path. */
  lemma AgreementKept(s: State, r: Request)
    requires Agree(s) && Clean(r.path) && Accepted(s, r.path)
    ensures Agree(Take(s, r)) <==> forall q :: q in s.bindata ==> !Under(r.path, q)
  {
    var w, s' := r.path, Take(s, r);
    CleanWalk(w);
    forall q
      ensures FileAt(s'.tree, q) <==> q == w || (FileAt(s.tree, q) && !(w <= q))
      ensures FileAt(s.tree, q) && !(w <= q) ==> q in s'.tree && s'.tree[q] == s.tree[q]
    {
      WithFileExactly(s.tree, w, r.loader, q);
    }
    if q :| q in s.bindata && Under(w, q) {
      assert q in s'.bindata && !FileAt(s'.tree, q);
    }
  }

  /** In a sound state: exactly when the path is not a directory of the tree, and then the state stays sound. */
  lemma StepSound(s: State, r: Request)
    requires Sound(s) && Clean(r.path)
    ensures Agree(Take(s, r)) <==> !DirectoryAt(s.tree, r.path)
    ensures !DirectoryAt(s.tree, r.path) ==> Sound(Take(s, r))
  {
    var w := r.path;
    CleanWalk(w);
    if Accepted(s, w) {
      AgreementKept(s, r);
      if DirectoryAt(s.tree, w) {
        var q :| Under(w, q) && FileAt(s.tree, q);
        assert q in s.bindata;
      } else {
        forall q | q in s.tree
          ensures !(w <= q)
        {
          assert w !in s.tree;
          NothingBelow(s.tree, w, q);
        }
        WithFileRooted(s.tree, w, r.loader);
        StepNoneEmpty(s.tree, w, r.loader);
      }
    } else if DirectoryAt(s.tree, w) {
      DirectoryOpen(s.tree, w);
    }
  }

  /** Inserting a/b and then a leaves a/b in the map, and nothing of it in the tree. */
  lemma DirectoryOverwritten()
    ensures var s := Take(Take(State(map[], map[[] := None]), Request(["a", "b"], Loader("b"))), Request(["a"], Loader("a")));
            ["a", "b"] in s.bindata && ["a", "b"] !in s.tree && !Agree(s)
  {
    var s := State(map[], map[[] := None]);
    var r, q := Request(["a", "b"], Loader("b")), Request(["a"], Loader("a"));
    CleanWalk(r.path);
    CleanWalk(q.path);
    assert Sound(s) && Accepted(s, r.path) by {
      assert forall i :: 0 <= i <= 1 && ["a"][..i] in s.tree ==> ["a"][..i] == [];
    }
    StepSound(s, r);
    var t := Take(s, r);
    WithFileExactly(s.tree, r.path, r.loader, ["a"]);
    assert DirectoryAt(t.tree, ["a"]) && r.path in t.bindata;
    StepSound(t, q);
    DirectoryOpen(t.tree, q.path);
    assert Accepted(t, q.path);
    assert q.path <= r.path;
  }

  lemma DirectoryOpen(v: Tree, w: Path)
    requires Rooted(v) && |w| > 0 && w in v
    ensures Open(v, ParentOf(w))
  {
    forall i | 0 <= i <= |ParentOf(w)|
      ensures ParentOf(w)[..i] in v && v[ParentOf(w)[..i]].None?
    {
      assert ParentOf(w)[..i] == w[..i];
      RootedPrefix(v, w, i);
    }
  }

  lemma StepNoneEmpty(v: Tree, w: Path, a: Loader)
    requires NoneEmpty(v) && |w| > 0 && forall q :: q in v ==> !(w <= q)
    ensures NoneEmpty(WithFile(v, w, a))
  {
    var v' := WithFile(v, w, a);
    forall p | p in v' && v'[p].None? && p != []
      ensures exists q :: Under(p, q) && FileAt(v', q)
    {
      WithFileExactly(v, w, a, p);
      WithFileExactly(v, w, a, w);
      if p < w {
        assert Under(p, w) && FileAt(v', w);
      } else {
        var q :| Under(p, q) && FileAt(v, q);
        WithFileExactly(v, w, a, q);
        assert Under(p, q) && FileAt(v', q);
      }
    }
  }

  /** So the two agree over every run that never inserts a file where a directory is. */
  lemma {:induction false} RunAgrees(s: State, rs: seq<Request>)
    requires Sound(s) && forall k :: 0 <= k < |rs| ==> Clean(rs[k].path)
    requires forall k :: 0 <= k < |rs| ==> !DirectoryAt(After(s, rs[..k]).tree, rs[k].path)
    ensures Sound(After(s, rs))
    decreases |rs|
  {
    if rs != [] {
      var n := |rs| - 1;
      assert forall k :: 0 <= k < n ==> rs[..n][..k] == rs[..k];
      RunAgrees(s, rs[..n]);
      StepSound(After(s, rs[..n]), rs[n]);
    }
  }

  /** A file once in the map is never replaced. */
  lemma {:induction false} FirstInsertStays(s: State, rs: seq<Request>, k: nat, p: Path)
    requires k <= |rs| && (forall i :: 0 <= i < |rs| ==> Clean(rs[i].path)) && p in After(s, rs[..k]).bindata
    ensures p in After(s, rs).bindata && After(s, rs).bindata[p] == After(s, rs[..k]).bindata[p]
    decreases |rs|
  {
    if k < |rs| {
      assert rs[..|rs| - 1][..k] == rs[..k];
      FirstInsertStays(s, rs[..|rs| - 1], k, p);
    } else {
      assert rs[..k] == rs;
    }
  }
}
