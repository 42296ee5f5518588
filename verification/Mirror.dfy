/**
 The Rego data document shared by two goroutines. The test goroutine stores
 results while whoever holds the watcher lock mirrors cluster objects. Each
 storeItem is up to three transactions and the two sides interleave freely
 between transactions.
 */
module Mirror {
  import opened Options
  import opened Store
  import opened RegoDriver

  datatype Op = Save(path: Path, value: Value) | Erase(path: Path)

  function UpdateOf(op: Op): Update {
    if op.Save? then Put(op.value) else Drop
  }

  /** The operation run alone, with nobody else in the store. */
  function Perform(t: Value, op: Op): Value
    requires |op.path| > 0
  {
    Alter(t, op.path, UpdateOf(op))
  }

  predicate AllProper(ops: seq<Op>) {
    forall i :: 0 <= i < |ops| ==> |ops[i].path| > 0
  }

  /** The operations run one at a time. */
  function Serial(t: Value, ops: seq<Op>): Value
    requires AllProper(ops)
    decreases |ops|
  {
    if |ops| == 0 then t
    else Perform(Serial(t, ops[..|ops| - 1]), ops[|ops| - 1])
  }

  /** The abstract map: what the last operation on the path left there. */
  function Content(ops: seq<Op>, p: Path, base: Option<Value>): Option<Value>
    decreases |ops|
  {
    if |ops| == 0 then base
    else
      var last := ops[|ops| - 1];
      if last.path != p then Content(ops[..|ops| - 1], p, base)
      else if last.Save? then Some(last.value)
      else None
  }

  ghost predicate PrefixFree(paths: set<Path>) {
    && (forall p :: p in paths ==> |p| > 0)
    && (forall p, q :: p in paths && q in paths ==> p == q || Apart(p, q))
  }

  ghost predicate Within(ops: seq<Op>, paths: set<Path>) {
    forall i :: 0 <= i < |ops| ==> ops[i].path in paths
  }

  /** Each delete names an object that is stored at that point. */
  ghost predicate ErasesStored(ops: seq<Op>, t: Value) {
    forall i :: 0 <= i < |ops| && ops[i].Erase? ==>
                  Content(ops[..i], ops[i].path, Read(t, ops[i].path)).Some?
  }

  ghost predicate Open(t: Value, paths: set<Path>) {
    forall p :: p in paths ==> !Blocked(t, p)
  }

  // ---- One transaction at a time ----

  /** Which transaction of the operation comes next. */
  datatype Phase = First | Create | Retry

  datatype Outcome = Finished | Continue(phase: Phase) | Failed(error: Error)

  ghost function Transact(t: Value, op: Op, phase: Phase): (Value, Outcome) {
    match op
    case Erase(p) =>
      var (t', e) := RemovePathSpec(t, p);
      (t', if e.None? then Finished else Failed(e.value))
    case Save(p, v) =>
      match phase
      case First =>
        var (t', e) := StoreItemSpec(t, p, v);
        (t', if e.None? then Finished
             else if e.value.NotFound? then Continue(Create)
             else Failed(e.value))
      case Create =>
        var (t', e) := StorePathSpec(t, p);
        (t', if e.None? then Continue(Retry) else Failed(e.value))
      case Retry =>
        var (t', e) := StoreItemSpec(t, p, v);
        (t', if e.None? then Finished else Failed(e.value))
  }

  datatype Process = Process(done: seq<Op>, todo: seq<Op>, phase: Phase, error: Option<Error>)

  datatype Side = Test | Watcher

  datatype System = System(tree: Value, test: Process, watcher: Process, log: seq<Op>)

  function Proc(s: System, side: Side): Process {
    if side.Test? then s.test else s.watcher
  }

  ghost predicate Step(s: System, side: Side, s': System) {
    var me := Proc(s, side);
    var other := if side.Test? then Watcher else Test;
    && me.error.None? && |me.todo| > 0
    && Proc(s', other) == Proc(s, other)
    && var (t', out) := Transact(s.tree, me.todo[0], me.phase);
    && s'.tree == t'
    && match out
       case Finished =>
         && Proc(s', side) == Process(me.done + [me.todo[0]], me.todo[1..], First, None)
         && s'.log == s.log + [me.todo[0]]
       case Continue(ph) =>
         && Proc(s', side) == me.(phase := ph)
         && s'.log == s.log
       case Failed(e) =>
         && Proc(s', side) == me.(error := Some(e))
         && s'.log == s.log
  }

  ghost predicate Next(s: System, s': System) {
    Step(s, Test, s') || Step(s, Watcher, s')
  }

  /** The two programs, the paths each side owns, and the document they start from. */
  datatype Job = Job(init: Value, testOps: seq<Op>, watchOps: seq<Op>, testPaths: set<Path>, watchPaths: set<Path>)

  ghost predicate ValidJob(j: Job) {
    && PrefixFree(j.testPaths + j.watchPaths)
    && j.testPaths !! j.watchPaths
    && Within(j.testOps, j.testPaths) && Within(j.watchOps, j.watchPaths)
    && ErasesStored(j.testOps, j.init) && ErasesStored(j.watchOps, j.init)
    && Open(j.init, j.testPaths + j.watchPaths)
  }

  ghost predicate Initial(j: Job, s: System) {
    && s.tree == j.init && s.log == []
    && s.test == Process([], j.testOps, First, None)
    && s.watcher == Process([], j.watchOps, First, None)
  }

  ghost predicate IsRun(j: Job, run: seq<System>) {
    && |run| > 0
    && Initial(j, run[0])
    && forall i :: 0 <= i < |run| - 1 ==> Next(run[i], run[i + 1])
  }

  // ---- Serial runs ----

  lemma WithinProper(ops: seq<Op>, paths: set<Path>)
    requires PrefixFree(paths) && Within(ops, paths)
    ensures AllProper(ops)
  {
    forall i | 0 <= i < |ops|
      ensures |ops[i].path| > 0
    {
      assert ops[i].path in paths;
    }
  }

  /** The document restricted to the paths is the abstract map. */
  lemma {:induction false} SerialRefinesMap(t: Value, ops: seq<Op>, paths: set<Path>, p: Path)
    requires PrefixFree(paths) && Within(ops, paths) && AllProper(ops) && p in paths
    ensures Read(Serial(t, ops), p) == Content(ops, p, Read(t, p))
    decreases |ops|
  {
    if |ops| > 0 {
      var front, op := ops[..|ops| - 1], ops[|ops| - 1];
      SerialRefinesMap(t, front, paths, p);
      AlterReads(Serial(t, front), op.path, UpdateOf(op), p);
      assert op.path in paths;
      assert p[|p|..] == [];
    }
  }

  /** Whatever is stored away from the paths stays as it was. */
  lemma {:induction false} SerialFrame(t: Value, ops: seq<Op>, q: Path)
    requires AllProper(ops) && forall i :: 0 <= i < |ops| ==> Apart(ops[i].path, q)
    ensures Read(Serial(t, ops), q) == Read(t, q)
    decreases |ops|
  {
    if |ops| > 0 {
      var front, op := ops[..|ops| - 1], ops[|ops| - 1];
      SerialFrame(t, front, q);
      AlterReads(Serial(t, front), op.path, UpdateOf(op), q);
    }
  }

  /** Storing and deleting at some paths never blocks any of the paths. */
  lemma PerformKeepsOpen(t: Value, op: Op, paths: set<Path>)
    requires PrefixFree(paths) && op.path in paths && |op.path| > 0 && Open(t, paths)
    ensures Open(Perform(t, op), paths)
  {
    forall p | p in paths
      ensures !Blocked(Perform(t, op), p)
    {
      if p == op.path {
        AlterUnblocks(t, p, UpdateOf(op));
      } else {
        AlterKeepsUnblocked(t, op.path, UpdateOf(op), p);
      }
    }
  }

  lemma AlterUnblocks(t: Value, p: Path, u: Update)
    requires |p| > 0
    ensures HasParents(Alter(t, p, u), p) && !Blocked(Alter(t, p, u), p)
  {
    AlterReads(t, p, u, p[..|p| - 1]);
    ParentsUnblock(Alter(t, p, u), p);
  }

  lemma {:induction false} SerialKeepsOpen(t: Value, ops: seq<Op>, paths: set<Path>)
    requires PrefixFree(paths) && Within(ops, paths) && AllProper(ops) && Open(t, paths)
    ensures Open(Serial(t, ops), paths)
    decreases |ops|
  {
    if |ops| > 0 {
      var front, op := ops[..|ops| - 1], ops[|ops| - 1];
      SerialKeepsOpen(t, front, paths);
      assert op.path in paths;
      PerformKeepsOpen(Serial(t, front), op, paths);
    }
  }

  /** An operation can be moved before operations on incomparable paths. */
  lemma {:induction false} SlideBefore(t: Value, ops: seq<Op>, op: Op)
    requires AllProper(ops) && |op.path| > 0
    requires forall i :: 0 <= i < |ops| ==> Apart(ops[i].path, op.path)
    ensures Perform(Serial(t, ops), op) == Serial(Perform(t, op), ops)
    decreases |ops|
  {
    if |ops| > 0 {
      var front, last := ops[..|ops| - 1], ops[|ops| - 1];
      SlideBefore(t, front, op);
      AlterCommutes(Serial(t, front), last.path, UpdateOf(last), op.path, UpdateOf(op));
    }
  }

  lemma {:induction false} SerialConcat(t: Value, a: seq<Op>, b: seq<Op>)
    requires AllProper(a) && AllProper(b)
    ensures AllProper(a + b) && Serial(t, a + b) == Serial(Serial(t, a), b)
    decreases |b|
  {
    if |b| == 0 {
      assert a + b == a;
    } else {
      SerialConcat(t, a, b[..|b| - 1]);
      assert (a + b)[..|a + b| - 1] == a + b[..|b| - 1];
    }
  }

  function Restrict(ops: seq<Op>, paths: set<Path>): (r: seq<Op>)
    ensures forall i :: 0 <= i < |r| ==> r[i].path in paths && r[i] in ops
    decreases |ops|
  {
    if |ops| == 0 then []
    else
      var last := ops[|ops| - 1];
      Restrict(ops[..|ops| - 1], paths) + if last.path in paths then [last] else []
  }

  lemma {:induction false} ContentOfRestrict(ops: seq<Op>, paths: set<Path>, p: Path, base: Option<Value>)
    requires p in paths
    ensures Content(Restrict(ops, paths), p, base) == Content(ops, p, base)
    decreases |ops|
  {
    if |ops| > 0 {
      var front, last := ops[..|ops| - 1], ops[|ops| - 1];
      ContentOfRestrict(front, paths, p, base);
      if last.path in paths {
        assert Restrict(ops, paths)[..|Restrict(ops, paths)| - 1] == Restrict(front, paths);
      } else {
        assert Restrict(ops, paths) == Restrict(front, paths);
      }
    }
  }

  /** Any merge of two runs over separate paths is the first run and then the second. */
  lemma {:induction false} MergeIsSequential(t: Value, ops: seq<Op>, a: set<Path>, b: set<Path>)
    requires PrefixFree(a + b) && a !! b && Within(ops, a + b)
    ensures AllProper(ops) && AllProper(Restrict(ops, a)) && AllProper(Restrict(ops, b))
    ensures Serial(t, ops) == Serial(Serial(t, Restrict(ops, a)), Restrict(ops, b))
    decreases |ops|
  {
    WithinProper(ops, a + b);
    WithinProper(Restrict(ops, a), a + b);
    WithinProper(Restrict(ops, b), a + b);
    if |ops| > 0 {
      var front, last := ops[..|ops| - 1], ops[|ops| - 1];
      MergeIsSequential(t, front, a, b);
      var x, y := Restrict(front, a), Restrict(front, b);
      assert last.path in a + b;
      if last.path in b {
        assert Restrict(ops, a) == x && Restrict(ops, b)[..|y|] == y;
      } else {
        assert Restrict(ops, b) == y && Restrict(ops, a)[..|x|] == x;
        forall i | 0 <= i < |y|
          ensures Apart(y[i].path, last.path)
        {
          assert y[i].path in a + b && y[i].path != last.path;
        }
        SlideBefore(Serial(t, x), y, last);
      }
    }
  }

  // ---- Event handlers, one at a time ----

  /** storeResource or removeResource; the error is what must.Must would panic on. */
  ghost function Handle(t: Value, op: Op): (Value, Option<Error>) {
    match op
    case Save(p, v) => StoreWithParentsSpec(t, p, v)
    case Erase(p) => RemovePathSpec(t, p)
  }

  /** The handlers run in turn until one of them panics. */
  ghost function HandleAll(t: Value, ops: seq<Op>): Result<Value>
    decreases |ops|
  {
    if |ops| == 0 then Ok(t)
    else
      match HandleAll(t, ops[..|ops| - 1])
      case Err(e) => Err(e)
      case Ok(t') =>
        var (t'', e) := Handle(t', ops[|ops| - 1]);
        if e.None? then Ok(t'') else Err(e.value)
  }

  /** The handlers panic exactly when some delete names an object that is not stored. */
  lemma {:induction false} HandlersExact(t: Value, ops: seq<Op>, paths: set<Path>)
    requires PrefixFree(paths) && Within(ops, paths) && AllProper(ops) && Open(t, paths)
    ensures HandleAll(t, ops).Ok? <==> ErasesStored(ops, t)
    ensures ErasesStored(ops, t) ==> HandleAll(t, ops) == Ok(Serial(t, ops))
    decreases |ops|
  {
    if |ops| > 0 {
      var front, op := ops[..|ops| - 1], ops[|ops| - 1];
      HandlersExact(t, front, paths);
      ErasesStoredLast(t, ops);
      if ErasesStored(front, t) {
        SerialKeepsOpen(t, front, paths);
        assert op.path in paths;
        SerialRefinesMap(t, front, paths, op.path);
        HandleIsPerform(Serial(t, front), op);
      }
    }
  }

  lemma HandleIsPerform(t: Value, op: Op)
    requires |op.path| > 0 && !Blocked(t, op.path)
    ensures Handle(t, op).1.None? <==> op.Save? || Read(t, op.path).Some?
    ensures Handle(t, op).1.None? ==> Handle(t, op).0 == Perform(t, op)
  {
  }

  /** The transactions of one operation when nobody comes in between, from a phase to the end. */
  ghost function Alone(t: Value, op: Op, phase: Phase): (Value, Option<Error>)
    decreases match phase case First => 2 case Create => 1 case Retry => 0
  {
    match Transact(t, op, phase)
    case (t', Finished) => (t', None)
    case (t', Failed(e)) => (t', Some(e))
    case (t', Continue(next)) => Alone(t', op, next)
  }

  /** Left alone, the transactions are the handler's call: on every document the same tree and the same error. */
  lemma AloneIsHandle(t: Value, op: Op)
    ensures Alone(t, op, First) == Handle(t, op)
  {
    if op.Save? && |op.path| > 0 {
      if HasParents(t, op.path) {
        ParentsUnblock(t, op.path);
      } else if !Blocked(t, op.path) {
        TouchMakesParents(t, op.path);
        TouchAbsorbed(t, op.path, op.path, Put(op.value));
      }
    }
  }

  lemma ErasesStoredLast(t: Value, ops: seq<Op>)
    requires |ops| > 0
    ensures var front, op := ops[..|ops| - 1], ops[|ops| - 1];
            ErasesStored(ops, t) <==>
            ErasesStored(front, t) && (op.Erase? ==> Content(front, op.path, Read(t, op.path)).Some?)
  {
    hide Content;
    var n := |ops| - 1;
    var front := ops[..n];
    assert forall i :: 0 <= i < n ==> front[..i] == ops[..i] && front[i] == ops[i];
  }

  // ---- The interleaving ----

  function Touched(t: Value, p: Option<Path>): Value
    requires p.Some? ==> |p.value| > 0
  {
    if p.None? then t else Alter(t, p.value, Touch)
  }

  /** A path that has been created but not stored to yet. */
  function Pending(me: Process): Option<Path> {
    if |me.todo| > 0 && me.phase.Retry? && me.todo[0].Save? then Some(me.todo[0].path) else None
  }

  /** A transaction never fails, and it either finishes the operation or leaves at most a placeholder. */
  lemma TransactionSound(serial: Value, tree: Value, op: Op, phase: Phase, other: Option<Path>)
    requires |op.path| > 0 && !Blocked(serial, op.path)
    requires op.Erase? ==> phase.First? && Read(serial, op.path).Some?
    requires other.Some? ==> |other.value| > 0 && Apart(other.value, op.path)
    requires tree == Touched(Touched(serial, if phase.Retry? then Some(op.path) else None), other)
    ensures var (t', out) := Transact(tree, op, phase);
            && !out.Failed?
            && (out.Finished? ==> t' == Touched(Perform(serial, op), other))
            && (out.Continue? ==>
                  && op.Save? && out.phase != First
                  && t' == Touched(Touched(serial, if out.phase.Retry? then Some(op.path) else None), other))
            && (t' == tree || t' == Alter(tree, op.path, UpdateOf(op)) || t' == Alter(tree, op.path, Touch))
  {
    var p := op.path;
    var base := Touched(serial, if phase.Retry? then Some(p) else None);
    if phase.Retry? {
      AlterUnblocks(serial, p, Touch);
      TouchAbsorbed(serial, p, p, UpdateOf(op));
    }
    assert Alter(base, p, UpdateOf(op)) == Perform(serial, op);
    if other.Some? {
      var q := other.value;
      AlterKeepsUnblocked(base, q, Touch, p);
      AlterCommutes(base, q, Touch, p, UpdateOf(op));
      AlterCommutes(base, q, Touch, p, Touch);
      AlterReads(base, q, Touch, p);
      if phase.Retry? {
        AlterKeepsParents(base, q, Touch, p);
      }
    }
    assert !Blocked(tree, p);
    assert Alter(tree, p, UpdateOf(op)) == Touched(Perform(serial, op), other);
    match op {
      case Erase(_) =>
      case Save(_, v) =>
        assert phase.Retry? ==> HasParents(tree, p);
        assert !phase.Retry? ==> Alter(tree, p, Touch) == Touched(Alter(serial, p, Touch), other);
    }
  }

  ghost predicate SideOk(j: Job, s: System, me: Process, ops: seq<Op>, paths: set<Path>) {
    && me.error.None?
    && me.done + me.todo == ops
    && Restrict(s.log, paths) == me.done
    && (me.phase != First ==> |me.todo| > 0 && me.todo[0].Save?)
  }

  ghost predicate Inv(j: Job, s: System) {
    && SideOk(j, s, s.test, j.testOps, j.testPaths)
    && SideOk(j, s, s.watcher, j.watchOps, j.watchPaths)
    && Within(s.log, j.testPaths + j.watchPaths)
    && AllProper(s.log)
    && (Pending(s.test).Some? ==> Pending(s.test).value in j.testPaths && |Pending(s.test).value| > 0)
    && (Pending(s.watcher).Some? ==> Pending(s.watcher).value in j.watchPaths && |Pending(s.watcher).value| > 0)
    && s.tree == Touched(Touched(Serial(j.init, s.log), Pending(s.test)), Pending(s.watcher))
  }

  lemma TouchesSwap(t: Value, p: Option<Path>, q: Option<Path>)
    requires p.Some? ==> |p.value| > 0
    requires q.Some? ==> |q.value| > 0
    requires p.Some? && q.Some? ==> Apart(p.value, q.value)
    ensures Touched(Touched(t, p), q) == Touched(Touched(t, q), p)
  {
    if p.Some? && q.Some? {
      AlterCommutes(t, p.value, Touch, q.value, Touch);
    }
  }

  /** The object an Erase names is present when its turn comes. */
  lemma EraseFinds(j: Job, s: System, me: Process, ops: seq<Op>, paths: set<Path>)
    requires ValidJob(j) && Within(s.log, j.testPaths + j.watchPaths) && AllProper(s.log)
    requires SideOk(j, s, me, ops, paths) && Within(ops, paths) && paths <= j.testPaths + j.watchPaths
    requires ErasesStored(ops, j.init) && |me.todo| > 0 && me.todo[0].Erase?
    ensures Read(Serial(j.init, s.log), me.todo[0].path).Some?
  {
    var op := me.todo[0];
    var n := |me.done|;
    assert ops[n] == op && ops[..n] == me.done;
    SerialRefinesMap(j.init, s.log, j.testPaths + j.watchPaths, op.path);
    ContentOfRestrict(s.log, paths, op.path, Read(j.init, op.path));
  }

  /** What the moving side's next transaction does to the shared document. */
  lemma MoveSound(j: Job, s: System, side: Side, s': System)
    requires ValidJob(j) && Inv(j, s) && Step(s, side, s')
    ensures var me := Proc(s, side);
            var other := Pending(Proc(s, if side.Test? then Watcher else Test));
            var op := me.todo[0];
            && var (t', out) := Transact(s.tree, op, me.phase);
            && op.path in (if side.Test? then j.testPaths else j.watchPaths) && |op.path| > 0
            && !out.Failed?
            && (out.Finished? ==> s'.tree == Touched(Perform(Serial(j.init, s.log), op), other))
            && (out.Continue? ==>
                  && op.Save? && out.phase != First
                  && s'.tree == Touched(Touched(Serial(j.init, s.log),
                                                if out.phase.Retry? then Some(op.path) else None), other))
            && (s'.tree == s.tree || s'.tree == Alter(s.tree, op.path, UpdateOf(op)) || s'.tree == Alter(s.tree, op.path, Touch))
  {
    var me := Proc(s, side);
    var other := Pending(Proc(s, if side.Test? then Watcher else Test));
    var op := me.todo[0];
    var ops := if side.Test? then j.testOps else j.watchOps;
    var paths := if side.Test? then j.testPaths else j.watchPaths;
    var all := j.testPaths + j.watchPaths;
    assert ops[|me.done|] == op;
    assert op.path in paths && op.path in all;
    assert Pending(s.test).Some? && Pending(s.watcher).Some? ==>
           Apart(Pending(s.test).value, Pending(s.watcher).value);
    TouchesSwap(Serial(j.init, s.log), Pending(s.test), Pending(s.watcher));
    SerialKeepsOpen(j.init, s.log, all);
    if op.Erase? {
      EraseFinds(j, s, me, ops, paths);
    }
    TransactionSound(Serial(j.init, s.log), s.tree, op, me.phase, other);
  }

  lemma LogStep(j: Job, log: seq<Op>, op: Op)
    requires AllProper(log) && |op.path| > 0
    ensures AllProper(log + [op]) && Serial(j.init, log + [op]) == Perform(Serial(j.init, log), op)
    ensures forall paths :: Restrict(log + [op], paths) == Restrict(log, paths) + (if op.path in paths then [op] else [])
  {
    assert (log + [op])[..|log|] == log;
  }

  /** The bookkeeping of the side that moved. */
  lemma MoverOk(j: Job, s: System, me: Process, ops: seq<Op>, paths: set<Path>, s': System, me': Process)
    requires SideOk(j, s, me, ops, paths) && |me.todo| > 0 && AllProper(s.log) && |me.todo[0].path| > 0
    requires me.todo[0].path in paths
    requires || (me' == Process(me.done + [me.todo[0]], me.todo[1..], First, None) && s'.log == s.log + [me.todo[0]])
             || (me'.phase != First && me.todo[0].Save? && me' == me.(phase := me'.phase) && s'.log == s.log)
    ensures SideOk(j, s', me', ops, paths)
    ensures Pending(me').Some? ==> me'.phase.Retry? && Pending(me').value == me.todo[0].path && s'.log == s.log
    ensures Pending(me').None? ==> me'.phase == First || me'.phase == Create
  {
    LogStep(j, s.log, me.todo[0]);
    assert me.done + me.todo == (me.done + [me.todo[0]]) + me.todo[1..];
  }

  /** The bookkeeping of the side that waited. */
  lemma WaiterOk(j: Job, s: System, me: Process, ops: seq<Op>, paths: set<Path>, s': System, op: Op)
    requires SideOk(j, s, me, ops, paths) && AllProper(s.log) && |op.path| > 0 && op.path !in paths
    requires s'.log == s.log + [op] || s'.log == s.log
    ensures SideOk(j, s', me, ops, paths)
  {
    LogStep(j, s.log, op);
    assert Restrict(s.log, paths) + [] == Restrict(s.log, paths);
  }

  lemma StepShape(j: Job, s: System, side: Side, s': System)
    requires ValidJob(j) && Inv(j, s) && Step(s, side, s')
    ensures var me, me' := Proc(s, side), Proc(s', side);
            var op := me.todo[0];
            var serial := Serial(j.init, s.log);
            var other := Pending(Proc(s, if side.Test? then Watcher else Test));
            && |op.path| > 0
            && (|| (me' == Process(me.done + [op], me.todo[1..], First, None) && s'.log == s.log + [op]
                    && s'.tree == Touched(Perform(serial, op), other))
                || (me'.phase != First && op.Save? && me' == me.(phase := me'.phase) && s'.log == s.log
                    && s'.tree == Touched(Touched(serial, if me'.phase.Retry? then Some(op.path) else None), other)))
  {
    MoveSound(j, s, side, s');
  }

  lemma StepKeepsInv(j: Job, s: System, side: Side, s': System)
    requires ValidJob(j) && Inv(j, s) && Step(s, side, s')
    ensures Inv(j, s')
  {
    var all := j.testPaths + j.watchPaths;
    var me, me' := Proc(s, side), Proc(s', side);
    var op := me.todo[0];
    var wait := Proc(s, if side.Test? then Watcher else Test);
    MoveSound(j, s, side, s');
    StepShape(j, s, side, s');
    LogStep(j, s.log, op);
    if side.Test? {
      MoverOk(j, s, me, j.testOps, j.testPaths, s', me');
      WaiterOk(j, s, wait, j.watchOps, j.watchPaths, s', op);
    } else {
      MoverOk(j, s, me, j.watchOps, j.watchPaths, s', me');
      WaiterOk(j, s, wait, j.testOps, j.testPaths, s', op);
    }
    assert Within(s'.log, all);
    assert s'.tree == Touched(Touched(Serial(j.init, s'.log), Pending(me')), Pending(wait));
    assert Pending(me').Some? && Pending(wait).Some? ==> Apart(Pending(me').value, Pending(wait).value);
    TouchesSwap(Serial(j.init, s'.log), Pending(me'), Pending(wait));
  }

  lemma {:induction false} RunKeepsInv(j: Job, run: seq<System>, n: nat)
    requires ValidJob(j) && IsRun(j, run) && n < |run|
    ensures Inv(j, run[n])
  {
    if n == 0 {
      assert j.testOps == [] + j.testOps && j.watchOps == [] + j.watchOps;
    } else {
      RunKeepsInv(j, run, n - 1);
      var s, s' := run[n - 1], run[n - 1 + 1];
      assert Next(s, s');
      if Step(s, Test, s') {
        StepKeepsInv(j, s, Test, s');
      } else {
        StepKeepsInv(j, s, Watcher, s');
      }
    }
  }

  /** Which side made the last move of a run. */
  lemma LastMove(j: Job, run: seq<System>, n: nat) returns (side: Side)
    requires ValidJob(j) && IsRun(j, run) && 0 < n < |run|
    ensures Inv(j, run[n - 1]) && Step(run[n - 1], side, run[n])
  {
    RunKeepsInv(j, run, n - 1);
    assert Next(run[n - 1], run[n - 1 + 1]);
    side := if Step(run[n - 1], Test, run[n]) then Test else Watcher;
  }

  // ---- The theorems ----

  /** No storeItem and no RemovePath ever fails, in any interleaving. */
  lemma NoOperationFails(j: Job, run: seq<System>, n: nat)
    requires ValidJob(j) && IsRun(j, run) && n < |run|
    ensures run[n].test.error.None? && run[n].watcher.error.None?
  {
    RunKeepsInv(j, run, n);
  }

  /** When both sides are done, the document is that of the two programs run one after the other. */
  lemma FinalDocumentIsSequential(j: Job, run: seq<System>)
    requires ValidJob(j) && IsRun(j, run)
    requires run[|run| - 1].test.todo == [] && run[|run| - 1].watcher.todo == []
    ensures AllProper(j.testOps + j.watchOps)
    ensures run[|run| - 1].tree == Serial(j.init, j.testOps + j.watchOps)
  {
    var s := run[|run| - 1];
    RunKeepsInv(j, run, |run| - 1);
    assert s.test.done + [] == s.test.done && s.watcher.done + [] == s.watcher.done;
    MergeIsSequential(j.init, s.log, j.testPaths, j.watchPaths);
    SerialConcat(j.init, j.testOps, j.watchOps);
  }

  /**
   At every transaction boundary a used path reads as the last finished
   operation left it, except that it is a placeholder where that is nothing and
   a side is between creating the path and storing to it.
   */
  lemma BoundaryReads(j: Job, run: seq<System>, n: nat, p: Path)
    requires ValidJob(j) && IsRun(j, run) && n < |run| && p in j.testPaths + j.watchPaths
    ensures var s := run[n];
            var content := Content(s.log, p, Read(j.init, p));
            Read(s.tree, p) == if content.None? && (Pending(s.test) == Some(p) || Pending(s.watcher) == Some(p))
                               then Some(EmptyNode) else content
  {
    RunKeepsInv(j, run, n);
    var s := run[n];
    var all := j.testPaths + j.watchPaths;
    var serial := Serial(j.init, s.log);
    SerialRefinesMap(j.init, s.log, all, p);
    TouchedReads(serial, Pending(s.test), p, all);
    TouchedReads(Touched(serial, Pending(s.test)), Pending(s.watcher), p, all);
  }

  lemma TouchedReads(t: Value, q: Option<Path>, p: Path, all: set<Path>)
    requires PrefixFree(all) && p in all && (q.Some? ==> q.value in all)
    ensures Read(Touched(t, q), p) == if q == Some(p) && Read(t, p).None? then Some(EmptyNode) else Read(t, p)
  {
    if q.Some? {
      AlterReads(t, q.value, Touch, p);
      assert p[|p|..] == [];
    }
  }

  /** A parent of a used path, once created, is never taken away or replaced by a leaf. */
  lemma {:induction false} ParentsPersist(j: Job, run: seq<System>, m: nat, n: nat, p: Path, q: Path)
    requires ValidJob(j) && IsRun(j, run) && m <= n < |run|
    requires p in j.testPaths + j.watchPaths && q < p && IsObjectAt(run[m].tree, q)
    ensures IsObjectAt(run[n].tree, q)
    decreases n - m
  {
    hide IsObjectAt, ValidJob, IsRun;
    if m < n {
      ParentsPersist(j, run, m, n - 1, p, q);
      MoveKeepsParent(j, run, n, p, q);
    }
  }

  lemma MoveKeepsParent(j: Job, run: seq<System>, n: nat, p: Path, q: Path)
    requires ValidJob(j) && IsRun(j, run) && 0 < n < |run|
    requires p in j.testPaths + j.watchPaths && q < p && IsObjectAt(run[n - 1].tree, q)
    ensures IsObjectAt(run[n].tree, q)
  {
    var s, s' := run[n - 1], run[n];
    var side := LastMove(j, run, n);
    MoveSound(j, s, side, s');
    var op := Proc(s, side).todo[0];
    UsedIsNotParent(j.testPaths + j.watchPaths, op.path, p, q);
    hide Inv, Step, Transact, Alter, IsObjectAt;
    ParentStays(s.tree, op.path, UpdateOf(op), q);
    ParentStays(s.tree, op.path, Touch, q);
  }

  lemma UsedIsNotParent(paths: set<Path>, used: Path, p: Path, q: Path)
    requires PrefixFree(paths) && used in paths && p in paths && q < p
    ensures !(used <= q)
  {
    assert used <= q ==> used <= p && used != p;
  }

  lemma ParentStays(t: Value, p: Path, u: Update, q: Path)
    requires |p| > 0 && !(p <= q) && IsObjectAt(t, q)
    ensures IsObjectAt(Alter(t, p, u), q)
  {
    AlterReads(t, p, u, q);
  }

  /** Nothing stored away from the used paths is disturbed by any interleaving. */
  lemma {:induction false} InterleavingFrame(j: Job, run: seq<System>, n: nat, q: Path)
    requires ValidJob(j) && IsRun(j, run) && n < |run|
    requires forall p :: p in j.testPaths + j.watchPaths ==> Apart(p, q)
    ensures Read(run[n].tree, q) == Read(j.init, q)
  {
    hide Inv, Transact, Serial, Perform, Alter, Read, ErasesStored;
    if n > 0 {
      InterleavingFrame(j, run, n - 1, q);
      var s, s' := run[n - 1], run[n];
      var side := LastMove(j, run, n);
      MoveSound(j, s, side, s');
      var op := Proc(s, side).todo[0];
      assert op.path in j.testPaths + j.watchPaths;
      AlterReads(s.tree, op.path, UpdateOf(op), q);
      AlterReads(s.tree, op.path, Touch, q);
    }
  }

  // ---- Progress ----

  function Effort(me: Process): nat {
    3 * |me.todo| - if |me.todo| == 0 || me.phase.First? then 0 else if me.phase.Create? then 1 else 2
  }

  /** No interleaving gets stuck: a side with work left can always run its next transaction. */
  lemma NeverStuck(j: Job, run: seq<System>, n: nat, side: Side)
    requires ValidJob(j) && IsRun(j, run) && n < |run| && |Proc(run[n], side).todo| > 0
    ensures exists s' :: Step(run[n], side, s')
  {
    RunKeepsInv(j, run, n);
    var s := run[n];
    var me := Proc(s, side);
    var op := me.todo[0];
    var (t', out) := Transact(s.tree, op, me.phase);
    var me' := match out
      case Finished => Process(me.done + [op], me.todo[1..], First, None)
      case Continue(ph) => me.(phase := ph)
      case Failed(e) => me.(error := Some(e));
    var log := if out.Finished? then s.log + [op] else s.log;
    var s' := if side.Test? then System(t', me', s.watcher, log) else System(t', s.test, me', log);
    assert Step(s, side, s');
  }

  /** Each operation takes at most three transactions, however the sides interleave. */
  lemma {:induction false} AtMostThreeTransactions(j: Job, run: seq<System>, n: nat)
    requires ValidJob(j) && IsRun(j, run) && n < |run|
    ensures n + Effort(run[n].test) + Effort(run[n].watcher) <= 3 * (|j.testOps| + |j.watchOps|)
  {
    if n > 0 {
      AtMostThreeTransactions(j, run, n - 1);
      EffortOfRunDrops(j, run, n);
    }
  }

  lemma EffortOfRunDrops(j: Job, run: seq<System>, n: nat)
    requires ValidJob(j) && IsRun(j, run) && 0 < n < |run|
    ensures Effort(run[n].test) + Effort(run[n].watcher) < Effort(run[n - 1].test) + Effort(run[n - 1].watcher)
  {
    var side := LastMove(j, run, n);
    EffortDrops(j, run[n - 1], side, run[n]);
  }

  lemma EffortDrops(j: Job, s: System, side: Side, s': System)
    requires ValidJob(j) && Inv(j, s) && Step(s, side, s')
    ensures Effort(s'.test) + Effort(s'.watcher) < Effort(s.test) + Effort(s.watcher)
  {
    MoveSound(j, s, side, s');
    var me, me' := Proc(s, side), Proc(s', side);
    assert me'.todo == me.todo[1..] || me'.todo == me.todo;
  }
}
