/**
 Running a test document: the steps, the guard in front of each, and the
 effects they have. Every effect may succeed or fail in any way.
 */
module Runner {
  import opened Options
  import opened Recorder
  import opened RecorderObjects
  import Check
  import opened Environment
  import opened Filters

  datatype Act =
    | Recorded(e: Event)
    | Watch | StoreVersions | StoreRunId
    | Compile | Hydrate | Select(o: Hydrated)
    | CheckNamespace(namespace: string) | ApplyNamespace(namespace: string)
    | Apply(o: Hydrated) | Delete(o: Hydrated) | StoreLast(content: string)
    | Eval(check: CheckModule, input: Option<OperationResult>)
    | DeleteAll | CancelWatch | Done

  /** The acts that touch the cluster or evaluate checks on behalf of the document. */
  predicate IsEffect(a: Act) {
    || a.Compile? || a.Hydrate? || a.Select? || a.CheckNamespace? || a.ApplyNamespace?
    || a.Apply? || a.Delete? || a.StoreLast? || a.Eval?
  }

  function EventsOf(trace: seq<Act>): seq<Event> {
    if trace == [] then []
    else EventsOf(trace[..|trace| - 1]) + if trace[|trace| - 1].Recorded? then [trace[|trace| - 1].e] else []
  }

  lemma {:induction false} EventsOfPlus(a: seq<Act>, b: seq<Act>)
    ensures EventsOf(a + b) == EventsOf(a) + EventsOf(b)
    decreases |b|
  {
    if b == [] {
      assert a + b == a;
    } else {
      EventsOfPlus(a, b[..|b| - 1]);
      assert (a + b)[..|a + b| - 1] == a + b[..|b| - 1];
    }
  }

  /** The run may go on at this point of the trace. */
  ghost predicate MayGoOn(base: seq<Event>, trace: seq<Act>) {
    Bracketed(base + EventsOf(trace)) && Continues(After(base + EventsOf(trace)))
  }

  /** Every effect happens at a point where the run may go on. */
  ghost predicate Guarded(base: seq<Event>, trace: seq<Act>) {
    forall i :: 0 <= i < |trace| && IsEffect(trace[i]) ==> MayGoOn(base, trace[..i])
  }

  /** An act outside the recorder does not decide whether the run may go on. */
  lemma ActsNext(base: seq<Event>, trace: seq<Act>, a: Act)
    requires !a.Recorded?
    ensures EventsOf(trace + [a]) == EventsOf(trace) && (MayGoOn(base, trace + [a]) <==> MayGoOn(base, trace))
  {
    assert (trace + [a])[..|trace|] == trace;
  }

  /** How many times the adopted objects have been cleaned up. */
  function Cleanups(trace: seq<Act>): nat {
    if trace == [] then 0 else Cleanups(trace[..|trace| - 1]) + if trace[|trace| - 1].DeleteAll? then 1 else 0
  }

  /** Later in the run, with no cleanup in between. */
  predicate GrownFrom(before: seq<Act>, after: seq<Act>) {
    before <= after && Cleanups(after) == Cleanups(before)
  }

  lemma GrownRefl(trace: seq<Act>)
    ensures GrownFrom(trace, trace)
  {
  }

  lemma GrownByOne(before: seq<Act>, trace: seq<Act>, a: Act)
    requires GrownFrom(before, trace)
    ensures !a.DeleteAll? ==> GrownFrom(before, trace + [a])
    ensures a.DeleteAll? ==> before <= trace + [a] && Cleanups(trace + [a]) == Cleanups(before) + 1
  {
    assert (trace + [a])[..|trace|] == trace;
  }

  /** The run stays inside the document it was given. */
  predicate OneDocument(trace: seq<Act>) {
    forall k :: 0 <= k < |trace| && trace[k].Recorded? ==> !trace[k].e.OpenDoc? && !trace[k].e.CloseDoc?
  }

  predicate StopsAt(a: Act) {
    a.Recorded? && a.e.Report? && !NoneTerminal(a.e.results)
  }

  /** Once a terminal result is recorded, no further effect follows. */
  ghost predicate QuietAfterTerminal(trace: seq<Act>) {
    forall i, j :: 0 <= i < j < |trace| && StopsAt(trace[i]) ==> !IsEffect(trace[j])
  }

  lemma GuardedNext(base: seq<Event>, trace: seq<Act>, a: Act)
    requires Guarded(base, trace) && (IsEffect(a) ==> MayGoOn(base, trace))
    ensures Guarded(base, trace + [a])
  {
    forall i | 0 <= i < |trace + [a]| && IsEffect((trace + [a])[i])
      ensures MayGoOn(base, (trace + [a])[..i])
    {
      if i < |trace| {
        assert (trace + [a])[..i] == trace[..i];
      } else {
        assert (trace + [a])[..i] == trace;
      }
    }
  }

  // ---- What the run works with ----

  datatype Compiler = Compiler(id: int)

  datatype OperationResult = OperationResult(error: bool, latest: Option<string>)

  /** The module to evaluate: the object's own, the default one for its operation, or a part of the document. */
  datatype CheckModule = OwnCheck(text: string) | DefaultCheck(operation: string) | DocumentCheck(text: string)

  datatype Part = ObjectPart(world: World) | ModulePart(text: string) | UnknownPart

  datatype Candidate = Candidate(node: Node, name: string, namespace: string, runID: string)

  /** What the cluster and the store answer for one part; None is an error. */
  datatype Answers = Answers(
    listing: Option<seq<Candidate>>,
    namespaceExists: Option<bool>,
    namespaceApplied: Option<OperationResult>,
    applied: Option<OperationResult>,
    deleted: Option<OperationResult>,
    stored: bool)

  type Evaluations = CheckModule -> Option<OperationResult> -> nat -> Check.Evaluation

  /** What a check is given: a timeout, its clock and its evaluations. */
  datatype Checking = Checking(timeout: int, clock: nat -> int, eval: Evaluations)

  /** The outside world over a whole document, part by part. */
  datatype Outside = Outside(runID: string, answers: nat -> Answers, clocks: nat -> nat -> int, evals: nat -> Evaluations)

  datatype Ending = Completed | NoDriver | SetupFailed | CleanupPanicked

  class TestContext {
    const recorder: Stack
    const preserve: bool
    const checkTimeout: int
    ghost const base: seq<Event>
    ghost var trace: seq<Act>
    ghost var going: bool

    ghost predicate Valid()
      reads this, recorder.Repr()
    {
      && recorder.Valid()
      && recorder.events == base + EventsOf(trace)
      && Guarded(base, trace) && OneDocument(trace)
      && Bracketed(base) && LevelAfter(base).InDoc?
      && (going <==> MayGoOn(base, trace))
    }

    /** Between steps, with the document open. */
    ghost predicate InDocument()
      reads this, recorder.Repr()
    {
      Valid() && recorder.level.InDoc?
    }

    ghost predicate InStepOf(c: StepCloser)
      reads this, recorder.Repr()
    {
      Valid() && recorder.level.InStep? && recorder.current == Some(c)
    }

    constructor (recorder: Stack, preserve: bool, checkTimeout: int)
      requires recorder.Valid() && recorder.level.InDoc?
      ensures InDocument() && trace == [] && base == recorder.events
      ensures this.recorder == recorder && this.preserve == preserve && this.checkTimeout == checkTimeout
    {
      this.recorder, this.preserve, this.checkTimeout := recorder, preserve, checkTimeout;
      base := recorder.events;
      trace := [];
      going := MayGoOn(recorder.events, []);
      new;
      assert base + [] == base;
    }

    /** Something happens outside the recorder. */
    ghost method Perform(a: Act)
      requires Valid() && !a.Recorded? && (IsEffect(a) ==> going)
      modifies this`trace
      ensures Valid() && trace == old(trace) + [a] && (!a.DeleteAll? ==> GrownFrom(old(trace), trace))
    {
      hide EventsOf, GrownFrom, Guarded, MayGoOn, LevelAfter, Bracketed;
      GrownRefl(trace);
      GrownByOne(trace, trace, a);
      GuardedNext(base, trace, a);
      ActsNext(base, trace, a);
      trace := trace + [a];
    }

    /** The recorder has just noted an event. */
    ghost method Noted(e: Event)
      requires recorder.Valid() && Guarded(base, trace) && OneDocument(trace)
      requires Bracketed(base) && LevelAfter(base).InDoc?
      requires recorder.events == base + EventsOf(trace) + [e]
      requires going <==> MayGoOn(base, trace)
      requires Bracketed(base + EventsOf(trace)) && !e.OpenDoc? && !e.CloseDoc?
      modifies this`trace, this`going
      ensures Valid() && GrownFrom(old(trace), trace) && trace == old(trace) + [Recorded(e)]
      ensures going <==> old(going) && (e.Report? ==> NoneTerminal(e.results))
    {
      hide EventsOf, GrownFrom, Guarded, MayGoOn, LevelAfter, Bracketed;
      RecordedNext(base, trace, e);
      GrownByOne(trace, trace, Recorded(e));
      trace := trace + [Recorded(e)];
      going := MayGoOn(base, trace);
    }

    method ShouldContinue() returns (go: bool)
      requires Valid()
      ensures go == going
    {
      go := recorder.ShouldContinue();
    }

    method Update(rs: seq<Result>, ghost c: StepCloser)
      requires InStepOf(c)
      modifies this`trace, this`going, recorder.Repr()
      ensures InStepOf(c) && GrownFrom(old(trace), trace) && trace == old(trace) + [Recorded(Report(rs))]
      ensures going <==> old(going) && NoneTerminal(rs)
    {
      hide EventsOf, GrownFrom, Guarded, MayGoOn, OneDocument, Bracketed;
      recorder.Update(rs);
      Noted(Report(rs));
    }

    method Info(text: string, ghost c: StepCloser)
      requires InStepOf(c)
      modifies this`trace, this`going, recorder.Repr()
      ensures InStepOf(c) && GrownFrom(old(trace), trace) && going == old(going)
      ensures trace == old(trace) + [Note(text)]
    {
      hide Stack.Valid, TestContext.Valid, GrownFrom;
      assert NoneTerminal([Result(Severity.Info, text)]);
      Update([Result(Severity.Info, text)], c);
    }

    /** A fatal result stops the document. */
    method Fatal(ghost c: StepCloser)
      requires InStepOf(c)
      modifies this`trace, this`going, recorder.Repr()
      ensures InStepOf(c) && GrownFrom(old(trace), trace) && trace == old(trace) + [Stop] && !going
    {
      hide Stack.Valid, TestContext.Valid, GrownFrom;
      assert [FATAL][0].severity == Severity.Fatal;
      Update([FATAL], c);
    }

    method NewStep(desc: string) returns (c: StepCloser)
      requires InDocument()
      modifies this`trace, this`going, recorder.Repr()
      ensures InStepOf(c) && GrownFrom(old(trace), trace) && going == old(going)
      ensures trace == old(trace) + [Recorded(OpenStep(desc))]
    {
      hide EventsOf, GrownFrom, Guarded, MayGoOn, OneDocument, Bracketed;
      c := recorder.NewStep(desc);
      Noted(OpenStep(desc));
    }

    /** Opens a step; go tells whether its body may run, and where it may not the step says so. */
    method BeginStep(desc: string) returns (c: StepCloser, go: bool)
      requires InDocument()
      modifies this`trace, this`going, recorder.Repr()
      ensures InStepOf(c) && GrownFrom(old(trace), trace) && go == old(going) == going
      ensures trace == old(trace) + [Recorded(OpenStep(desc))] + if go then [] else [Note("skipping")]
    {
      hide Stack.Valid, TestContext.Valid;
      c := NewStep(desc);
      go := ShouldContinue();
      if !go {
        Info("skipping", c);
      }
    }

    method EndStep(c: StepCloser)
      requires InStepOf(c)
      modifies this`trace, this`going, recorder.Repr()
      ensures InDocument() && GrownFrom(old(trace), trace) && going == old(going)
      ensures trace == old(trace) + [Recorded(CloseStep)]
    {
      hide EventsOf, GrownFrom, Guarded, MayGoOn, OneDocument, Bracketed;
      recorder.EndStep(c);
      Noted(CloseStep);
    }

    // ---- The steps ----

    method CompileStep(compiled: Option<Compiler>) returns (compiler: Option<Compiler>)
      requires InDocument()
      modifies this`trace, this`going, recorder.Repr()
      ensures InDocument() && GrownFrom(old(trace), trace)
      ensures going <==> old(going) && compiled.Some?
      ensures going ==> compiler == compiled
      ensures trace == old(trace) + StepTrace(COMPILING, old(going), CompileActs(compiled))
    {
      hide Stack.Valid, TestContext.Valid, StepTrace;
      var c, go := BeginStep(COMPILING);
      compiler := None;
      ghost var begun := trace;
      if go {
        Perform(Compile);
        compiler := compiled;
        if compiler.None? {
          Fatal(c);
        }
        Joined(begun, [Compile], [Stop]);
      }
      EndStep(c);
      Enclosed(old(trace), COMPILING, old(going), CompileActs(compiled));
    }

    method HydrateStep(w: World) returns (obj: Option<Hydrated>)
      requires InDocument()
      modifies this`trace, this`going, recorder.Repr()
      ensures InDocument() && GrownFrom(old(trace), trace)
      ensures going <==> old(going) && Hydrates(w)
      ensures going ==> obj.Some? && Runnable(obj.value) && HydratedFrom(w, obj.value)
      ensures trace == old(trace) + StepTrace(HYDRATING, old(going), HydrateActs(w))
    {
      hide Stack.Valid, TestContext.Valid, StepTrace;
      hide Hydrates, NodeOf, MetaOf, OperationOf, CheckOf;
      var c, go := BeginStep(HYDRATING);
      obj := None;
      ghost var begun := trace;
      if go {
        Perform(Hydrate);
        var r := HydrateObject(w);
        if r.Broken? {
          Fatal(c);
        } else {
          obj := Some(r.hydrated);
          Info("hydrated", c);
        }
        Joined(begun, [Hydrate], if Hydrates(w) then [Note("hydrated")] else [Stop]);
      }
      EndStep(c);
      Enclosed(old(trace), HYDRATING, old(going), HydrateActs(w));
    }

    /** Replaces an anonymous object by the first cluster object with the same labels and the run's ID. */
    method MatchBody(obj: Hydrated, listing: Option<seq<Candidate>>, runID: string, ghost c: StepCloser) returns (matched: Hydrated)
      requires InStepOf(c) && going
      modifies this`trace, this`going, recorder.Repr()
      ensures InStepOf(c) && GrownFrom(old(trace), trace)
      ensures going <==> CanMatch(obj, listing, runID)
      ensures going ==> MatchedTo(obj, listing, runID, matched)
      ensures trace == old(trace) + MatchActs(obj, listing, runID)
    {
      hide Stack.Valid, TestContext.Valid;
      matched := obj;
      if obj.name != "" {
        return;
      }
      Info("matching", c);
      Info("selector", c);
      Perform(Select(obj));
      MatchInOrder(old(trace), obj, listing, runID);
      if listing.None? {
        Fatal(c);
        return;
      }
      var found := FindMatch(listing.value, runID);
      if found.None? {
        Fatal(c);
        return;
      }
      matched := obj.(node := found.value.node, name := found.value.name, namespace := found.value.namespace);
      Info("matched", c);
    }

    method MatchStep(obj: Option<Hydrated>, listing: Option<seq<Candidate>>, runID: string) returns (matched: Option<Hydrated>)
      requires InDocument()
      requires going ==> obj.Some? && Runnable(obj.value)
      modifies this`trace, this`going, recorder.Repr()
      ensures InDocument() && GrownFrom(old(trace), trace)
      ensures going <==> old(going) && CanMatch(obj.value, listing, runID)
      ensures going ==> matched.Some? && Runnable(matched.value) && MatchedTo(obj.value, listing, runID, matched.value)
      ensures trace == old(trace) + StepTrace(MATCHING, old(going), if old(going) then MatchActs(obj.value, listing, runID) else [])
    {
      hide Stack.Valid, TestContext.Valid, StepTrace, CanMatch, MatchActs;
      var c, go := BeginStep(MATCHING);
      matched := obj;
      if go {
        var o := MatchBody(obj.value, listing, runID, c);
        matched := Some(o);
      }
      EndStep(c);
      Enclosed(old(trace), MATCHING, old(going), if old(going) then MatchActs(obj.value, listing, runID) else []);
    }

    /** Creates the object's namespace if need be, then the object; an error leaves no result. */
    method ApplyObject(o: Hydrated, a: Answers, ghost c: StepCloser) returns (result: Option<OperationResult>)
      requires InStepOf(c) && going
      modifies this`trace
      ensures InStepOf(c) && GrownFrom(old(trace), trace)
      ensures result == ApplyResult(o, a)
      ensures trace == old(trace) + ApplyActs(o, a)
    {
      hide Stack.Valid, TestContext.Valid, ApplyActs;
      ApplyInOrder(trace, o, a);
      if o.namespace != "" {
        Perform(CheckNamespace(o.namespace));
        if a.namespaceExists.None? {
          return None;
        }
        if !a.namespaceExists.value {
          Perform(ApplyNamespace(o.namespace));
          if a.namespaceApplied.None? {
            return None;
          }
          if a.namespaceApplied.value.error {
            return a.namespaceApplied;
          }
        }
      }
      Perform(Apply(o));
      return a.applied;
    }

    /** The switch over operations; it has no default. */
    method Operate(obj: Hydrated, a: Answers, ghost c: StepCloser) returns (opResult: Option<OperationResult>)
      requires InStepOf(c) && going && Runnable(obj)
      modifies this`trace
      ensures InStepOf(c) && GrownFrom(old(trace), trace)
      ensures opResult == OpResult(obj, a)
      ensures trace == old(trace) + OpActs(obj, a)
    {
      hide Stack.Valid, TestContext.Valid, ApplyActs, ApplyResult;
      opResult := None;
      if obj.operation == UPDATE {
        opResult := ApplyObject(obj, a, c);
      } else if obj.operation == DELETE {
        Perform(Delete(obj));
        opResult := a.deleted;
      }
    }

    /** Performs the operation and stores its result; either can fail, and that is fatal. */
    method UpdateBody(obj: Hydrated, a: Answers, ghost c: StepCloser) returns (opResult: Option<OperationResult>)
      requires InStepOf(c) && going && Runnable(obj)
      modifies this`trace, this`going, recorder.Repr()
      ensures InStepOf(c) && GrownFrom(old(trace), trace)
      ensures opResult == OpResult(obj, a)
      ensures going <==> OpGoesOn(obj, a)
      ensures trace == old(trace) + UpdateActs(obj, a)
    {
      hide Stack.Valid, TestContext.Valid, OpActs, OpResult;
      UpdateInOrder(trace, obj, a);
      Info("performing operation", c);
      opResult := Operate(obj, a, c);
      if opResult.None? {
        Fatal(c);
        return;
      }
      if opResult.value.latest.Some? {
        Perform(StoreLast(opResult.value.latest.value));
        if !a.stored {
          Fatal(c);
        }
      }
    }

    method UpdateStep(obj: Option<Hydrated>, a: Answers) returns (opResult: Option<OperationResult>)
      requires InDocument()
      requires going ==> obj.Some? && Runnable(obj.value)
      modifies this`trace, this`going, recorder.Repr()
      ensures InDocument() && GrownFrom(old(trace), trace)
      ensures going <==> old(going) && OpGoesOn(obj.value, a)
      ensures old(going) ==> opResult == OpResult(obj.value, a)
      ensures trace == old(trace) + StepTrace(UPDATING, old(going), if old(going) then UpdateActs(obj.value, a) else [])
    {
      hide Stack.Valid, TestContext.Valid, StepTrace, OpResult, OpGoesOn, UpdateActs;
      var c, go := BeginStep(UPDATING);
      opResult := None;
      if go {
        opResult := UpdateBody(obj.value, a, c);
      }
      EndStep(c);
      Enclosed(old(trace), UPDATING, old(going), if old(going) then UpdateActs(obj.value, a) else []);
    }

    ghost method Evaluated(n: nat, m: CheckModule, input: Option<OperationResult>, c: StepCloser)
      requires InStepOf(c) && going
      modifies this`trace
      ensures InStepOf(c) && GrownFrom(old(trace), trace) && trace == old(trace) + Evals(n, m, input)
    {
      hide Stack.Valid, TestContext.Valid, Cleanups;
      if n > 0 {
        Evaluated(n - 1, m, input, c);
        Perform(Eval(m, input));
      }
    }

    /** Runs a check against the compiled modules and records what it raises. */
    method CheckBody(compiler: Compiler, m: CheckModule, input: Option<OperationResult>,
                     clock: nat -> int, eval: Evaluations, ghost c: StepCloser)
      returns (ghost acts: seq<Act>)
      requires InStepOf(c) && going && Check.Ticks(clock)
      modifies this`trace, this`going, recorder.Repr()
      ensures InStepOf(c) && GrownFrom(old(trace), trace)
      ensures trace == old(trace) + acts
      ensures CheckRuns(m, input, Checking(checkTimeout, clock, eval), acts, going)
    {
      hide Stack.Valid, TestContext.Valid, Check.Concludes;
      var results, count := Check.RunCheck(checkTimeout, clock, eval(m)(input));
      Evaluated(count, m, input, c);
      if results.Failed? {
        Fatal(c);
        Update([], c);
      } else {
        Update(results.results, c);
      }
      acts := CheckActs(results, count, m, input);
    }

    /** The check of a module part. */
    method CheckStep(text: string, compiler: Option<Compiler>, clock: nat -> int, eval: Evaluations)
      returns (ghost acts: seq<Act>)
      requires InDocument() && Check.Ticks(clock)
      requires going && compiler.Some?
      modifies this`trace, this`going, recorder.Repr()
      ensures InDocument() && GrownFrom(old(trace), trace)
      ensures CheckRuns(DocumentCheck(text), None, Checking(checkTimeout, clock, eval), acts, going)
      ensures trace == old(trace) + StepTrace(RUNNING, true, acts)
    {
      hide Stack.Valid, TestContext.Valid, StepTrace, CheckRuns;
      var c, go := BeginStep(RUNNING);
      acts := CheckBody(compiler.value, DocumentCheck(text), None, clock, eval, c);
      EndStep(c);
      Enclosed(old(trace), RUNNING, true, acts);
    }

    /** The check of an object part: the object's own, or else the default one for its operation. */
    method ObjectCheckStep(obj: Option<Hydrated>, opResult: Option<OperationResult>,
                           compiler: Option<Compiler>, clock: nat -> int, eval: Evaluations)
      returns (ghost acts: seq<Act>)
      requires InDocument() && Check.Ticks(clock)
      requires going ==> obj.Some? && Runnable(obj.value) && opResult.Some? && compiler.Some?
      modifies this`trace, this`going, recorder.Repr()
      ensures InDocument() && GrownFrom(old(trace), trace)
      ensures going ==> old(going)
      ensures old(going) ==> CheckRuns(ModuleOf(obj.value), opResult, Checking(checkTimeout, clock, eval), acts, going)
      ensures trace == old(trace) + StepTrace(CHECKING, old(going), if old(going) then [Note("checking")] + acts else [])
    {
      hide Stack.Valid, TestContext.Valid, StepTrace, CheckRuns;
      var c, go := BeginStep(CHECKING);
      acts := [];
      ghost var begun := trace;
      if go {
        Info("checking", c);
        var check := if obj.value.check.Some? then OwnCheck(obj.value.check.value) else DefaultCheck(obj.value.operation);
        var input := opResult.value;
        acts := CheckBody(compiler.value, check, Some(input), clock, eval, c);
        Joined(begun, [Note("checking")], acts);
      }
      EndStep(c);
      Enclosed(old(trace), CHECKING, old(going), if old(going) then [Note("checking")] + acts else []);
    }

    // ---- The run ----

    /** The four steps of an object part. */
    method RunObject(w: World, a: Answers, runID: string, compiler: Option<Compiler>, clock: nat -> int, eval: Evaluations)
      returns (ghost acts: seq<Act>)
      requires InDocument() && Check.Ticks(clock) && going && compiler.Some?
      modifies this`trace, this`going, recorder.Repr()
      ensures InDocument() && GrownFrom(old(trace), trace)
      ensures trace == old(trace) + acts
      ensures ObjectRuns(w, a, runID, Checking(checkTimeout, clock, eval), acts, going)
    {
      hide Stack.Valid, TestContext.Valid, CheckRuns, Hydrates, CanMatch, MatchedTo, HydratedFrom, StepTrace;
      hide MatchActs, UpdateActs, HydrateActs, OpResult;
      var obj := HydrateStep(w);
      ghost var hydrated := going;
      var matched := MatchStep(obj, a.listing, runID);
      ghost var matching := StepTrace(MATCHING, hydrated, if hydrated then MatchActs(obj.value, a.listing, runID) else []);
      ghost var found := going;
      var opResult := UpdateStep(matched, a);
      ghost var updating := StepTrace(UPDATING, found, if found then UpdateActs(matched.value, a) else []);
      ghost var done := going;
      ghost var checks := ObjectCheckStep(matched, opResult, compiler, clock, eval);
      ghost var checking := StepTrace(CHECKING, done, if done then [Note("checking")] + checks else []);
      acts := StepTrace(HYDRATING, true, HydrateActs(w)) + (matching + (updating + checking));
      InTurn(old(trace), StepTrace(HYDRATING, true, HydrateActs(w)), matching, updating, checking);
      ghost var k := Checking(checkTimeout, clock, eval);
      if found {
        assert done ==> CheckRuns(ModuleOf(matched.value), opResult, k, checks, going);
        assert OperationRuns(matched.value, a, k, updating + checking, going);
      }
      if hydrated {
        assert found ==> MatchedTo(obj.value, a.listing, runID, matched.value);
        assert MatchRuns(obj.value, a, runID, k, matching + (updating + checking), going);
      }
    }

    /** The steps of one document part; acts are all it leaves in the trace. */
    method RunPart(p: Part, a: Answers, runID: string, compiler: Option<Compiler>, clock: nat -> int, eval: Evaluations)
      returns (ghost acts: seq<Act>)
      requires InDocument() && Check.Ticks(clock) && going && compiler.Some?
      modifies this`trace, this`going, recorder.Repr()
      ensures InDocument() && GrownFrom(old(trace), trace)
      ensures trace == old(trace) + acts
      ensures PartRuns(p, a, runID, Checking(checkTimeout, clock, eval), acts, going)
    {
      hide Stack.Valid, TestContext.Valid, ObjectRuns, CheckRuns, StepTrace;
      acts := [];
      match p {
        case ObjectPart(w) =>
          acts := RunObject(w, a, runID, compiler, clock, eval);
        case ModulePart(text) =>
          ghost var checks := CheckStep(text, compiler, clock, eval);
          acts := StepTrace(RUNNING, true, checks);
        case UnknownPart =>
      }
    }

    /**
     Compiles the document and runs its parts until one of them stops it. Each
     part that is started does what the answers call for, the next one is started
     exactly if that let the run go on, and the run goes on at the end exactly if
     the last part started did.
     */
    method RunParts(parts: seq<Part>, compiled: Option<Compiler>, o: Outside)
      returns (ghost done: seq<seq<Act>>, ghost goes: seq<bool>)
      requires InDocument() && forall i: nat :: Check.Ticks(o.clocks(i))
      modifies this`trace, this`going, recorder.Repr()
      ensures InDocument() && GrownFrom(old(trace), trace)
      ensures trace == old(trace) + StepTrace(COMPILING, old(going), CompileActs(compiled)) + Flat(done)
      ensures PartsRun(parts, o, checkTimeout, old(going) && compiled.Some?, done, goes, going)
    {
      hide Stack.Valid, TestContext.Valid, PartRuns, PartsStarted, Flat, StepTrace, CompileActs;
      NonePartsStarted(parts, o, checkTimeout);
      var compiler := CompileStep(compiled);
      var i := 0;
      done, goes := [], [];
      ghost var start, starts := trace, going;
      while i < |parts|
        invariant 0 <= i <= |parts| && i == |done| == |goes|
        invariant InDocument() && GrownFrom(old(trace), trace) && (going ==> compiler.Some?)
        invariant trace == start + Flat(done)
        invariant going == GoesBefore(starts, goes, i)
        invariant PartsStarted(parts, o, checkTimeout, starts, done, goes)
        decreases |parts| - i
      {
        var go := ShouldContinue();
        if !go {
          break;
        }
        ghost var acts := RunPart(parts[i], o.answers(i), o.runID, compiler, o.clocks(i), o.evals(i));
        FlatNext(done, acts);
        Joined(start, Flat(done), acts);
        PartStarted(parts, o, checkTimeout, starts, done, goes, acts, going);
        done, goes := done + [acts], goes + [going];
        i := i + 1;
      }
    }

    /** Cleans up, and then makes the deferred calls, last one first. */
    method Finish(cleaned: bool) returns (ending: Ending)
      requires InDocument() && Cleanups(trace) == 0
      modifies this`trace
      ensures InDocument() && trace == old(trace) + Closing(preserve)
      ensures Cleanups(trace) == if preserve then 0 else 1
      ensures ending == if preserve || cleaned then Completed else CleanupPanicked
    {
      hide Stack.Valid, TestContext.Valid;
      CleanupsAtEnd(trace, preserve);
      ending := Completed;
      if !preserve {
        Perform(DeleteAll);
        if !cleaned {
          ending := CleanupPanicked;
        }
      }
      Perform(CancelWatch);
      Perform(Done);
    }

    /** Starts watching and fills the data document. */
    method Setup(stored: bool)
      requires InDocument() && trace == []
      modifies this`trace
      ensures InDocument() && Cleanups(trace) == 0
      ensures trace == if stored then [Watch, StoreVersions, StoreRunId] else [Watch, StoreVersions, CancelWatch, Done]
    {
      hide Stack.Valid, TestContext.Valid, Cleanups;
      NothingYet();
      Perform(Watch);
      Perform(StoreVersions);
      assert trace == [Watch, StoreVersions];
      if stored {
        Perform(StoreRunId);
      } else {
        Perform(CancelWatch);
        Perform(Done);
      }
    }

    /** Sets up, and runs the parts if that worked. */
    method RunDocument(parts: seq<Part>, stored: bool, compiled: Option<Compiler>, cleaned: bool, o: Outside)
      returns (ending: Ending, ghost done: seq<seq<Act>>, ghost goes: seq<bool>)
      requires InDocument() && trace == [] && forall i: nat :: Check.Ticks(o.clocks(i))
      modifies this`trace, this`going, recorder.Repr()
      ensures InDocument()
      ensures ending == if !stored then SetupFailed else if preserve || cleaned then Completed else CleanupPanicked
      ensures !stored ==> trace == [Watch, StoreVersions, CancelWatch, Done]
      ensures stored ==>
                && trace == [Watch, StoreVersions, StoreRunId] + StepTrace(COMPILING, old(going), CompileActs(compiled))
                            + Flat(done) + Closing(preserve)
                && Cleanups(trace) == (if preserve then 0 else 1)
                && PartsRun(parts, o, checkTimeout, old(going) && compiled.Some?, done, goes, going)
    {
      hide Stack.Valid, TestContext.Valid, PartsRun, Flat, StepTrace, CompileActs, Closing, Cleanups;
      done, goes := [], [];
      Setup(stored);
      if !stored {
        return SetupFailed, done, goes;
      }
      done, goes := RunParts(parts, compiled, o);
      ending := Finish(cleaned);
    }

    /**
     Runs a test document. Whatever the world answers, nothing touches the
     cluster and no check is evaluated once a terminal result is recorded; the
     parts are done in order, each as the answers call for, up to the one that
     stopped the run; and the adopted objects are cleaned up once, after
     everything else, exactly when they are not to be preserved and the parts
     were reached.
     */
    method Run(hasDriver: bool, parts: seq<Part>, stored: bool, compiled: Option<Compiler>, cleaned: bool, o: Outside)
      returns (ending: Ending, ghost done: seq<seq<Act>>, ghost goes: seq<bool>)
      requires InDocument() && trace == [] && forall i: nat :: Check.Ticks(o.clocks(i))
      modifies this`trace, this`going, recorder.Repr()
      ensures InDocument() && QuietAfterTerminal(trace) && Guarded(base, trace)
      ensures ending == if !hasDriver then NoDriver
                        else if !stored then SetupFailed
                        else if preserve || cleaned then Completed else CleanupPanicked
      ensures ending.NoDriver? ==> trace == []
      ensures ending.SetupFailed? ==> trace == [Watch, StoreVersions, CancelWatch, Done]
      ensures ending.Completed? || ending.CleanupPanicked? ==>
                && trace == [Watch, StoreVersions, StoreRunId] + StepTrace(COMPILING, old(going), CompileActs(compiled))
                            + Flat(done) + Closing(preserve)
                && Cleanups(trace) == (if preserve then 0 else 1)
                && PartsRun(parts, o, checkTimeout, old(going) && compiled.Some?, done, goes, going)
    {
      hide Stack.Valid, MayGoOn, PartsRun, Flat, StepTrace, CompileActs, Closing;
      done, goes := [], [];
      if !hasDriver {
        return NoDriver, done, goes;
      }
      ending, done, goes := RunDocument(parts, stored, compiled, cleaned, o);
      GuardedIsQuiet(base, trace);
    }
  }

  // ---- What a step and a part leave in the trace, given the answers ----

  const COMPILING := "compiling test document"
  const HYDRATING := "hydrating Kubernetes object"
  const MATCHING := "matching anonymous Kubernetes object"
  const UPDATING := "updating Kubernetes object"
  const CHECKING := "running object update check"
  const RUNNING := "running Rego check"

  function Note(text: string): Act {
    Recorded(Report([Result(Severity.Info, text)]))
  }

  const Stop: Act := Recorded(Report([FATAL]))

  /** A step is opened and closed, and in between it does its work or says that it is skipped. */
  function StepTrace(desc: string, go: bool, body: seq<Act>): seq<Act> {
    [Recorded(OpenStep(desc))] + (if go then body else [Note("skipping")]) + [Recorded(CloseStep)]
  }

  lemma Enclosed(before: seq<Act>, desc: string, go: bool, body: seq<Act>)
    ensures before + StepTrace(desc, go, body) ==
            before + [Recorded(OpenStep(desc))] + (if go then [] else [Note("skipping")])
            + (if go then body else []) + [Recorded(CloseStep)]
  {
  }

  function CompileActs(compiled: Option<Compiler>): seq<Act> {
    if compiled.Some? then [Compile] else [Compile] + [Stop]
  }

  function HydrateActs(w: World): seq<Act> {
    [Hydrate] + if Hydrates(w) then [Note("hydrated")] else [Stop]
  }

  function When(b: bool, a: Act): seq<Act> {
    if b then [a] else []
  }

  /** The object is what its fragment says, with the check it brings and the operation it asks for. */
  predicate HydratedFrom(w: World, o: Hydrated) {
    && NodeOf(w) == Some(o.node) && MetaOf(w) == Some(Meta(o.name, o.namespace))
    && o.operation == OperationOf(w) && o.check == CheckOf(w)
  }

  /** A named object needs no match; an anonymous one needs a candidate of this run. */
  ghost predicate CanMatch(o: Hydrated, listing: Option<seq<Candidate>>, runID: string) {
    o.name != "" || (listing.Some? && exists i :: 0 <= i < |listing.value| && listing.value[i].runID == runID)
  }

  /** A named object stays as it is; an anonymous one becomes the first candidate of this run, check and operation aside. */
  ghost predicate MatchedTo(o: Hydrated, listing: Option<seq<Candidate>>, runID: string, m: Hydrated) {
    if o.name != "" then m == o
    else listing.Some? && exists i :: IsFirst(listing.value, runID, i)
                                      && m == Hydrated(listing.value[i].node, listing.value[i].name, listing.value[i].namespace, o.check, o.operation)
  }

  ghost function MatchActs(o: Hydrated, listing: Option<seq<Candidate>>, runID: string): seq<Act> {
    if o.name != "" then []
    else [Note("matching"), Note("selector"), Select(o)] + if CanMatch(o, listing, runID) then [Note("matched")] else [Stop]
  }

  lemma MatchInOrder(before: seq<Act>, o: Hydrated, listing: Option<seq<Candidate>>, runID: string)
    requires o.name == ""
    ensures before + MatchActs(o, listing, runID) ==
            before + [Note("matching")] + [Note("selector")] + [Select(o)]
            + if CanMatch(o, listing, runID) then [Note("matched")] else [Stop]
  {
    hide CanMatch;
  }

  ghost predicate IsFirst(cs: seq<Candidate>, runID: string, i: int) {
    0 <= i < |cs| && cs[i].runID == runID && forall j :: 0 <= j < i ==> cs[j].runID != runID
  }

  /** The object itself is applied: it has no namespace, or the namespace is there or has just been made. */
  predicate ReachesObject(o: Hydrated, a: Answers) {
    || o.namespace == "" || a.namespaceExists == Some(true)
    || (a.namespaceExists == Some(false) && a.namespaceApplied.Some? && !a.namespaceApplied.value.error)
  }

  /** A namespace is looked up if there is one, made exactly if it is missing, and then the object is applied. */
  function ApplyActs(o: Hydrated, a: Answers): seq<Act> {
    When(o.namespace != "", CheckNamespace(o.namespace))
    + When(o.namespace != "" && a.namespaceExists == Some(false), ApplyNamespace(o.namespace))
    + When(ReachesObject(o, a), Apply(o))
  }

  lemma ApplyInOrder(before: seq<Act>, o: Hydrated, a: Answers)
    ensures var check, make, apply := [CheckNamespace(o.namespace)], [ApplyNamespace(o.namespace)], [Apply(o)];
            before + ApplyActs(o, a) ==
            if o.namespace == "" then before + apply
            else if a.namespaceExists.None? then before + check
            else if a.namespaceExists.value then before + check + apply
            else if a.namespaceApplied.None? || a.namespaceApplied.value.error then before + check + make
            else before + check + make + apply
  {
  }

  function ApplyResult(o: Hydrated, a: Answers): Option<OperationResult> {
    if ReachesObject(o, a) then a.applied
    else if a.namespaceExists == Some(false) then a.namespaceApplied
    else None
  }

  function OpActs(o: Hydrated, a: Answers): seq<Act> {
    if o.operation == "delete" then [Delete(o)] else ApplyActs(o, a)
  }

  function OpResult(o: Hydrated, a: Answers): Option<OperationResult> {
    if o.operation == "delete" then a.deleted else ApplyResult(o, a)
  }

  /** The object that the operation left is stored, if there is one. */
  function StoreActs(result: Option<OperationResult>): seq<Act> {
    if result.Some? && result.value.latest.Some? then [StoreLast(result.value.latest.value)] else []
  }

  /** The operation came to a result, and its object, if there is one, could be stored. */
  predicate OpGoesOn(o: Hydrated, a: Answers) {
    OpResult(o, a).Some? && (OpResult(o, a).value.latest.Some? ==> a.stored)
  }

  /** The operation, then storing what it left; a failure of either is fatal. */
  function UpdateActs(o: Hydrated, a: Answers): seq<Act> {
    [Note("performing operation")] + OpActs(o, a) + StoreActs(OpResult(o, a)) + if OpGoesOn(o, a) then [] else [Stop]
  }

  lemma UpdateInOrder(before: seq<Act>, o: Hydrated, a: Answers)
    ensures before + UpdateActs(o, a) ==
            before + [Note("performing operation")] + OpActs(o, a) + StoreActs(OpResult(o, a))
            + if OpGoesOn(o, a) then [] else [Stop]
  {
    hide OpActs, StoreActs, OpGoesOn, OpResult;
  }

  function ModuleOf(o: Hydrated): CheckModule {
    match o.check
    case Some(text) => OwnCheck(text)
    case None => DefaultCheck(o.operation)
  }

  /** The check did not fail, and raised neither a Fatal nor a Skip. */
  predicate LetsGoOn(outcome: Check.Evaluation) {
    outcome.Raised? && NoneTerminal(outcome.results)
  }

  ghost predicate CheckRuns(m: CheckModule, input: Option<OperationResult>, c: Checking, acts: seq<Act>, goes: bool) {
    exists outcome, n :: Check.Concludes(c.timeout, c.clock, c.eval(m)(input), outcome, n)
                         && acts == CheckActs(outcome, n, m, input) && (goes <==> LetsGoOn(outcome))
  }

  /** The operation, and then the check, or saying that it is skipped. */
  ghost predicate OperationRuns(o: Hydrated, a: Answers, c: Checking, acts: seq<Act>, goes: bool) {
    var done := StepTrace(UPDATING, true, UpdateActs(o, a));
    if !OpGoesOn(o, a) then acts == done + StepTrace(CHECKING, false, []) && !goes
    else exists checks :: acts == done + StepTrace(CHECKING, true, [Note("checking")] + checks)
                          && CheckRuns(ModuleOf(o), OpResult(o, a), c, checks, goes)
  }

  ghost predicate MatchRuns(o: Hydrated, a: Answers, runID: string, c: Checking, acts: seq<Act>, goes: bool) {
    var matching := StepTrace(MATCHING, true, MatchActs(o, a.listing, runID));
    if !CanMatch(o, a.listing, runID) then
      acts == matching + (StepTrace(UPDATING, false, []) + StepTrace(CHECKING, false, [])) && !goes
    else exists m, rest :: MatchedTo(o, a.listing, runID, m) && OperationRuns(m, a, c, rest, goes) && acts == matching + rest
  }

  /** Hydrated, matched if it is anonymous, operated on as it asks, and checked; what stops it has the rest skipped. */
  ghost predicate ObjectRuns(w: World, a: Answers, runID: string, c: Checking, acts: seq<Act>, goes: bool) {
    var hydrating := StepTrace(HYDRATING, true, HydrateActs(w));
    if !Hydrates(w) then
      acts == hydrating + (StepTrace(MATCHING, false, []) + (StepTrace(UPDATING, false, []) + StepTrace(CHECKING, false, []))) && !goes
    else exists o, rest :: HydratedFrom(w, o) && MatchRuns(o, a, runID, c, rest, goes) && acts == hydrating + rest
  }

  ghost predicate PartRuns(p: Part, a: Answers, runID: string, c: Checking, acts: seq<Act>, goes: bool) {
    match p
    case ObjectPart(w) => ObjectRuns(w, a, runID, c, acts, goes)
    case ModulePart(text) => exists checks :: CheckRuns(DocumentCheck(text), None, c, checks, goes) && acts == StepTrace(RUNNING, true, checks)
    case UnknownPart => acts == [] && goes
  }

  lemma CheckRunsUniquely(m: CheckModule, input: Option<OperationResult>, c: Checking,
                          acts: seq<Act>, goes: bool, acts': seq<Act>, goes': bool)
    requires Check.Ticks(c.clock) && CheckRuns(m, input, c, acts, goes) && CheckRuns(m, input, c, acts', goes')
    ensures acts == acts' && goes == goes'
  {
    hide Check.Concludes, CheckActs, LetsGoOn, Check.Ticks;
    var eval := c.eval(m)(input);
    var x, n :| Check.Concludes(c.timeout, c.clock, eval, x, n) && acts == CheckActs(x, n, m, input) && (goes <==> LetsGoOn(x));
    var y, k :| Check.Concludes(c.timeout, c.clock, eval, y, k) && acts' == CheckActs(y, k, m, input) && (goes' <==> LetsGoOn(y));
    Check.ConcludesUniquely(c.timeout, c.clock, eval, x, n, y, k);
  }

  lemma OperationRunsUniquely(o: Hydrated, a: Answers, c: Checking, acts: seq<Act>, goes: bool, acts': seq<Act>, goes': bool)
    requires Check.Ticks(c.clock) && OperationRuns(o, a, c, acts, goes) && OperationRuns(o, a, c, acts', goes')
    ensures acts == acts' && goes == goes'
  {
    hide CheckRuns, UpdateActs, StepTrace, OpGoesOn, OpResult, Check.Ticks;
    if OpGoesOn(o, a) {
      var done := StepTrace(UPDATING, true, UpdateActs(o, a));
      var x :| acts == done + StepTrace(CHECKING, true, [Note("checking")] + x) && CheckRuns(ModuleOf(o), OpResult(o, a), c, x, goes);
      var y :| acts' == done + StepTrace(CHECKING, true, [Note("checking")] + y) && CheckRuns(ModuleOf(o), OpResult(o, a), c, y, goes');
      CheckRunsUniquely(ModuleOf(o), OpResult(o, a), c, x, goes, y, goes');
    }
  }

  lemma MatchedUniquely(o: Hydrated, listing: Option<seq<Candidate>>, runID: string, m: Hydrated, m': Hydrated)
    requires MatchedTo(o, listing, runID, m) && MatchedTo(o, listing, runID, m')
    ensures m == m'
  {
    if o.name == "" {
      var i :| IsFirst(listing.value, runID, i) && m.node == listing.value[i].node && m.name == listing.value[i].name
               && m.namespace == listing.value[i].namespace;
      var j :| IsFirst(listing.value, runID, j) && m'.node == listing.value[j].node && m'.name == listing.value[j].name
               && m'.namespace == listing.value[j].namespace;
      assert i == j;
    }
  }

  lemma MatchRunsUniquely(o: Hydrated, a: Answers, runID: string, c: Checking, acts: seq<Act>, goes: bool, acts': seq<Act>, goes': bool)
    requires Check.Ticks(c.clock) && MatchRuns(o, a, runID, c, acts, goes) && MatchRuns(o, a, runID, c, acts', goes')
    ensures acts == acts' && goes == goes'
  {
    hide OperationRuns, MatchedTo, CanMatch, MatchActs, StepTrace, Check.Ticks;
    if CanMatch(o, a.listing, runID) {
      var matching := StepTrace(MATCHING, true, MatchActs(o, a.listing, runID));
      var m, x :| MatchedTo(o, a.listing, runID, m) && OperationRuns(m, a, c, x, goes) && acts == matching + x;
      var m', y :| MatchedTo(o, a.listing, runID, m') && OperationRuns(m', a, c, y, goes') && acts' == matching + y;
      MatchedUniquely(o, a.listing, runID, m, m');
      OperationRunsUniquely(m, a, c, x, goes, y, goes');
    }
  }

  lemma ObjectRunsUniquely(w: World, a: Answers, runID: string, c: Checking, acts: seq<Act>, goes: bool, acts': seq<Act>, goes': bool)
    requires Check.Ticks(c.clock) && ObjectRuns(w, a, runID, c, acts, goes) && ObjectRuns(w, a, runID, c, acts', goes')
    ensures acts == acts' && goes == goes'
  {
    hide MatchRuns, Hydrates, HydrateActs, StepTrace, NodeOf, MetaOf, OperationOf, CheckOf, Check.Ticks;
    if Hydrates(w) {
      var hydrating := StepTrace(HYDRATING, true, HydrateActs(w));
      var o, x :| HydratedFrom(w, o) && MatchRuns(o, a, runID, c, x, goes) && acts == hydrating + x;
      var o', y :| HydratedFrom(w, o') && MatchRuns(o', a, runID, c, y, goes') && acts' == hydrating + y;
      assert o == o';
      MatchRunsUniquely(o, a, runID, c, x, goes, y, goes');
    }
  }

  /** The answers determine all that a part leaves in the trace, down to the last evaluation, and whether the run goes on. */
  lemma PartRunsUniquely(p: Part, a: Answers, runID: string, c: Checking, acts: seq<Act>, goes: bool, acts': seq<Act>, goes': bool)
    requires Check.Ticks(c.clock) && PartRuns(p, a, runID, c, acts, goes) && PartRuns(p, a, runID, c, acts', goes')
    ensures acts == acts' && goes == goes'
  {
    hide ObjectRuns, CheckRuns, StepTrace, Check.Ticks;
    match p
    case ObjectPart(w) => ObjectRunsUniquely(w, a, runID, c, acts, goes, acts', goes');
    case ModulePart(text) =>
      var x :| CheckRuns(DocumentCheck(text), None, c, x, goes) && acts == StepTrace(RUNNING, true, x);
      var y :| CheckRuns(DocumentCheck(text), None, c, y, goes') && acts' == StepTrace(RUNNING, true, y);
      CheckRunsUniquely(DocumentCheck(text), None, c, x, goes, y, goes');
    case UnknownPart =>
  }

  function CheckingAt(timeout: int, o: Outside, i: nat): Checking {
    Checking(timeout, o.clocks(i), o.evals(i))
  }

  /** Whether the run goes on just before a part. */
  predicate GoesBefore(starts: bool, goes: seq<bool>, k: nat)
    requires k <= |goes|
  {
    if k == 0 then starts else goes[k - 1]
  }

  /** The parts that were started, what each did, and whether the run went on after it. */
  ghost predicate PartsRun(parts: seq<Part>, o: Outside, timeout: int, starts: bool,
                           done: seq<seq<Act>>, goes: seq<bool>, going: bool) {
    && PartsStarted(parts, o, timeout, starts, done, goes)
    && (going <==> GoesBefore(starts, goes, |goes|))
    && (going ==> |done| == |parts|)
  }

  ghost predicate PartsStarted(parts: seq<Part>, o: Outside, timeout: int, starts: bool, done: seq<seq<Act>>, goes: seq<bool>) {
    && |done| == |goes| <= |parts|
    && forall k: nat :: k < |done| ==> StartedAt(parts, o, timeout, starts, done, goes, k)
  }

  lemma NonePartsStarted(parts: seq<Part>, o: Outside, timeout: int)
    ensures forall starts :: PartsStarted(parts, o, timeout, starts, [], [])
    ensures Flat([]) == []
  {
  }

  ghost predicate StartedAt(parts: seq<Part>, o: Outside, timeout: int, starts: bool, done: seq<seq<Act>>, goes: seq<bool>, k: nat)
    requires k < |done| == |goes| <= |parts|
  {
    PartRuns(parts[k], o.answers(k), o.runID, CheckingAt(timeout, o, k), done[k], goes[k]) && GoesBefore(starts, goes, k)
  }

  lemma PartStarted(parts: seq<Part>, o: Outside, timeout: int, starts: bool, done: seq<seq<Act>>, goes: seq<bool>,
                    acts: seq<Act>, going: bool)
    requires PartsStarted(parts, o, timeout, starts, done, goes) && |done| < |parts| && GoesBefore(starts, goes, |goes|)
    requires PartRuns(parts[|done|], o.answers(|done|), o.runID, CheckingAt(timeout, o, |done|), acts, going)
    ensures PartsStarted(parts, o, timeout, starts, done + [acts], goes + [going])
  {
    hide PartRuns, CheckingAt;
    var done', goes' := done + [acts], goes + [going];
    forall k: nat | k < |done'|
      ensures StartedAt(parts, o, timeout, starts, done', goes', k)
    {
      if k < |done| {
        assert StartedAt(parts, o, timeout, starts, done, goes, k);
        assert done'[k] == done[k] && goes'[k] == goes[k];
      }
    }
  }

  lemma InTurn(before: seq<Act>, a: seq<Act>, b: seq<Act>, c: seq<Act>, d: seq<Act>)
    ensures before + a + b + c + d == before + (a + (b + (c + d)))
  {
  }

  lemma Joined(a: seq<Act>, b: seq<Act>, c: seq<Act>)
    ensures a + b + c == a + (b + c) && b + [] == b
  {
  }

  function Flat(done: seq<seq<Act>>): seq<Act> {
    if done == [] then [] else Flat(done[..|done| - 1]) + done[|done| - 1]
  }

  lemma FlatNext(done: seq<seq<Act>>, acts: seq<Act>)
    ensures Flat(done + [acts]) == Flat(done) + acts
  {
    assert (done + [acts])[..|done|] == done;
  }

  lemma NothingYet()
    ensures Cleanups([]) == 0
  {
  }

  const FATAL := Result(Severity.Fatal, "fatal")

  /** What a check leaves in the trace: its evaluations, and what it raised or that it failed. */
  function CheckActs(outcome: Check.Evaluation, n: nat, m: CheckModule, input: Option<OperationResult>): seq<Act> {
    Evals(n, m, input) + match outcome
                         case Failed => [Recorded(Report([FATAL])), Recorded(Report([]))]
                         case Raised(rs) => [Recorded(Report(rs))]
  }

  function Evals(n: nat, m: CheckModule, input: Option<OperationResult>): seq<Act> {
    if n == 0 then [] else Evals(n - 1, m, input) + [Eval(m, input)]
  }

  /** What a run ends with once its parts were reached. */
  function Closing(preserve: bool): seq<Act> {
    (if preserve then [] else [DeleteAll]) + [CancelWatch, Done]
  }

  lemma CleanupsAtEnd(before: seq<Act>, preserve: bool)
    requires Cleanups(before) == 0
    ensures Cleanups(before + Closing(preserve)) == if preserve then 0 else 1
  {
    if preserve {
      CleanupsOfTwo(before, CancelWatch, Done);
      assert Closing(preserve) == [CancelWatch, Done];
    } else {
      GrownByOne(before, before, DeleteAll);
      CleanupsOfTwo(before + [DeleteAll], CancelWatch, Done);
      assert before + Closing(preserve) == before + [DeleteAll] + [CancelWatch, Done];
    }
  }

  lemma CleanupsOfTwo(before: seq<Act>, a: Act, b: Act)
    requires !a.DeleteAll? && !b.DeleteAll?
    ensures Cleanups(before + [a, b]) == Cleanups(before)
  {
    GrownByOne(before, before, a);
    GrownByOne(before + [a], before + [a], b);
    assert before + [a, b] == before + [a] + [b];
  }

  /** An effect after a terminal result would have happened where the document may not go on. */
  lemma NothingAfterTerminal(base: seq<Event>, trace: seq<Act>, i: nat, j: nat)
    requires Guarded(base, trace) && OneDocument(trace) && Bracketed(base) && LevelAfter(base).InDoc?
    requires i < j < |trace| && StopsAt(trace[i])
    ensures !IsEffect(trace[j])
  {
    hide MayGoOn, EventsOf, StopsAt, LevelAfter;
    if IsEffect(trace[j]) {
      GoesOnBackwards(base, trace[..j], i + 1);
      assert trace[..j][..i + 1] == trace[..i + 1];
      StopsThere(base, trace, i);
    }
  }

  lemma StopsThere(base: seq<Event>, trace: seq<Act>, i: nat)
    requires OneDocument(trace) && i < |trace| && StopsAt(trace[i])
    ensures !MayGoOn(base, trace[..i + 1])
  {
    if MayGoOn(base, trace[..i + 1]) {
      var before := base + EventsOf(trace[..i]);
      EventsOfLast(trace, i);
      assert base + (EventsOf(trace[..i]) + [trace[i].e]) == before + [trace[i].e];
      PrefixBracketed(before + [trace[i].e], |before|);
      assert (before + [trace[i].e])[..|before|] == before;
      ContinuesAfter(before, trace[i].e);
    }
  }

  lemma EventsOfLast(trace: seq<Act>, i: nat)
    requires i < |trace|
    ensures EventsOf(trace[..i + 1]) == EventsOf(trace[..i]) + if trace[i].Recorded? then [trace[i].e] else []
  {
    assert trace[..i + 1][..i] == trace[..i];
  }

  lemma GuardedIsQuiet(base: seq<Event>, trace: seq<Act>)
    requires Guarded(base, trace) && OneDocument(trace) && Bracketed(base) && LevelAfter(base).InDoc?
    ensures QuietAfterTerminal(trace)
  {
    forall i, j | 0 <= i < j < |trace| && StopsAt(trace[i])
      ensures !IsEffect(trace[j])
    {
      NothingAfterTerminal(base, trace, i, j);
    }
  }

  /** A document that may go on could go on at every earlier point. */
  lemma {:induction false} GoesOnBackwards(base: seq<Event>, trace: seq<Act>, n: nat)
    requires MayGoOn(base, trace) && OneDocument(trace) && n <= |trace|
    ensures MayGoOn(base, trace[..n])
    decreases |trace|
  {
    if n == |trace| {
      assert trace[..n] == trace;
    } else {
      var m := |trace| - 1;
      var front, a := trace[..m], trace[m];
      assert front[..n] == trace[..n];
      if a.Recorded? {
        var before := base + EventsOf(front);
        assert base + EventsOf(trace) == before + [a.e];
        PrefixBracketed(before + [a.e], |before|);
        assert (before + [a.e])[..|before|] == before;
        ContinuesAfter(before, a.e);
      } else {
        assert EventsOf(front) + [] == EventsOf(front);
      }
      GoesOnBackwards(base, front, n);
    }
  }

  /** The switch over operations has a case for it. */
  predicate Runnable(o: Hydrated) {
    o.operation == UPDATE || o.operation == DELETE
  }

  /** The first candidate of this run. */
  method FindMatch(candidates: seq<Candidate>, runID: string) returns (found: Option<Candidate>)
    ensures found.None? <==> forall i :: 0 <= i < |candidates| ==> candidates[i].runID != runID
    ensures found.Some? ==> exists i :: IsFirst(candidates, runID, i) && candidates[i] == found.value
  {
    for i := 0 to |candidates|
      invariant forall j :: 0 <= j < i ==> candidates[j].runID != runID
    {
      if candidates[i].runID == runID {
        assert IsFirst(candidates, runID, i);
        return Some(candidates[i]);
      }
    }
    return None;
  }

  lemma RecordedNext(base: seq<Event>, trace: seq<Act>, e: Event)
    requires Guarded(base, trace) && Bracketed(base + EventsOf(trace)) && Bracketed(base + EventsOf(trace) + [e])
    requires !e.OpenDoc? && !e.CloseDoc?
    ensures var next := trace + [Recorded(e)];
            && Guarded(base, next) && GrownFrom(trace, next)
            && base + EventsOf(next) == base + EventsOf(trace) + [e]
            && (MayGoOn(base, next) <==> MayGoOn(base, trace) && (e.Report? ==> NoneTerminal(e.results)))
  {
    GuardedNext(base, trace, Recorded(e));
    GrownByOne(trace, trace, Recorded(e));
    hide Guarded, GrownFrom, Bracketed, Continues, After;
    assert EventsOf(trace + [Recorded(e)]) == EventsOf(trace) + [e] by {
      assert (trace + [Recorded(e)])[..|trace|] == trace;
    }
    hide EventsOf;
    assert base + (EventsOf(trace) + [e]) == base + EventsOf(trace) + [e];
    ContinuesAfter(base + EventsOf(trace), e);
  }
}
