/**
 The recorders as objects. A stacked recorder passes every call to a writer and
 then to the default recorder; its state is the run's events so far.
 */
module RecorderObjects {
  import opened Options
  import opened Recorder
  import opened Writers

  class DefaultRecorder {
    var docs: seq<Document>
    var currentDoc: Option<nat>
    var currentStep: Option<nat>

    function State(): Recording
      reads this
    {
      Recording(docs, currentDoc, currentStep)
    }

    constructor ()
      ensures State() == Blank
    {
      docs := [];
      currentDoc := None;
      currentStep := None;
    }

    method ShouldContinue() returns (b: bool)
      requires Sound(State())
      ensures b == Continues(State())
    {
      var which := if currentDoc.Some? then [docs[currentDoc.value]] else docs;
      var terminal := false;
      for i := 0 to |which|
        invariant terminal <==> exists d :: 0 <= d < i && DocTerminal(which[d])
      {
        var found := EachTerminal(which[i]);
        if found {
          terminal := true;
        }
      }
      b := !terminal;
      if currentDoc.Some? {
        assert which[0] == docs[currentDoc.value];
      }
    }

    static method EachTerminal(d: Document) returns (found: bool)
      ensures found == DocTerminal(d)
    {
      found := false;
      for i := 0 to |d.steps|
        invariant found <==> exists s :: 0 <= s < i && StepTerminal(d.steps[s])
      {
        var rs := d.steps[i].results;
        var here := false;
        for k := 0 to |rs|
          invariant here <==> exists j :: 0 <= j < k && IsTerminal(rs[j])
        {
          if IsTerminal(rs[k]) {
            here := true;
          }
        }
        assert here == StepTerminal(d.steps[i]);
        if here {
          found := true;
        }
      }
    }

    static method EachFailed(d: Document) returns (found: bool)
      ensures found == DocFailed(d)
    {
      found := false;
      for i := 0 to |d.steps|
        invariant found <==> exists s :: 0 <= s < i && StepFailed(d.steps[s])
      {
        var rs := d.steps[i].results;
        var here := false;
        for k := 0 to |rs|
          invariant here <==> exists j :: 0 <= j < k && IsFailed(rs[j])
        {
          if IsFailed(rs[k]) {
            here := true;
          }
        }
        assert here == StepFailed(d.steps[i]);
        if here {
          found := true;
        }
      }
    }

    method Failed() returns (b: bool)
      ensures b == HasFailed(State())
    {
      b := false;
      for i := 0 to |docs|
        invariant b <==> exists d :: 0 <= d < i && DocFailed(docs[d])
      {
        var found := EachFailed(docs[i]);
        if found {
          b := true;
        }
      }
    }

    /** Opens a document; the result is what its closer remembers. */
    method NewDocument() returns (doc: nat)
      requires Sound(State()) && Permitted(State(), OpenDoc)
      modifies this
      ensures State() == Record(old(State()), OpenDoc) && currentDoc == Some(doc)
    {
      doc := |docs|;
      currentDoc := Some(doc);
      docs := docs + [Document([])];
    }

    method CloseDocument(doc: nat)
      requires Sound(State()) && Permitted(State(), CloseDoc) && currentDoc == Some(doc)
      modifies this
      ensures State() == Record(old(State()), CloseDoc)
    {
      currentDoc := None;
    }

    method NewStep(desc: string) returns (step: nat)
      requires Sound(State()) && Permitted(State(), OpenStep(desc))
      modifies this
      ensures State() == Record(old(State()), OpenStep(desc)) && currentStep == Some(step)
    {
      var d := docs[currentDoc.value];
      step := |d.steps|;
      currentStep := Some(step);
      docs := docs[currentDoc.value := Document(d.steps + [Step(desc, [])])];
    }

    method EndStep(step: nat)
      requires Sound(State()) && Permitted(State(), CloseStep) && currentStep == Some(step)
      modifies this
      ensures State() == Record(old(State()), CloseStep)
    {
      currentStep := None;
    }

    method Update(rs: seq<Result>)
      requires Sound(State()) && Permitted(State(), Report(rs))
      modifies this
      ensures State() == Record(old(State()), Report(rs))
    {
      var d := docs[currentDoc.value];
      var st := d.steps[currentStep.value];
      docs := docs[currentDoc.value := Document(d.steps[currentStep.value := st.(results := st.results + rs)])];
    }
  }

  class TreeWriter {
    var indent: int
    var docCount: nat
    var stepCount: nat
    var stepErrors: Counts
    var allErrors: Counts
    ghost var lines: seq<TreeLine>

    ghost function State(): Tree
      reads this
    {
      Tree(indent, docCount, stepCount, stepErrors, allErrors, lines)
    }

    constructor ()
      ensures State() == NewTree
    {
      indent, docCount, stepCount := 0, 0, 0;
      stepErrors, allErrors := map[], map[];
      lines := [];
    }

    ghost method Print(line: TreeLine)
      modifies this`lines
      ensures lines == old(lines) + [line]
    {
      lines := lines + [line];
    }

    method NewDocument()
      modifies this
      ensures State() == TreeNext(old(State()), OpenDoc)
    {
      Print(Running(indent));
      docCount := docCount + 1;
      stepCount := 0;
      allErrors := map[];
    }

    method CloseDocument()
      modifies this
      ensures State() == TreeNext(old(State()), CloseDoc)
    {
      Print(DocEnd(indent, VerdictOf(allErrors), stepCount));
    }

    method NewStep(desc: string)
      modifies this
      ensures State() == TreeNext(old(State()), OpenStep(desc))
    {
      Print(StepLine(indent, stepCount, desc));
      indent := indent + 1;
      stepCount := stepCount + 1;
      stepErrors := map[];
    }

    /** Adds the step's counters to the document's. */
    method AddStepErrors()
      modifies this`allErrors
      ensures allErrors == Merge(old(allErrors), stepErrors)
    {
      var todo := stepErrors.Keys;
      while todo != {}
        invariant todo <= stepErrors.Keys
        invariant allErrors.Keys == old(allErrors).Keys + (stepErrors.Keys - todo)
        invariant forall k :: k in stepErrors.Keys - todo ==> allErrors[k] == At(old(allErrors), k) + stepErrors[k]
        invariant forall k :: k in allErrors && k !in stepErrors.Keys - todo ==> allErrors[k] == At(old(allErrors), k)
        decreases todo
      {
        var k :| k in todo;
        allErrors := allErrors[k := At(allErrors, k) + stepErrors[k]];
        todo := todo - {k};
      }
      assert allErrors == Merge(old(allErrors), stepErrors);
    }

    method EndStep()
      modifies this
      ensures State() == TreeNext(old(State()), CloseStep)
    {
      Print(StepEnd(indent, VerdictOf(stepErrors)));
      indent := indent - 1;
      AddStepErrors();
    }

    method Update(rs: seq<Result>)
      modifies this
      ensures State() == TreeNext(old(State()), Report(rs))
    {
      ghost var before := stepErrors;
      for i := 0 to |rs|
        invariant State() == old(State()).(stepErrors := Tally(before, rs[..i]),
                             lines := old(lines) + ResultLines(indent, rs[..i]))
      {
        assert rs[..i + 1][..i] == rs[..i];
        match rs[i].severity {
          case Info => Print(ResultLine(indent, rs[i]));
          case _ =>
            stepErrors := stepErrors[rs[i].severity := At(stepErrors, rs[i].severity) + 1];
            Print(ResultLine(indent, rs[i]));
        }
      }
      assert rs[..|rs|] == rs;
    }
  }

  class TapWriter {
    var docCount: nat
    var stepCount: nat
    var stepErrors: seq<Result>
    var stepSkips: seq<Result>
    ghost var lines: seq<TapLine>

    ghost function State(): Tap
      reads this
    {
      Tap(docCount, stepCount, stepErrors, stepSkips, lines)
    }

    constructor ()
      ensures State() == NewTap
    {
      docCount, stepCount := 0, 0;
      stepErrors, stepSkips := [], [];
      lines := [];
    }

    ghost method Print(line: TapLine)
      modifies this`lines
      ensures lines == old(lines) + [line]
    {
      lines := lines + [line];
    }

    method NewDocument()
      modifies this
      ensures State() == TapNext(old(State()), OpenDoc, "")
    {
      Print(Version(docCount == 0));
      docCount := docCount + 1;
      stepCount := 0;
    }

    method CloseDocument()
      modifies this
      ensures State() == TapNext(old(State()), CloseDoc, "")
    {
      Print(Plan(stepCount));
    }

    /** The closer of a step remembers the number it was given. */
    method NewStep(desc: string) returns (stepNum: nat)
      modifies this
      ensures State() == TapNext(old(State()), OpenStep(desc), "") && stepNum == stepCount
    {
      stepNum := stepCount + 1;
      stepCount := stepCount + 1;
    }

    method EndStep(stepNum: nat, desc: string)
      modifies this
      ensures stepNum == old(stepCount) ==> State() == TapNext(old(State()), CloseStep, desc)
    {
      Print(TapVerdict(stepNum, desc, stepErrors, stepSkips));
      stepErrors := [];
    }

    method Update(rs: seq<Result>)
      modifies this
      ensures State() == TapNext(old(State()), Report(rs), "")
    {
      for i := 0 to |rs|
        invariant State() == old(State()).(stepErrors := old(stepErrors) + Failures(rs[..i]),
                             stepSkips := old(stepSkips) + Skips(rs[..i]), lines := old(lines) + Comments(rs[..i]))
      {
        assert rs[..i + 1][..i] == rs[..i];
        match rs[i].severity {
          case Info => Print(Comment(rs[i]));
          case Skip =>
            Print(Comment(rs[i]));
            stepSkips := stepSkips + [rs[i]];
          case _ =>
            Print(Comment(rs[i]));
            stepErrors := stepErrors + [rs[i]];
        }
      }
      assert rs[..|rs|] == rs;
    }
  }

  datatype Top = TreeTop(tree: TreeWriter) | TapTop(tap: TapWriter)

  /** What a stacked step closer holds: the writer's part and the recorder's part. */
  datatype StepCloser = StepCloser(stepNum: nat, description: string, step: nat)

  /** The closer in hand belongs to the step that is open. */
  ghost predicate ClosesStep(current: Option<StepCloser>, events: seq<Event>, tap: bool) {
    && Bracketed(events)
    && (current.Some? <==> LevelAfter(events).InStep?)
    && (current.Some? ==>
          && After(events).step == Some(current.value.step)
          && current.value.description == LastOpened(events)
          && (tap ==> current.value.stepNum == TapAfter(events).stepCount))
  }

  class Stack {
    const top: Top
    const next: DefaultRecorder
    ghost var events: seq<Event>
    ghost var level: Level
    ghost var current: Option<StepCloser>

    ghost predicate Valid()
      reads this, Repr()
    {
      && Bracketed(events) && level == LevelAfter(events)
      && next.State() == After(events)
      && ClosesStep(current, events, top.TapTop?)
      && match top
         case TreeTop(w) => w.State() == TreeAfter(events)
         case TapTop(w) => w.State() == TapAfter(events)
    }

    ghost function Repr(): set<object> {
      {this, next} + if top.TreeTop? then {top.tree as object} else {top.tap as object}
    }

    constructor (top: Top, next: DefaultRecorder)
      requires next.State() == Blank
      requires match top case TreeTop(w) => w.State() == NewTree case TapTop(w) => w.State() == NewTap
      ensures Valid() && events == [] && this.top == top && this.next == next
    {
      this.top, this.next := top, next;
      events, level, current := [], Outside, None;
    }

    ghost method Note(e: Event, c: Option<StepCloser>)
      requires Bracketed(events) && Bracketed(events + [e])
      requires next.State() == Record(After(events), e)
      requires match top
               case TreeTop(w) => w.State() == TreeNext(TreeAfter(events), e)
               case TapTop(w) => w.State() == TapNext(TapAfter(events), e, LastOpened(events))
      requires ClosesStep(c, events + [e], top.TapTop?)
      modifies this`events, this`level, this`current
      ensures Valid() && events == old(events) + [e] && current == c
    {
      assert (events + [e])[..|events|] == events;
      ChecksHold(events, e);
      events, current := events + [e], c;
      level := LevelAfter(events);
    }

    method ShouldContinue() returns (b: bool)
      requires Valid()
      ensures b == Continues(After(events))
    {
      b := next.ShouldContinue();
    }

    method Failed() returns (b: bool)
      requires Valid()
      ensures b == HasFailed(After(events))
    {
      b := next.Failed();
    }

    method NewDocument() returns (doc: nat)
      requires Valid() && level.Outside?
      modifies Repr()
      ensures Valid() && events == old(events) + [OpenDoc] && level.InDoc? && After(events).doc == Some(doc)
    {
      assert (events + [OpenDoc])[..|events|] == events;
      match top {
        case TreeTop(w) => w.NewDocument();
        case TapTop(w) => w.NewDocument();
      }
      doc := next.NewDocument();
      Note(OpenDoc, None);
    }

    method CloseDocument(doc: nat)
      requires Valid() && level.InDoc? && After(events).doc == Some(doc)
      modifies Repr()
      ensures Valid() && events == old(events) + [CloseDoc] && level.Outside?
    {
      assert (events + [CloseDoc])[..|events|] == events;
      match top {
        case TreeTop(w) => w.CloseDocument();
        case TapTop(w) => w.CloseDocument();
      }
      next.CloseDocument(doc);
      Note(CloseDoc, None);
    }

    method NewStep(desc: string) returns (c: StepCloser)
      requires Valid() && level.InDoc?
      modifies Repr()
      ensures Valid() && events == old(events) + [OpenStep(desc)] && level.InStep? && current == Some(c)
    {
      assert (events + [OpenStep(desc)])[..|events|] == events;
      var stepNum := 0;
      match top {
        case TreeTop(w) => w.NewStep(desc);
        case TapTop(w) => stepNum := w.NewStep(desc);
      }
      var step := next.NewStep(desc);
      c := StepCloser(stepNum, desc, step);
      Note(OpenStep(desc), Some(c));
    }

    method EndStep(c: StepCloser)
      requires Valid() && current == Some(c)
      modifies Repr()
      ensures Valid() && events == old(events) + [CloseStep] && level.InDoc? && current.None?
    {
      assert (events + [CloseStep])[..|events|] == events;
      match top {
        case TreeTop(w) => w.EndStep();
        case TapTop(w) => w.EndStep(c.stepNum, c.description);
      }
      next.EndStep(c.step);
      Note(CloseStep, None);
    }

    method Update(rs: seq<Result>)
      requires Valid() && level.InStep?
      modifies Repr()
      ensures Valid() && events == old(events) + [Report(rs)] && level.InStep? && current == old(current)
    {
      assert (events + [Report(rs)])[..|events|] == events;
      match top {
        case TreeTop(w) => w.Update(rs);
        case TapTop(w) => w.Update(rs);
      }
      next.Update(rs);
      Note(Report(rs), current);
    }
  }
}
