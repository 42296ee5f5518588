/**
 What a recorder run means. The recorder keeps every result; the tree and TAP
 writers only keep counters. All three are functions of the run's events, and
 the writers' output is proved to be a recount of what the recorder kept.
 */
module Recorder {
  import opened Options

  datatype Severity = Info | Error | Fatal | Skip

  datatype Result = Result(severity: Severity, message: string)

  predicate IsTerminal(r: Result) {
    r.severity.Fatal? || r.severity.Skip?
  }

  predicate IsFailed(r: Result) {
    r.severity.Fatal? || r.severity.Error?
  }

  datatype Step = Step(description: string, results: seq<Result>)

  datatype Document = Document(steps: seq<Step>)

  /** The recorder's fields; the open document and step are positions in docs. */
  datatype Recording = Recording(docs: seq<Document>, doc: Option<nat>, step: Option<nat>)

  const Blank := Recording([], None, None)

  datatype Event = OpenDoc | OpenStep(description: string) | Report(results: seq<Result>) | CloseStep | CloseDoc

  predicate Sound(s: Recording) {
    && (s.doc.Some? ==> s.doc.value < |s.docs|)
    && (s.step.Some? ==> s.doc.Some? && s.step.value < |s.docs[s.doc.value].steps|)
  }

  /** The conditions that must.Check asserts. */
  predicate Permitted(s: Recording, e: Event) {
    match e
    case OpenDoc => s.step.None?
    case OpenStep(_) => s.doc.Some?
    case Report(_) => s.step.Some?
    case CloseStep => s.step.Some?
    case CloseDoc => s.doc.Some? && s.step.None?
  }

  function Record(s: Recording, e: Event): Recording
    requires Sound(s) && Permitted(s, e)
  {
    match e
    case OpenDoc => Recording(s.docs + [Document([])], Some(|s.docs|), None)
    case OpenStep(desc) =>
      var d := s.docs[s.doc.value];
      Recording(s.docs[s.doc.value := Document(d.steps + [Step(desc, [])])], s.doc, Some(|d.steps|))
    case Report(rs) =>
      var d := s.docs[s.doc.value];
      var st := d.steps[s.step.value];
      s.(docs := s.docs[s.doc.value := Document(d.steps[s.step.value := st.(results := st.results + rs)])])
    case CloseStep => s.(step := None)
    case CloseDoc => s.(doc := None)
  }

  function StepTerminal(st: Step): bool {
    exists i :: 0 <= i < |st.results| && IsTerminal(st.results[i])
  }

  function StepFailed(st: Step): bool {
    exists i :: 0 <= i < |st.results| && (st.results[i].severity == Error || st.results[i].severity == Fatal)
  }

  predicate DocTerminal(d: Document) {
    exists i :: 0 <= i < |d.steps| && StepTerminal(d.steps[i])
  }

  predicate DocFailed(d: Document) {
    exists i :: 0 <= i < |d.steps| && StepFailed(d.steps[i])
  }

  /** With a document open only its own results count; otherwise all of them do. */
  predicate Continues(s: Recording)
    requires Sound(s)
  {
    if s.doc.Some? then !DocTerminal(s.docs[s.doc.value])
    else forall i :: 0 <= i < |s.docs| ==> !DocTerminal(s.docs[i])
  }

  predicate HasFailed(s: Recording) {
    exists i :: 0 <= i < |s.docs| && DocFailed(s.docs[i])
  }

  // ---- Bracketed runs ----

  datatype Level = Outside | InDoc | InStep | Broken

  function Nest(l: Level, e: Event): Level {
    match (l, e)
    case (Outside, OpenDoc) => InDoc
    case (InDoc, OpenStep(_)) => InStep
    case (InStep, Report(_)) => InStep
    case (InStep, CloseStep) => InDoc
    case (InDoc, CloseDoc) => Outside
    case (_, _) => Broken
  }

  function LevelAfter(events: seq<Event>): Level {
    if events == [] then Outside else Nest(LevelAfter(events[..|events| - 1]), events[|events| - 1])
  }

  /** Documents and steps open and close in pairs, and results come inside a step. */
  predicate Bracketed(events: seq<Event>) {
    LevelAfter(events) != Broken
  }

  /** An open step is the last step of the open document, which is the last document. */
  predicate Shaped(s: Recording, l: Level) {
    && l != Broken && Sound(s)
    && (l.Outside? <==> s.doc.None?) && (l.InStep? <==> s.step.Some?)
    && (s.doc.Some? ==> s.doc.value == |s.docs| - 1)
    && (s.step.Some? ==> s.step.value == |s.docs[s.doc.value].steps| - 1)
  }

  function After(events: seq<Event>): (s: Recording)
    requires Bracketed(events)
    ensures Shaped(s, LevelAfter(events))
  {
    if events == [] then Blank
    else Record(After(events[..|events| - 1]), events[|events| - 1])
  }

  /** No must.Check fires in a bracketed run. */
  lemma ChecksHold(events: seq<Event>, e: Event)
    requires Bracketed(events) && Bracketed(events + [e])
    ensures Permitted(After(events), e) && After(events + [e]) == Record(After(events), e)
  {
    assert (events + [e])[..|events|] == events;
  }

  /** From its opening until its close the current step is the one that its closer remembers. */
  lemma {:induction false} StepStaysOpen(events: seq<Event>, k: nat)
    requires Bracketed(events) && k < |events| && events[k].OpenStep?
    requires forall i :: k < i < |events| ==> !events[i].CloseStep?
    ensures Bracketed(events[..k + 1]) && LevelAfter(events).InStep?
    ensures After(events).doc == After(events[..k + 1]).doc && After(events).step == After(events[..k + 1]).step
    decreases |events|
  {
    if k == |events| - 1 {
      assert events[..k + 1] == events;
    } else {
      var front := events[..|events| - 1];
      assert front[..k + 1] == events[..k + 1];
      StepStaysOpen(front, k);
    }
  }

  /** From its opening until its close the current document is the one that its closer remembers. */
  lemma {:induction false} DocStaysOpen(events: seq<Event>, k: nat)
    requires Bracketed(events) && k < |events| && events[k].OpenDoc?
    requires forall i :: k < i < |events| ==> !events[i].CloseDoc?
    ensures Bracketed(events[..k + 1]) && !LevelAfter(events).Outside?
    ensures After(events).doc == After(events[..k + 1]).doc
    decreases |events|
  {
    if k == |events| - 1 {
      assert events[..k + 1] == events;
    } else {
      var front := events[..|events| - 1];
      assert front[..k + 1] == events[..k + 1];
      DocStaysOpen(front, k);
    }
  }

  /** The document in hand: it is the last one, and the others are not touched. */
  function OpenSteps(s: Recording): seq<Step>
    requires s.docs != []
  {
    s.docs[|s.docs| - 1].steps
  }

  function Earlier(s: Recording): seq<Document>
    requires s.docs != []
  {
    s.docs[..|s.docs| - 1]
  }

  lemma OpenDocMoves(s: Recording)
    requires Shaped(s, Outside)
    ensures var s' := Record(s, OpenDoc);
            Shaped(s', InDoc) && s'.docs != [] && Earlier(s') == s.docs && OpenSteps(s') == [] && |s'.docs| == |s.docs| + 1
  {
  }

  lemma OpenStepMoves(s: Recording, desc: string)
    requires Shaped(s, InDoc)
    ensures var s' := Record(s, OpenStep(desc));
            && Shaped(s', InStep) && s.docs != [] && |s'.docs| == |s.docs| && Earlier(s') == Earlier(s)
            && OpenSteps(s') == OpenSteps(s) + [Step(desc, [])]
  {
  }

  lemma ReportMoves(s: Recording, rs: seq<Result>)
    requires Shaped(s, InStep)
    ensures var s' := Record(s, Report(rs));
            && Shaped(s', InStep) && s.docs != [] && |s'.docs| == |s.docs| && Earlier(s') == Earlier(s)
            && OpenSteps(s) != []
            && var k := |OpenSteps(s)| - 1;
               OpenSteps(s') == OpenSteps(s)[..k] + [Step(OpenSteps(s)[k].description, OpenSteps(s)[k].results + rs)]
  {
  }

  lemma CloseStepMoves(s: Recording)
    requires Shaped(s, InStep)
    ensures var s' := Record(s, CloseStep);
            && Shaped(s', InDoc) && s.docs != [] && s'.docs == s.docs && OpenSteps(s') == OpenSteps(s) && OpenSteps(s) != []
            && s.docs[s.doc.value].steps[s.step.value] == OpenSteps(s)[|OpenSteps(s)| - 1]
  {
  }

  lemma {:induction false} PrefixBracketed(events: seq<Event>, n: nat)
    requires Bracketed(events) && n <= |events|
    ensures Bracketed(events[..n])
    decreases |events|
  {
    if n < |events| {
      PrefixBracketed(events[..|events| - 1], n);
      assert events[..|events| - 1][..n] == events[..n];
    } else {
      assert events[..n] == events;
    }
  }

  // ---- Results only grow ----

  predicate StepGrows(a: Step, b: Step) {
    a.description == b.description && a.results <= b.results
  }

  predicate DocGrows(a: Document, b: Document) {
    |a.steps| <= |b.steps| && forall i :: 0 <= i < |a.steps| ==> StepGrows(a.steps[i], b.steps[i])
  }

  predicate Grows(a: Recording, b: Recording) {
    |a.docs| <= |b.docs| && forall i :: 0 <= i < |a.docs| ==> DocGrows(a.docs[i], b.docs[i])
  }

  lemma RecordGrows(s: Recording, e: Event)
    requires Sound(s) && Permitted(s, e)
    ensures Grows(s, Record(s, e))
  {
  }

  lemma GrowsTrans(a: Recording, b: Recording, c: Recording)
    requires Grows(a, b) && Grows(b, c)
    ensures Grows(a, c)
  {
    forall i | 0 <= i < |a.docs|
      ensures DocGrows(a.docs[i], c.docs[i])
    {
      assert DocGrows(a.docs[i], b.docs[i]) && DocGrows(b.docs[i], c.docs[i]);
      forall j | 0 <= j < |a.docs[i].steps|
        ensures StepGrows(a.docs[i].steps[j], c.docs[i].steps[j])
      {
        assert StepGrows(a.docs[i].steps[j], b.docs[i].steps[j]) && StepGrows(b.docs[i].steps[j], c.docs[i].steps[j]);
      }
    }
  }

  lemma {:induction false} RunGrows(events: seq<Event>, n: nat)
    requires Bracketed(events) && n <= |events|
    ensures Bracketed(events[..n]) && Grows(After(events[..n]), After(events))
    decreases |events|
  {
    PrefixBracketed(events, n);
    if n < |events| {
      var front := events[..|events| - 1];
      PrefixBracketed(events, |events| - 1);
      RunGrows(front, n);
      assert front[..n] == events[..n];
      RecordGrows(After(front), events[|events| - 1]);
      GrowsTrans(After(events[..n]), After(front), After(events));
    } else {
      assert events[..n] == events;
    }
  }

  lemma GrowsKeepsVerdicts(a: Document, b: Document)
    requires DocGrows(a, b)
    ensures (DocTerminal(a) ==> DocTerminal(b)) && (DocFailed(a) ==> DocFailed(b))
  {
    if DocTerminal(a) {
      var i :| 0 <= i < |a.steps| && StepTerminal(a.steps[i]);
      var k :| 0 <= k < |a.steps[i].results| && IsTerminal(a.steps[i].results[k]);
      assert StepGrows(a.steps[i], b.steps[i]);
      assert IsTerminal(b.steps[i].results[k]);
    }
    if DocFailed(a) {
      var i :| 0 <= i < |a.steps| && StepFailed(a.steps[i]);
      var k :| 0 <= k < |a.steps[i].results| && IsFailed(a.steps[i].results[k]);
      assert StepGrows(a.steps[i], b.steps[i]);
      assert IsFailed(b.steps[i].results[k]);
    }
  }

  /** Failed never reverts, and a document that stopped stays stopped until it closes. */
  lemma VerdictsLast(events: seq<Event>, n: nat)
    requires Bracketed(events) && n <= |events|
    ensures Bracketed(events[..n])
    ensures HasFailed(After(events[..n])) ==> HasFailed(After(events))
    ensures var a, b := After(events[..n]), After(events);
            a.doc.Some? && a.doc == b.doc && !Continues(a) ==> !Continues(b)
  {
    RunGrows(events, n);
    var a, b := After(events[..n]), After(events);
    if HasFailed(a) {
      var i :| 0 <= i < |a.docs| && DocFailed(a.docs[i]);
      GrowsKeepsVerdicts(a.docs[i], b.docs[i]);
    }
    if a.doc.Some? && a.doc == b.doc {
      GrowsKeepsVerdicts(a.docs[a.doc.value], b.docs[a.doc.value]);
    }
  }

  /** A new document starts afresh, whatever earlier documents hold. */
  lemma NewDocumentContinues(events: seq<Event>)
    requires Bracketed(events) && Bracketed(events + [OpenDoc])
    ensures Continues(After(events + [OpenDoc]))
  {
    ChecksHold(events, OpenDoc);
  }

  /** Neither a Fatal nor a Skip among the results. */
  predicate NoneTerminal(rs: seq<Result>) {
    forall i :: 0 <= i < |rs| ==> rs[i].severity != Fatal && rs[i].severity != Skip
  }

  /** Inside a document, exactly a Fatal or a Skip ends whether to go on. */
  lemma ContinuesAfter(events: seq<Event>, e: Event)
    requires Bracketed(events) && Bracketed(events + [e]) && !e.OpenDoc? && !e.CloseDoc?
    ensures Continues(After(events + [e])) <==>
            Continues(After(events)) && (e.Report? ==> NoneTerminal(e.results))
    ensures After(events + [e]).doc == After(events).doc
  {
    ChecksHold(events, e);
    var s, s' := After(events), After(events + [e]);
    var d, d' := s.docs[s.doc.value], s'.docs[s.doc.value];
    match e {
      case OpenStep(desc) =>
        assert forall i :: 0 <= i < |d.steps| ==> d'.steps[i] == d.steps[i];
        assert !StepTerminal(d'.steps[|d.steps|]);
      case Report(rs) =>
        var k := s.step.value;
        assert forall i :: 0 <= i < |d.steps| && i != k ==> d'.steps[i] == d.steps[i];
        TerminalPlus(d.steps[k], rs);
        assert d'.steps[k] == d.steps[k].(results := d.steps[k].results + rs);
      case CloseStep =>
    }
  }

  lemma TerminalPlus(st: Step, rs: seq<Result>)
    ensures StepTerminal(st.(results := st.results + rs)) <==> StepTerminal(st) || !NoneTerminal(rs)
  {
    var all := st.results + rs;
    if StepTerminal(st) {
      var i :| 0 <= i < |st.results| && IsTerminal(st.results[i]);
      assert IsTerminal(all[i]);
    }
    if !NoneTerminal(rs) {
      var i :| 0 <= i < |rs| && IsTerminal(rs[i]);
      assert IsTerminal(all[|st.results| + i]);
    }
  }

  // ---- Recounting ----

  function Count(rs: seq<Result>, sev: Severity): nat {
    if rs == [] then 0 else Count(rs[..|rs| - 1], sev) + if rs[|rs| - 1].severity == sev then 1 else 0
  }

  function CountSteps(steps: seq<Step>, sev: Severity): nat {
    if steps == [] then 0 else CountSteps(steps[..|steps| - 1], sev) + Count(steps[|steps| - 1].results, sev)
  }

  lemma {:induction false} CountPlus(a: seq<Result>, b: seq<Result>, sev: Severity)
    ensures Count(a + b, sev) == Count(a, sev) + Count(b, sev)
    decreases |b|
  {
    if b == [] {
      assert a + b == a;
    } else {
      CountPlus(a, b[..|b| - 1], sev);
      assert (a + b)[..|a + b| - 1] == a + b[..|b| - 1];
    }
  }

  lemma {:induction false} CountPositive(rs: seq<Result>, sev: Severity)
    ensures Count(rs, sev) > 0 <==> exists i :: 0 <= i < |rs| && rs[i].severity == sev
    decreases |rs|
  {
    if rs != [] {
      var front := rs[..|rs| - 1];
      CountPositive(front, sev);
      if Count(front, sev) > 0 {
        var i :| 0 <= i < |front| && front[i].severity == sev;
        assert rs[i].severity == sev;
      }
    }
  }
}
