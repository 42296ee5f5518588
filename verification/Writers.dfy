/**
 The tree and TAP writers as functions of a run's events, and the proof that
 what they print is a recount of what the recorder kept.
 */
module Writers {
  import opened Options
  import opened Recorder

  type Counts = map<Severity, nat>

  function At(m: Counts, sev: Severity): nat {
    if sev in m then m[sev] else 0
  }

  function Tally(m: Counts, rs: seq<Result>): Counts {
    if rs == [] then m
    else
      var front := Tally(m, rs[..|rs| - 1]);
      var sev := rs[|rs| - 1].severity;
      if sev.Info? then front else front[sev := At(front, sev) + 1]
  }

  function Merge(all: Counts, step: Counts): Counts {
    map sev | sev in all.Keys + step.Keys :: At(all, sev) + At(step, sev)
  }

  datatype Verdict = Skipped | FailedWith(n: nat) | Passed

  function VerdictOf(m: Counts): Verdict {
    if At(m, Skip) > 0 then Skipped
    else if At(m, Fatal) + At(m, Error) > 0 then FailedWith(At(m, Error) + At(m, Fatal))
    else Passed
  }

  datatype TreeLine =
    | Running(indent: int)
    | StepLine(indent: int, n: nat, description: string)
    | ResultLine(indent: int, result: Result)
    | StepEnd(indent: int, verdict: Verdict)
    | DocEnd(indent: int, verdict: Verdict, steps: nat)

  datatype Tree = Tree(
    indent: int, docCount: nat, stepCount: nat, stepErrors: Counts, allErrors: Counts, lines: seq<TreeLine>)

  /** One line for each result, whatever its severity. */
  function ResultLines(indent: int, rs: seq<Result>): seq<TreeLine> {
    if rs == [] then [] else ResultLines(indent, rs[..|rs| - 1]) + [ResultLine(indent, rs[|rs| - 1])]
  }

  lemma {:induction false} ResultLinesPlus(indent: int, a: seq<Result>, b: seq<Result>)
    ensures ResultLines(indent, a + b) == ResultLines(indent, a) + ResultLines(indent, b)
    decreases |b|
  {
    if b == [] {
      assert a + b == a;
    } else {
      ResultLinesPlus(indent, a, b[..|b| - 1]);
      assert (a + b)[..|a + b| - 1] == a + b[..|b| - 1];
    }
  }

  const NewTree := Tree(0, 0, 0, map[], map[], [])

  function TreeNext(t: Tree, e: Event): Tree {
    match e
    case OpenDoc =>
      Tree(t.indent, t.docCount + 1, 0, t.stepErrors, map[], t.lines + [Running(t.indent)])
    case OpenStep(desc) =>
      Tree(t.indent + 1, t.docCount, t.stepCount + 1, map[], t.allErrors,
           t.lines + [StepLine(t.indent, t.stepCount, desc)])
    case Report(rs) => t.(stepErrors := Tally(t.stepErrors, rs), lines := t.lines + ResultLines(t.indent, rs))
    case CloseStep =>
      t.(indent := t.indent - 1, allErrors := Merge(t.allErrors, t.stepErrors),
      lines := t.lines + [StepEnd(t.indent, VerdictOf(t.stepErrors))])
    case CloseDoc => t.(lines := t.lines + [DocEnd(t.indent, VerdictOf(t.allErrors), t.stepCount)])
  }

  function TreeAfter(events: seq<Event>): Tree {
    if events == [] then NewTree else TreeNext(TreeAfter(events[..|events| - 1]), events[|events| - 1])
  }

  // ---- The recount ----

  /** The verdict that the recorded results call for. */
  function Judge(count: Severity -> nat): Verdict {
    if count(Skip) > 0 then Skipped
    else if count(Fatal) + count(Error) > 0 then FailedWith(count(Error) + count(Fatal))
    else Passed
  }

  /** A step that is still open. */
  function StepText(n: nat, st: Step): seq<TreeLine> {
    [StepLine(0, n, st.description)] + ResultLines(1, st.results)
  }

  function StepsText(steps: seq<Step>): seq<TreeLine> {
    if steps == [] then []
    else
      var n := |steps| - 1;
      StepsText(steps[..n]) + StepText(n, steps[n]) + [StepEnd(1, Judge(sev => Count(steps[n].results, sev)))]
  }

  function DocsText(docs: seq<Document>): seq<TreeLine> {
    if docs == [] then []
    else
      var d := docs[|docs| - 1];
      DocsText(docs[..|docs| - 1]) + [Running(0)] + StepsText(d.steps)
      + [DocEnd(0, Judge(sev => CountSteps(d.steps, sev)), |d.steps|)]
  }

  function BodyText(steps: seq<Step>, l: Level): seq<TreeLine> {
    if l.InStep? && steps != [] then StepsText(steps[..|steps| - 1]) + StepText(|steps| - 1, steps[|steps| - 1])
    else StepsText(steps)
  }

  /** Everything a reader of the recording would print so far. */
  function TreeText(s: Recording, l: Level): seq<TreeLine>
    requires Shaped(s, l)
  {
    if l.Outside? then DocsText(s.docs)
    else DocsText(Earlier(s)) + [Running(0)] + BodyText(OpenSteps(s), l)
  }

  predicate Recounts(m: Counts, count: Severity -> nat) {
    At(m, Error) == count(Error) && At(m, Fatal) == count(Fatal) && At(m, Skip) == count(Skip)
  }

  /** The counters against the steps of the open document. */
  predicate TreeCounts(t: Tree, steps: seq<Step>, l: Level) {
    && t.stepCount == |steps|
    && (l.InStep? ==> steps != [])
    && Recounts(t.allErrors, sev => CountSteps(if l.InStep? then steps[..|steps| - 1] else steps, sev))
    && (l.InStep? ==> Recounts(t.stepErrors, sev => Count(steps[|steps| - 1].results, sev)))
  }

  /** The writer's counters against the recording. */
  ghost predicate TreeAgrees(t: Tree, s: Recording, l: Level)
    requires Shaped(s, l)
  {
    && t.docCount == |s.docs|
    && t.lines == TreeText(s, l)
    && t.indent == (if l.InStep? then 1 else 0)
    && (!l.Outside? ==> TreeCounts(t, OpenSteps(s), l))
  }

  lemma {:induction false} TallyCounts(m: Counts, rs: seq<Result>, sev: Severity)
    requires !sev.Info?
    ensures At(Tally(m, rs), sev) == At(m, sev) + Count(rs, sev)
    decreases |rs|
  {
    if rs != [] {
      TallyCounts(m, rs[..|rs| - 1], sev);
    }
  }

  lemma TallyMore(m: Counts, before: seq<Result>, rs: seq<Result>)
    requires Recounts(m, sev => Count(before, sev))
    ensures Recounts(Tally(m, rs), sev => Count(before + rs, sev))
  {
    forall sev: Severity | !sev.Info?
      ensures At(Tally(m, rs), sev) == At(m, sev) + Count(rs, sev)
      ensures Count(before + rs, sev) == Count(before, sev) + Count(rs, sev)
    {
      TallyCounts(m, rs, sev);
      CountPlus(before, rs, sev);
    }
  }

  lemma OpenDocAgrees(t: Tree, s: Recording)
    requires Shaped(s, Outside) && TreeAgrees(t, s, Outside)
    ensures TreeAgrees(TreeNext(t, OpenDoc), Record(s, OpenDoc), InDoc)
  {
    OpenDocMoves(s);
    hide Record, Shaped;
    assert DocsText(s.docs) + [Running(0)] + BodyText([], InDoc) == DocsText(s.docs) + [Running(0)];
  }

  lemma OpenStepText(steps: seq<Step>, desc: string)
    ensures BodyText(steps + [Step(desc, [])], InStep) == StepsText(steps) + [StepLine(0, |steps|, desc)]
  {
    hide StepsText;
    var steps' := steps + [Step(desc, [])];
    assert steps'[..|steps|] == steps && steps'[|steps|] == Step(desc, []);
    assert StepText(|steps|, Step(desc, [])) == [StepLine(0, |steps|, desc)];
  }

  lemma OpenStepAgrees(t: Tree, s: Recording, desc: string)
    requires Shaped(s, InDoc) && TreeAgrees(t, s, InDoc)
    ensures TreeAgrees(TreeNext(t, OpenStep(desc)), Record(s, OpenStep(desc)), InStep)
  {
    OpenStepMoves(s, desc);
    OpenStepText(OpenSteps(s), desc);
    hide Record, Shaped, StepsText, DocsText;
    var steps := OpenSteps(s);
    assert (steps + [Step(desc, [])])[..|steps|] == steps;
  }

  lemma ReportText(front: seq<Step>, st: Step, rs: seq<Result>)
    ensures BodyText(front + [Step(st.description, st.results + rs)], InStep) == BodyText(front + [st], InStep) + ResultLines(1, rs)
  {
    StepTextMore(|front|, st, rs);
    hide StepsText, StepText, ResultLines;
    var st' := Step(st.description, st.results + rs);
    LastOf(front, st);
    LastOf(front, st');
    AppendLater(StepsText(front), StepText(|front|, st), ResultLines(1, rs));
  }

  lemma StepTextMore(n: nat, st: Step, rs: seq<Result>)
    ensures StepText(n, Step(st.description, st.results + rs)) == StepText(n, st) + ResultLines(1, rs)
  {
    ResultLinesPlus(1, st.results, rs);
    hide ResultLines;
    AppendLater([StepLine(0, n, st.description)], ResultLines(1, st.results), ResultLines(1, rs));
  }

  lemma LastOf(front: seq<Step>, st: Step)
    ensures (front + [st])[..|front|] == front && (front + [st])[|front|] == st
  {
  }

  lemma ReportCounts(t: Tree, front: seq<Step>, st: Step, rs: seq<Result>)
    requires TreeCounts(t, front + [st], InStep)
    ensures TreeCounts(TreeNext(t, Report(rs)), front + [Step(st.description, st.results + rs)], InStep)
  {
    var st' := Step(st.description, st.results + rs);
    assert (front + [st])[..|front|] == front == (front + [st'])[..|front|];
    TallyMore(t.stepErrors, st.results, rs);
  }

  lemma TreeTextReport(s: Recording, rs: seq<Result>)
    requires Shaped(s, InStep)
    ensures TreeText(Record(s, Report(rs)), InStep) == TreeText(s, InStep) + ResultLines(1, rs)
  {
    ReportMoves(s, rs);
    hide Record, Shaped, BodyText, DocsText, ResultLines;
    var front, st := OpenSteps(s)[..|OpenSteps(s)| - 1], OpenSteps(s)[|OpenSteps(s)| - 1];
    assert OpenSteps(s) == front + [st];
    ReportText(front, st, rs);
    AppendLater(DocsText(Earlier(s)) + [Running(0)], BodyText(OpenSteps(s), InStep), ResultLines(1, rs));
  }

  lemma AppendLater<T>(a: seq<T>, b: seq<T>, c: seq<T>)
    ensures a + (b + c) == a + b + c
  {
  }

  lemma ReportAgrees(t: Tree, s: Recording, rs: seq<Result>)
    requires Shaped(s, InStep) && TreeAgrees(t, s, InStep)
    ensures TreeAgrees(TreeNext(t, Report(rs)), Record(s, Report(rs)), InStep)
  {
    ReportMoves(s, rs);
    TreeTextReport(s, rs);
    hide Record, Shaped, TreeText, TreeCounts, Tally, ResultLines, OpenSteps, Earlier;
    var front, st := OpenSteps(s)[..|OpenSteps(s)| - 1], OpenSteps(s)[|OpenSteps(s)| - 1];
    assert OpenSteps(s) == front + [st];
    ReportCounts(t, front, st, rs);
  }

  lemma CloseStepText(steps: seq<Step>)
    requires steps != []
    ensures StepsText(steps) ==
            BodyText(steps, InStep) + [StepEnd(1, Judge(sev => Count(steps[|steps| - 1].results, sev)))]
  {
  }

  lemma CloseStepCounts(t: Tree, steps: seq<Step>)
    requires TreeCounts(t, steps, InStep)
    ensures Recounts(Merge(t.allErrors, t.stepErrors), sev => CountSteps(steps, sev))
    ensures VerdictOf(t.stepErrors) == Judge(sev => Count(steps[|steps| - 1].results, sev))
  {
    var k := |steps| - 1;
    assert forall sev :: CountSteps(steps, sev) == CountSteps(steps[..k], sev) + Count(steps[k].results, sev);
  }

  lemma TreeTextClose(s: Recording)
    requires Shaped(s, InStep)
    ensures OpenSteps(s) != []
    ensures var steps := OpenSteps(s);
            TreeText(Record(s, CloseStep), InDoc) ==
            TreeText(s, InStep) + [StepEnd(1, Judge(sev => Count(steps[|steps| - 1].results, sev)))]
  {
    CloseStepMoves(s);
    var steps := OpenSteps(s);
    CloseStepText(steps);
    hide Record, Shaped, StepsText, StepText, DocsText, Judge, Count;
    assert BodyText(steps, InDoc) == StepsText(steps);
    AppendLater(DocsText(Earlier(s)) + [Running(0)], BodyText(steps, InStep),
                [StepEnd(1, Judge(sev => Count(steps[|steps| - 1].results, sev)))]);
  }

  lemma CloseStepAgrees(t: Tree, s: Recording)
    requires Shaped(s, InStep) && TreeAgrees(t, s, InStep)
    ensures TreeAgrees(TreeNext(t, CloseStep), Record(s, CloseStep), InDoc)
  {
    CloseStepMoves(s);
    TreeTextClose(s);
    CloseStepCounts(t, OpenSteps(s));
    hide Record, Shaped, TreeText, Merge, VerdictOf, Judge, CountSteps, Count;
  }

  lemma CloseDocAgrees(t: Tree, s: Recording)
    requires Shaped(s, InDoc) && TreeAgrees(t, s, InDoc)
    ensures TreeAgrees(TreeNext(t, CloseDoc), Record(s, CloseDoc), Outside)
  {
    var steps := OpenSteps(s);
    assert VerdictOf(t.allErrors) == Judge(sev => CountSteps(steps, sev));
  }

  /** At every moment of a bracketed run the tree writer has printed the recount, and its counters match. */
  lemma {:induction false} TreeWriterRecounts(events: seq<Event>)
    requires Bracketed(events)
    ensures TreeAgrees(TreeAfter(events), After(events), LevelAfter(events))
    decreases |events|
  {
    if events != [] {
      var front, e := events[..|events| - 1], events[|events| - 1];
      TreeWriterRecounts(front);
      var t, s := TreeAfter(front), After(front);
      match e {
        case OpenDoc => OpenDocAgrees(t, s);
        case OpenStep(desc) => OpenStepAgrees(t, s, desc);
        case Report(rs) => ReportAgrees(t, s, rs);
        case CloseStep => CloseStepAgrees(t, s);
        case CloseDoc => CloseDocAgrees(t, s);
      }
    }
  }

  // ---- TAP ----

  datatype TapLine =
    | Version(first: bool)
    | Comment(result: Result)
    | NotOk(n: nat, description: string, errors: seq<Result>)
    | Fine(n: nat, description: string, skip: bool)
    | Plan(n: nat)

  datatype Tap = Tap(docCount: nat, stepCount: nat, stepErrors: seq<Result>, stepSkips: seq<Result>, lines: seq<TapLine>)

  const NewTap := Tap(0, 0, [], [], [])

  function Failures(rs: seq<Result>): seq<Result> {
    if rs == [] then []
    else Failures(rs[..|rs| - 1]) + if IsFailed(rs[|rs| - 1]) then [rs[|rs| - 1]] else []
  }

  function Skips(rs: seq<Result>): seq<Result> {
    if rs == [] then []
    else Skips(rs[..|rs| - 1]) + if rs[|rs| - 1].severity.Skip? then [rs[|rs| - 1]] else []
  }

  /** One comment for each result, whatever its severity. */
  function Comments(rs: seq<Result>): seq<TapLine> {
    if rs == [] then [] else Comments(rs[..|rs| - 1]) + [Comment(rs[|rs| - 1])]
  }

  lemma {:induction false} CommentsPlus(a: seq<Result>, b: seq<Result>)
    ensures Comments(a + b) == Comments(a) + Comments(b)
    decreases |b|
  {
    if b == [] {
      assert a + b == a;
    } else {
      CommentsPlus(a, b[..|b| - 1]);
      assert (a + b)[..|a + b| - 1] == a + b[..|b| - 1];
    }
  }

  /** The verdict line of the step being closed; stepSkips is never cleared. */
  function TapVerdict(n: nat, desc: string, errors: seq<Result>, skips: seq<Result>): TapLine {
    if |errors| > 0 then NotOk(n, desc, errors) else Fine(n, desc, |skips| > 0)
  }

  /** The closer of a step carries its own number and description. */
  function TapNext(t: Tap, e: Event, desc: string): Tap {
    match e
    case OpenDoc => t.(docCount := t.docCount + 1, stepCount := 0, lines := t.lines + [Version(t.docCount == 0)])
    case OpenStep(_) => t.(stepCount := t.stepCount + 1)
    case Report(rs) =>
      t.(stepErrors := t.stepErrors + Failures(rs), stepSkips := t.stepSkips + Skips(rs), lines := t.lines + Comments(rs))
    case CloseStep =>
      t.(lines := t.lines + [TapVerdict(t.stepCount, desc, t.stepErrors, t.stepSkips)], stepErrors := [])
    case CloseDoc => t.(lines := t.lines + [Plan(t.stepCount)])
  }

  /** The description of the step that was opened last. */
  function LastOpened(events: seq<Event>): string {
    if events == [] then ""
    else if events[|events| - 1].OpenStep? then events[|events| - 1].description
    else LastOpened(events[..|events| - 1])
  }

  function TapAfter(events: seq<Event>): Tap {
    if events == [] then NewTap
    else
      var front := events[..|events| - 1];
      TapNext(TapAfter(front), events[|events| - 1], LastOpened(front))
  }

  function SkipsInSteps(steps: seq<Step>): seq<Result> {
    if steps == [] then [] else SkipsInSteps(steps[..|steps| - 1]) + Skips(steps[|steps| - 1].results)
  }

  function SkipsInDocs(docs: seq<Document>): seq<Result> {
    if docs == [] then [] else SkipsInDocs(docs[..|docs| - 1]) + SkipsInSteps(docs[|docs| - 1].steps)
  }

  function VerdictOn(steps: seq<Step>, earlier: seq<Result>): TapLine
    requires steps != []
  {
    var last := steps[|steps| - 1];
    TapVerdict(|steps|, last.description, Failures(last.results), earlier + SkipsInSteps(steps))
  }

  /** Verdicts numbered from one; a skip anywhere so far marks every later step that passes. */
  function TapSteps(steps: seq<Step>, earlier: seq<Result>): seq<TapLine> {
    if steps == [] then [] else TapSteps(steps[..|steps| - 1], earlier) + [VerdictOn(steps, earlier)]
  }

  /** The verdicts, each after the comments of its step. */
  function TapLines(steps: seq<Step>, earlier: seq<Result>): seq<TapLine> {
    if steps == [] then []
    else TapLines(steps[..|steps| - 1], earlier) + Comments(steps[|steps| - 1].results) + [VerdictOn(steps, earlier)]
  }

  function TapDocs(docs: seq<Document>): seq<TapLine> {
    if docs == [] then []
    else
      var front, d := docs[..|docs| - 1], docs[|docs| - 1];
      TapDocs(front) + [Version(front == [])] + TapLines(d.steps, SkipsInDocs(front)) + [Plan(|d.steps|)]
  }

  function TapBody(steps: seq<Step>, earlier: seq<Result>, l: Level): seq<TapLine> {
    if l.InStep? && steps != [] then TapLines(steps[..|steps| - 1], earlier) + Comments(steps[|steps| - 1].results)
    else TapLines(steps, earlier)
  }

  function TapText(s: Recording, l: Level): seq<TapLine>
    requires Shaped(s, l)
  {
    if l.Outside? then TapDocs(s.docs)
    else TapDocs(Earlier(s)) + [Version(Earlier(s) == [])] + TapBody(OpenSteps(s), SkipsInDocs(Earlier(s)), l)
  }

  /** The counters against the steps of the open document. */
  predicate TapCounts(t: Tap, steps: seq<Step>, earlier: seq<Result>, l: Level) {
    && t.stepCount == |steps|
    && (l.InStep? ==> steps != [])
    && t.stepErrors == (if l.InStep? then Failures(steps[|steps| - 1].results) else [])
    && t.stepSkips == earlier + SkipsInSteps(steps)
  }

  ghost predicate TapAgrees(t: Tap, s: Recording, l: Level)
    requires Shaped(s, l)
  {
    && t.docCount == |s.docs|
    && t.lines == TapText(s, l)
    && if l.Outside? then t.stepErrors == [] && t.stepSkips == SkipsInDocs(s.docs)
       else TapCounts(t, OpenSteps(s), SkipsInDocs(Earlier(s)), l)
  }

  lemma {:induction false} FailuresPlus(a: seq<Result>, b: seq<Result>)
    ensures Failures(a + b) == Failures(a) + Failures(b)
    decreases |b|
  {
    if b == [] {
      assert a + b == a;
    } else {
      FailuresPlus(a, b[..|b| - 1]);
      assert (a + b)[..|a + b| - 1] == a + b[..|b| - 1];
    }
  }

  lemma {:induction false} SkipsPlus(a: seq<Result>, b: seq<Result>)
    ensures Skips(a + b) == Skips(a) + Skips(b)
    decreases |b|
  {
    if b == [] {
      assert a + b == a;
    } else {
      SkipsPlus(a, b[..|b| - 1]);
      assert (a + b)[..|a + b| - 1] == a + b[..|b| - 1];
    }
  }

  lemma {:induction false} FailuresExact(rs: seq<Result>)
    ensures Failures(rs) != [] <==> exists i :: 0 <= i < |rs| && IsFailed(rs[i])
    decreases |rs|
  {
    if rs != [] {
      var front := rs[..|rs| - 1];
      FailuresExact(front);
      if Failures(front) != [] {
        var i :| 0 <= i < |front| && IsFailed(front[i]);
        assert IsFailed(rs[i]);
      }
    }
  }

  /** The open step is the one opened last. */
  lemma {:induction false} LastOpenedIsOpen(events: seq<Event>)
    requires Bracketed(events) && LevelAfter(events).InStep?
    ensures var s := After(events);
            s.docs[s.doc.value].steps[s.step.value].description == LastOpened(events)
    decreases |events|
  {
    var front, e := events[..|events| - 1], events[|events| - 1];
    if e.Report? {
      LastOpenedIsOpen(front);
    }
  }

  lemma TapOpenDoc(t: Tap, s: Recording, desc: string)
    requires Shaped(s, Outside) && TapAgrees(t, s, Outside)
    ensures TapAgrees(TapNext(t, OpenDoc, desc), Record(s, OpenDoc), InDoc)
  {
    OpenDocMoves(s);
    hide Record, Shaped, TapDocs, SkipsInDocs;
    var skips := SkipsInDocs(s.docs);
    assert skips + [] == skips;
    assert TapDocs(s.docs) + [Version(s.docs == [])] + [] == TapDocs(s.docs) + [Version(s.docs == [])];
  }

  lemma TapOpenStepParts(steps: seq<Step>, earlier: seq<Result>, name: string)
    ensures TapBody(steps + [Step(name, [])], earlier, InStep) == TapLines(steps, earlier)
    ensures SkipsInSteps(steps + [Step(name, [])]) == SkipsInSteps(steps)
  {
    LastOf(steps, Step(name, []));
    hide TapLines;
    assert TapLines(steps, earlier) + [] == TapLines(steps, earlier);
  }

  lemma TapOpenStep(t: Tap, s: Recording, name: string, desc: string)
    requires Shaped(s, InDoc) && TapAgrees(t, s, InDoc)
    ensures TapAgrees(TapNext(t, OpenStep(name), desc), Record(s, OpenStep(name)), InStep)
  {
    OpenStepMoves(s, name);
    TapOpenStepParts(OpenSteps(s), SkipsInDocs(Earlier(s)), name);
    hide Record, Shaped, TapDocs, SkipsInDocs, SkipsInSteps, TapLines;
  }

  lemma TapReportParts(front: seq<Step>, st: Step, earlier: seq<Result>, rs: seq<Result>)
    ensures var st' := Step(st.description, st.results + rs);
            && TapBody(front + [st'], earlier, InStep) == TapBody(front + [st], earlier, InStep) + Comments(rs)
            && SkipsInSteps(front + [st']) == SkipsInSteps(front + [st]) + Skips(rs)
  {
    CommentsPlus(st.results, rs);
    SkipsPlus(st.results, rs);
    hide TapLines, Comments, Skips;
    var st' := Step(st.description, st.results + rs);
    LastOf(front, st);
    LastOf(front, st');
    AppendLater(SkipsInSteps(front), Skips(st.results), Skips(rs));
    AppendLater(TapLines(front, earlier), Comments(st.results), Comments(rs));
  }

  lemma TapReportCounts(t: Tap, front: seq<Step>, st: Step, earlier: seq<Result>, rs: seq<Result>, desc: string)
    requires TapCounts(t, front + [st], earlier, InStep)
    ensures TapCounts(TapNext(t, Report(rs), desc), front + [Step(st.description, st.results + rs)], earlier, InStep)
  {
    TapReportParts(front, st, earlier, rs);
    FailuresPlus(st.results, rs);
    hide TapBody, SkipsInSteps, Skips, Failures, Comments;
    AppendLater(earlier, SkipsInSteps(front + [st]), Skips(rs));
  }

  lemma TapTextReport(s: Recording, rs: seq<Result>)
    requires Shaped(s, InStep)
    ensures TapText(Record(s, Report(rs)), InStep) == TapText(s, InStep) + Comments(rs)
  {
    ReportMoves(s, rs);
    hide Record, Shaped, TapBody, TapDocs, Comments, SkipsInDocs;
    var front, st := OpenSteps(s)[..|OpenSteps(s)| - 1], OpenSteps(s)[|OpenSteps(s)| - 1];
    assert OpenSteps(s) == front + [st];
    TapReportParts(front, st, SkipsInDocs(Earlier(s)), rs);
    AppendLater(TapDocs(Earlier(s)) + [Version(Earlier(s) == [])], TapBody(OpenSteps(s), SkipsInDocs(Earlier(s)), InStep), Comments(rs));
  }

  lemma TapReport(t: Tap, s: Recording, rs: seq<Result>, desc: string)
    requires Shaped(s, InStep) && TapAgrees(t, s, InStep)
    ensures TapAgrees(TapNext(t, Report(rs), desc), Record(s, Report(rs)), InStep)
  {
    ReportMoves(s, rs);
    TapTextReport(s, rs);
    hide Record, Shaped, TapText, TapCounts, Comments, SkipsInDocs, OpenSteps, Earlier;
    var front, st := OpenSteps(s)[..|OpenSteps(s)| - 1], OpenSteps(s)[|OpenSteps(s)| - 1];
    assert OpenSteps(s) == front + [st];
    TapReportCounts(t, front, st, SkipsInDocs(Earlier(s)), rs, desc);
  }

  lemma TapCloseText(steps: seq<Step>, earlier: seq<Result>)
    requires steps != []
    ensures TapBody(steps, earlier, InDoc) == TapBody(steps, earlier, InStep) + [VerdictOn(steps, earlier)]
  {
  }

  lemma TapTextClose(s: Recording)
    requires Shaped(s, InStep)
    ensures var steps := OpenSteps(s);
            && TapText(Record(s, CloseStep), InDoc) == TapText(s, InStep) + [VerdictOn(steps, SkipsInDocs(Earlier(s)))]
  {
    CloseStepMoves(s);
    hide Record, Shaped, TapBody, TapDocs, SkipsInDocs, VerdictOn;
    var steps, earlier := OpenSteps(s), SkipsInDocs(Earlier(s));
    TapCloseText(steps, earlier);
    AppendLater(TapDocs(Earlier(s)) + [Version(Earlier(s) == [])], TapBody(steps, earlier, InStep), [VerdictOn(steps, earlier)]);
  }

  lemma TapCloseStep(t: Tap, s: Recording, desc: string)
    requires Shaped(s, InStep) && TapAgrees(t, s, InStep)
    requires s.docs[s.doc.value].steps[s.step.value].description == desc
    ensures TapAgrees(TapNext(t, CloseStep, desc), Record(s, CloseStep), InDoc)
  {
    CloseStepMoves(s);
    TapTextClose(s);
    hide Record, Shaped, TapText, SkipsInDocs, SkipsInSteps, Failures;
  }

  lemma TapCloseDoc(t: Tap, s: Recording, desc: string)
    requires Shaped(s, InDoc) && TapAgrees(t, s, InDoc)
    ensures TapAgrees(TapNext(t, CloseDoc, desc), Record(s, CloseDoc), Outside)
  {
    assert Earlier(s) == s.docs[..|s.docs| - 1];
  }

  /** At every moment of a bracketed run the TAP writer has printed the recount. */
  lemma {:induction false} TapWriterRecounts(events: seq<Event>)
    requires Bracketed(events)
    ensures TapAgrees(TapAfter(events), After(events), LevelAfter(events))
    decreases |events|
  {
    if events != [] {
      var front, e := events[..|events| - 1], events[|events| - 1];
      TapWriterRecounts(front);
      var t, s, desc := TapAfter(front), After(front), LastOpened(front);
      match e {
        case OpenDoc => TapOpenDoc(t, s, desc);
        case OpenStep(name) => TapOpenStep(t, s, name, desc);
        case Report(rs) => TapReport(t, s, rs, desc);
        case CloseStep =>
          LastOpenedIsOpen(front);
          TapCloseStep(t, s, desc);
        case CloseDoc => TapCloseDoc(t, s, desc);
      }
    }
  }

  // ---- What the printed output says ----

  lemma TreeAgreesInDoc(t: Tree, s: Recording)
    requires Shaped(s, InDoc) && TreeAgrees(t, s, InDoc)
    ensures s.docs != [] && t.indent == 0 && t.stepCount == |s.docs[|s.docs| - 1].steps|
    ensures forall sev: Severity :: !sev.Info? ==> At(t.allErrors, sev) == CountSteps(s.docs[|s.docs| - 1].steps, sev)
  {
  }

  lemma CloseFollowsDoc(events: seq<Event>)
    requires Bracketed(events + [CloseDoc])
    ensures LevelAfter(events) == InDoc && TreeAfter(events + [CloseDoc]) == TreeNext(TreeAfter(events), CloseDoc)
  {
    assert (events + [CloseDoc])[..|events|] == events;
  }

  /** When a document closes, the tree writer's totals are those of the recorder. */
  lemma TreeAtClose(events: seq<Event>)
    requires Bracketed(events) && Bracketed(events + [CloseDoc])
    ensures var t, s := TreeAfter(events + [CloseDoc]), After(events);
            && s.docs != []
            && t.indent == 0
            && t.stepCount == |s.docs[|s.docs| - 1].steps|
            && forall sev: Severity :: !sev.Info? ==> At(t.allErrors, sev) == CountSteps(s.docs[|s.docs| - 1].steps, sev)
  {
    TreeWriterRecounts(events);
    CloseFollowsDoc(events);
    TreeAgreesInDoc(TreeAfter(events), After(events));
  }

  /** The verdict on a step depends on the steps up to it. */
  lemma {:induction false} VerdictAt(steps: seq<Step>, earlier: seq<Result>, i: nat)
    requires i < |steps|
    ensures |TapSteps(steps, earlier)| == |steps|
    ensures TapSteps(steps, earlier)[i] == VerdictOn(steps[..i + 1], earlier)
    decreases |steps|
  {
    hide VerdictOn;
    var n := |steps| - 1;
    if i < n {
      VerdictAt(steps[..n], earlier, i);
      assert steps[..n][..i + 1] == steps[..i + 1];
    } else {
      if n > 0 {
        VerdictAt(steps[..n], earlier, n - 1);
      }
      assert steps[..i + 1] == steps;
    }
  }

  /** Verdicts are numbered 1..N in order, and "not ok n" stands exactly for a failed step n. */
  lemma TapStepsShape(steps: seq<Step>, earlier: seq<Result>)
    ensures |TapSteps(steps, earlier)| == |steps|
    ensures forall i :: 0 <= i < |steps| ==>
                          var line := TapSteps(steps, earlier)[i];
                          && (line.NotOk? || line.Fine?) && line.n == i + 1 && line.description == steps[i].description
                          && (line.NotOk? <==> StepFailed(steps[i]))
                          && (line.NotOk? ==> line.errors == Failures(steps[i].results))
  {
    if steps != [] {
      VerdictAt(steps, earlier, 0);
    }
    hide Failures, SkipsInSteps;
    forall i | 0 <= i < |steps|
      ensures var line := TapSteps(steps, earlier)[i];
              && (line.NotOk? || line.Fine?) && line.n == i + 1 && line.description == steps[i].description
              && (line.NotOk? <==> StepFailed(steps[i]))
              && (line.NotOk? ==> line.errors == Failures(steps[i].results))
    {
      VerdictAt(steps, earlier, i);
      FailuresExact(steps[i].results);
    }
  }

  predicate SaysNotOk(lines: seq<TapLine>) {
    exists i :: 0 <= i < |lines| && lines[i].NotOk?
  }

  lemma SaysNotOkPlus(a: seq<TapLine>, b: seq<TapLine>)
    ensures SaysNotOk(a + b) <==> SaysNotOk(a) || SaysNotOk(b)
  {
    if SaysNotOk(a) {
      var i :| 0 <= i < |a| && a[i].NotOk?;
      assert (a + b)[i].NotOk?;
    }
    if SaysNotOk(b) {
      var i :| 0 <= i < |b| && b[i].NotOk?;
      assert (a + b)[|a| + i].NotOk?;
    }
  }

  /** The verdict lines among those printed. */
  function Verdicts(lines: seq<TapLine>): seq<TapLine> {
    if lines == [] then []
    else
      var last := lines[|lines| - 1];
      Verdicts(lines[..|lines| - 1]) + if last.NotOk? || last.Fine? then [last] else []
  }

  lemma {:induction false} VerdictsPlus(a: seq<TapLine>, b: seq<TapLine>)
    ensures Verdicts(a + b) == Verdicts(a) + Verdicts(b)
    decreases |b|
  {
    if b == [] {
      assert a + b == a;
    } else {
      VerdictsPlus(a, b[..|b| - 1]);
      assert (a + b)[..|a + b| - 1] == a + b[..|b| - 1];
    }
  }

  lemma {:induction false} CommentsAreNone(rs: seq<Result>)
    ensures Verdicts(Comments(rs)) == []
    decreases |rs|
  {
    if rs != [] {
      var front := Comments(rs[..|rs| - 1]);
      CommentsAreNone(rs[..|rs| - 1]);
      assert (front + [Comment(rs[|rs| - 1])])[..|front|] == front;
    }
  }

  lemma {:induction false} VerdictsKeepNotOk(lines: seq<TapLine>)
    ensures SaysNotOk(Verdicts(lines)) <==> SaysNotOk(lines)
    decreases |lines|
  {
    if lines != [] {
      var front, last := lines[..|lines| - 1], lines[|lines| - 1];
      VerdictsKeepNotOk(front);
      assert lines == front + [last];
      SaysNotOkPlus(front, [last]);
      SaysNotOkPlus(Verdicts(front), if last.NotOk? || last.Fine? then [last] else []);
    }
  }

  /** Comments aside, what is printed for the steps is their verdicts. */
  lemma {:induction false} VerdictsOfSteps(steps: seq<Step>, earlier: seq<Result>)
    ensures Verdicts(TapLines(steps, earlier)) == TapSteps(steps, earlier)
    decreases |steps|
  {
    if steps != [] {
      var front, rs, verdict := steps[..|steps| - 1], steps[|steps| - 1].results, VerdictOn(steps, earlier);
      VerdictsOfSteps(front, earlier);
      CommentsAreNone(rs);
      OneVerdict(verdict);
      hide Comments, VerdictOn, Verdicts;
      VerdictsPlus(TapLines(front, earlier), Comments(rs));
      VerdictsPlus(TapLines(front, earlier) + Comments(rs), [verdict]);
    }
  }

  lemma OneVerdict(line: TapLine)
    ensures Verdicts([line]) == if line.NotOk? || line.Fine? then [line] else []
  {
    assert [line][..0] == [];
  }

  lemma StepsSayNotOk(d: Document, earlier: seq<Result>)
    ensures SaysNotOk(TapLines(d.steps, earlier)) <==> DocFailed(d)
  {
    VerdictsOfSteps(d.steps, earlier);
    VerdictsKeepNotOk(TapLines(d.steps, earlier));
    hide TapLines, Verdicts;
    TapStepsShape(d.steps, earlier);
    if DocFailed(d) {
      var i :| 0 <= i < |d.steps| && StepFailed(d.steps[i]);
      assert TapSteps(d.steps, earlier)[i].NotOk?;
    }
  }

  lemma {:induction false} DocsSayNotOk(docs: seq<Document>)
    ensures SaysNotOk(TapDocs(docs)) <==> exists i :: 0 <= i < |docs| && DocFailed(docs[i])
    decreases |docs|, 0
  {
    if docs != [] {
      var front, d := docs[..|docs| - 1], docs[|docs| - 1];
      OpenDocSaysNotOk(docs);
      SaysNotOkPlus(TapDocs(front) + [Version(front == [])] + TapLines(d.steps, SkipsInDocs(front)), [Plan(|d.steps|)]);
      FailedLast(Recording(docs, None, None));
    }
  }

  lemma FailedLast(s: Recording)
    requires s.docs != []
    ensures HasFailed(s) <==> HasFailed(s.(docs := s.docs[..|s.docs| - 1])) || DocFailed(s.docs[|s.docs| - 1])
  {
    var front := s.docs[..|s.docs| - 1];
    if HasFailed(s.(docs := front)) {
      var i :| 0 <= i < |front| && DocFailed(front[i]);
      assert DocFailed(s.docs[i]);
    }
  }

  lemma OpenDocSaysNotOk(docs: seq<Document>)
    requires docs != []
    ensures var front, d := docs[..|docs| - 1], docs[|docs| - 1];
            SaysNotOk(TapDocs(front) + [Version(front == [])] + TapLines(d.steps, SkipsInDocs(front)))
            <==> (exists i :: 0 <= i < |front| && DocFailed(front[i])) || DocFailed(d)
    decreases |docs| - 1, 1
  {
    var front, d := docs[..|docs| - 1], docs[|docs| - 1];
    DocsSayNotOk(front);
    StepsSayNotOk(d, SkipsInDocs(front));
    SaysNotOkPlus(TapDocs(front), [Version(front == [])]);
    SaysNotOkPlus(TapDocs(front) + [Version(front == [])], TapLines(d.steps, SkipsInDocs(front)));
  }

  /** Once every step is closed, the run has failed exactly when some "not ok" was printed. */
  lemma FailedIffNotOk(events: seq<Event>)
    requires Bracketed(events) && !LevelAfter(events).InStep?
    ensures HasFailed(After(events)) <==> SaysNotOk(TapAfter(events).lines)
  {
    TapWriterRecounts(events);
    var s := After(events);
    if LevelAfter(events).Outside? {
      DocsSayNotOk(s.docs);
    } else {
      OpenDocSaysNotOk(s.docs);
      FailedLast(s);
    }
  }

  /** A passing step is marked as skipped exactly when anything so far was skipped, in this step or before it. */
  lemma SkipMarkIsSticky(steps: seq<Step>, earlier: seq<Result>, i: nat)
    requires i < |steps|
    ensures |TapSteps(steps, earlier)| == |steps|
    ensures var line := TapSteps(steps, earlier)[i];
            line.Fine? ==> (line.skip <==> earlier != [] || exists k :: 0 <= k <= i && Skips(steps[k].results) != [])
  {
    VerdictAt(steps, earlier, i);
    SkipsInStepsExact(steps[..i + 1]);
    hide TapSteps, SkipsInSteps, Skips, Failures;
    assert forall k :: 0 <= k <= i ==> steps[..i + 1][k] == steps[k];
  }

  /** A document with one step, skipped and closed. */
  lemma FirstSkipped() returns (events: seq<Event>)
    ensures Bracketed(events) && LevelAfter(events).InDoc?
    ensures OpenSteps(After(events)) == [Step("first", [Result(Skip, "no")])]
    ensures TapAfter(events).stepCount == 1 && TapAfter(events).stepErrors == [] && TapAfter(events).stepSkips != []
  {
    var skip := [Result(Skip, "no")];
    OneMore([], OpenDoc);
    events := [] + [OpenDoc];
    OneMore(events, OpenStep("first"));
    events := events + [OpenStep("first")];
    assert OpenSteps(After(events)) == [Step("first", [])];
    OneMore(events, Report(skip));
    SkipsOfOne();
    events := events + [Report(skip)];
    assert OpenSteps(After(events)) == [Step("first", skip)];
    OneMore(events, CloseStep);
    events := events + [CloseStep];
  }

  /** A second step that holds no result, and is marked as skipped all the same. */
  lemma SkipMarkLeaks()
    ensures exists events ::
              && Bracketed(events) && LevelAfter(events).InDoc?
              && OpenSteps(After(events)) == [Step("first", [Result(Skip, "no")]), Step("second", [])]
              && TapAfter(events).lines != [] && TapAfter(events).lines[|TapAfter(events).lines| - 1] == Fine(2, "second", true)
  {
    var a := FirstSkipped();
    OneMore(a, OpenStep("second"));
    var b := a + [OpenStep("second")];
    OneMore(b, CloseStep);
    var c := b + [CloseStep];
    hide Bracketed, LevelAfter, TapAfter, LastOpened, Failures, Skips;
    assert OpenSteps(After(c)) == [Step("first", [Result(Skip, "no")]), Step("second", [])];
    assert TapAfter(c).lines[|TapAfter(c).lines| - 1] == Fine(2, "second", true);
  }

  lemma SkipsOfOne()
    ensures Skips([Result(Skip, "no")]) == [Result(Skip, "no")] && Failures([Result(Skip, "no")]) == []
  {
    assert [Result(Skip, "no")][..0] == [];
  }

  lemma OneMore(events: seq<Event>, e: Event)
    requires Bracketed(events) && Nest(LevelAfter(events), e) != Broken
    ensures Bracketed(events + [e]) && LevelAfter(events + [e]) == Nest(LevelAfter(events), e)
    ensures After(events + [e]) == Record(After(events), e)
    ensures TapAfter(events + [e]) == TapNext(TapAfter(events), e, LastOpened(events))
    ensures LastOpened(events + [e]) == if e.OpenStep? then e.description else LastOpened(events)
  {
    assert (events + [e])[..|events|] == events;
  }

  lemma {:induction false} SkipsInStepsExact(steps: seq<Step>)
    ensures SkipsInSteps(steps) != [] <==> exists k :: 0 <= k < |steps| && Skips(steps[k].results) != []
    decreases |steps|
  {
    if steps != [] {
      var front := steps[..|steps| - 1];
      SkipsInStepsExact(front);
      if SkipsInSteps(front) != [] {
        var k :| 0 <= k < |front| && Skips(front[k].results) != [];
        assert Skips(steps[k].results) != [];
      }
    }
  }
}
