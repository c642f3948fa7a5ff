/** What the XML report of a run says about sections, assertions and counts, element by element. */
module XmlReports {
  import opened XmlWriters
  import opened XmlReporters

  /** The marks of one kind, in order. */
  function Picked(marks: seq<Mark>, f: Mark -> bool): seq<Mark> {
    if marks == [] then []
    else Picked(marks[..|marks| - 1], f) + if f(marks[|marks| - 1]) then [marks[|marks| - 1]] else []
  }

  lemma {:induction false} PickedConcat(a: seq<Mark>, b: seq<Mark>, f: Mark -> bool)
    ensures Picked(a + b, f) == Picked(a, f) + Picked(b, f)
    decreases b
  {
    if b == [] {
      assert a + b == a;
    } else {
      var n := |b| - 1;
      assert (a + b)[..|a| + n] == a + b[..n] && (a + b)[|a| + n] == b[n];
      PickedConcat(a, b[..n], f);
    }
  }

  lemma {:induction false} PickedNone(marks: seq<Mark>, f: Mark -> bool)
    requires forall m :: m in marks ==> !f(m)
    ensures Picked(marks, f) == []
  {
    if marks != [] {
      PickedNone(marks[..|marks| - 1], f);
    }
  }

  lemma {:induction false} PickedAll(marks: seq<Mark>, f: Mark -> bool)
    requires forall m :: m in marks ==> f(m)
    ensures Picked(marks, f) == marks
  {
    if marks != [] {
      var n := |marks| - 1;
      PickedAll(marks[..n], f);
      assert marks == marks[..n] + [marks[n]];
    }
  }

  lemma {:induction false} PickedFirst(first: Mark, rest: seq<Mark>, f: Mark -> bool)
    requires f(first) && forall m :: m in rest ==> !f(m)
    ensures Picked([first] + rest, f) == [first]
  {
    PickedConcat([first], rest, f);
    PickedAll([first], f);
    PickedNone(rest, f);
  }

  lemma {:induction false} PickedElement(name: string, inner: seq<Mark>, f: Mark -> bool)
    ensures Picked(Element(name, inner), f)
         == Picked([Opened(name)], f) + Picked(inner, f) + Picked([Closed(name)], f)
  {
    PickedConcat([Opened(name)], inner, f);
    PickedConcat([Opened(name)] + inner, [Closed(name)], f);
  }

  /** An element of which only the inside is picked. */
  lemma {:induction false} PickedInside(name: string, inner: seq<Mark>, f: Mark -> bool)
    requires !f(Opened(name)) && !f(Closed(name))
    ensures Picked(Element(name, inner), f) == Picked(inner, f)
  {
    PickedElement(name, inner, f);
    PickedNone([Opened(name)], f);
    PickedNone([Closed(name)], f);
  }

  /** An element of which only the start is picked. */
  lemma {:induction false} PickedStart(name: string, inner: seq<Mark>, f: Mark -> bool)
    requires f(Opened(name)) && !f(Closed(name)) && forall m :: m in inner ==> !f(m)
    ensures Picked(Element(name, inner), f) == [Opened(name)]
  {
    PickedElement(name, inner, f);
    PickedAll([Opened(name)], f);
    PickedNone(inner, f);
    PickedNone([Closed(name)], f);
  }

  /** What is picked from the report of a run is picked event by event. */
  lemma {:induction false} PickedEvents(p: Phase, events: seq<Event>, g: (Phase, Event) -> seq<Mark>, f: Mark -> bool,
                                        h: (Phase, Event) -> seq<Mark>)
    requires WellNested(p, events) && forall q, e :: Allowed(q, e) ==> Picked(g(q, e), f) == h(q, e)
    ensures Picked(Collected(p, events, g), f) == Collected(p, events, h)
    decreases events
  {
    if events != [] {
      PickedEvents(Next(p, events[0]), events[1..], g, f, h);
      PickedConcat(g(p, events[0]), Collected(Next(p, events[0]), events[1..], g), f);
    }
  }

  // ---------- Structure and totals ----------

  /** The elements for what has its own results, with their names. */
  predicate IsStructural(m: Mark) {
    match m
    case Opened(name) => name in {"Catch", "Group", "TestCase", "Section"}
    case HasAttribute(element, name, _) => element in {"Catch", "Group", "TestCase", "Section"} && name == "name"
    case HasText(_, _) => false
    case Closed(name) => name in {"Catch", "Group", "TestCase", "Section"}
  }

  /** A start tag with a name; an empty name is left out. */
  function Named(element: string, name: string): seq<Mark> {
    [Opened(element)] + if name == "" then [] else [HasAttribute(element, "name", name)]
  }

  /** Sections inside the outermost one, which is the test case itself, have their own element. */
  function StartOf(config: Config, p: Phase, e: Event): seq<Mark> {
    match e
    case TestRunStarting => Named("Catch", config.name)
    case TestGroupStarting(name) => Named("Group", name)
    case TestCaseStarting(name, _, _, _) => Named("TestCase", name)
    case SectionStarting(name, _, _) => if p.InTestCase? && p.depth >= 1 then Named("Section", name) else []
    case _ => []
  }

  function EndOf(p: Phase, e: Event): seq<Mark> {
    match e
    case SectionEnded(_, _) => if p.InTestCase? && p.depth >= 2 then [Closed("Section")] else []
    case TestCaseEnded(_, _, _, _) => [Closed("TestCase")]
    case TestGroupEnded(_) => [Closed("Group")]
    case TestRunEnded(_) => [Closed("Catch")]
    case _ => []
  }

  function StructureOf(config: Config, p: Phase, e: Event): seq<Mark> {
    StartOf(config, p, e) + EndOf(p, e)
  }

  predicate IsTotal(m: Mark) {
    m.HasAttribute? && m.name in {"successes", "failures", "expectedFailures", "success"}
    && m.element in {"OverallResults", "OverallResult"}
  }

  function AllCounts(counts: CountTexts): seq<Mark> {
    AttributeOf("OverallResults", "successes", counts.passed) + AttributeOf("OverallResults", "failures", counts.failed)
    + AttributeOf("OverallResults", "expectedFailures", counts.failedButOk)
  }

  /** The numbers at the end of a section, group or run, and whether a test case is all right. */
  function TotalsOf(p: Phase, e: Event): seq<Mark> {
    match e
    case SectionEnded(counts, _) => if p.InTestCase? && p.depth >= 2 then AllCounts(counts) else []
    case TestCaseEnded(allOk, _, _, _) => [HasAttribute("OverallResult", "success", if allOk then "true" else "false")]
    case TestGroupEnded(counts) => AllCounts(counts)
    case TestRunEnded(counts) => AllCounts(counts)
    case _ => []
  }

  // ---------- Results of assertions ----------

  /** The elements for expressions and results, and whether the expressions were true. */
  predicate IsResult(m: Mark) {
    || (m.Opened? && m.name in {"Expression", "Exception", "FatalErrorCondition", "Failure"})
    || (m.HasAttribute? && m.element == "Expression" && m.name == "success")
  }

  /** An assertion is reported if it failed or warns, or if all are. */
  predicate IsReported(config: Config, a: Assertion) {
    config.includeSuccessful || !a.isOk || a.rtype == Warning
  }

  function ResultsOf(config: Config, e: Event): seq<Mark> {
    if e.AssertionEnded? && IsReported(config, e.assertion) then
      (if !e.assertion.hasExpression then []
       else [Opened("Expression"), HasAttribute("Expression", "success", if e.assertion.succeeded then "true" else "false")])
      + match e.assertion.rtype
        case ThrewException => [Opened("Exception")]
        case FatalErrorCondition => [Opened("FatalErrorCondition")]
        case ExplicitFailure => [Opened("Failure")]
        case _ => []
    else []
  }

  lemma {:induction false} MessagesHaveNone(messages: seq<Message>)
    ensures forall m :: m in MessagesOf(messages) ==> !IsResult(m)
  {
    if messages != [] {
      MessagesHaveNone(messages[..|messages| - 1]);
    }
  }

  lemma {:induction false} ResultTold(a: Assertion)
    ensures Picked(ResultOf(a), IsResult) ==
            match a.rtype
            case ThrewException => [Opened("Exception")]
            case FatalErrorCondition => [Opened("FatalErrorCondition")]
            case ExplicitFailure => [Opened("Failure")]
            case _ => []
  {
    match a.rtype {
      case ThrewException =>
        PickedStart("Exception", SourceOf("Exception", a.source) + TextOf("Exception", a.message), IsResult);
      case FatalErrorCondition =>
        PickedStart("FatalErrorCondition", SourceOf("FatalErrorCondition", a.source)
                                           + TextOf("FatalErrorCondition", a.message), IsResult);
      case ExplicitFailure =>
        PickedStart("Failure", SourceOf("Failure", a.source) + TextOf("Failure", a.message), IsResult);
      case _ =>
        PickedNone(ResultOf(a), IsResult);
    }
  }

  lemma {:induction false} OutcomeFirst(a: Assertion)
    ensures var outcome := HasAttribute("Expression", "success", if a.succeeded then "true" else "false");
            var b, c := AttributeOf("Expression", "type", a.macroName), SourceOf("Expression", a.source);
            ExpressionOf(a) + EvaluationOf(a) == [outcome] + (b + c + EvaluationOf(a))
  {
    hide SourceOf, EvaluationOf;
  }

  lemma {:induction false} RestHasNone(a: Assertion)
    ensures var b, c := AttributeOf("Expression", "type", a.macroName), SourceOf("Expression", a.source);
            forall m :: m in b + c + EvaluationOf(a) ==> !IsResult(m)
  {
  }

  lemma {:induction false} ExpressionTold(a: Assertion)
    ensures Picked(ExpressionOf(a) + EvaluationOf(a), IsResult)
         == [HasAttribute("Expression", "success", if a.succeeded then "true" else "false")]
  {
    hide Picked, ExpressionOf, EvaluationOf, SourceOf, AttributeOf;
    var outcome := HasAttribute("Expression", "success", if a.succeeded then "true" else "false");
    var b, c := AttributeOf("Expression", "type", a.macroName), SourceOf("Expression", a.source);
    OutcomeFirst(a);
    RestHasNone(a);
    PickedFirst(outcome, b + c + EvaluationOf(a), IsResult);
  }

  lemma {:induction false} ExpressionMarks()
    ensures Picked([Opened("Expression")], IsResult) == [Opened("Expression")] && Picked([Closed("Expression")], IsResult) == []
  {
    PickedAll([Opened("Expression")], IsResult);
    PickedNone([Closed("Expression")], IsResult);
  }

  /** The whole element of an expression. */
  lemma {:induction false} ElementTold(a: Assertion)
    ensures var outcome := HasAttribute("Expression", "success", if a.succeeded then "true" else "false");
            Picked(Element("Expression", ExpressionOf(a) + EvaluationOf(a) + ResultOf(a)), IsResult)
            == [Opened("Expression"), outcome] + Picked(ResultOf(a), IsResult)
  {
    hide Picked, ExpressionOf, EvaluationOf, ResultOf, Element, IsResult;
    ExpressionTold(a);
    ExpressionMarks();
    PickedConcat(ExpressionOf(a) + EvaluationOf(a), ResultOf(a), IsResult);
    PickedElement("Expression", ExpressionOf(a) + EvaluationOf(a) + ResultOf(a), IsResult);
  }

  lemma {:induction false} AssertionTold(config: Config, a: Assertion)
    ensures Picked(AssertionOf(config, a), IsResult) == ResultsOf(config, AssertionEnded(a))
  {
    hide Picked, ExpressionOf, EvaluationOf, ResultOf, Element, IsResult, MessagesOf;
    var result, element := ResultOf(a), Element("Expression", ExpressionOf(a) + EvaluationOf(a) + ResultOf(a));
    var messages := if config.includeSuccessful || !a.isOk then MessagesOf(a.messages) else [];
    MessagesHaveNone(a.messages);
    PickedNone(messages, IsResult);
    ResultTold(a);
    ElementTold(a);
    PickedNone([], IsResult);
    PickedConcat(messages, [], IsResult);
    PickedConcat(messages, element, IsResult);
    PickedConcat(messages, result, IsResult);
  }

  // ---------- What is not picked ----------

  predicate Free(marks: seq<Mark>, f: Mark -> bool) {
    forall m :: m in marks ==> !f(m)
  }

  /** The elements that come with the end of something. */
  const ENDS := {"OverallResults", "OverallResult", "StdOut", "StdErr"}

  const DETAILS := {"filename", "line", "description", "tags", "durationInSeconds"}

  /** No text is picked, no detail and no element for results as such. */
  ghost predicate Skips(f: Mark -> bool) {
    && (forall element, text :: !f(HasText(element, text)))
    && (forall element, name, value :: name in DETAILS ==> !f(HasAttribute(element, name, value)))
    && forall name :: name in ENDS ==> !f(Opened(name)) && !f(Closed(name))
  }

  lemma {:induction false} FreeDetails(element: string, f: Mark -> bool)
    requires Skips(f)
    ensures forall value :: Free(AttributeOf(element, "description", value), f)
    ensures forall value :: Free(AttributeOf(element, "tags", value), f)
    ensures forall source :: Free(SourceOf(element, source), f)
    ensures forall config, duration :: Free(DurationOf(config, element, duration), f)
    ensures forall text :: Free(TextOf(element, text), f)
    ensures Free([], f)
  {
  }

  lemma {:induction false} FreeBoth(a: seq<Mark>, b: seq<Mark>, f: Mark -> bool)
    requires Free(a, f) && Free(b, f)
    ensures Free(a + b, f)
  {
  }

  lemma {:induction false} FreeElement(name: string, inner: seq<Mark>, f: Mark -> bool)
    requires Free(inner, f) && !f(Opened(name)) && !f(Closed(name))
    ensures Free(Element(name, inner), f)
  {
  }

  lemma {:induction false} FreeOutput(stdOut: string, stdErr: string, f: Mark -> bool)
    requires Skips(f)
    ensures Free(OutputOf(stdOut, stdErr), f)
  {
    FreeDetails("StdOut", f);
    FreeDetails("StdErr", f);
    hide Free, TextOf, Element;
    FreeElement("StdOut", TextOf("StdOut", stdOut), f);
    FreeElement("StdErr", TextOf("StdErr", stdErr), f);
    FreeBoth(if stdOut != "" then Element("StdOut", TextOf("StdOut", stdOut)) else [],
             if stdErr != "" then Element("StdErr", TextOf("StdErr", stdErr)) else [], f);
  }

  lemma {:induction false} PickedBefore(front: seq<Mark>, rest: seq<Mark>, f: Mark -> bool)
    requires Free(rest, f)
    ensures Picked(front + rest, f) == Picked(front, f)
  {
    PickedConcat(front, rest, f);
    PickedNone(rest, f);
  }

  // ---------- What is told of an event ----------

  lemma {:induction false} NameTold(element: string, name: string)
    ensures [Opened(element)] + AttributeOf(element, "name", name) == Named(element, name)
  {
  }

  lemma {:induction false} TestCaseTold(config: Config, p: Phase, e: Event, f: Mark -> bool)
    requires e.TestCaseStarting? && Skips(f)
    ensures Picked(Told(config, p, e), f) == Picked(StartOf(config, p, e), f)
  {
    FreeDetails("TestCase", f);
    hide Picked, Free, Skips, AttributeOf, SourceOf, Named;
    var name, a := [Opened("TestCase")], AttributeOf("TestCase", "name", e.name);
    var b, c := AttributeOf("TestCase", "description", e.description), AttributeOf("TestCase", "tags", e.tags);
    var d := SourceOf("TestCase", e.source);
    NameTold("TestCase", e.name);
    FreeBoth(b, c, f);
    FreeBoth(b + c, d, f);
    ThreePieces(name + a, b, c, d);
    PickedBefore(name + a, b + c + d, f);
  }

  lemma {:induction false} SectionTold(config: Config, p: Phase, e: Event, f: Mark -> bool)
    requires e.SectionStarting? && Skips(f)
    ensures Picked(Told(config, p, e), f) == Picked(StartOf(config, p, e), f)
  {
    FreeDetails("Section", f);
    hide Picked, Free, Skips, AttributeOf, SourceOf, Named;
    var name, a := [Opened("Section")], AttributeOf("Section", "name", e.name);
    var b, c := AttributeOf("Section", "description", e.description), SourceOf("Section", e.source);
    NameTold("Section", e.name);
    FreeBoth(b, c, f);
    Regroup(name + a, b, c);
    PickedBefore(name + a, b + c, f);
  }

  lemma {:induction false} StartTold(config: Config, p: Phase, e: Event, f: Mark -> bool)
    requires e.TestRunStarting? || e.TestGroupStarting? || e.TestCaseStarting? || e.SectionStarting?
    requires Skips(f)
    ensures Picked(Told(config, p, e), f) == Picked(StartOf(config, p, e), f)
  {
    hide Picked, Skips, AttributeOf, Named;
    match e {
      case TestRunStarting => NameTold("Catch", config.name);
      case TestGroupStarting(name) => NameTold("Group", name);
      case TestCaseStarting(_, _, _, _) => TestCaseTold(config, p, e, f);
      case SectionStarting(_, _, _) => SectionTold(config, p, e, f);
    }
  }

  /** The results of a section, test case, group or run, and its end. */
  lemma {:induction false} ResultsAndEndTold(name: string, front: seq<Mark>, rest: seq<Mark>, closed: string, f: Mark -> bool)
    requires Skips(f) && Free(rest, f) && name in ENDS
    ensures Picked(Element(name, front + rest) + [Closed(closed)], f) == Picked(front, f) + Picked([Closed(closed)], f)
  {
    hide Picked, Element;
    PickedConcat(Element(name, front + rest), [Closed(closed)], f);
    PickedInside(name, front + rest, f);
    PickedBefore(front, rest, f);
  }

  lemma {:induction false} TestCaseEndTold(config: Config, p: Phase, e: Event, f: Mark -> bool)
    requires e.TestCaseEnded? && Skips(f)
    ensures Picked(Told(config, p, e), f) == Picked(TotalsOf(p, e), f) + Picked(EndOf(p, e), f)
  {
    FreeDetails("OverallResult", f);
    FreeOutput(e.stdOut, e.stdErr, f);
    hide Free, Skips, Element, DurationOf, OutputOf, Picked;
    var a, b := TotalsOf(p, e), DurationOf(config, "OverallResult", e.duration);
    FreeBoth(b, OutputOf(e.stdOut, e.stdErr), f);
    Regroup(a, b, OutputOf(e.stdOut, e.stdErr));
    ResultsAndEndTold("OverallResult", a, b + OutputOf(e.stdOut, e.stdErr), "TestCase", f);
  }

  lemma {:induction false} SectionEndTold(config: Config, p: Phase, e: Event, f: Mark -> bool)
    requires e.SectionEnded? && Skips(f)
    ensures Picked(Told(config, p, e), f) == Picked(TotalsOf(p, e), f) + Picked(EndOf(p, e), f)
  {
    FreeDetails("OverallResults", f);
    hide Free, Skips, Element, DurationOf, AttributeOf, Picked;
    var duration := DurationOf(config, "OverallResults", e.duration);
    PickedNone([], f);
    ResultsAndEndTold("OverallResults", AllCounts(e.counts), duration, "Section", f);
  }

  lemma {:induction false} GroupEndTold(config: Config, p: Phase, e: Event, f: Mark -> bool)
    requires (e.TestGroupEnded? || e.TestRunEnded?) && Skips(f)
    ensures Picked(Told(config, p, e), f) == Picked(TotalsOf(p, e), f) + Picked(EndOf(p, e), f)
  {
    hide Skips, Element, AttributeOf, Picked;
    var counts := AllCounts(e.counts);
    Regroup(counts, [], []);
    ResultsAndEndTold("OverallResults", counts, [], if e.TestGroupEnded? then "Group" else "Catch", f);
  }

  lemma {:induction false} EndTold(config: Config, p: Phase, e: Event, f: Mark -> bool)
    requires e.SectionEnded? || e.TestCaseEnded? || e.TestGroupEnded? || e.TestRunEnded?
    requires Skips(f)
    ensures Picked(Told(config, p, e), f) == Picked(TotalsOf(p, e), f) + Picked(EndOf(p, e), f)
  {
    hide Told, TotalsOf, EndOf, Picked, Skips;
    match e {
      case SectionEnded(_, _) => SectionEndTold(config, p, e, f);
      case TestCaseEnded(_, _, _, _) => TestCaseEndTold(config, p, e, f);
      case TestGroupEnded(_) => GroupEndTold(config, p, e, f);
      case TestRunEnded(_) => GroupEndTold(config, p, e, f);
    }
  }

  /** Whatever an event is, other than an assertion, its marks are those of its start, its totals and its end. */
  lemma {:induction false} EventTold(config: Config, p: Phase, e: Event, f: Mark -> bool)
    requires !e.AssertionEnded? && Skips(f)
    ensures Picked(Told(config, p, e), f)
         == Picked(StartOf(config, p, e), f) + Picked(TotalsOf(p, e), f) + Picked(EndOf(p, e), f)
  {
    PickedNone([], f);
    if e.SectionEnded? || e.TestCaseEnded? || e.TestGroupEnded? || e.TestRunEnded? {
      hide Told, Picked, TotalsOf, EndOf;
      EndTold(config, p, e, f);
    } else {
      hide Told, Picked, StartOf;
      StartTold(config, p, e, f);
    }
  }

  lemma {:induction false} Kinds()
    ensures Skips(IsStructural) && Skips(IsResult) && Skips(IsTotal)
  {
  }

  lemma {:induction false} StartIsStructural(config: Config, p: Phase, e: Event)
    ensures forall m :: m in StartOf(config, p, e) ==> IsStructural(m)
  {
  }

  lemma {:induction false} EndIsStructural(p: Phase, e: Event)
    ensures forall m :: m in EndOf(p, e) ==> IsStructural(m)
  {
  }

  lemma {:induction false} TotalsAreTotals(p: Phase, e: Event)
    ensures forall m :: m in TotalsOf(p, e) ==> IsTotal(m)
  {
  }

  lemma {:induction false} OneKind(m: Mark)
    ensures IsStructural(m) ==> !IsTotal(m) && !IsResult(m)
    ensures IsTotal(m) ==> !IsResult(m)
  {
  }

  lemma {:induction false} StructuralPicked(marks: seq<Mark>)
    requires forall m :: m in marks ==> IsStructural(m)
    ensures Picked(marks, IsStructural) == marks && Picked(marks, IsResult) == Picked(marks, IsTotal) == []
  {
    hide IsStructural, IsTotal, IsResult;
    forall m | m in marks
      ensures !IsTotal(m) && !IsResult(m)
    {
      OneKind(m);
    }
    PickedAll(marks, IsStructural);
    PickedNone(marks, IsResult);
    PickedNone(marks, IsTotal);
  }

  lemma {:induction false} TotalsPicked(marks: seq<Mark>)
    requires forall m :: m in marks ==> IsTotal(m)
    ensures Picked(marks, IsTotal) == marks && Picked(marks, IsResult) == Picked(marks, IsStructural) == []
  {
    hide IsStructural, IsTotal, IsResult;
    forall m | m in marks
      ensures !IsStructural(m) && !IsResult(m)
    {
      OneKind(m);
    }
    PickedAll(marks, IsTotal);
    PickedNone(marks, IsResult);
    PickedNone(marks, IsStructural);
  }

  lemma {:induction false} PiecesPicked(config: Config, p: Phase, e: Event)
    ensures Picked(StartOf(config, p, e), IsStructural) == StartOf(config, p, e)
    ensures Picked(StartOf(config, p, e), IsResult) == Picked(StartOf(config, p, e), IsTotal) == []
    ensures Picked(TotalsOf(p, e), IsTotal) == TotalsOf(p, e)
    ensures Picked(TotalsOf(p, e), IsResult) == Picked(TotalsOf(p, e), IsStructural) == []
    ensures Picked(EndOf(p, e), IsStructural) == EndOf(p, e)
    ensures Picked(EndOf(p, e), IsResult) == Picked(EndOf(p, e), IsTotal) == []
  {
    hide Picked, IsStructural, IsTotal, IsResult, StartOf, TotalsOf, EndOf;
    StartIsStructural(config, p, e);
    TotalsAreTotals(p, e);
    EndIsStructural(p, e);
    StructuralPicked(StartOf(config, p, e));
    TotalsPicked(TotalsOf(p, e));
    StructuralPicked(EndOf(p, e));
  }

  // ---------- What is inside an assertion ----------

  const INSIDE := {"Info", "Warning", "Expression", "Original", "Expanded", "Exception", "FatalErrorCondition", "Failure"}

  function ElementOf(m: Mark): string {
    if m.HasAttribute? || m.HasText? then m.element else m.name
  }

  predicate IsInside(marks: seq<Mark>) {
    forall m :: m in marks ==> ElementOf(m) in INSIDE
  }

  lemma {:induction false} InsideBoth(a: seq<Mark>, b: seq<Mark>)
    requires IsInside(a) && IsInside(b)
    ensures IsInside(a + b)
  {
  }

  lemma {:induction false} InsideElement(name: string, inner: seq<Mark>)
    requires IsInside(inner) && name in INSIDE
    ensures IsInside(Element(name, inner))
  {
  }

  lemma {:induction false} InsideDetails(element: string)
    requires element in INSIDE
    ensures forall name, value :: IsInside(AttributeOf(element, name, value))
    ensures forall source :: IsInside(SourceOf(element, source))
    ensures forall text :: IsInside(TextOf(element, text))
    ensures forall text :: IsInside(Element(element, TextOf(element, text)))
    ensures IsInside([])
  {
  }

  lemma {:induction false} InsideMessages(messages: seq<Message>)
    ensures IsInside(MessagesOf(messages))
  {
    InsideDetails("Info");
    InsideDetails("Warning");
    hide IsInside, Element, TextOf;
    if messages != [] {
      var n := |messages| - 1;
      InsideMessages(messages[..n]);
      InsideBoth(MessagesOf(messages[..n]), MessageOf(messages[n]));
    }
  }

  lemma {:induction false} InsideResult(a: Assertion)
    ensures IsInside(ResultOf(a))
  {
    var name := match a.rtype
      case ThrewException => "Exception"
      case FatalErrorCondition => "FatalErrorCondition"
      case ExplicitFailure => "Failure"
      case _ => "Info";
    InsideDetails(name);
    hide IsInside, Element, TextOf, SourceOf;
    InsideBoth(SourceOf(name, a.source), TextOf(name, a.message));
    InsideElement(name, SourceOf(name, a.source) + TextOf(name, a.message));
  }

  lemma {:induction false} InsideExpression(a: Assertion)
    ensures IsInside(ExpressionOf(a) + EvaluationOf(a))
  {
    InsideDetails("Expression");
    InsideDetails("Original");
    InsideDetails("Expanded");
    hide IsInside, Element, TextOf, SourceOf, AttributeOf;
    var x := AttributeOf("Expression", "success", if a.succeeded then "true" else "false");
    var y := AttributeOf("Expression", "type", a.macroName);
    InsideBoth(x, y);
    InsideBoth(x + y, SourceOf("Expression", a.source));
    InsideBoth(Element("Original", TextOf("Original", a.expression)), Element("Expanded", TextOf("Expanded", a.expanded)));
    InsideBoth(ExpressionOf(a), EvaluationOf(a));
  }

  lemma {:induction false} InsideAssertion(config: Config, a: Assertion)
    ensures IsInside(AssertionOf(config, a))
  {
    InsideMessages(a.messages);
    InsideDetails("Info");
    InsideResult(a);
    InsideExpression(a);
    hide IsInside, Element, MessagesOf, ExpressionOf, EvaluationOf, ResultOf;
    var start := ExpressionOf(a) + EvaluationOf(a);
    InsideBoth(start, ResultOf(a));
    InsideElement("Expression", start + ResultOf(a));
    var messages := if config.includeSuccessful || !a.isOk then MessagesOf(a.messages) else [];
    InsideBoth(messages, []);
    InsideBoth(messages, Element("Expression", start + ResultOf(a)));
    InsideBoth(messages, ResultOf(a));
  }

  lemma {:induction false} InsideNotPicked(marks: seq<Mark>)
    requires IsInside(marks)
    ensures Picked(marks, IsStructural) == Picked(marks, IsTotal) == []
  {
    PickedNone(marks, IsStructural);
    PickedNone(marks, IsTotal);
  }

  // ---------- Whole reports ----------

  lemma {:induction false} ResultsTold(config: Config, p: Phase, e: Event)
    ensures Picked(Told(config, p, e), IsResult) == ResultsOf(config, e)
  {
    hide Picked, Skips, AssertionOf, IsReported;
    if e.AssertionEnded? {
      AssertionTold(config, e.assertion);
    } else {
      hide Told, StartOf, TotalsOf, EndOf;
      Kinds();
      EventTold(config, p, e, IsResult);
      PiecesPicked(config, p, e);
    }
  }

  lemma {:induction false} StructureTold(config: Config, p: Phase, e: Event)
    ensures Picked(Told(config, p, e), IsStructural) == StructureOf(config, p, e)
  {
    hide Picked, Skips, AssertionOf;
    if e.AssertionEnded? {
      InsideAssertion(config, e.assertion);
      InsideNotPicked(AssertionOf(config, e.assertion));
    } else {
      hide Told, StartOf, TotalsOf, EndOf;
      Kinds();
      EventTold(config, p, e, IsStructural);
      PiecesPicked(config, p, e);
    }
  }

  lemma {:induction false} TotalsTold(config: Config, p: Phase, e: Event)
    ensures Picked(Told(config, p, e), IsTotal) == TotalsOf(p, e)
  {
    hide Picked, Skips, AssertionOf;
    if e.AssertionEnded? {
      InsideAssertion(config, e.assertion);
      InsideNotPicked(AssertionOf(config, e.assertion));
    } else {
      hide Told, StartOf, TotalsOf, EndOf;
      Kinds();
      EventTold(config, p, e, IsTotal);
      PiecesPicked(config, p, e);
    }
  }

  function Structure(config: Config): (Phase, Event) -> seq<Mark> {
    (p: Phase, e: Event) => StructureOf(config, p, e)
  }

  function Results(config: Config): (Phase, Event) -> seq<Mark> {
    (p: Phase, e: Event) => ResultsOf(config, e)
  }

  /** The report has the elements of the run with their names, the results of its assertions and its totals: each once,
      in the order of the events, and no others. */
  lemma {:induction false} ReportTold(config: Config, events: seq<Event>)
    requires WellNested(BeforeRun, events)
    ensures Picked(AllTold(config, events), IsStructural) == Collected(BeforeRun, events, Structure(config))
    ensures Picked(AllTold(config, events), IsResult) == Collected(BeforeRun, events, Results(config))
    ensures Picked(AllTold(config, events), IsTotal) == Collected(BeforeRun, events, TotalsOf)
  {
    forall q, e | Allowed(q, e)
      ensures Picked(Telling(config)(q, e), IsStructural) == Structure(config)(q, e)
      ensures Picked(Telling(config)(q, e), IsResult) == Results(config)(q, e)
      ensures Picked(Telling(config)(q, e), IsTotal) == TotalsOf(q, e)
    {
      StructureTold(config, q, e);
      ResultsTold(config, q, e);
      TotalsTold(config, q, e);
    }
    PickedEvents(BeforeRun, events, Telling(config), IsStructural, Structure(config));
    PickedEvents(BeforeRun, events, Telling(config), IsResult, Results(config));
    PickedEvents(BeforeRun, events, Telling(config), IsTotal, TotalsOf);
  }

  /** How many assertions with an expression are reported, of all or of those that came out like this. */
  function Expressions(config: Config, events: seq<Event>, outcomes: set<bool>): nat {
    if events == [] then 0
    else
      var e := events[0];
      (if e.AssertionEnded? && e.assertion.hasExpression && e.assertion.succeeded in outcomes
          && (config.includeSuccessful || !e.assertion.isOk || e.assertion.rtype == Warning)
       then 1 else 0)
      + Expressions(config, events[1..], outcomes)
  }

  lemma {:induction false} ResultsCount(config: Config, p: Phase, events: seq<Event>)
    requires WellNested(p, events)
    ensures var results := multiset(Collected(p, events, Results(config)));
            && results[Opened("Expression")] == Expressions(config, events, {true, false})
            && results[HasAttribute("Expression", "success", "false")] == Expressions(config, events, {false})
    decreases events
  {
    if events != [] {
      ResultsCount(config, Next(p, events[0]), events[1..]);
      hide ResultsOf, Collected;
      OneCount(config, events[0]);
      NextCollected(config, p, events);
    }
  }

  lemma {:induction false} NextCollected(config: Config, p: Phase, events: seq<Event>)
    requires WellNested(p, events) && events != []
    ensures multiset(Collected(p, events, Results(config)))
         == multiset(ResultsOf(config, events[0])) + multiset(Collected(Next(p, events[0]), events[1..], Results(config)))
  {
  }

  /** One event only. */
  lemma {:induction false} OneCount(config: Config, e: Event)
    ensures var results := multiset(ResultsOf(config, e));
            && results[Opened("Expression")] == Expressions(config, [e], {true, false})
            && results[HasAttribute("Expression", "success", "false")] == Expressions(config, [e], {false})
  {
  }

  lemma {:induction false} CountBoth(a: seq<Mark>, b: seq<Mark>, m: Mark)
    ensures multiset(a + b)[m] == multiset(a)[m] + multiset(b)[m]
  {
  }

  lemma {:induction false} PickedCount(marks: seq<Mark>, f: Mark -> bool, m: Mark)
    requires f(m)
    ensures multiset(Picked(marks, f))[m] == multiset(marks)[m]
  {
    if marks != [] {
      var n := |marks| - 1;
      PickedCount(marks[..n], f, m);
      assert marks == marks[..n] + [marks[n]];
      assert Picked(marks, f) == Picked(marks[..n], f) + if f(marks[n]) then [marks[n]] else [];
      hide Picked;
      CountBoth(marks[..n], [marks[n]], m);
      CountBoth(Picked(marks[..n], f), if f(marks[n]) then [marks[n]] else [], m);
    }
  }

  /** One Expression element for every assertion with an expression that failed or warns, or for all if all are to be
      reported, and false for those that did not succeed. */
  lemma {:induction false} OneExpressionEach(config: Config, events: seq<Event>)
    requires WellNested(BeforeRun, events)
    ensures var told := multiset(AllTold(config, events));
            && told[Opened("Expression")] == Expressions(config, events, {true, false})
            && told[HasAttribute("Expression", "success", "false")] == Expressions(config, events, {false})
  {
    hide AllTold, Collected, Picked, Expressions, WellNested;
    ReportTold(config, events);
    ResultsCount(config, BeforeRun, events);
    PickedCount(AllTold(config, events), IsResult, Opened("Expression"));
    PickedCount(AllTold(config, events), IsResult, HasAttribute("Expression", "success", "false"));
  }
}
