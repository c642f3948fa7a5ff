/** The texts and details in the XML report of a run: what is said about each test, section and assertion. */
module XmlDetails {
  import opened XmlWriters
  import opened XmlReporters
  import opened XmlReports

  /** Texts, and attributes other than names, totals and outcomes. */
  predicate IsDetail(m: Mark) {
    m.HasText? || (m.HasAttribute? && m.name in {"type", "filename", "line", "description", "tags", "durationInSeconds"})
  }

  /** What is empty is left out. */
  function Detail(element: string, name: string, value: string): seq<Mark> {
    if value == "" then [] else [HasAttribute(element, name, value)]
  }

  function Said(element: string, text: string): seq<Mark> {
    if text == "" then [] else [HasText(element, text)]
  }

  function Place(element: string, source: SourceInfo): seq<Mark> {
    Detail(element, "filename", source.file) + Detail(element, "line", source.line)
  }

  function Messages(messages: seq<Message>): seq<Mark> {
    if messages == [] then []
    else
      var last := messages[|messages| - 1];
      Messages(messages[..|messages| - 1])
      + match last.mtype
        case InfoMessage => Said("Info", last.text)
        case WarningMessage => Said("Warning", last.text)
        case OtherMessage => []
  }

  /** The expression, as it was written and as it was evaluated. */
  function Expression(a: Assertion): seq<Mark> {
    Detail("Expression", "type", a.macroName) + Place("Expression", a.source)
    + Said("Original", a.expression) + Said("Expanded", a.expanded)
  }

  function Result(a: Assertion): seq<Mark> {
    match a.rtype
    case ThrewException => Place("Exception", a.source) + Said("Exception", a.message)
    case FatalErrorCondition => Place("FatalErrorCondition", a.source) + Said("FatalErrorCondition", a.message)
    case ExplicitFailure => Place("Failure", a.source) + Said("Failure", a.message)
    case Info => Said("Info", a.message)
    case _ => []
  }

  /** The messages of an assertion are reported unless it is all right and such are not to be reported; so a mere
      warning comes without its messages. */
  function DetailsOf(config: Config, p: Phase, e: Event): seq<Mark> {
    match e
    case TestCaseStarting(_, description, tags, source) =>
      Detail("TestCase", "description", description) + Detail("TestCase", "tags", tags) + Place("TestCase", source)
    case SectionStarting(_, description, source) =>
      if p.InTestCase? && p.depth >= 1 then Detail("Section", "description", description) + Place("Section", source) else []
    case AssertionEnded(a) =>
      (if config.includeSuccessful || !a.isOk then Messages(a.messages) else [])
      + if IsReported(config, a) then (if a.hasExpression then Expression(a) else []) + Result(a) else []
    case SectionEnded(_, duration) =>
      if p.InTestCase? && p.depth >= 2 && config.showDurations then Detail("OverallResults", "durationInSeconds", duration)
      else []
    case TestCaseEnded(_, duration, stdOut, stdErr) =>
      (if config.showDurations then Detail("OverallResult", "durationInSeconds", duration) else [])
      + Said("StdOut", stdOut) + Said("StdErr", stdErr)
    case _ => []
  }

  // ---------- Pieces ----------

  lemma {:induction false} OnePicked(m: Mark)
    ensures Picked([m], IsDetail) == if IsDetail(m) then [m] else []
    ensures Picked([], IsDetail) == []
  {
    assert [m][..0] == [];
  }

  lemma {:induction false} AttributePicked(element: string, name: string, value: string)
    requires name != ""
    ensures Picked(AttributeOf(element, name, value), IsDetail) ==
            if name in {"type", "filename", "line", "description", "tags", "durationInSeconds"}
            then Detail(element, name, value) else []
  {
    OnePicked(HasAttribute(element, name, value));
  }

  lemma {:induction false} TextPicked(element: string, text: string)
    ensures Picked(TextOf(element, text), IsDetail) == Said(element, text)
  {
    OnePicked(HasText(element, text));
  }

  lemma {:induction false} ElementPicked(name: string, inner: seq<Mark>)
    ensures Picked(Element(name, inner), IsDetail) == Picked(inner, IsDetail)
  {
    PickedInside(name, inner, IsDetail);
  }

  lemma {:induction false} BothPicked(a: seq<Mark>, b: seq<Mark>)
    ensures Picked(a + b, IsDetail) == Picked(a, IsDetail) + Picked(b, IsDetail)
  {
    PickedConcat(a, b, IsDetail);
  }

  lemma {:induction false} SourcePicked(element: string, source: SourceInfo)
    ensures Picked(SourceOf(element, source), IsDetail) == Place(element, source)
  {
    hide Picked, AttributeOf;
    AttributePicked(element, "filename", source.file);
    AttributePicked(element, "line", source.line);
    BothPicked(AttributeOf(element, "filename", source.file), AttributeOf(element, "line", source.line));
  }

  lemma {:induction false} CountsPicked(element: string, counts: CountTexts)
    ensures Picked(CountsOf(element, counts), IsDetail) == []
  {
    hide Picked, AttributeOf;
    var a, b := AttributeOf(element, "successes", counts.passed), AttributeOf(element, "failures", counts.failed);
    var c := AttributeOf(element, "expectedFailures", counts.failedButOk);
    AttributePicked(element, "successes", counts.passed);
    AttributePicked(element, "failures", counts.failed);
    AttributePicked(element, "expectedFailures", counts.failedButOk);
    BothPicked(a, b);
    BothPicked(a + b, c);
  }

  lemma {:induction false} DurationPicked(config: Config, element: string, duration: string)
    ensures Picked(DurationOf(config, element, duration), IsDetail)
         == if config.showDurations then Detail(element, "durationInSeconds", duration) else []
  {
    AttributePicked(element, "durationInSeconds", duration);
    OnePicked(Opened(""));
  }

  lemma {:induction false} OutputPicked(stdOut: string, stdErr: string)
    ensures Picked(OutputOf(stdOut, stdErr), IsDetail) == Said("StdOut", stdOut) + Said("StdErr", stdErr)
  {
    var a := if stdOut != "" then Element("StdOut", TextOf("StdOut", stdOut)) else [];
    var b := if stdErr != "" then Element("StdErr", TextOf("StdErr", stdErr)) else [];
    hide Picked, Element, TextOf;
    OnePicked(Opened(""));
    TextPicked("StdOut", stdOut);
    TextPicked("StdErr", stdErr);
    ElementPicked("StdOut", TextOf("StdOut", stdOut));
    ElementPicked("StdErr", TextOf("StdErr", stdErr));
    BothPicked(a, b);
  }

  // ---------- Assertions ----------

  lemma {:induction false} MessagesPicked(messages: seq<Message>)
    ensures Picked(MessagesOf(messages), IsDetail) == Messages(messages)
  {
    hide Picked, Element, TextOf;
    OnePicked(Opened(""));
    if messages != [] {
      var n := |messages| - 1;
      MessagesPicked(messages[..n]);
      TextPicked("Info", messages[n].text);
      TextPicked("Warning", messages[n].text);
      ElementPicked("Info", TextOf("Info", messages[n].text));
      ElementPicked("Warning", TextOf("Warning", messages[n].text));
      BothPicked(MessagesOf(messages[..n]), MessageOf(messages[n]));
    }
  }

  lemma {:induction false} ResultPicked(a: Assertion)
    ensures Picked(ResultOf(a), IsDetail) == Result(a)
  {
    var name := match a.rtype
      case ThrewException => "Exception"
      case FatalErrorCondition => "FatalErrorCondition"
      case ExplicitFailure => "Failure"
      case _ => "Info";
    hide Picked, Element, TextOf, SourceOf, Place, Said;
    OnePicked(Opened(""));
    TextPicked(name, a.message);
    SourcePicked(name, a.source);
    BothPicked(SourceOf(name, a.source), TextOf(name, a.message));
    ElementPicked(name, SourceOf(name, a.source) + TextOf(name, a.message));
    ElementPicked(name, TextOf(name, a.message));
  }

  lemma {:induction false} ExpressionPicked(a: Assertion)
    ensures Picked(ExpressionOf(a) + EvaluationOf(a), IsDetail) == Expression(a)
  {
    hide Picked, Element, TextOf, SourceOf, AttributeOf, Place, Said, Detail;
    var x := AttributeOf("Expression", "success", if a.succeeded then "true" else "false");
    var y, z := AttributeOf("Expression", "type", a.macroName), SourceOf("Expression", a.source);
    var v, w := TextOf("Original", a.expression), TextOf("Expanded", a.expanded);
    AttributePicked("Expression", "success", if a.succeeded then "true" else "false");
    AttributePicked("Expression", "type", a.macroName);
    SourcePicked("Expression", a.source);
    TextPicked("Original", a.expression);
    TextPicked("Expanded", a.expanded);
    ElementPicked("Original", v);
    ElementPicked("Expanded", w);
    BothPicked(x, y);
    BothPicked(x + y, z);
    BothPicked(Element("Original", v), Element("Expanded", w));
    BothPicked(ExpressionOf(a), EvaluationOf(a));
    FourParts(Picked(y, IsDetail), Picked(z, IsDetail), Picked(v, IsDetail), Picked(w, IsDetail));
  }

  lemma {:induction false} FourParts(a: seq<Mark>, b: seq<Mark>, c: seq<Mark>, d: seq<Mark>)
    ensures [] + a + b + (c + d) == a + b + c + d
  {
  }

  lemma {:induction false} AssertionPicked(config: Config, a: Assertion)
    ensures Picked(AssertionOf(config, a), IsDetail) == DetailsOf(config, BeforeRun, AssertionEnded(a))
  {
    hide Picked, Element, MessagesOf, Messages, ExpressionOf, EvaluationOf, ResultOf, Expression, Result;
    var start, result := ExpressionOf(a) + EvaluationOf(a), ResultOf(a);
    var messages := if config.includeSuccessful || !a.isOk then MessagesOf(a.messages) else [];
    OnePicked(Opened(""));
    MessagesPicked(a.messages);
    ExpressionPicked(a);
    ResultPicked(a);
    BothPicked(start, result);
    ElementPicked("Expression", start + result);
    BothPicked(messages, []);
    BothPicked(messages, Element("Expression", start + result));
    BothPicked(messages, result);
    NoFront(Result(a));
  }

  lemma {:induction false} NoFront(a: seq<Mark>)
    ensures [] + a == a
  {
  }

  // ---------- Starts and ends ----------

  lemma {:induction false} TestCasePicked(config: Config, p: Phase, e: Event)
    requires e.TestCaseStarting?
    ensures Picked(Told(config, p, e), IsDetail) == DetailsOf(config, p, e)
  {
    hide Picked, AttributeOf, SourceOf, Detail, Place;
    var x, a := [Opened("TestCase")], AttributeOf("TestCase", "name", e.name);
    var b, c := AttributeOf("TestCase", "description", e.description), AttributeOf("TestCase", "tags", e.tags);
    var d := SourceOf("TestCase", e.source);
    OnePicked(Opened("TestCase"));
    AttributePicked("TestCase", "name", e.name);
    AttributePicked("TestCase", "description", e.description);
    AttributePicked("TestCase", "tags", e.tags);
    SourcePicked("TestCase", e.source);
    BothPicked(x, a);
    BothPicked(x + a, b);
    BothPicked(x + a + b, c);
    BothPicked(x + a + b + c, d);
    NoFront(Picked(b, IsDetail));
    NoFront([]);
  }

  lemma {:induction false} SectionPicked(config: Config, p: Phase, e: Event)
    requires e.SectionStarting?
    ensures Picked(Told(config, p, e), IsDetail) == DetailsOf(config, p, e)
  {
    hide Picked, AttributeOf, SourceOf, Detail, Place;
    var x, a := [Opened("Section")], AttributeOf("Section", "name", e.name);
    var b, c := AttributeOf("Section", "description", e.description), SourceOf("Section", e.source);
    OnePicked(Opened("Section"));
    AttributePicked("Section", "name", e.name);
    AttributePicked("Section", "description", e.description);
    SourcePicked("Section", e.source);
    BothPicked(x, a);
    BothPicked(x + a, b);
    BothPicked(x + a + b, c);
    NoFront(Picked(b, IsDetail));
    NoFront([]);
  }

  lemma {:induction false} NamePicked(element: string, name: string)
    ensures Picked([Opened(element)] + AttributeOf(element, "name", name), IsDetail) == []
  {
    hide Picked, AttributeOf;
    OnePicked(Opened(element));
    AttributePicked(element, "name", name);
    BothPicked([Opened(element)], AttributeOf(element, "name", name));
  }

  /** The results of something and its end. */
  lemma {:induction false} EndPicked(name: string, inner: seq<Mark>, closed: string)
    ensures Picked(Element(name, inner) + [Closed(closed)], IsDetail) == Picked(inner, IsDetail)
  {
    hide Picked, Element;
    OnePicked(Closed(closed));
    ElementPicked(name, inner);
    BothPicked(Element(name, inner), [Closed(closed)]);
  }

  lemma {:induction false} SectionEndPicked(config: Config, p: Phase, e: Event)
    requires e.SectionEnded?
    ensures Picked(Told(config, p, e), IsDetail) == DetailsOf(config, p, e)
  {
    hide Picked, Element, CountsOf, DurationOf, Detail;
    var a, b := CountsOf("OverallResults", e.counts), DurationOf(config, "OverallResults", e.duration);
    OnePicked(Opened(""));
    CountsPicked("OverallResults", e.counts);
    DurationPicked(config, "OverallResults", e.duration);
    BothPicked(a, b);
    NoFront(Picked(b, IsDetail));
    EndPicked("OverallResults", a + b, "Section");
  }

  lemma {:induction false} TestCaseEndPicked(config: Config, p: Phase, e: Event)
    requires e.TestCaseEnded?
    ensures Picked(Told(config, p, e), IsDetail) == DetailsOf(config, p, e)
  {
    hide Picked, Element, AttributeOf, DurationOf, OutputOf, Detail, Said;
    var a := AttributeOf("OverallResult", "success", if e.allOk then "true" else "false");
    var b, c := DurationOf(config, "OverallResult", e.duration), OutputOf(e.stdOut, e.stdErr);
    AttributePicked("OverallResult", "success", if e.allOk then "true" else "false");
    DurationPicked(config, "OverallResult", e.duration);
    OutputPicked(e.stdOut, e.stdErr);
    BothPicked(a, b);
    BothPicked(a + b, c);
    NoFront(Picked(b, IsDetail));
    EndPicked("OverallResult", a + b + c, "TestCase");
    Regroup(Picked(b, IsDetail), Said("StdOut", e.stdOut), Said("StdErr", e.stdErr));
  }

  lemma {:induction false} DetailsTold(config: Config, p: Phase, e: Event)
    ensures Picked(Told(config, p, e), IsDetail) == DetailsOf(config, p, e)
  {
    hide Picked, AssertionOf, Element, CountsOf, AttributeOf;
    match e {
      case TestRunStarting => NamePicked("Catch", config.name);
      case TestGroupStarting(name) => NamePicked("Group", name);
      case TestCaseStarting(_, _, _, _) => TestCasePicked(config, p, e);
      case SectionStarting(_, _, _) => SectionPicked(config, p, e);
      case AssertionEnded(a) => AssertionPicked(config, a);
      case SectionEnded(_, _) => SectionEndPicked(config, p, e);
      case TestCaseEnded(_, _, _, _) => TestCaseEndPicked(config, p, e);
      case TestGroupEnded(counts) =>
        CountsPicked("OverallResults", counts);
        EndPicked("OverallResults", CountsOf("OverallResults", counts), "Group");
      case TestRunEnded(counts) =>
        CountsPicked("OverallResults", counts);
        EndPicked("OverallResults", CountsOf("OverallResults", counts), "Catch");
    }
  }

  function Details(config: Config): (Phase, Event) -> seq<Mark> {
    (p: Phase, e: Event) => DetailsOf(config, p, e)
  }

  /** The report has the details of all events, in their order, and no others. */
  lemma {:induction false} AllDetailsTold(config: Config, events: seq<Event>)
    requires WellNested(BeforeRun, events)
    ensures Picked(AllTold(config, events), IsDetail) == Collected(BeforeRun, events, Details(config))
  {
    forall q, e | Allowed(q, e)
      ensures Picked(Telling(config)(q, e), IsDetail) == Details(config)(q, e)
    {
      DetailsTold(config, q, e);
    }
    PickedEvents(BeforeRun, events, Telling(config), IsDetail, Details(config));
  }

  /** The text of a warning is reported only where the messages of successful assertions are: otherwise the assertion is
      not left out, but nothing is said about it. */
  lemma {:induction false} WarningIsLost(config: Config, a: Assertion, text: string)
    requires a.rtype == Warning && !a.hasExpression && a.messages == [Message(WarningMessage, text)] && text != ""
    ensures IsReported(config, a)
    ensures Picked(AssertionOf(config, a), IsDetail)
         == if config.includeSuccessful || !a.isOk then [HasText("Warning", text)] else []
  {
    hide Picked, AssertionOf;
    AssertionPicked(config, a);
    var m := a.messages[0];
    assert m == Message(WarningMessage, text) && a.messages[..0] == [];
    assert Messages(a.messages) == [HasText("Warning", text)] by {
      assert Messages(a.messages[..0]) == [];
    }
  }
}
