/** The XML report of a test run: what is written for each event, and which elements are open behind it. */
module XmlReporters {
  import opened XmlWriters

  /** How far a run has come; `depth` counts the sections that have started and not ended. */
  datatype Phase = BeforeRun | InRun | InGroup | InTestCase(depth: nat) | AfterRun

  function Sections(n: nat): (r: seq<string>)
    ensures |r| == n
  {
    if n == 0 then [] else Sections(n - 1) + ["Section"]
  }

  /** The elements that are open: the outermost section is the test case itself. */
  function OpenElements(p: Phase): seq<string> {
    match p
    case BeforeRun => []
    case InRun => ["Catch"]
    case InGroup => ["Catch", "Group"]
    case InTestCase(depth) => ["Catch", "Group", "TestCase"] + Sections(if depth == 0 then 0 else depth - 1)
    case AfterRun => []
  }

  datatype MessageType = InfoMessage | WarningMessage | OtherMessage

  datatype Message = Message(mtype: MessageType, text: string)

  datatype ResultType = ThrewException | FatalErrorCondition | Info | Warning | ExplicitFailure | Other

  datatype SourceInfo = SourceInfo(file: string, line: string)

  datatype Assertion = Assertion(
    messages: seq<Message>, isOk: bool, rtype: ResultType, hasExpression: bool, succeeded: bool,
    macroName: string, source: SourceInfo, expression: string, expanded: string, message: string)

  datatype CountTexts = CountTexts(passed: string, failed: string, failedButOk: string)

  datatype Config = Config(name: string, stylesheet: string, showDurations: bool, includeSuccessful: bool)

  datatype Event =
    | TestRunStarting
    | TestGroupStarting(name: string)
    | TestCaseStarting(name: string, description: string, tags: string, source: SourceInfo)
    | SectionStarting(name: string, description: string, source: SourceInfo)
    | AssertionEnded(assertion: Assertion)
    | SectionEnded(counts: CountTexts, duration: string)
    | TestCaseEnded(allOk: bool, duration: string, stdOut: string, stdErr: string)
    | TestGroupEnded(counts: CountTexts)
    | TestRunEnded(counts: CountTexts)

  /** Where an event may come, by the counts of what has started and ended only. */
  predicate Allowed(p: Phase, e: Event) {
    match e
    case TestRunStarting => p.BeforeRun?
    case TestGroupStarting(_) => p.InRun?
    case TestCaseStarting(_, _, _, _) => p.InGroup?
    case SectionStarting(_, _, _) => p.InTestCase?
    case AssertionEnded(_) => p.InTestCase? && p.depth > 0
    case SectionEnded(_, _) => p.InTestCase? && p.depth > 0
    case TestCaseEnded(_, _, _, _) => p == InTestCase(0)
    case TestGroupEnded(_) => p.InGroup?
    case TestRunEnded(_) => p.InRun?
  }

  function Next(p: Phase, e: Event): Phase
    requires Allowed(p, e)
  {
    match e
    case TestRunStarting => InRun
    case TestGroupStarting(_) => InGroup
    case TestCaseStarting(_, _, _, _) => InTestCase(0)
    case SectionStarting(_, _, _) => InTestCase(p.depth + 1)
    case AssertionEnded(_) => p
    case SectionEnded(_, _) => InTestCase(p.depth - 1)
    case TestCaseEnded(_, _, _, _) => InGroup
    case TestGroupEnded(_) => InRun
    case TestRunEnded(_) => AfterRun
  }

  predicate WellNested(p: Phase, events: seq<Event>)
    decreases events
  {
    events != [] ==> Allowed(p, events[0]) && WellNested(Next(p, events[0]), events[1..])
  }

  function PhaseAfter(p: Phase, events: seq<Event>): Phase
    requires WellNested(p, events)
    decreases events
  {
    if events == [] then p else PhaseAfter(Next(p, events[0]), events[1..])
  }

  // ---------- What the report should say ----------

  function Element(name: string, inner: seq<Mark>): seq<Mark> {
    [Opened(name)] + inner + [Closed(name)]
  }

  function SourceOf(element: string, source: SourceInfo): seq<Mark> {
    AttributeOf(element, "filename", source.file) + AttributeOf(element, "line", source.line)
  }

  function CountsOf(element: string, counts: CountTexts): seq<Mark> {
    AttributeOf(element, "successes", counts.passed) + AttributeOf(element, "failures", counts.failed)
    + AttributeOf(element, "expectedFailures", counts.failedButOk)
  }

  function MessageOf(m: Message): seq<Mark> {
    match m.mtype
    case InfoMessage => Element("Info", TextOf("Info", m.text))
    case WarningMessage => Element("Warning", TextOf("Warning", m.text))
    case OtherMessage => []
  }

  function MessagesOf(messages: seq<Message>): seq<Mark> {
    if messages == [] then []
    else MessagesOf(messages[..|messages| - 1]) + MessageOf(messages[|messages| - 1])
  }

  /** What goes in front of the expression and its evaluation. */
  function ExpressionOf(a: Assertion): seq<Mark> {
    AttributeOf("Expression", "success", if a.succeeded then "true" else "false")
    + AttributeOf("Expression", "type", a.macroName) + SourceOf("Expression", a.source)
  }

  function EvaluationOf(a: Assertion): seq<Mark> {
    Element("Original", TextOf("Original", a.expression)) + Element("Expanded", TextOf("Expanded", a.expanded))
  }

  function ResultOf(a: Assertion): seq<Mark> {
    match a.rtype
    case ThrewException => Element("Exception", SourceOf("Exception", a.source) + TextOf("Exception", a.message))
    case FatalErrorCondition =>
      Element("FatalErrorCondition", SourceOf("FatalErrorCondition", a.source) + TextOf("FatalErrorCondition", a.message))
    case Info => Element("Info", TextOf("Info", a.message))
    case Warning => []
    case ExplicitFailure => Element("Failure", SourceOf("Failure", a.source) + TextOf("Failure", a.message))
    case Other => []
  }

  function AssertionOf(config: Config, a: Assertion): seq<Mark> {
    var included := config.includeSuccessful || !a.isOk;
    (if included then MessagesOf(a.messages) else [])
    + (if !included && a.rtype != Warning then []
       else if a.hasExpression then Element("Expression", ExpressionOf(a) + EvaluationOf(a) + ResultOf(a))
       else ResultOf(a))
  }

  function DurationOf(config: Config, element: string, duration: string): seq<Mark> {
    if config.showDurations then AttributeOf(element, "durationInSeconds", duration) else []
  }

  function OutputOf(stdOut: string, stdErr: string): seq<Mark> {
    (if stdOut != "" then Element("StdOut", TextOf("StdOut", stdOut)) else [])
    + if stdErr != "" then Element("StdErr", TextOf("StdErr", stdErr)) else []
  }

  /** What an event adds to the document. */
  function Told(config: Config, p: Phase, e: Event): seq<Mark> {
    match e
    case TestRunStarting => [Opened("Catch")] + AttributeOf("Catch", "name", config.name)
    case TestGroupStarting(name) => [Opened("Group")] + AttributeOf("Group", "name", name)
    case TestCaseStarting(name, description, tags, source) =>
      [Opened("TestCase")] + AttributeOf("TestCase", "name", name) + AttributeOf("TestCase", "description", description)
      + AttributeOf("TestCase", "tags", tags) + SourceOf("TestCase", source)
    case SectionStarting(name, description, source) =>
      if p.InTestCase? && p.depth > 0 then
        [Opened("Section")] + AttributeOf("Section", "name", name) + AttributeOf("Section", "description", description)
        + SourceOf("Section", source)
      else []
    case AssertionEnded(a) => AssertionOf(config, a)
    case SectionEnded(counts, duration) =>
      if p.InTestCase? && p.depth > 1 then
        Element("OverallResults", CountsOf("OverallResults", counts) + DurationOf(config, "OverallResults", duration))
        + [Closed("Section")]
      else []
    case TestCaseEnded(allOk, duration, stdOut, stdErr) =>
      Element("OverallResult", AttributeOf("OverallResult", "success", if allOk then "true" else "false")
                               + DurationOf(config, "OverallResult", duration) + OutputOf(stdOut, stdErr))
      + [Closed("TestCase")]
    case TestGroupEnded(counts) => Element("OverallResults", CountsOf("OverallResults", counts)) + [Closed("Group")]
    case TestRunEnded(counts) => Element("OverallResults", CountsOf("OverallResults", counts)) + [Closed("Catch")]
  }

  /** What a stream of events adds up to. */
  function Collected(p: Phase, events: seq<Event>, g: (Phase, Event) -> seq<Mark>): seq<Mark>
    requires WellNested(p, events)
    decreases events
  {
    if events == [] then [] else g(p, events[0]) + Collected(Next(p, events[0]), events[1..], g)
  }

  function Telling(config: Config): (Phase, Event) -> seq<Mark> {
    (p: Phase, e: Event) => Told(config, p, e)
  }

  function AllTold(config: Config, events: seq<Event>): seq<Mark>
    requires WellNested(BeforeRun, events)
  {
    Collected(BeforeRun, events, Telling(config))
  }

  class XmlReporter {
    const config: Config
    const xml: XmlWriter
    var sectionDepth: int
    ghost var phase: Phase

    /** The report is well formed so far, and has open what the phase says. */
    ghost predicate Valid()
      reads this, xml
    {
      && xml.Valid() && xml.tags == OpenElements(phase)
      && (phase.BeforeRun? <==> !xml.reader.hasRoot)
      && sectionDepth == if phase.InTestCase? then phase.depth else 0
    }

    constructor (config: Config)
      ensures Valid() && phase == BeforeRun && fresh(xml) && this.config == config && xml.content == []
    {
      this.config, sectionDepth, phase := config, 0, BeforeRun;
      xml := new XmlWriter();
    }

    /** What a reader sees in the output so far. */
    lemma {:induction false} ReadsBack()
      requires Valid()
      ensures Read(xml.out).Reader? && Read(xml.out).elements == OpenElements(phase) && Content(xml.out) == xml.content
      ensures (phase.BeforeRun? <==> !Read(xml.out).hasRoot) && (phase.AfterRun? ==> !Read(xml.out).inTag)
    {
    }

    method Report(e: Event)
      requires Valid() && Allowed(phase, e)
      modifies this, xml
      ensures Valid() && phase == Next(old(phase), e)
      ensures xml.content == old(xml.content) + Told(config, old(phase), e)
    {
      hide Sections, SourceOf, CountsOf, AssertionOf, OutputOf, DurationOf, XmlWriter.Valid, AttributeOf, Element;
      match e {
        case TestRunStarting =>
          TestRunStarts();
        case TestGroupStarting(name) =>
          TestGroupStarts(name);
        case TestCaseStarting(name, description, tags, source) =>
          TestCaseStarts(name, description, tags, source);
        case SectionStarting(name, description, source) =>
          SectionStarts(name, description, source);
        case AssertionEnded(a) =>
          AssertionEnds(a);
        case SectionEnded(counts, duration) =>
          SectionEnds(counts, duration);
        case TestCaseEnded(allOk, duration, stdOut, stdErr) =>
          TestCaseEnds(allOk, duration, stdOut, stdErr);
        case TestGroupEnded(counts) =>
          ResultsAndEnd(counts);
        case TestRunEnded(counts) =>
          ResultsAndEnd(counts);
      }
      phase := Next(phase, e);
    }

    method TestRunStarts()
      requires Valid() && phase.BeforeRun?
      modifies xml
      ensures xml.Valid() && xml.tags == ["Catch"] && xml.reader.hasRoot
      ensures xml.content == old(xml.content) + ([Opened("Catch")] + AttributeOf("Catch", "name", config.name))
    {
      if config.stylesheet != "" {
        xml.WriteStylesheetRef(config.stylesheet);
      }
      xml.StartElement("Catch");
      if config.name != "" {
        xml.WriteAttribute("name", config.name);
      } else {
        Regroup(xml.content, [], []);
      }
      Regroup(old(xml.content), [Opened("Catch")], AttributeOf("Catch", "name", config.name));
    }

    method TestGroupStarts(name: string)
      requires Valid() && phase.InRun?
      modifies xml
      ensures xml.Valid() && xml.tags == OpenElements(InGroup) && xml.reader.hasRoot
      ensures xml.content == old(xml.content) + ([Opened("Group")] + AttributeOf("Group", "name", name))
    {
      xml.StartElement("Group");
      xml.WriteAttribute("name", name);
      Regroup(old(xml.content), [Opened("Group")], AttributeOf("Group", "name", name));
    }

    method WriteSourceInfo(source: SourceInfo)
      requires xml.Valid() && xml.tagIsOpen
      requires "filename" !in xml.reader.attributes && "line" !in xml.reader.attributes
      modifies xml
      ensures xml.Valid() && xml.tagIsOpen && xml.tags == old(xml.tags) && xml.reader.hasRoot == old(xml.reader.hasRoot)
      ensures xml.content == old(xml.content) + SourceOf(xml.tags[|xml.tags| - 1], source)
    {
      hide Read, Content, Indent, AttributeOf;
      ghost var element := xml.tags[|xml.tags| - 1];
      xml.WriteAttribute("filename", source.file);
      xml.WriteAttribute("line", source.line);
      Regroup(old(xml.content), AttributeOf(element, "filename", source.file), AttributeOf(element, "line", source.line));
    }

    method TestCaseStarts(name: string, description: string, tags: string, source: SourceInfo)
      requires Valid() && phase.InGroup?
      modifies xml
      ensures xml.Valid() && xml.tags == OpenElements(InTestCase(0)) && xml.reader.hasRoot
      ensures xml.content == old(xml.content) +
                ([Opened("TestCase")] + AttributeOf("TestCase", "name", name)
                 + AttributeOf("TestCase", "description", description) + AttributeOf("TestCase", "tags", tags)
                 + SourceOf("TestCase", source))
    {
      hide XmlWriter.Valid, SourceOf, AttributeOf;
      ghost var before := xml.content;
      ghost var a, b := AttributeOf("TestCase", "name", name), AttributeOf("TestCase", "description", description);
      ghost var c, d := AttributeOf("TestCase", "tags", tags), SourceOf("TestCase", source);
      xml.StartElement("TestCase");
      xml.WriteAttribute("name", name);
      xml.WriteAttribute("description", description);
      xml.WriteAttribute("tags", tags);
      WriteSourceInfo(source);
      xml.EnsureTagClosed();
      FivePieces(before, [Opened("TestCase")], a, b, c, d);
    }

    method SectionStarts(name: string, description: string, source: SourceInfo)
      requires Valid() && phase.InTestCase?
      modifies this`sectionDepth, xml
      ensures xml.Valid() && xml.tags == OpenElements(InTestCase(phase.depth + 1)) && xml.reader.hasRoot
      ensures sectionDepth == phase.depth + 1
      ensures xml.content == old(xml.content) +
                if phase.depth == 0 then []
                else [Opened("Section")] + AttributeOf("Section", "name", name)
                     + AttributeOf("Section", "description", description) + SourceOf("Section", source)
    {
      MoreSections(phase.depth);
      hide XmlWriter.Valid, OpenElements, Sections, SourceOf, AttributeOf;
      sectionDepth := sectionDepth + 1;
      if sectionDepth - 1 > 0 {
        StartSection(name, description, source);
      } else {
        Regroup(xml.content, [], []);
      }
    }

    /** A section inside the outermost one. */
    method StartSection(name: string, description: string, source: SourceInfo)
      requires xml.Valid() && xml.reader.hasRoot && xml.tags != []
      modifies xml
      ensures xml.Valid() && xml.tags == old(xml.tags) + ["Section"] && xml.reader.hasRoot
      ensures xml.content == old(xml.content) +
                ([Opened("Section")] + AttributeOf("Section", "name", name)
                 + AttributeOf("Section", "description", description) + SourceOf("Section", source))
    {
      hide XmlWriter.Valid, SourceOf, AttributeOf;
      ghost var before := xml.content;
      ghost var a, b := AttributeOf("Section", "name", name), AttributeOf("Section", "description", description);
      xml.StartElement("Section");
      xml.WriteAttribute("name", name);
      xml.WriteAttribute("description", description);
      WriteSourceInfo(source);
      xml.EnsureTagClosed();
      FourPieces(before, [Opened("Section")], a, b, SourceOf("Section", source));
    }

    /** An element with text that starts and ends at once. */
    method TextElement(name: string, text: string, indented: bool)
      requires xml.Valid() && xml.tags != []
      modifies xml
      ensures xml.Valid() && xml.tags == old(xml.tags) && xml.reader.hasRoot
      ensures xml.content == old(xml.content) + Element(name, TextOf(name, text))
    {
      hide TextOf;
      ghost var before := xml.content;
      xml.StartElement(name);
      xml.WriteText(text, indented);
      xml.EndElement();
      ThreePieces(before, [Opened(name)], TextOf(name, text), [Closed(name)]);
    }

    method SourceElement(name: string, source: SourceInfo, text: string)
      requires xml.Valid() && xml.tags != []
      modifies xml
      ensures xml.Valid() && xml.tags == old(xml.tags) && xml.reader.hasRoot
      ensures xml.content == old(xml.content) + Element(name, SourceOf(name, source) + TextOf(name, text))
    {
      hide TextOf, SourceOf;
      ghost var before := xml.content;
      xml.StartElement(name);
      WriteSourceInfo(source);
      xml.WriteText(text, true);
      xml.EndElement();
      Regroup(before + [Opened(name)], SourceOf(name, source), TextOf(name, text));
      ThreePieces(before, [Opened(name)], SourceOf(name, source) + TextOf(name, text), [Closed(name)]);
    }

    method WriteMessages(messages: seq<Message>)
      requires xml.Valid() && xml.tags != [] && xml.reader.hasRoot
      modifies xml
      ensures xml.Valid() && xml.tags == old(xml.tags) && xml.reader.hasRoot
      ensures xml.content == old(xml.content) + MessagesOf(messages)
    {
      hide TextOf, Element;
      Regroup(xml.content, [], []);
      for i := 0 to |messages|
        invariant xml.Valid() && xml.tags == old(xml.tags) && xml.reader.hasRoot
        invariant xml.content == old(xml.content) + MessagesOf(messages[..i])
      {
        MoreMessages(messages, i);
        Regroup(old(xml.content), MessagesOf(messages[..i]), MessageOf(messages[i]));
        match messages[i].mtype {
          case InfoMessage => TextElement("Info", messages[i].text, true);
          case WarningMessage => TextElement("Warning", messages[i].text, true);
          case OtherMessage => Regroup(xml.content, [], []);
        }
      }
      assert messages[..|messages|] == messages;
    }

    /** The element for a type of result. */
    method WriteResult(a: Assertion)
      requires xml.Valid() && xml.tags != [] && xml.reader.hasRoot
      modifies xml
      ensures xml.Valid() && xml.tags == old(xml.tags) && xml.reader.hasRoot
      ensures xml.content == old(xml.content) + ResultOf(a)
    {
      hide TextOf, SourceOf, Element;
      Regroup(xml.content, [], []);
      match a.rtype {
        case ThrewException => SourceElement("Exception", a.source, a.message);
        case FatalErrorCondition => SourceElement("FatalErrorCondition", a.source, a.message);
        case Info => TextElement("Info", a.message, true);
        case Warning =>
        case ExplicitFailure => SourceElement("Failure", a.source, a.message);
        case Other =>
      }
    }

    /** The start of an expression, and what it was evaluated to. */
    method StartExpression(a: Assertion)
      requires xml.Valid() && xml.tags != [] && xml.reader.hasRoot
      modifies xml
      ensures xml.Valid() && xml.tags == old(xml.tags) + ["Expression"] && xml.reader.hasRoot
      ensures xml.content == old(xml.content) + ([Opened("Expression")] + (ExpressionOf(a) + EvaluationOf(a)))
    {
      hide TextOf, SourceOf, AttributeOf, Element;
      ghost var before := xml.content;
      ghost var b := AttributeOf("Expression", "success", if a.succeeded then "true" else "false");
      ghost var c, d := AttributeOf("Expression", "type", a.macroName), SourceOf("Expression", a.source);
      xml.StartElement("Expression");
      xml.WriteAttribute("success", if a.succeeded then "true" else "false");
      xml.WriteAttribute("type", a.macroName);
      WriteSourceInfo(a.source);
      TextElement("Original", a.expression, true);
      TextElement("Expanded", a.expanded, true);
      ThreePieces(before + [Opened("Expression")], b, c, d);
      Regroup(before, [Opened("Expression")], ExpressionOf(a));
      EvaluationPieces(before, ExpressionOf(a), a);
    }

    lemma {:induction false} EvaluationPieces(before: seq<Mark>, start: seq<Mark>, a: Assertion)
      ensures var x, y := Element("Original", TextOf("Original", a.expression)), Element("Expanded", TextOf("Expanded", a.expanded));
              ((before + ([Opened("Expression")] + start)) + x) + y
              == before + ([Opened("Expression")] + (start + EvaluationOf(a)))
    {
      hide Element;
    }

    method AssertionEnds(a: Assertion)
      requires xml.Valid() && xml.tags != [] && xml.reader.hasRoot
      modifies xml
      ensures xml.Valid() && xml.tags == old(xml.tags) && xml.reader.hasRoot
      ensures xml.content == old(xml.content) + AssertionOf(config, a)
    {
      hide ExpressionOf, EvaluationOf, ResultOf, MessagesOf;
      ghost var tags, before := xml.tags, xml.content;
      var includeResults := config.includeSuccessful || !a.isOk;
      ghost var messages := if includeResults then MessagesOf(a.messages) else [];
      Regroup(before, [], []);
      if includeResults {
        WriteMessages(a.messages);
      }
      if !includeResults && a.rtype != Warning {
        Regroup([], [], []);
        return;
      }
      if a.hasExpression {
        StartExpression(a);
      }
      WriteResult(a);
      if a.hasExpression {
        xml.EndElement();
        assert (tags + ["Expression"])[..|tags|] == tags;
        ExpressionPieces(before + messages, ExpressionOf(a) + EvaluationOf(a), ResultOf(a));
        Regroup(before, messages, Element("Expression", ExpressionOf(a) + EvaluationOf(a) + ResultOf(a)));
      } else {
        Regroup(before, messages, ResultOf(a));
      }
    }

    lemma {:induction false} ExpressionPieces(before: seq<Mark>, start: seq<Mark>, result: seq<Mark>)
      ensures ((before + ([Opened("Expression")] + start)) + result) + [Closed("Expression")]
           == before + Element("Expression", start + result)
    {
    }

    method WriteCounts(counts: CountTexts)
      requires xml.Valid() && xml.tagIsOpen && xml.reader.attributes == []
      modifies xml
      ensures xml.Valid() && xml.tagIsOpen && xml.tags == old(xml.tags) && xml.reader.hasRoot == old(xml.reader.hasRoot)
      ensures xml.content == old(xml.content) + CountsOf(xml.tags[|xml.tags| - 1], counts)
      ensures "durationInSeconds" !in xml.reader.attributes
    {
      hide AttributeOf, Read, Content;
      ghost var before, element := xml.content, xml.tags[|xml.tags| - 1];
      xml.WriteAttribute("successes", counts.passed);
      xml.WriteAttribute("failures", counts.failed);
      xml.WriteAttribute("expectedFailures", counts.failedButOk);
      ThreePieces(before, AttributeOf(element, "successes", counts.passed), AttributeOf(element, "failures", counts.failed),
                  AttributeOf(element, "expectedFailures", counts.failedButOk));
    }

    method WriteDuration(duration: string)
      requires xml.Valid() && xml.tagIsOpen && "durationInSeconds" !in xml.reader.attributes
      modifies xml
      ensures xml.Valid() && xml.tagIsOpen && xml.tags == old(xml.tags) && xml.reader.hasRoot == old(xml.reader.hasRoot)
      ensures xml.content == old(xml.content) + DurationOf(config, xml.tags[|xml.tags| - 1], duration)
    {
      Regroup(xml.content, [], []);
      if config.showDurations {
        xml.WriteAttribute("durationInSeconds", duration);
      }
    }

    /** The scope of the results element ends the section. */
    method SectionEnds(counts: CountTexts, duration: string)
      requires Valid() && phase.InTestCase? && phase.depth > 0
      modifies this`sectionDepth, xml
      ensures xml.Valid() && xml.tags == OpenElements(InTestCase(phase.depth - 1)) && xml.reader.hasRoot
      ensures sectionDepth == phase.depth - 1
      ensures xml.content == old(xml.content) +
                if phase.depth == 1 then []
                else Element("OverallResults", CountsOf("OverallResults", counts) + DurationOf(config, "OverallResults", duration))
                     + [Closed("Section")]
    {
      sectionDepth := sectionDepth - 1;
      ghost var before := xml.content;
      if sectionDepth > 0 {
        LastSection(phase.depth - 1);
        hide Sections, Element, CountsOf, DurationOf;
        WriteSectionResults(counts, duration);
        xml.EndElement();
        Regroup(before, Element("OverallResults", CountsOf("OverallResults", counts) + DurationOf(config, "OverallResults", duration)),
                [Closed("Section")]);
      } else {
        Regroup(before, [], []);
      }
    }

    method WriteSectionResults(counts: CountTexts, duration: string)
      requires xml.Valid() && xml.tags != [] && xml.reader.hasRoot
      modifies xml
      ensures xml.Valid() && xml.tags == old(xml.tags) && xml.reader.hasRoot
      ensures xml.content == old(xml.content) +
                Element("OverallResults", CountsOf("OverallResults", counts) + DurationOf(config, "OverallResults", duration))
    {
      hide CountsOf, DurationOf;
      ghost var before := xml.content;
      xml.StartElement("OverallResults");
      WriteCounts(counts);
      WriteDuration(duration);
      xml.EndElement();
      ghost var a, b := CountsOf("OverallResults", counts), DurationOf(config, "OverallResults", duration);
      Regroup(before + [Opened("OverallResults")], a, b);
      ThreePieces(before, [Opened("OverallResults")], a + b, [Closed("OverallResults")]);
    }

    /** What the test case wrote itself. */
    method WriteOutput(stdOut: string, stdErr: string)
      requires xml.Valid() && xml.tags != [] && xml.reader.hasRoot
      modifies xml
      ensures xml.Valid() && xml.tags == old(xml.tags) && xml.reader.hasRoot
      ensures xml.content == old(xml.content) + OutputOf(stdOut, stdErr)
    {
      hide Element, TextOf;
      ghost var before := xml.content;
      Regroup(before, [], []);
      if stdOut != "" {
        TextElement("StdOut", stdOut, false);
      }
      Regroup(xml.content, [], []);
      if stdErr != "" {
        TextElement("StdErr", stdErr, false);
      }
      Regroup(before, if stdOut != "" then Element("StdOut", TextOf("StdOut", stdOut)) else [],
              if stdErr != "" then Element("StdErr", TextOf("StdErr", stdErr)) else []);
    }

    method TestCaseEnds(allOk: bool, duration: string, stdOut: string, stdErr: string)
      requires Valid() && phase == InTestCase(0)
      modifies xml
      ensures xml.Valid() && xml.tags == OpenElements(InGroup) && xml.reader.hasRoot
      ensures xml.content == old(xml.content) +
                (Element("OverallResult", AttributeOf("OverallResult", "success", if allOk then "true" else "false")
                                          + DurationOf(config, "OverallResult", duration) + OutputOf(stdOut, stdErr))
                 + [Closed("TestCase")])
    {
      hide XmlWriter.Valid, DurationOf, OutputOf, AttributeOf;
      ghost var before, name := xml.content, "OverallResult";
      ghost var a, b := AttributeOf(name, "success", if allOk then "true" else "false"), DurationOf(config, name, duration);
      ghost var c := OutputOf(stdOut, stdErr);
      xml.StartElement("OverallResult");
      xml.WriteAttribute("success", if allOk then "true" else "false");
      WriteDuration(duration);
      WriteOutput(stdOut, stdErr);
      xml.EndElement();
      xml.EndElement();
      ThreePieces(before + [Opened(name)], a, b, c);
      ThreePieces(before, [Opened(name)], a + b + c, [Closed(name)]);
      Regroup(before, Element(name, a + b + c), [Closed("TestCase")]);
    }

    method ResultsAndEnd(counts: CountTexts)
      requires xml.Valid() && xml.tags != [] && xml.reader.hasRoot
      modifies xml
      ensures xml.Valid() && xml.tags == old(xml.tags[..|xml.tags| - 1]) && xml.reader.hasRoot
      ensures xml.content == old(xml.content) +
                (Element("OverallResults", CountsOf("OverallResults", counts)) + [Closed(old(xml.tags[|xml.tags| - 1]))])
    {
      hide CountsOf;
      ghost var before, closed := xml.content, [Closed(xml.tags[|xml.tags| - 1])];
      xml.StartElement("OverallResults");
      WriteCounts(counts);
      xml.EndElement();
      xml.EndElement();
      ThreePieces(before, [Opened("OverallResults")], CountsOf("OverallResults", counts), [Closed("OverallResults")]);
      Regroup(before, Element("OverallResults", CountsOf("OverallResults", counts)), closed);
    }
  }

  lemma {:induction false} ThreePieces(x: seq<Mark>, a: seq<Mark>, b: seq<Mark>, c: seq<Mark>)
    ensures ((x + a) + b) + c == x + (a + b + c)
  {
  }

  lemma {:induction false} FourPieces(x: seq<Mark>, a: seq<Mark>, b: seq<Mark>, c: seq<Mark>, d: seq<Mark>)
    ensures (((x + a) + b) + c) + d == x + (a + b + c + d)
  {
    ThreePieces(x, a, b, c);
  }

  lemma {:induction false} FivePieces(x: seq<Mark>, a: seq<Mark>, b: seq<Mark>, c: seq<Mark>, d: seq<Mark>, e: seq<Mark>)
    ensures ((((x + a) + b) + c) + d) + e == x + (a + b + c + d + e)
  {
    FourPieces(x, a, b, c, d);
  }

  lemma {:induction false} MoreMessages(messages: seq<Message>, i: nat)
    requires i < |messages|
    ensures MessagesOf(messages[..i + 1]) == MessagesOf(messages[..i]) + MessageOf(messages[i])
  {
    assert messages[..i + 1][..i] == messages[..i];
  }

  lemma {:induction false} MoreSections(depth: nat)
    ensures OpenElements(InTestCase(depth + 1))
         == OpenElements(InTestCase(depth)) + if depth == 0 then [] else ["Section"]
  {
  }

  lemma {:induction false} LastSection(depth: nat)
    requires depth > 0
    ensures var more := OpenElements(InTestCase(depth + 1)); more[..|more| - 1] == OpenElements(InTestCase(depth))
  {
    assert Sections(depth)[..depth - 1] == Sections(depth - 1);
  }

  /** A new reporter that has been told the events. */
  method ReportEvents(config: Config, events: seq<Event>) returns (reporter: XmlReporter)
    requires WellNested(BeforeRun, events)
    ensures fresh(reporter) && fresh(reporter.xml) && reporter.Valid() && reporter.phase == PhaseAfter(BeforeRun, events)
    ensures reporter.xml.content == AllTold(config, events) && (reporter.phase.BeforeRun? ==> events == [])
  {
    hide XmlReporter.Valid, WellNested, PhaseAfter, Collected, Told;
    reporter := new XmlReporter(config);
    assert events[0..] == events;
    assert [] + AllTold(config, events) == AllTold(config, events);
    for i := 0 to |events|
      invariant fresh(reporter) && fresh(reporter.xml) && reporter.Valid() && reporter.config == config
      invariant WellNested(reporter.phase, events[i..])
      invariant PhaseAfter(reporter.phase, events[i..]) == PhaseAfter(BeforeRun, events)
      invariant reporter.xml.content + Collected(reporter.phase, events[i..], Telling(config)) == AllTold(config, events)
      invariant reporter.phase.BeforeRun? ==> i == 0
    {
      NextEvent(reporter.phase, events, i, Telling(config));
      Regroup(reporter.xml.content, Told(config, reporter.phase, events[i]),
              Collected(Next(reporter.phase, events[i]), events[i + 1..], Telling(config)));
      reporter.Report(events[i]);
    }
    NoEvents(reporter.phase, events[|events|..], Telling(config));
    Regroup(reporter.xml.content, [], []);
  }

  lemma {:induction false} NextEvent(p: Phase, events: seq<Event>, i: nat, g: (Phase, Event) -> seq<Mark>)
    requires i < |events| && WellNested(p, events[i..])
    ensures Allowed(p, events[i]) && WellNested(Next(p, events[i]), events[i + 1..])
    ensures PhaseAfter(p, events[i..]) == PhaseAfter(Next(p, events[i]), events[i + 1..])
    ensures Collected(p, events[i..], g) == g(p, events[i]) + Collected(Next(p, events[i]), events[i + 1..], g)
  {
    assert events[i..][1..] == events[i + 1..] && events[i..][0] == events[i];
  }

  lemma {:induction false} NoEvents(p: Phase, events: seq<Event>, g: (Phase, Event) -> seq<Mark>)
    requires events == []
    ensures WellNested(p, events) && PhaseAfter(p, events) == p && Collected(p, events, g) == []
  {
  }

  /** For every well nested stream of events, the report so far is well formed with the right elements open, and says
      what is told of the events; after a whole run nothing is open. */
  method ReportAll(config: Config, events: seq<Event>) returns (out: seq<Token>)
    requires WellNested(BeforeRun, events)
    ensures Read(out).Reader? && Read(out).elements == OpenElements(PhaseAfter(BeforeRun, events))
    ensures events != [] ==> Read(out).hasRoot
    ensures Content(out) == AllTold(config, events)
    ensures PhaseAfter(BeforeRun, events).AfterRun? ==> Read(out).elements == [] && !Read(out).inTag
  {
    hide XmlReporter.Valid, WellNested, PhaseAfter, AllTold, Content, Read;
    var reporter := ReportEvents(config, events);
    reporter.ReadsBack();
    out := reporter.xml.out;
  }

  /** A run that breaks off leaves elements open, which the writer ends when it goes away. */
  method ReportAndFinish(config: Config, events: seq<Event>) returns (out: seq<Token>)
    requires WellNested(BeforeRun, events)
    ensures Read(out).Reader? && Read(out).elements == [] && !Read(out).inTag && (events != [] ==> Read(out).hasRoot)
    ensures Content(out) == AllTold(config, events) + AllClosed(OpenElements(PhaseAfter(BeforeRun, events)))
  {
    hide WellNested, PhaseAfter, AllTold, Content, Read;
    var reporter := ReportEvents(config, events);
    reporter.xml.Finish();
    out := reporter.xml.out;
  }
}
