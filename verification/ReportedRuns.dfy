/** The reports of whole runs, as the XML reporter gets them. */
module ReportedRuns {
  import opened SectionPlan
  import opened RunReports
  import opened XmlReporters
  import opened XmlWriters
  import opened XmlReports
  import opened XmlDetails

  function Flat<T>(parts: seq<seq<T>>): seq<T> {
    if parts == [] then [] else parts[0] + Flat(parts[1..])
  }

  /** The section events among `events` are these reports; what is left are assertions, each with a section open. */
  predicate Tells(depth: int, events: seq<Event>, reports: seq<Report>)
    decreases events
  {
    if events == [] then reports == []
    else
      match events[0]
      case AssertionEnded(_) => depth > 0 && Tells(depth, events[1..], reports)
      case SectionStarting(name, _, _) =>
        && reports != [] && reports[0].Started? && reports[0].name.name == name
        && Tells(depth + 1, events[1..], reports[1..])
      case SectionEnded(_, _) =>
        reports != [] && reports[0].Ended? && Tells(depth - 1, events[1..], reports[1..])
      case _ => false
  }

  /** The events of one test case, all of its cycles included. */
  predicate TellsTest(events: seq<Event>, test: Section)
    requires WellNamed(test)
  {
    var n := |events|;
    && n >= 2 && events[0].TestCaseStarting? && events[n - 1].TestCaseEnded?
    && Tells(0, events[1..n - 1], Flat(ToldInTest(test)))
  }

  /** The events of a run of one group of tests. */
  predicate TellsRun(events: seq<Event>, tests: seq<Section>, parts: seq<seq<Event>>)
    requires forall i :: 0 <= i < |tests| ==> WellNamed(tests[i])
  {
    var n := |events|;
    && n >= 4 && events[0].TestRunStarting? && events[1].TestGroupStarting?
    && events[n - 2].TestGroupEnded? && events[n - 1].TestRunEnded?
    && events[2..n - 2] == Flat(parts) && |parts| == |tests|
    && forall i :: 0 <= i < |tests| ==> TellsTest(parts[i], tests[i])
  }

  lemma {:induction false} NestedConcat(p: Phase, a: seq<Event>, b: seq<Event>)
    requires WellNested(p, a) && WellNested(PhaseAfter(p, a), b)
    ensures WellNested(p, a + b) && PhaseAfter(p, a + b) == PhaseAfter(PhaseAfter(p, a), b)
    decreases a
  {
    if a == [] {
      assert a + b == b;
    } else {
      assert (a + b)[1..] == a[1..] + b;
      NestedConcat(Next(p, a[0]), a[1..], b);
    }
  }

  lemma {:induction false} OneNested(p: Phase, e: Event)
    requires Allowed(p, e)
    ensures WellNested(p, [e]) && PhaseAfter(p, [e]) == Next(p, e)
  {
    assert [e][1..] == [];
  }

  lemma {:induction false} TellsNested(depth: nat, events: seq<Event>, reports: seq<Report>)
    requires Tells(depth, events, reports) && Depth(depth, reports) >= 0
    ensures WellNested(InTestCase(depth), events)
    ensures PhaseAfter(InTestCase(depth), events) == InTestCase(Depth(depth, reports))
    decreases events
  {
    if events != [] {
      match events[0] {
        case AssertionEnded(_) => TellsNested(depth, events[1..], reports);
        case SectionStarting(_, _, _) => TellsNested(depth + 1, events[1..], reports[1..]);
        case SectionEnded(_, _) => TellsNested(depth - 1, events[1..], reports[1..]);
      }
    }
  }

  lemma {:induction false} FlatBalanced(parts: seq<seq<Report>>)
    requires forall i :: 0 <= i < |parts| ==> Depth(0, parts[i]) == 0
    ensures Depth(0, Flat(parts)) == 0
    decreases parts
  {
    if parts != [] {
      FlatBalanced(parts[1..]);
      DepthConcat(0, parts[0], Flat(parts[1..]));
    }
  }

  /** The sections of a test are nested as they should be, whatever sections throw. */
  lemma {:induction false} CyclesNested(events: seq<Event>, test: Section)
    requires WellNamed(test) && TellsTest(events, test)
    ensures Depth(0, Flat(ToldInTest(test))) == 0
    ensures var inner := events[1..|events| - 1];
            WellNested(InTestCase(0), inner) && PhaseAfter(InTestCase(0), inner) == InTestCase(0)
  {
    hide ToldInTest, Depth, Flat, WellNested, PhaseAfter, Tells;
    var n, told := |events|, ToldInTest(test);
    ToldLength(test);
    forall i | 0 <= i < |told|
      ensures Depth(0, told[i]) == 0
    {
      TestNames(test, i);
    }
    FlatBalanced(told);
    TellsNested(0, events[1..n - 1], Flat(told));
  }

  lemma {:induction false} TestPieces(events: seq<Event>)
    requires |events| >= 2
    ensures [events[0]] + events[1..|events| - 1] + [events[|events| - 1]] == events
  {
  }

  lemma {:induction false} TestNested(events: seq<Event>, test: Section)
    requires WellNamed(test) && TellsTest(events, test)
    ensures WellNested(InGroup, events) && PhaseAfter(InGroup, events) == InGroup
  {
    hide ToldInTest, Depth, Flat, WellNested, PhaseAfter, Tells;
    var n := |events|;
    var start, inner, end := [events[0]], events[1..n - 1], [events[n - 1]];
    CyclesNested(events, test);
    OneNested(InGroup, events[0]);
    NestedConcat(InGroup, start, inner);
    OneNested(InTestCase(0), events[n - 1]);
    NestedConcat(InGroup, start + inner, end);
    TestPieces(events);
  }

  lemma {:induction false} TestsNested(tests: seq<Section>, parts: seq<seq<Event>>)
    requires |parts| == |tests|
    requires forall i :: 0 <= i < |tests| ==> WellNamed(tests[i]) && TellsTest(parts[i], tests[i])
    ensures WellNested(InGroup, Flat(parts)) && PhaseAfter(InGroup, Flat(parts)) == InGroup
    decreases tests
  {
    if tests != [] {
      hide TellsTest, WellNamed;
      TestNested(parts[0], tests[0]);
      TestsNested(tests[1..], parts[1..]);
      NestedConcat(InGroup, parts[0], Flat(parts[1..]));
    }
  }

  /** Every run of any tests, however their sections throw, is one that the reporter can cope with. */
  lemma {:induction false} RunNested(events: seq<Event>, tests: seq<Section>, parts: seq<seq<Event>>)
    requires forall i :: 0 <= i < |tests| ==> WellNamed(tests[i])
    requires TellsRun(events, tests, parts)
    ensures WellNested(BeforeRun, events) && PhaseAfter(BeforeRun, events) == AfterRun
  {
    hide WellNested, PhaseAfter, TellsTest, Flat;
    var n := |events|;
    TestsNested(tests, parts);
    OneNested(BeforeRun, events[0]);
    OneNested(InRun, events[1]);
    NestedConcat(BeforeRun, [events[0]], [events[1]]);
    NestedConcat(BeforeRun, [events[0]] + [events[1]], events[2..n - 2]);
    OneNested(InGroup, events[n - 2]);
    NestedConcat(BeforeRun, [events[0]] + [events[1]] + events[2..n - 2], [events[n - 2]]);
    OneNested(InRun, events[n - 1]);
    NestedConcat(BeforeRun, [events[0]] + [events[1]] + events[2..n - 2] + [events[n - 2]], [events[n - 1]]);
    assert [events[0]] + [events[1]] + events[2..n - 2] + [events[n - 2]] + [events[n - 1]] == events;
  }

  // ---------- What the document shows of the tests ----------

  /** The outermost section of a test is the test case itself, every other has its own element. */
  function Shown(depth: int, reports: seq<Report>): seq<Mark>
    decreases reports
  {
    if reports == [] then []
    else
      match reports[0]
      case Started(name) => (if depth >= 1 then Named("Section", name.name) else []) + Shown(depth + 1, reports[1..])
      case Ended(_) => (if depth >= 2 then [Closed("Section")] else []) + Shown(depth - 1, reports[1..])
  }

  function TestShown(name: string, test: Section): seq<Mark>
    requires WellNamed(test)
  {
    Named("TestCase", name) + Shown(0, Flat(ToldInTest(test))) + [Closed("TestCase")]
  }

  function TestName(events: seq<Event>): string {
    if events != [] && events[0].TestCaseStarting? then events[0].name else ""
  }

  function TestsShown(tests: seq<Section>, parts: seq<seq<Event>>): seq<Mark>
    requires |parts| == |tests| && forall i :: 0 <= i < |tests| ==> WellNamed(tests[i])
  {
    if tests == [] then [] else TestShown(TestName(parts[0]), tests[0]) + TestsShown(tests[1..], parts[1..])
  }

  lemma {:induction false} CollectedConcat(p: Phase, a: seq<Event>, b: seq<Event>, g: (Phase, Event) -> seq<Mark>)
    requires WellNested(p, a) && WellNested(PhaseAfter(p, a), b) && WellNested(p, a + b)
    ensures Collected(p, a + b, g) == Collected(p, a, g) + Collected(PhaseAfter(p, a), b, g)
    decreases a
  {
    if a == [] {
      assert a + b == b;
    } else {
      assert (a + b)[1..] == a[1..] + b;
      CollectedConcat(Next(p, a[0]), a[1..], b, g);
    }
  }

  lemma {:induction false} OneCollected(p: Phase, e: Event, g: (Phase, Event) -> seq<Mark>)
    requires Allowed(p, e) && WellNested(p, [e])
    ensures Collected(p, [e], g) == g(p, e)
  {
    assert [e][1..] == [];
  }

  lemma {:induction false} FirstCollected(p: Phase, events: seq<Event>, g: (Phase, Event) -> seq<Mark>)
    requires events != [] && WellNested(p, events)
    ensures Collected(p, events, g) == g(p, events[0]) + Collected(Next(p, events[0]), events[1..], g)
  {
  }

  /** What one event of a test shows. */
  lemma {:induction false} OneShown(config: Config, depth: nat, e: Event, reports: seq<Report>)
    requires Allowed(InTestCase(depth), e)
    requires match e
      case AssertionEnded(_) => true
      case SectionStarting(name, _, _) => reports != [] && reports[0].Started? && reports[0].name.name == name
      case SectionEnded(_, _) => reports != [] && reports[0].Ended?
      case _ => false
    ensures var rest := if e.AssertionEnded? then reports else reports[1..];
            Shown(depth, reports) == StructureOf(config, InTestCase(depth), e) + Shown(Next(InTestCase(depth), e).depth, rest)
  {
    hide Named;
    NoMore(StartOf(config, InTestCase(depth), e), EndOf(InTestCase(depth), e));
  }

  lemma {:induction false} NoMore(a: seq<Mark>, b: seq<Mark>)
    ensures b == [] ==> a + b == a
    ensures a == [] ==> a + b == b
    ensures forall c :: a == [] && b == [] ==> a + b + c == c
  {
  }

  lemma {:induction false} TellsNext(depth: nat, events: seq<Event>, reports: seq<Report>)
    requires events != [] && Tells(depth, events, reports) && Depth(depth, reports) >= 0
    requires WellNested(InTestCase(depth), events)
    ensures var e := events[0];
            || e.AssertionEnded?
            || (reports != []
                && if reports[0].Started? then e.SectionStarting? && e.name == reports[0].name.name else e.SectionEnded?)
    ensures var rest := if events[0].AssertionEnded? then reports else reports[1..];
            var next := Next(InTestCase(depth), events[0]);
            && next.InTestCase? && WellNested(next, events[1..])
            && Tells(next.depth, events[1..], rest) && Depth(next.depth, rest) >= 0
  {
  }

  lemma {:induction false} TellsShown(config: Config, depth: nat, events: seq<Event>, reports: seq<Report>)
    requires Tells(depth, events, reports) && Depth(depth, reports) >= 0 && WellNested(InTestCase(depth), events)
    ensures Collected(InTestCase(depth), events, Structure(config)) == Shown(depth, reports)
    decreases events
  {
    if events != [] {
      TellsNext(depth, events, reports);
      FirstCollected(InTestCase(depth), events, Structure(config));
      hide Collected, Shown, StructureOf, Tells, Depth;
      OneShown(config, depth, events[0], reports);
      TellsShown(config, Next(InTestCase(depth), events[0]).depth, events[1..],
                 if events[0].AssertionEnded? then reports else reports[1..]);
    } else {
      hide Tells;
      NoReports(depth, events, reports);
    }
  }

  lemma {:induction false} NoReports(depth: nat, events: seq<Event>, reports: seq<Report>)
    requires Tells(depth, events, reports) && events == []
    ensures reports == []
  {
  }

  lemma {:induction false} TestIsShown(config: Config, events: seq<Event>, test: Section)
    requires WellNamed(test) && TellsTest(events, test) && WellNested(InGroup, events)
    ensures Collected(InGroup, events, Structure(config)) == TestShown(TestName(events), test)
  {
    hide ToldInTest, Depth, Flat, WellNested, PhaseAfter, Tells, Collected, Shown, Named;
    var n := |events|;
    var start, inner, end := [events[0]], events[1..n - 1], [events[n - 1]];
    CyclesNested(events, test);
    OneNested(InGroup, events[0]);
    NestedConcat(InGroup, start, inner);
    OneNested(InTestCase(0), events[n - 1]);
    NestedConcat(InGroup, start + inner, end);
    TestPieces(events);
    CollectedConcat(InGroup, start, inner, Structure(config));
    CollectedConcat(InGroup, start + inner, end, Structure(config));
    OneCollected(InGroup, events[0], Structure(config));
    OneCollected(InTestCase(0), events[n - 1], Structure(config));
    TellsShown(config, 0, inner, Flat(ToldInTest(test)));
  }

  lemma {:induction false} TestsAreShown(config: Config, tests: seq<Section>, parts: seq<seq<Event>>)
    requires |parts| == |tests| && WellNested(InGroup, Flat(parts))
    requires forall i :: 0 <= i < |tests| ==> WellNamed(tests[i]) && TellsTest(parts[i], tests[i])
    ensures Collected(InGroup, Flat(parts), Structure(config)) == TestsShown(tests, parts)
    decreases tests
  {
    if tests != [] {
      hide TellsTest, WellNamed, TestShown, Structure;
      TestNested(parts[0], tests[0]);
      TestsNested(tests[1..], parts[1..]);
      TestIsShown(config, parts[0], tests[0]);
      TestsAreShown(config, tests[1..], parts[1..]);
      CollectedConcat(InGroup, parts[0], Flat(parts[1..]), Structure(config));
    }
  }

  lemma {:induction false} RunPieces(events: seq<Event>)
    requires |events| >= 4
    ensures var n := |events|;
            [events[0]] + [events[1]] + events[2..n - 2] + [events[n - 2]] + [events[n - 1]] == events
  {
  }

  /** The elements in the document are those of the tests, each with the sections of all of its cycles. */
  lemma {:induction false} RunIsShown(config: Config, events: seq<Event>, tests: seq<Section>, parts: seq<seq<Event>>)
    requires forall i :: 0 <= i < |tests| ==> WellNamed(tests[i])
    requires TellsRun(events, tests, parts) && WellNested(BeforeRun, events)
    ensures Collected(BeforeRun, events, Structure(config))
         == Named("Catch", config.name) + Named("Group", events[1].name) + TestsShown(tests, parts)
            + [Closed("Group")] + [Closed("Catch")]
  {
    hide WellNested, PhaseAfter, TellsTest, Flat, WellNamed, Collected, TestsShown, Named;
    var n, g := |events|, Structure(config);
    var a, b, c, d, e := [events[0]], [events[1]], events[2..n - 2], [events[n - 2]], [events[n - 1]];
    TestsNested(tests, parts);
    TestsAreShown(config, tests, parts);
    OneNested(BeforeRun, events[0]);
    OneNested(InRun, events[1]);
    OneNested(InGroup, events[n - 2]);
    OneNested(InRun, events[n - 1]);
    NestedConcat(BeforeRun, a, b);
    NestedConcat(BeforeRun, a + b, c);
    NestedConcat(BeforeRun, a + b + c, d);
    RunPieces(events);
    OneCollected(BeforeRun, events[0], g);
    OneCollected(InRun, events[1], g);
    OneCollected(InGroup, events[n - 2], g);
    OneCollected(InRun, events[n - 1], g);
    CollectedConcat(BeforeRun, a, b, g);
    CollectedConcat(BeforeRun, a + b, c, g);
    CollectedConcat(BeforeRun, a + b + c, d, g);
    CollectedConcat(BeforeRun, a + b + c + d, e, g);
  }

  /** So the report of every run is a whole well-formed document, that shows all tests with the sections of their cycles,
      and the results of the assertions. */
  method ReportRun(config: Config, events: seq<Event>, ghost tests: seq<Section>, ghost parts: seq<seq<Event>>)
    returns (out: seq<Token>)
    requires forall i :: 0 <= i < |tests| ==> WellNamed(tests[i])
    requires TellsRun(events, tests, parts)
    ensures Read(out).Reader? && Read(out).elements == [] && Read(out).hasRoot && !Read(out).inTag
    ensures Picked(Content(out), IsStructural)
         == Named("Catch", config.name) + Named("Group", events[1].name) + TestsShown(tests, parts)
            + [Closed("Group")] + [Closed("Catch")]
    ensures WellNested(BeforeRun, events)
    ensures Picked(Content(out), IsResult) == Collected(BeforeRun, events, Results(config))
    ensures Picked(Content(out), IsTotal) == Collected(BeforeRun, events, TotalsOf)
    ensures Picked(Content(out), IsDetail) == Collected(BeforeRun, events, Details(config))
  {
    hide WellNested, PhaseAfter, Read, Content, Picked, Collected, AllTold, TestsShown, TellsTest, Named;
    RunNested(events, tests, parts);
    RunIsShown(config, events, tests, parts);
    ReportTold(config, events);
    AllDetailsTold(config, events);
    out := ReportAll(config, events);
  }
}
