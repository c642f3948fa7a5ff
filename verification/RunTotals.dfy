/** Counting assertions and test cases over a test run. */
module RunTotals {

  datatype Counts = Counts(passed: nat, failed: nat, failedButOk: nat) {
    function Total(): nat {
      passed + failed + failedButOk
    }

    function Plus(other: Counts): Counts {
      Counts(passed + other.passed, failed + other.failed, failedButOk + other.failedButOk)
    }

    predicate Covers(other: Counts) {
      other.passed <= passed && other.failed <= failed && other.failedButOk <= failedButOk
    }

    function Minus(other: Counts): Counts
      requires Covers(other)
    {
      Counts(passed - other.passed, failed - other.failed, failedButOk - other.failedButOk)
    }
  }

  const NONE := Counts(0, 0, 0)

  datatype Totals = Totals(assertions: Counts, testCases: Counts) {
    function Plus(other: Totals): Totals {
      Totals(assertions.Plus(other.assertions), testCases.Plus(other.testCases))
    }

    /** What has been counted since, with one more test case that failed, failed as expected, or passed. */
    function Delta(prev: Totals): Totals
      requires assertions.Covers(prev.assertions) && testCases.Covers(prev.testCases)
    {
      var diff := Totals(assertions.Minus(prev.assertions), testCases.Minus(prev.testCases));
      var cases := diff.testCases;
      diff.(testCases :=
        if diff.assertions.failed > 0 then cases.(failed := cases.failed + 1)
        else if diff.assertions.failedButOk > 0 then cases.(failedButOk := cases.failedButOk + 1)
        else cases.(passed := cases.passed + 1))
    }
  }

  const NOTHING := Totals(NONE, NONE)

  /** An assertion passes, fails, or fails without being counted; a section that is warned about counts as failed. */
  datatype Event = Passed | Failed | Suppressed | MissingAssertions

  datatype Test = Test(events: seq<Event>, mayFail: bool, shouldFail: bool) {
    predicate OkToFail() {
      mayFail || shouldFail
    }
  }

  // ---------- What a test comes to, told from its events ----------

  function Times(events: seq<Event>, e: Event): nat {
    if events == [] then 0
    else Times(events[..|events| - 1], e) + if events[|events| - 1] == e then 1 else 0
  }

  datatype Verdict = Pass | FailedAsAllowed | Fail

  /** A test that is expected to fail fails if it does not. */
  predicate PassesUnexpectedly(t: Test) {
    t.shouldFail && Failed !in t.events && MissingAssertions !in t.events
  }

  function VerdictOf(t: Test): Verdict {
    if MissingAssertions in t.events || (Failed in t.events && !t.OkToFail()) || PassesUnexpectedly(t) then Fail
    else if Failed in t.events then FailedAsAllowed
    else Pass
  }

  function Verdicts(tests: seq<Test>, v: Verdict): nat {
    if tests == [] then 0
    else Verdicts(tests[..|tests| - 1], v) + if VerdictOf(tests[|tests| - 1]) == v then 1 else 0
  }

  function UnexpectedPasses(tests: seq<Test>): nat {
    if tests == [] then 0
    else UnexpectedPasses(tests[..|tests| - 1]) + if PassesUnexpectedly(tests[|tests| - 1]) then 1 else 0
  }

  function AssertionsOf(events: seq<Event>, okToFail: bool): Counts {
    Counts(Times(events, Passed),
           Times(events, MissingAssertions) + if okToFail then 0 else Times(events, Failed),
           if okToFail then Times(events, Failed) else 0)
  }

  /** What a test adds: its assertions, one of them for passing unexpectedly, and one test case. */
  function DeltaOf(t: Test): Totals {
    var assertions := AssertionsOf(t.events, t.OkToFail());
    Totals(if PassesUnexpectedly(t) then assertions.(failed := assertions.failed + 1) else assertions,
           match VerdictOf(t)
           case Pass => NONE.(passed := 1)
           case FailedAsAllowed => NONE.(failedButOk := 1)
           case Fail => NONE.(failed := 1))
  }

  lemma {:induction false} TimesIn(events: seq<Event>, e: Event)
    ensures Times(events, e) > 0 <==> e in events
  {
    if events != [] {
      var n := |events| - 1;
      TimesIn(events[..n], e);
      assert events == events[..n] + [events[n]];
    }
  }

  lemma {:induction false} TimesOne(e: Event)
    ensures forall x :: Times([e], x) == if e == x then 1 else 0
  {
    assert [e][..0] == [];
  }

  /** The adjustment that is made for a test that should have failed agrees with its verdict. */
  lemma {:induction false} DeltaIsRight(t: Test, prev: Totals)
    ensures var delta := Totals(prev.assertions.Plus(AssertionsOf(t.events, t.OkToFail())), prev.testCases).Delta(prev);
            var adjusted := t.shouldFail && delta.testCases.passed > 0;
            DeltaOf(t) == if adjusted then Totals(delta.assertions.(failed := delta.assertions.failed + 1), NONE.(failed := 1))
                          else delta
  {
    TimesIn(t.events, Failed);
    TimesIn(t.events, MissingAssertions);
  }

  // ---------- What a run comes to ----------

  function Sum(tests: seq<Test>): Totals {
    if tests == [] then NOTHING else Sum(tests[..|tests| - 1]).Plus(DeltaOf(tests[|tests| - 1]))
  }

  /** Every test is counted once, under its verdict; and there is a failed assertion exactly if a test failed. */
  lemma {:induction false} SumCounts(tests: seq<Test>)
    ensures var sum := Sum(tests);
            && sum.testCases == Counts(Verdicts(tests, Pass), Verdicts(tests, Fail), Verdicts(tests, FailedAsAllowed))
            && sum.testCases.Total() == |tests|
            && sum.testCases.failed <= sum.assertions.failed
            && (sum.assertions.failed == 0 <==> sum.testCases.failed == 0)
  {
    if tests != [] {
      var n := |tests| - 1;
      SumCounts(tests[..n]);
      TimesIn(tests[n].events, Failed);
      TimesIn(tests[n].events, MissingAssertions);
    }
  }

  lemma {:induction false} SumOneMore(tests: seq<Test>, t: Test)
    ensures Sum(tests + [t]) == Sum(tests).Plus(DeltaOf(t))
    ensures UnexpectedPasses(tests + [t]) == UnexpectedPasses(tests) + if PassesUnexpectedly(t) then 1 else 0
  {
    assert (tests + [t])[..|tests|] == tests;
  }

  /** What the context has counted itself: it does not keep the extra failure of an unexpected pass. */
  function ContextSum(tests: seq<Test>): Totals {
    if tests == [] then NOTHING
    else
      var before, t := ContextSum(tests[..|tests| - 1]), tests[|tests| - 1];
      Totals(before.assertions.Plus(AssertionsOf(t.events, t.OkToFail())), before.testCases.Plus(DeltaOf(t).testCases))
  }

  lemma {:induction false} ContextOneMore(tests: seq<Test>, t: Test)
    ensures ContextSum(tests + [t]) ==
            Totals(ContextSum(tests).assertions.Plus(AssertionsOf(t.events, t.OkToFail())),
                   ContextSum(tests).testCases.Plus(DeltaOf(t).testCases))
  {
    assert (tests + [t])[..|tests|] == tests;
  }

  lemma {:induction false} SumNone(tests: seq<Test>)
    requires tests == []
    ensures Sum(tests) == ContextSum(tests) == NOTHING
  {
  }

  lemma {:induction false} DeltaFailed(t: Test)
    ensures DeltaOf(t).assertions.failed
         == AssertionsOf(t.events, t.OkToFail()).failed + if PassesUnexpectedly(t) then 1 else 0
  {
  }

  const MAX_EXIT_CODE: nat := 255

  class RunContext {
    var totals: Totals

    constructor ()
      ensures totals == NOTHING
    {
      totals := NOTHING;
    }

    method EventEnded(e: Event, okToFail: bool)
      modifies this
      ensures totals == old(totals).(assertions := old(totals).assertions.Plus(AssertionsOf([e], okToFail)))
    {
      TimesOne(e);
      var counts := totals.assertions;
      match e {
        case Passed => counts := counts.(passed := counts.passed + 1);
        case Failed =>
          if okToFail {
            counts := counts.(failedButOk := counts.failedButOk + 1);
          } else {
            counts := counts.(failed := counts.failed + 1);
          }
        case MissingAssertions => counts := counts.(failed := counts.failed + 1);
        case Suppressed =>
      }
      totals := totals.(assertions := counts);
    }

    /** The extra failure of a test that should have failed is returned, but not kept in the context. */
    method RunTest(t: Test) returns (delta: Totals)
      modifies this
      ensures delta == DeltaOf(t)
      ensures totals.testCases == old(totals).testCases.Plus(delta.testCases)
      ensures totals.assertions == old(totals).assertions.Plus(AssertionsOf(t.events, t.OkToFail()))
    {
      var prevTotals := totals;
      for i := 0 to |t.events|
        invariant totals.testCases == prevTotals.testCases
        invariant totals.assertions == prevTotals.assertions.Plus(AssertionsOf(t.events[..i], t.OkToFail()))
      {
        assert t.events[..i + 1][..i] == t.events[..i] && [t.events[i]][..0] == [];
        EventEnded(t.events[i], t.OkToFail());
      }
      assert t.events[..|t.events|] == t.events;
      DeltaIsRight(t, prevTotals);
      delta := totals.Delta(prevTotals);
      if t.shouldFail && delta.testCases.passed > 0 {
        var a, c := delta.assertions, delta.testCases;
        delta := Totals(a.(failed := a.failed + 1), c.(passed := c.passed - 1, failed := c.failed + 1));
      }
      totals := totals.(testCases := totals.testCases.Plus(delta.testCases));
    }
  }

  /** How often an event comes in all tests, or in those that may fail or may not. */
  function TimesInAll(tests: seq<Test>, e: Event, okToFail: set<bool>): nat {
    if tests == [] then 0
    else
      var last := tests[|tests| - 1];
      TimesInAll(tests[..|tests| - 1], e, okToFail)
      + if (last.mayFail || last.shouldFail) in okToFail then Times(last.events, e) else 0
  }

  /** The assertions of a run are those of its tests, a failure counts as expected where the test may fail, and missing
      assertions and unexpected passes are failures. */
  lemma {:induction false} SumAssertions(tests: seq<Test>)
    ensures var all := {true, false};
            Sum(tests).assertions ==
            Counts(TimesInAll(tests, Passed, all),
                   TimesInAll(tests, MissingAssertions, all) + TimesInAll(tests, Failed, {false}) + UnexpectedPasses(tests),
                   TimesInAll(tests, Failed, {true}))
  {
    if tests != [] {
      hide Times, VerdictOf, PassesUnexpectedly, DeltaOf;
      SumAssertions(tests[..|tests| - 1]);
      OneAssertions(tests[|tests| - 1]);
    }
  }

  lemma {:induction false} OneAssertions(t: Test)
    ensures var failed := Times(t.events, Failed);
            DeltaOf(t).assertions ==
            Counts(Times(t.events, Passed),
                   Times(t.events, MissingAssertions) + (if t.mayFail || t.shouldFail then 0 else failed)
                   + (if PassesUnexpectedly(t) then 1 else 0),
                   if t.mayFail || t.shouldFail then failed else 0)
  {
    hide Times, VerdictOf, PassesUnexpectedly;
  }

  /** Runs all tests, and says with what code to exit: the number of failed assertions, which is zero if and only if no
      test failed, but 255 at most. */
  method RunTests(tests: seq<Test>) returns (totals: Totals, ofContext: Totals, exitCode: nat)
    ensures totals == Sum(tests) && totals.testCases.Total() == |tests|
    ensures exitCode == 0 <==> forall t :: t in tests ==> VerdictOf(t) != Fail
    ensures exitCode == if totals.assertions.failed < 255 then totals.assertions.failed else 255
    ensures ofContext == ContextSum(tests) && ofContext.testCases == totals.testCases
    ensures ofContext.assertions.failed + UnexpectedPasses(tests) == totals.assertions.failed
  {
    hide Sum, ContextSum, DeltaOf, Verdicts, VerdictOf, UnexpectedPasses, PassesUnexpectedly, AssertionsOf;
    var context := new RunContext();
    totals := NOTHING;
    SumNone(tests[..0]);
    for i := 0 to |tests|
      invariant totals == Sum(tests[..i]) && context.totals == ContextSum(tests[..i])
    {
      assert tests[..i + 1] == tests[..i] + [tests[i]];
      SumOneMore(tests[..i], tests[i]);
      ContextOneMore(tests[..i], tests[i]);
      var delta := context.RunTest(tests[i]);
      totals := totals.Plus(delta);
    }
    assert tests[..|tests|] == tests;
    SumCounts(tests);
    ContextDiffers(tests);
    NoneFails(tests);
    ofContext := context.totals;
    exitCode := if totals.assertions.failed < MAX_EXIT_CODE then totals.assertions.failed else MAX_EXIT_CODE;
  }

  lemma {:induction false} NoneFails(tests: seq<Test>)
    ensures Verdicts(tests, Fail) == 0 <==> forall t :: t in tests ==> VerdictOf(t) != Fail
  {
    if tests != [] {
      var n := |tests| - 1;
      NoneFails(tests[..n]);
      assert tests == tests[..n] + [tests[n]];
    }
  }

  lemma {:induction false} ContextDiffers(tests: seq<Test>)
    ensures ContextSum(tests).testCases == Sum(tests).testCases
    ensures ContextSum(tests).assertions.failed + UnexpectedPasses(tests) == Sum(tests).assertions.failed
  {
    if tests != [] {
      ContextDiffers(tests[..|tests| - 1]);
      DeltaFailed(tests[|tests| - 1]);
    }
  }

  /** No assertion of the test counts as failed. */
  predicate NoFailure(t: Test) {
    MissingAssertions !in t.events && (Failed in t.events ==> t.OkToFail())
  }

  /** A test passes unexpectedly, and no assertion of any test counts as failed. */
  predicate OnlyUnexpected(tests: seq<Test>) {
    (exists t :: t in tests && PassesUnexpectedly(t)) && forall t :: t in tests ==> NoFailure(t)
  }

  lemma {:induction false} NoFailureCounts(t: Test)
    ensures AssertionsOf(t.events, t.OkToFail()).failed == 0 <==> NoFailure(t)
  {
    TimesIn(t.events, Failed);
    TimesIn(t.events, MissingAssertions);
  }

  lemma {:induction false} ContextFailures(tests: seq<Test>)
    ensures ContextSum(tests).assertions.failed == 0 <==> forall t :: t in tests ==> NoFailure(t)
  {
    if tests != [] {
      hide NoFailure, AssertionsOf, DeltaOf;
      var n := |tests| - 1;
      assert tests == tests[..n] + [tests[n]];
      ContextFailures(tests[..n]);
      NoFailureCounts(tests[n]);
    }
  }

  /** The totals that the context reports at the end of the run say that a test failed but no assertion did, exactly
      if a test has passed unexpectedly and no assertion of any test counts as failed. */
  lemma {:induction false} ContextMisses(tests: seq<Test>)
    ensures var ofContext := ContextSum(tests);
            (ofContext.assertions.failed == 0 && ofContext.testCases.failed > 0) <==> OnlyUnexpected(tests)
    ensures ContextSum(tests).testCases.failed == 0 ==> ContextSum(tests).assertions.failed == 0
  {
    SumCounts(tests);
    ContextDiffers(tests);
    ContextFailures(tests);
    NoneFails(tests);
    forall t | t in tests && NoFailure(t)
      ensures VerdictOf(t) == Fail <==> PassesUnexpectedly(t)
    {
    }
  }

  lemma {:induction false} OneTest(t: Test)
    ensures ContextSum([t]) == Totals(AssertionsOf(t.events, t.OkToFail()), DeltaOf(t).testCases)
  {
    hide AssertionsOf, DeltaOf, ContextSum;
    assert [] + [t] == [t];
    ContextOneMore([], t);
    SumNone([]);
  }

  lemma {:induction false} OnePassed(t: Test)
    requires t.events == [Passed] && t.shouldFail
    ensures AssertionsOf(t.events, t.OkToFail()) == Counts(1, 0, 0) && DeltaOf(t).testCases == Counts(0, 1, 0)
  {
    hide Times;
    TimesOne(Passed);
    assert t.events[0] == Passed;
    assert VerdictOf(t) == Fail;
  }

  /** For instance, a run of one test that should have failed and passed: one failed test, no failed assertion. */
  lemma {:induction false} UnexpectedPassIsMissed()
    ensures ContextSum([Test([Passed], false, true)]) == Totals(Counts(1, 0, 0), Counts(0, 1, 0))
  {
    hide ContextSum, AssertionsOf, DeltaOf;
    var t := Test([Passed], false, true);
    OneTest(t);
    OnePassed(t);
  }
}
