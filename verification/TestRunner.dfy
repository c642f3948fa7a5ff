/** The run context: it runs the body of a test case over and over, until its tracker is complete. */
module TestRunner {
  import opened SectionPlan
  import opened CycleStates
  import M = TrackerMachine
  import opened TrackerObjects
  import opened TestRunProofs
  import R = RunReports
  import opened RunReportProofs

  class RunContext {
    const trackers: TrackerContext
    var testCaseTracker: Tracker?
    var activeSections: seq<Tracker>
    var unfinishedSections: seq<NameAndLocation>
    /** What the reporter was told. */
    var reported: seq<R.Report>
    ghost var view: M.Runner

    constructor ()
      ensures Valid() && fresh(trackers) && trackers.all == []
      ensures activeSections == [] && unfinishedSections == [] && !trackers.fault
    {
      trackers := new TrackerContext();
      testCaseTracker, activeSections, unfinishedSections, reported := null, [], [], [];
      new;
      view := M.Runner(trackers.view, [], [], []);
    }

    ghost predicate Valid()
      reads `activeSections, `unfinishedSections, `view, trackers, trackers.all
    {
      && trackers.Valid()
      && view.ctx == trackers.view && view.unfinished == unfinishedSections
      && |view.active| == |activeSections|
      && forall i :: 0 <= i < |activeSections| ==>
           trackers.Has(activeSections[i]) && activeSections[i].id == view.active[i]
    }

    /** A cycle is going on. */
    ghost predicate Running()
      reads `activeSections, `unfinishedSections, `view, trackers, trackers.all
    {
      Valid() && trackers.current != null && |activeSections| == |view.active|
    }

    lemma {:induction false} RunnerOk()
      requires Running()
      ensures M.RunnerOk(view)
    {
      hide TrackerContext.ShownUpTo;
    }

    /** Trackers are only ever added. */
    twostate predicate Grown()
      reads trackers
    {
      old(trackers.all) <= trackers.all
      && forall i :: |old(trackers.all)| <= i < |trackers.all| ==> fresh(trackers.all[i])
    }

    method SectionStarted(name: NameAndLocation) returns (included: bool)
      requires Running()
      modifies this`activeSections, this`reported, this`view
      modifies trackers`current, trackers`all, trackers.all, trackers`view
      ensures Running() && Grown()
      ensures (view, included) == M.SectionStarted(old(view), name)
      ensures reported == old(reported) + if included then [R.Started(name)] else []
    {
      hide TrackerContext.ShownUpTo, M.Acquire;
      var section := trackers.Acquire(name);
      section.Shown();
      included := section.state.IsOpen();
      view := view.(ctx := trackers.view);
      if included {
        activeSections, reported := activeSections + [section], reported + [R.Started(name)];
        view := view.(active := view.active + [section.id], log := view.log + [name]);
      }
    }

    method SectionEnded(name: NameAndLocation)
      requires Running()
      modifies this`activeSections, this`reported, this`view
      modifies trackers`current, trackers`run, trackers`fault, trackers.all, trackers`view
      ensures Running()
      ensures view == M.SectionEnded(old(view)) && reported == old(reported) + [R.Ended(name)]
    {
      if activeSections != [] {
        var last := |activeSections| - 1;
        activeSections[last].Close();
        activeSections := activeSections[..last];
        view := view.(ctx := trackers.view, active := view.active[..last]);
      }
      reported := reported + [R.Ended(name)];
    }

    /** Among the sections an exception leaves, the innermost one fails and the others are closed. */
    method SectionEndedEarly(name: NameAndLocation)
      requires Running() && activeSections != []
      modifies this`activeSections, this`unfinishedSections, this`view
      modifies trackers`current, trackers`run, trackers`fault, trackers.all, trackers`view
      ensures Running()
      ensures view == M.SectionEndedEarly(old(view), name)
    {
      var last := |activeSections| - 1;
      if unfinishedSections == [] {
        activeSections[last].Fail();
      } else {
        activeSections[last].Close();
      }
      activeSections, unfinishedSections := activeSections[..last], unfinishedSections + [name];
      view := M.Runner(trackers.view, view.active[..last], view.unfinished + [name], view.log);
    }

    /** One section of a body, from the construction of its `Section` object to its destruction. */
    method RunSection(s: Section) returns (threw: bool)
      requires Running()
      modifies this`activeSections, this`unfinishedSections, this`reported, this`view
      modifies trackers`current, trackers`run, trackers`fault, trackers`all, trackers.all, trackers`view
      ensures Running() && Grown()
      ensures (view, threw) == M.RunSection(old(view), s)
      ensures reported == old(reported) + R.SectionReports(old(view), s)
      decreases s, 1
    {
      hide Valid, M.SectionStarted, M.RunBody, M.SectionEndedEarly, M.SectionEnded, R.BodyReports;
      var included := SectionStarted(s.name);
      if !included {
        return false;
      }
      threw := RunBody(s);
      if threw {
        SectionEndedEarly(s.name);
      } else {
        SectionEnded(s.name);
      }
    }

    method RunBody(s: Section) returns (threw: bool)
      requires Running()
      modifies this`activeSections, this`unfinishedSections, this`reported, this`view
      modifies trackers`current, trackers`run, trackers`fault, trackers`all, trackers.all, trackers`view
      ensures Running() && Grown()
      ensures (view, threw) == M.RunBody(old(view), s)
      ensures reported == old(reported) + R.BodyReports(old(view), s)
      decreases s, 0
    {
      hide TrackerContext.ShownUpTo, M.RunKids, M.RunSection, R.SectionReports, R.KidsReports;
      var i := 0;
      while i < |s.kids|
        invariant i <= |s.kids| && Running() && Grown()
        invariant M.RunKids(view, s, i) == M.RunKids(old(view), s, 0)
        invariant reported + R.KidsReports(view, s, i) == old(reported) + R.KidsReports(old(view), s, 0)
      {
        R.OneKid(reported, view, s, i);
        KidsStep(view, s, i);
        threw := RunSection(s.kids[i]);
        if threw {
          return;
        }
        i := i + 1;
      }
      R.NoKids(reported, view, s);
      KidsEnd(view, s);
      return s.throws;
    }

    /** Ends the sections that an exception left, once the exception is caught. */
    method EndUnfinishedSections()
      requires Running()
      modifies this`activeSections, this`reported, this`view
      modifies trackers`current, trackers`run, trackers`fault, trackers.all, trackers`view
      ensures Running()
      ensures view == M.EndUnfinished(old(view), |unfinishedSections|)
      ensures reported == old(reported) + R.UnfinishedReports(unfinishedSections)
    {
      RunnerOk();
      hide Valid, TrackerContext.Valid, M.RunnerOk, M.EndUnfinished, M.SectionEnded, R.UnfinishedReports;
      var n := |unfinishedSections|;
      assert unfinishedSections[..n] == unfinishedSections;
      ghost var end := M.EndUnfinished(view, n);
      ghost var told := reported + R.UnfinishedReports(unfinishedSections);
      for k := n downto 0
        invariant Running() && M.RunnerOk(view) && M.EndUnfinished(view, k) == end
        invariant reported + R.UnfinishedReports(unfinishedSections[..k]) == told
      {
        R.OneUnfinished(reported, unfinishedSections, k);
        UnfinishedStep(view, k);
        SectionEnded(unfinishedSections[k]);
      }
      R.NoneUnfinished(reported, unfinishedSections[..0]);
      UnfinishedEnd(view);
    }

    method HandleUnfinishedSections()
      requires Running()
      modifies this`activeSections, this`unfinishedSections, this`reported, this`view
      modifies trackers`current, trackers`run, trackers`fault, trackers.all, trackers`view
      ensures Running()
      ensures view == M.HandleUnfinished(old(view))
      ensures reported == old(reported) + R.UnfinishedReports(old(unfinishedSections))
    {
      hide TrackerContext.ShownUpTo, M.EndUnfinished;
      EndUnfinishedSections();
      unfinishedSections, view := [], view.(unfinished := []);
    }

    method CloseTestCase()
      requires Running() && testCaseTracker != null && trackers.Has(testCaseTracker)
      modifies this`view
      modifies trackers`current, trackers`run, trackers`fault, trackers.all, trackers`view
      ensures Running() && view == old(view).(ctx := M.Close(old(view).ctx, testCaseTracker.id))
    {
      hide TrackerContext.ShownUpTo, M.Close;
      testCaseTracker.Close();
      view := view.(ctx := trackers.view);
    }

    method RunCurrentTest(test: Section)
      requires Running() && testCaseTracker != null && trackers.Has(testCaseTracker)
      modifies this`activeSections, this`unfinishedSections, this`reported, this`view
      modifies trackers`current, trackers`run, trackers`fault, trackers`all, trackers.all, trackers`view
      ensures Running() && Grown()
      ensures view == M.RunCurrentTest(old(view), test, testCaseTracker.id)
      ensures reported == old(reported) + R.TestReports(old(view), test)
    {
      hide TrackerContext.Valid, M.RunBody, M.HandleUnfinished, M.Close, R.BodyReports, R.UnfinishedReports;
      reported, view := reported + [R.Started(test.name)], view.(log := view.log + [test.name]);
      var _ := RunBody(test);
      CloseTestCase();
      HandleUnfinishedSections();
      reported := reported + [R.Ended(test.name)];
    }

    /** Starts a cycle with the tracker of the test case. */
    method OpenTestCase(name: NameAndLocation)
      requires Valid() && trackers.rootTracker != null
      requires trackers.Has(trackers.rootTracker) && trackers.rootTracker.id == 0
      modifies this`testCaseTracker, this`view
      modifies trackers`current, trackers`run, trackers`all, trackers.all, trackers`view
      ensures Running() && Grown() && testCaseTracker != null && trackers.Has(testCaseTracker)
      ensures var (c, id) := M.Acquire(M.StartCycle(old(view).ctx), name);
              view == old(view).(ctx := c) && testCaseTracker.id == id
    {
      hide TrackerContext.ShownUpTo, M.Acquire;
      trackers.StartCycle();
      testCaseTracker := trackers.Acquire(name);
      view := view.(ctx := trackers.view);
    }

    method IsTestCaseComplete() returns (b: bool)
      requires Running() && testCaseTracker != null && trackers.Has(testCaseTracker)
      ensures b == view.ctx.cells[testCaseTracker.id].state.CompletedSuccessfully?
    {
      testCaseTracker.Shown();
      b := testCaseTracker.state.CompletedSuccessfully?;
    }

    /** One cycle: the test case's tracker is opened, and its body is run as far as this cycle may. */
    method RunCycle(test: Section) returns (done: bool)
      requires Valid() && trackers.rootTracker != null
      requires trackers.Has(trackers.rootTracker) && trackers.rootTracker.id == 0
      modifies this`testCaseTracker, this`activeSections, this`unfinishedSections, this`reported, this`view
      modifies trackers`current, trackers`run, trackers`fault, trackers`all, trackers.all, trackers`view
      ensures Running() && Grown()
      ensures var (r', tracker) := M.RunCycle(old(view), test);
              view == r' && done == r'.ctx.cells[tracker].state.CompletedSuccessfully?
      ensures reported == old(reported) + R.CycleReports(old(view), test)
    {
      hide TrackerContext.Valid, M.RunCurrentTest, M.Acquire, R.TestReports;
      OpenTestCase(test.name);
      RunCurrentTest(test);
      done := IsTestCaseComplete();
    }

    /** Forgets the trackers of earlier tests. */
    method StartTest()
      requires Valid() && activeSections == []
      modifies this`view
      modifies trackers`rootTracker, trackers`current, trackers`run, trackers`all, trackers`view
      ensures Valid() && fresh(trackers.all) && trackers.rootTracker != null
      ensures trackers.Has(trackers.rootTracker) && trackers.rootTracker.id == 0
      ensures view == old(view).(ctx := M.Context([M.ROOT], M.NONE, M.RunExecuting, old(view).ctx.fault))
    {
      hide TrackerContext.ShownUpTo;
      trackers.StartRun();
      view := view.(ctx := trackers.view);
    }

    /** Runs a test case; `cycles` is what each re-run of its body reported. */
    method RunTest(test: Section) returns (cycles: seq<seq<R.Report>>)
      requires Valid() && activeSections == [] && unfinishedSections == [] && !trackers.fault && WellNamed(test)
      modifies this, trackers, trackers.all
      ensures Valid() && activeSections == [] && unfinishedSections == [] && !trackers.fault
      ensures cycles == R.ToldInTest(test)
    {
      hide TrackerContext.ShownUpTo, Between, LeftOfTest, TestPlan, M.RunCycle, R.CycleReports, R.ToldInTest;
      StartTest();
      ghost var plan, told := TestPlan(test), R.ToldInTest(test);
      AtStart(view, test);
      R.ToldLength(test);
      cycles := [];
      var done := false;
      while !done
        invariant Valid() && fresh(trackers.all) && trackers.rootTracker != null
        invariant trackers.Has(trackers.rootTracker) && trackers.rootTracker.id == 0
        invariant Between(view, test)
        invariant |cycles| <= |plan| && LeftOfTest(view, test) == plan[|cycles|..]
        invariant done <==> |cycles| == |plan|
        invariant cycles == told[..|cycles|]
        decreases |plan| - |cycles|
      {
        var start := |reported|;
        CyclePlanned(view, test, |cycles|);
        done := RunCycle(test);
        cycles := cycles + [reported[start..]];
      }
      testCaseTracker := null;
      Quiet(view, test);
    }
  }
}
