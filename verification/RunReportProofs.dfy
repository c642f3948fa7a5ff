/** What the run context reports in a cycle is what the path of the cycle calls for. */
module RunReportProofs {
  import opened SectionPlan
  import opened CycleStates
  import opened TrackerMachine
  import opened TrackerTrees
  import opened TrackerProofs
  import opened TestRunProofs
  import opened RunReports

  /** The body of `s` has followed `path`, and reported what is told of that. */
  ghost predicate Told(r: Runner, s: Section, path: seq<NameAndLocation>, reports: seq<Report>, r1: Runner, threw: bool) {
    && Leads(s, path) && r1.log == r.log + path && reports == ToldInBody(s, path)
    && threw == ThrowsInside(s, path) && r1.unfinished == Reversed(LeftEarly(s, path))
  }

  lemma {:induction false} NotIncluded(r: Runner, s: Section)
    requires RunnerOk(r) && !SectionStarted(r, s.name).1
    ensures SectionReports(r, s) == []
  {
  }

  lemma {:induction false} SkipStarted(r: Runner, s: Section, t: nat, i: nat)
    requires Ready(r, s, t) && i < |s.kids| && i < |r.ctx.cells[t].children|
    requires Tree(r.ctx.cells, t).kids[i].state.IsComplete()
    ensures !SectionStarted(r, s.kids[i].name).1
  {
    FindAt(r.ctx.cells, t, s, i);
    assert Tree(r.ctx.cells, t).kids[i] == Tree(r.ctx.cells, r.ctx.cells[t].children[i]);
  }

  lemma {:induction false} SkipReports(r: Runner, s: Section, t: nat, i: nat, n: nat)
    requires Ready(r, s, t) && i <= n <= |s.kids| && n <= |r.ctx.cells[t].children|
    requires forall j :: i <= j < n ==> Tree(r.ctx.cells, t).kids[j].state.IsComplete()
    ensures KidsReports(r, s, i) == KidsReports(r, s, n)
    decreases n - i
  {
    hide RunSection, SectionReports, Ready, Tree;
    if i < n {
      SkipKid(r, s, t, i);
      SkipStarted(r, s, t, i);
      NotIncluded(r, s.kids[i]);
      SkipReports(r, s, t, i + 1, n);
    }
  }

  lemma {:induction false} IdleStarted(r: Runner, s: Section, t: nat, i: nat)
    requires Idle(r, s, t, i) && i < |s.kids|
    ensures !SectionStarted(r, s.kids[i].name).1
  {
    var cells, name := r.ctx.cells, s.kids[i].name;
    FindAt(cells, t, s, i);
    if i < |cells[t].children| {
      assert Tree(cells, t).kids[i] == Tree(cells, cells[t].children[i]);
    }
  }

  lemma {:induction false} IdleReports(r: Runner, s: Section, t: nat, i: nat)
    requires Idle(r, s, t, i) && !r.ctx.cells[t].state.NotStarted?
    ensures KidsReports(r, s, i) == []
    decreases |s.kids| - i
  {
    if i < |s.kids| {
      hide RunSection, SectionReports, Idle;
      IdleIndex(r, s, t, i);
      IdleStep(r, s, t, i);
      IdleStarted(r, s, t, i);
      NotIncluded(r, s.kids[i]);
      IdleReports(RunSection(r, s.kids[i]).0, s, t, i + 1);
    }
  }

  lemma {:induction false} IdleIndex(r: Runner, s: Section, t: nat, i: nat)
    requires Idle(r, s, t, i)
    ensures RunnerOk(r) && i <= |s.kids|
  {
  }

  lemma {:induction false} KidFound(s: Section, i: nat)
    requires WellNamed(s) && i < |s.kids|
    ensures KidAt(s.kids, s.kids[i].name) == i
  {
    KidAtFirst(s.kids, i);
  }

  /** One section around its body. */
  lemma {:induction false} SectionTold(r: Runner, s: Section, i: nat, r1: Runner, path: seq<NameAndLocation>,
                                       body: seq<Report>, r2: Runner, inside: bool)
    requires WellNamed(s) && i < |s.kids|
    requires r1.log == r.log + [s.kids[i].name] && Told(r1, s.kids[i], path, body, r2, inside)
    requires RunnerOk(r2) && r2.active != []
    ensures var kid := s.kids[i];
            var threw := inside || kid.throws;
            Told(r, s, [kid.name] + path, [Started(kid.name)] + body + (if threw then [] else [Ended(kid.name)]),
                 EndSection(r2, kid, threw), threw)
  {
    hide EndSection, ToldInBody;
    var kid := s.kids[i];
    var threw := inside || kid.throws;
    KidFound(s, i);
    SectionEnds(r2, kid, threw);
    assert ([kid.name] + path)[1..] == path;
    assert r.log + [kid.name] + path == r.log + ([kid.name] + path);
    ToldFirst(s, kid, path);
    if !threw {
      NotLeft(kid, path);
    } else {
      assert ([kid.name] + LeftEarly(kid, path))[1..] == LeftEarly(kid, path);
    }
  }

  lemma {:induction false} SectionEnds(r: Runner, s: Section, threw: bool)
    requires RunnerOk(r) && r.active != []
    ensures var r' := EndSection(r, s, threw);
            r'.log == r.log && r'.unfinished == if threw then r.unfinished + [s.name] else r.unfinished
  {
    hide Close, Fail;
  }

  lemma {:induction false} NothingTold(r: Runner, s: Section)
    requires RunnerOk(r) && r.unfinished == []
    ensures var (r', threw) := RunKids(r, s, |s.kids|); Told(r, s, [], KidsReports(r, s, |s.kids|), r', threw)
  {
    assert r.log + [] == r.log;
  }

  /** A cycle that reaches the body of `t` reports what is told of the path it follows. */
  lemma {:induction false} BodyTold(r: Runner, s: Section, t: nat) returns (path: seq<NameAndLocation>)
    requires Ready(r, s, t)
    ensures var (r', threw) := RunKids(r, s, 0); Told(r, s, path, KidsReports(r, s, 0), r', threw)
    decreases s, |s.kids| + 2
  {
    hide RunKids, KidsReports, Told, Fits;
    var kids := Tree(r.ctx.cells, t).kids;
    FitsKids(Tree(r.ctx.cells, t), s);
    var n := FirstIncomplete(kids);
    SkipKids(r, s, t, 0, n);
    SkipReports(r, s, t, 0, n);
    if n == |s.kids| {
      path := [];
      NothingTold(r, s);
    } else {
      path := RestTold(r, s, t, n);
    }
  }

  lemma {:induction false} FitsKids(tree: Tracked, s: Section)
    requires Fits(tree, s)
    ensures |tree.kids| <= |s.kids|
  {
  }

  lemma {:induction false} RestTold(r: Runner, s: Section, t: nat, i: nat) returns (path: seq<NameAndLocation>)
    requires IsNext(r, s, t, i)
    requires forall j :: 0 <= j < i ==> Tree(r.ctx.cells, t).kids[j].state.IsComplete()
    ensures var (r', threw) := RunKids(r, s, i); Told(r, s, path, KidsReports(r, s, i), r', threw)
    decreases s, |s.kids| + 1
  {
    hide RunSection, RunKids, SectionReports, KidsReports, Told, Tree, Fits;
    KidCycle(r, s, t, i);
    path := KidTold(r, s, t, i);
    KidsStep(r, s, i);
    OneKidMore(r, s, i);
    var (r3, threw) := RunSection(r, s.kids[i]);
    if !threw {
      KidDoneIdle(r, s, t, i, r3);
      IdleKids(r3, s, t, i + 1);
      IdleReports(r3, s, t, i + 1);
      ToldLonger(r, s, path, SectionReports(r, s.kids[i]), r3, RunKids(r3, s, i + 1).0);
    }
  }

  lemma {:induction false} KidDoneIdle(r: Runner, s: Section, t: nat, i: nat, r3: Runner)
    requires IsNext(r, s, t, i) && RunnerOk(r3) && |r.ctx.cells| <= |r3.ctx.cells| && KidDone(r, s, t, i, r3, false)
    ensures Idle(r3, s, t, i + 1) && !r3.ctx.cells[t].state.NotStarted?
  {
  }

  lemma {:induction false} OneKidMore(r: Runner, s: Section, i: nat)
    requires RunnerOk(r) && i < |s.kids|
    ensures var (r1, threw) := RunSection(r, s.kids[i]);
            var first := SectionReports(r, s.kids[i]);
            KidsReports(r, s, i) == if threw then first else first + KidsReports(r1, s, i + 1)
  {
    hide RunSection, SectionReports;
    assert SectionReports(r, s.kids[i]) + [] == SectionReports(r, s.kids[i]);
  }

  lemma {:induction false} ToldLonger(r: Runner, s: Section, path: seq<NameAndLocation>, reports: seq<Report>,
                                      r1: Runner, r2: Runner)
    requires Told(r, s, path, reports, r1, false) && r2.log == r1.log && r2.unfinished == r1.unfinished
    ensures Told(r, s, path, reports + [], r2, false)
  {
    assert reports + [] == reports;
  }

  lemma {:induction false} KidTold(r: Runner, s: Section, t: nat, i: nat) returns (path: seq<NameAndLocation>)
    requires IsNext(r, s, t, i)
    ensures var (r3, threw) := RunSection(r, s.kids[i]); Told(r, s, path, SectionReports(r, s.kids[i]), r3, threw)
    decreases s, |s.kids|
  {
    hide Told;
    var kid := s.kids[i];
    EnterKid(r, s, t, i);
    StartKid(r, s, t, i);
    var r1 := StartedKid(r, s, t, i);
    var rest := BodyTold(r1, kid, r1.ctx.current);
    var (r2, threw) := RunKids(r1, kid, 0);
    SectionTold(r, s, i, r1, rest, BodyReports(r1, kid), r2, threw);
    path := [kid.name] + rest;
  }

  lemma {:induction false} KidsStep(r: Runner, s: Section, i: nat)
    requires RunnerOk(r) && i < |s.kids|
    ensures var (r1, threw) := RunSection(r, s.kids[i]);
            RunKids(r, s, i) == if threw then (r1, true) else RunKids(r1, s, i + 1)
  {
    hide RunSection;
  }

  lemma {:induction false} KidsEnd(r: Runner, s: Section)
    requires RunnerOk(r)
    ensures RunKids(r, s, |s.kids|) == (r, false)
  {
  }

  lemma {:induction false} UnfinishedStep(r: Runner, k: nat)
    requires RunnerOk(r)
    ensures EndUnfinished(r, k + 1) == EndUnfinished(SectionEnded(r), k)
  {
  }

  lemma {:induction false} UnfinishedEnd(r: Runner)
    requires RunnerOk(r)
    ensures EndUnfinished(r, 0) == r
  {
  }

  lemma {:induction false} UnfinishedLog(r: Runner, n: nat)
    requires RunnerOk(r)
    ensures EndUnfinished(r, n).log == r.log
    decreases n
  {
    if n > 0 {
      hide Close;
      UnfinishedLog(SectionEnded(r), n - 1);
    }
  }

  lemma {:induction false} UnfinishedTold(left: seq<NameAndLocation>)
    ensures UnfinishedReports(Reversed(left)) == EndAll(left)
  {
    if left != [] {
      UnfinishedTold(left[1..]);
      assert Reversed(left)[..|left| - 1] == Reversed(left[1..]);
    }
  }

  lemma {:induction false} CycleIsOpened(r: Runner, test: Section)
    requires Between(r, test) && LeftOfTest(r, test) != []
    ensures var r0 := Opened(r, test);
            && CycleReports(r, test) == TestReports(r0, test) && r0.log == r.log
            && RunCycle(r, test).0 == RunCurrentTest(r0, test, r0.ctx.current)
  {
    hide TestReports, RunCurrentTest, Acquire;
    OpenTest(r, test);
  }

  /** The section of the test case, and what an exception left, around its body. */
  lemma {:induction false} TestTold(r: Runner, test: Section, t: nat, path: seq<NameAndLocation>)
    requires RunnerOk(r) && t < |r.ctx.cells|
    requires var r1 := r.(log := r.log + [test.name]);
             var r2 := RunBody(r1, test).0;
             Leads(test, path) && Told(r1, test, path, BodyReports(r1, test), r2, ThrowsInside(test, path))
    ensures TestReports(r, test) == ToldInCycle(test, path)
    ensures RunCurrentTest(r, test, t).log == r.log + [test.name] + path
  {
    hide RunBody, BodyReports, ToldInBody, UnfinishedReports, Close;
    var r2 := RunBody(r.(log := r.log + [test.name]), test).0;
    UnfinishedLog(r2.(ctx := Close(r2.ctx, t)), |r2.unfinished|);
    UnfinishedTold(LeftEarly(test, path));
  }

  /** A cycle reports what is told of the next path of the plan. */
  lemma {:induction false} CycleTold(r: Runner, test: Section)
    requires Between(r, test) && LeftOfTest(r, test) != []
    ensures var path := LeftOfTest(r, test)[0].path;
            path != [] && Leads(test, path[1..]) && CycleReports(r, test) == ToldInCycle(test, path[1..])
  {
    hide Between, Ready, Opened, LeftOfTest, KidsReports, ToldInBody, RunKids, RunCurrentTest, TestReports;
    CycleIsOpened(r, test);
    TestCycle(r, test);
    var r0 := Opened(r, test);
    var r1 := r0.(log := r0.log + [test.name]);
    OpenedWithLog(r, test, r1);
    var path := BodyTold(r1, test, r1.ctx.current);
    TestTold(r0, test, r1.ctx.current, path);
    SamePath(r.log, test.name, path, LeftOfTest(r, test)[0].path);
  }

  /** The n-th cycle goes as planned, and is reported as it is told. */
  lemma {:induction false} CyclePlanned(r: Runner, test: Section, n: nat)
    requires Between(r, test) && WellNamed(test) && n < |TestPlan(test)| && LeftOfTest(r, test) == TestPlan(test)[n..]
    ensures var (r', tracker) := RunCycle(r, test);
            && Between(r', test) && LeftOfTest(r', test) == TestPlan(test)[n + 1..]
            && (r'.ctx.cells[tracker].state.CompletedSuccessfully? <==> n + 1 == |TestPlan(test)|)
    ensures n < |ToldInTest(test)| && CycleReports(r, test) == ToldInTest(test)[n]
  {
    hide Between, LeftOfTest, TestPlan, RunCycle, CycleReports, ToldInCycle, ToldInTest;
    TestCycle(r, test);
    CycleTold(r, test);
    ToldLength(test);
    ToldAt(test, n);
  }

  lemma {:induction false} OpenedWithLog(r: Runner, test: Section, r1: Runner)
    requires Between(r, test) && LeftOfTest(r, test) != []
    requires r1 == Opened(r, test).(log := r1.log)
    ensures Ready(r1, test, r1.ctx.current)
  {
    hide Fits, Left, LeftAt, Tree;
    OpenedReady(r, test);
  }

  lemma {:induction false} SamePath(log: seq<NameAndLocation>, name: NameAndLocation, path: seq<NameAndLocation>,
                                    whole: seq<NameAndLocation>)
    requires log + [name] + path == log + whole
    ensures whole == [name] + path && whole[1..] == path
  {
    assert (log + whole)[|log|..] == whole && (log + [name] + path)[|log|..] == [name] + path;
  }
}
