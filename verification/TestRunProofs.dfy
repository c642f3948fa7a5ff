/** The re-run loop of a test case: every cycle uses up one cycle of the test's plan, until nothing is left. */
module TestRunProofs {
  import opened SectionPlan
  import opened CycleStates
  import opened TrackerMachine
  import opened TrackerTrees
  import opened TrackerProofs

  /** A test case as the re-run loop sees it: an exception that leaves its body is caught. */
  function Caught(test: Section): Section {
    test.(throws := false)
  }

  /** The whole run, as a body with the test case as its only section. */
  function Run(test: Section): Section {
    Section(ROOT.name, [Caught(test)], false)
  }

  /** The state before the first cycle, between cycles and after the last one. */
  ghost predicate Between(r: Runner, test: Section) {
    && 0 < |r.ctx.cells| && !r.ctx.fault && r.active == [] && r.unfinished == []
    && r.ctx.cells[0].parent == NONE && WellNamed(test)
    && Fits(Tree(r.ctx.cells, 0), Run(test))
    && (r.ctx.cells[0].children != [] ==>
          var tracker := Tree(r.ctx.cells, 0).kids[0];
          !tracker.state.NotStarted? && !tracker.state.Failed?)
  }

  /** The cycles the test case has still to come. */
  ghost function LeftOfTest(r: Runner, test: Section): seq<Cycle>
    requires Between(r, test)
  {
    LeftAt(Tree(r.ctx.cells, 0).kids, Run(test).kids, 0)
  }

  lemma {:induction false} AtStart(r: Runner, test: Section)
    requires r.ctx.cells == [ROOT] && !r.ctx.fault && r.active == [] && r.unfinished == [] && WellNamed(test)
    ensures Between(r, test) && LeftOfTest(r, test) == TestPlan(test) && TestPlan(test) != []
  {
    PlanEnd(test);
    assert Tree(r.ctx.cells, 0).kids == [];
    assert BodyPlan(Caught(test)) == BodyPlan(test);
  }

  lemma {:induction false} Quiet(r: Runner, test: Section)
    requires Between(r, test)
    ensures !r.ctx.fault && r.active == [] && r.unfinished == []
  {
  }

  /** The runner once a cycle has opened the test case's tracker. */
  ghost function Opened(r: Runner, test: Section): (r1: Runner)
    requires Between(r, test)
    ensures RunnerOk(r1)
  {
    StartedTree(r.ctx.cells, 0, Run(test), 0);
    var cells := StartedCells(r.ctx.cells, 0, Run(test), 0);
    r.(ctx := Context(cells, cells[0].children[0], RunExecuting, false))
  }

  lemma {:induction false} OpenTest(r: Runner, test: Section)
    requires Between(r, test) && LeftOfTest(r, test) != []
    ensures Acquire(StartCycle(r.ctx), test.name) == (Opened(r, test).ctx, Opened(r, test).ctx.current as nat)
  {
    var cells, s := r.ctx.cells, Run(test);
    assert WellNamed(s);
    FoundKid(cells, 0, s, 0);
    FindAt(cells, 0, s, 0);
    var c := StartCycle(r.ctx).(cells := FoundCells(cells, 0, s, 0));
    var kid := c.cells[0].children[0];
    assert !c.cells[kid].state.IsComplete() by {
      if cells[0].children != [] {
        assert Tree(cells, 0).kids[0] == Tree(cells, kid);
        LeftEmpty(Tree(cells, kid), Caught(test));
      }
    }
    assert Open(c, kid).cells == OpenedCells(c.cells, 0, 0);
  }

  /** `t` is the only child of the root, which waits for it. */
  ghost predicate UnderRoot(cells: Cells, t: nat) {
    && t < |cells| && cells[0].children == [t] && cells[t].parent == 0
    && cells[0].parent == NONE && cells[0].name == ROOT.name && !cells[0].state.NotStarted?
  }

  lemma {:induction false} OpenedUnderRoot(r: Runner, test: Section)
    requires Between(r, test)
    ensures UnderRoot(Opened(r, test).ctx.cells, Opened(r, test).ctx.current)
  {
    var cells, s := r.ctx.cells, Run(test);
    FoundKid(cells, 0, s, 0);
    assert |Tree(cells, 0).kids| == |cells[0].children| <= 1;
  }

  lemma {:induction false} OpenedReady(r: Runner, test: Section)
    requires Between(r, test) && LeftOfTest(r, test) != []
    ensures var r1 := Opened(r, test);
            && Ready(r1, test, r1.ctx.current)
            && Left(Tree(r1.ctx.cells, r1.ctx.current), Caught(test)) == LeftOfTest(r, test)
  {
    hide Left, LeftKids, Plan, BodyPlan;
    var cells, s := r.ctx.cells, Run(test);
    var r1 := Opened(r, test);
    var kid := r1.ctx.current;
    StartedTree(cells, 0, s, 0);
    var tree := Tree(cells, 0);
    if tree.kids != [] {
      LeftEmpty(tree.kids[0], Caught(test));
    }
    OpenKidLeft(tree, s, 0);
    assert Tree(r1.ctx.cells, kid) == Tree(r1.ctx.cells, 0).kids[0];
  }

  lemma {:induction false} NothingUnfinished(r: Runner, n: nat)
    requires RunnerOk(r) && r.active == []
    ensures EndUnfinished(r, n) == r
  {
    if n > 0 {
      NothingUnfinished(SectionEnded(r), n - 1);
    }
  }

  /** The trackers after the test case was closed. */
  ghost function ClosedCells(cells: Cells, t: nat): Cells
    requires t < |cells|
  {
    if cells[t].state.Executing? || (cells[t].state.ExecutingChildren? && LastChildComplete(cells, t))
    then SetState(cells, t, CompletedSuccessfully)
    else cells
  }

  ghost predicate TestClosed(r1: Runner, test: Section, t: nat, r2: Runner)
    requires t < |r1.ctx.cells| <= |r2.ctx.cells|
  {
    var left, cells' := Left(Tree(r1.ctx.cells, t), Caught(test)), ClosedCells(r2.ctx.cells, t);
    && Kept(r1.ctx.cells, r2.ctx.cells, t)
    && left != [] && Left(Tree(cells', t), Caught(test)) == left[1..]
    && r1.log + left[0].path[1..] == r2.log && left[0].path != [] && left[0].path[0] == test.name
    && Fits(Tree(cells', t), test) && !cells'[t].state.NotStarted? && !cells'[t].state.Failed?
  }

  /** The body of the test case was run from `r1` to `r2`: closing it uses up one cycle. */
  lemma {:induction false} CloseTest(r1: Runner, test: Section, t: nat, r2: Runner, threw: bool)
    requires Ready(r1, test, t) && RunnerOk(r2) && |r1.ctx.cells| <= |r2.ctx.cells|
    requires BodyDone(r1, test, t, LeftKids(Tree(r1.ctx.cells, t).kids, test.kids), r2, threw)
    ensures TestClosed(r1, test, t, r2)
  {
    hide LeftKids, Plan, BodyPlan, LastChildComplete;
    var cells, cells2 := r1.ctx.cells, r2.ctx.cells;
    var cells' := ClosedCells(cells2, t);
    assert Tree(cells', t) == Tree(cells2, t).(state := cells'[t].state) by {
      if cells' != cells2 {
        SetStateTree(cells2, t, CompletedSuccessfully);
      }
    }
    assert Fits(Tree(cells', t), test) by {
      FitsState(Tree(cells2, t), test, cells'[t].state);
    }
    LeftStep(Tree(cells, t), Tree(cells', t), Caught(test));
  }

  /** The only thing that changed under the root is the test case's tracker. */
  lemma {:induction false} RootTree(cells: Cells, cells2: Cells, t: nat, test: Section)
    requires UnderRoot(cells, t) && Kept(cells, cells2, t)
    requires Fits(Tree(ClosedCells(cells2, t), t), test)
    ensures var cells' := ClosedCells(cells2, t);
            && cells'[0] == cells[0] && Fits(Tree(cells', 0), Run(test))
            && Tree(cells', 0).kids == [Tree(cells', t)]
  {
    var cells' := ClosedCells(cells2, t);
    assert !Under(cells, t, 0);
    assert Tree(cells', 0).kids == [Tree(cells', t)];
    assert Fits(Tree(cells', t), Caught(test));
  }

  /** What one cycle of the re-run loop does. */
  ghost predicate CycleDone(r: Runner, test: Section, r': Runner, tracker: nat)
    requires Between(r, test)
  {
    var left := LeftOfTest(r, test);
    && left != []
    && Between(r', test) && LeftOfTest(r', test) == left[1..]
    && r'.log == r.log + left[0].path
    && tracker < |r'.ctx.cells|
    && (r'.ctx.cells[tracker].state.CompletedSuccessfully? <==> left[1..] == [])
  }

  lemma {:induction false} TestCycle(r: Runner, test: Section)
    requires Between(r, test) && LeftOfTest(r, test) != []
    ensures var (r', tracker) := RunCycle(r, test); CycleDone(r, test, r', tracker)
  {
    OpenTest(r, test);
    OpenedReady(r, test);
    var r0 := Opened(r, test);
    RunOpened(r, test, r0.(log := r0.log + [test.name]));
  }

  lemma {:induction false} RunOpened(r: Runner, test: Section, r1: Runner)
    requires Between(r, test) && LeftOfTest(r, test) != []
    requires r1 == Opened(r, test).(log := r.log + [test.name])
    ensures var r2 := RunKids(r1, test, 0).0;
            CycleDone(r, test, HandleUnfinished(r2.(ctx := Close(r2.ctx, r1.ctx.current))), r1.ctx.current)
  {
    OpenedReady(r, test);
    OpenedUnderRoot(r, test);
    var t := r1.ctx.current;
    BodyCycle(r1, test, t);
    var (r2, threw) := RunKids(r1, test, 0);
    CloseTest(r1, test, t, r2, threw);
    CloseCycle(r, test, r1, t, r2);
    ClosedBy(r1, test, t, r2, threw);
    NothingUnfinished(r2.(ctx := Close(r2.ctx, t)), |r2.unfinished|);
  }

  lemma {:induction false} ClosedBy(r1: Runner, test: Section, t: nat, r2: Runner, threw: bool)
    requires Ready(r1, test, t) && RunnerOk(r2) && |r1.ctx.cells| <= |r2.ctx.cells| && r1.ctx.cells[t].parent == 0
    requires BodyDone(r1, test, t, LeftKids(Tree(r1.ctx.cells, t).kids, test.kids), r2, threw)
    ensures Close(r2.ctx, t) == Context(ClosedCells(r2.ctx.cells, t), 0, CompletedCycle, false)
  {
    assert r2.ctx.cells[t].parent == 0;
  }

  /** From the moment the test case's tracker is open to the end of the cycle. */
  lemma {:induction false} CloseCycle(r: Runner, test: Section, r1: Runner, t: nat, r2: Runner)
    requires Between(r, test) && LeftOfTest(r, test) != []
    requires UnderRoot(r1.ctx.cells, t) && t < |r1.ctx.cells| <= |r2.ctx.cells|
    requires Left(Tree(r1.ctx.cells, t), Caught(test)) == LeftOfTest(r, test) && r1.log == r.log + [test.name]
    requires TestClosed(r1, test, t, r2)
    ensures CycleDone(r, test,
              Runner(Context(ClosedCells(r2.ctx.cells, t), 0, CompletedCycle, false), [], [], r2.log), t)
  {
    RootTree(r1.ctx.cells, r2.ctx.cells, t, test);
    LeftEmpty(Tree(ClosedCells(r2.ctx.cells, t), t), Caught(test));
  }
}
