/** Every cycle completes a tracker, and a tracker that is complete stays as it is. */
module TrackerProgress {
  import opened SectionPlan
  import opened CycleStates
  import opened TrackerMachine
  import opened TrackerTrees
  import opened TrackerProofs
  import opened TestRunProofs

  /** No tracker but the root, which is never closed, has left a complete state. */
  ghost predicate Lasts(before: seq<Cell>, after: seq<Cell>) {
    |before| <= |after|
    && forall id :: 0 < id < |before| && before[id].state.IsComplete() ==> after[id].state == before[id].state
  }

  ghost predicate Completed(before: seq<Cell>, after: seq<Cell>, id: nat) {
    id < |after| && after[id].state.IsComplete() && (id < |before| ==> !before[id].state.IsComplete())
  }

  /** Some tracker has become complete, or was made and completed. */
  ghost predicate Advances(before: seq<Cell>, after: seq<Cell>) {
    Lasts(before, after) && exists id: nat :: 0 < id && Completed(before, after, id)
  }

  lemma {:induction false} LastsTrans(a: seq<Cell>, b: seq<Cell>, c: seq<Cell>)
    requires Lasts(a, b) && Lasts(b, c)
    ensures Lasts(a, c)
  {
  }

  lemma {:induction false} AdvancesBetween(a: seq<Cell>, b: seq<Cell>, c: seq<Cell>, d: seq<Cell>)
    requires Lasts(a, b) && Advances(b, c) && Lasts(c, d)
    ensures Advances(a, d)
  {
    LastsTrans(a, b, c);
    LastsTrans(a, c, d);
    var id: nat :| 0 < id && Completed(b, c, id);
    assert Completed(a, d, id);
  }

  // ---------- Steps ----------

  lemma {:induction false} StartLasts(cells: Cells, t: nat, s: Section, i: nat)
    requires t < |cells| && i < |s.kids| && i <= |cells[t].children|
    requires t == 0 || !cells[t].state.IsComplete()
    requires i < |cells[t].children| ==> !cells[cells[t].children[i]].state.IsComplete()
    ensures Lasts(cells, StartedCells(cells, t, s, i))
  {
    FoundKid(cells, t, s, i);
    var found := FoundCells(cells, t, s, i);
    assert forall id :: 0 <= id < |cells| ==> found[id].state == cells[id].state;
  }

  lemma {:induction false} IdleStepLasts(r: Runner, s: Section, t: nat, i: nat)
    requires Idle(r, s, t, i) && i < |s.kids|
    ensures Lasts(r.ctx.cells, RunSection(r, s.kids[i]).0.ctx.cells)
  {
    var cells, name := r.ctx.cells, s.kids[i].name;
    FindAt(cells, t, s, i);
    if i < |cells[t].children| {
      assert Tree(cells, t).kids[i] == Tree(cells, cells[t].children[i]);
      assert SectionStarted(r, name) == (r, false);
    } else {
      assert SectionStarted(r, name) == (r.(ctx := r.ctx.(cells := AddChild(cells, t, name))), false);
    }
  }

  lemma {:induction false} IdleKidsLast(r: Runner, s: Section, t: nat, i: nat)
    requires Idle(r, s, t, i) && !r.ctx.cells[t].state.NotStarted?
    ensures Lasts(r.ctx.cells, RunKids(r, s, i).0.ctx.cells)
    decreases |s.kids| - i
  {
    if i < |s.kids| {
      hide RunSection, Idle;
      IdleNow(r, s, t, i);
      IdleStep(r, s, t, i);
      IdleStepLasts(r, s, t, i);
      var r1 := RunSection(r, s.kids[i]).0;
      IdleKidsLast(r1, s, t, i + 1);
      LastsTrans(r.ctx.cells, r1.ctx.cells, RunKids(r1, s, i + 1).0.ctx.cells);
    }
  }

  lemma {:induction false} IdleNow(r: Runner, s: Section, t: nat, i: nat)
    requires Idle(r, s, t, i)
    ensures RunnerOk(r) && r.ctx.current == t && i <= |s.kids|
  {
  }

  /** Leaving a section changes the states of its tracker and of the parent only, which both were open. */
  lemma {:induction false} EndLasts(r: Runner, s: Section, t: nat, r1: Runner, threw: bool)
    requires BodyLeft(r, s, t, r1, threw)
    ensures Lasts(r1.ctx.cells, EndSection(r1, s, threw || s.throws).ctx.cells)
  {
    hide Tree, EndSection;
    var cells, cells1 := r.ctx.cells, r1.ctx.cells;
    assert Kept(cells, cells1, t);
    assert Under(cells, t, t);
    EndCells(r1, s, t, threw || s.throws);
    var p := cells[t].parent;
    assert cells1[p] == cells[p] && cells[p].state.ExecutingChildren?;
  }

  /** With nothing left to enter in its body, a section completes its own tracker. */
  lemma {:induction false} EndAlone(r: Runner, s: Section, t: nat)
    requires Entered(r, s, t)
    ensures Advances(r.ctx.cells, EndSection(r, s, s.throws).ctx.cells)
  {
    EndCells(r, s, t, s.throws);
    var p := r.ctx.cells[t].parent;
    assert r.ctx.cells[p].state.ExecutingChildren?;
    assert Completed(r.ctx.cells, EndSection(r, s, s.throws).ctx.cells, t);
  }

  // ---------- Cycles ----------

  lemma {:induction false} KidAdvances(r: Runner, s: Section, t: nat, i: nat)
    requires IsNext(r, s, t, i)
    ensures Advances(r.ctx.cells, RunSection(r, s.kids[i]).0.ctx.cells)
    decreases s, |s.kids|
  {
    var kid := s.kids[i];
    EnterKid(r, s, t, i);
    StartKid(r, s, t, i);
    KidNotComplete(r, s, t, i);
    var r1 := StartedKid(r, s, t, i);
    StartLasts(r.ctx.cells, t, s, i);
    SectionAdvances(r1, kid, r1.ctx.current);
    var (r2, threw) := RunBody(r1, kid);
    var r3 := EndSection(r2, kid, threw);
    assert RunSection(r, kid) == (r3, threw);
    AdvancesBetween(r.ctx.cells, r1.ctx.cells, r3.ctx.cells, r3.ctx.cells);
  }

  lemma {:induction false} RestAdvances(r: Runner, s: Section, t: nat, i: nat)
    requires IsNext(r, s, t, i)
    requires forall j :: 0 <= j < i ==> Tree(r.ctx.cells, t).kids[j].state.IsComplete()
    ensures Advances(r.ctx.cells, RunKids(r, s, i).0.ctx.cells)
    decreases s, |s.kids| + 1
  {
    hide RunSection;
    KidAdvances(r, s, t, i);
    var (r3, threw) := RunSection(r, s.kids[i]);
    if !threw {
      KidCycle(r, s, t, i);
      IdleKidsLast(r3, s, t, i + 1);
      var r' := RunKids(r3, s, i + 1).0;
      AdvancesBetween(r.ctx.cells, r.ctx.cells, r3.ctx.cells, r'.ctx.cells);
    }
  }

  lemma {:induction false} BodyAdvances(r: Runner, s: Section, t: nat)
    requires Ready(r, s, t)
    ensures RunKids(r, s, 0) == (r, false) || Advances(r.ctx.cells, RunKids(r, s, 0).0.ctx.cells)
    decreases s, |s.kids| + 2
  {
    var n := FirstIncomplete(Tree(r.ctx.cells, t).kids);
    SkipKids(r, s, t, 0, n);
    if n == |s.kids| {
      assert RunKids(r, s, n) == (r, false);
    } else {
      RestAdvances(r, s, t, n);
    }
  }

  lemma {:induction false} SectionAdvances(r: Runner, s: Section, t: nat)
    requires Entered(r, s, t)
    ensures var (r1, threw) := RunBody(r, s);
            Advances(r.ctx.cells, EndSection(r1, s, threw).ctx.cells)
    decreases s, |s.kids| + 3
  {
    BodyCycle(r, s, t);
    BodyAdvances(r, s, t);
    var (r1, threw) := RunKids(r, s, 0);
    if (r1, threw) == (r, false) {
      EndAlone(r, s, t);
    } else {
      EndLasts(r, s, t, r1, threw);
      AdvancesBetween(r.ctx.cells, r.ctx.cells, r1.ctx.cells, EndSection(r1, s, threw || s.throws).ctx.cells);
    }
  }

  lemma {:induction false} CloseLasts(cells: Cells, t: nat)
    requires t < |cells| && !cells[t].state.IsComplete()
    ensures Lasts(cells, ClosedCells(cells, t))
  {
  }

  lemma {:induction false} CloseAlone(r: Runner, test: Section, t: nat)
    requires Ready(r, test, t) && t > 0
    ensures Advances(r.ctx.cells, ClosedCells(r.ctx.cells, t))
  {
    assert Completed(r.ctx.cells, ClosedCells(r.ctx.cells, t), t);
  }

  /** From the moment the test case's tracker is open to the end of the cycle. */
  lemma {:induction false} TestBodyAdvances(r: Runner, test: Section, t: nat)
    requires RunnerOk(r) && Ready(r, test, t) && t > 0
    ensures var cells2 := RunKids(r, test, 0).0.ctx.cells;
            t < |cells2| && Advances(r.ctx.cells, ClosedCells(cells2, t))
  {
    hide Ready, RunKids, ClosedCells, Lasts, Advances, Tree;
    BodyEndsOpen(r, test, t);
    BodyAdvances(r, test, t);
    var (r2, threw) := RunKids(r, test, 0);
    var cells, cells2 := r.ctx.cells, r2.ctx.cells;
    CloseLasts(cells2, t);
    if (r2, threw) == (r, false) {
      CloseAlone(r, test, t);
    } else {
      LastsSame(cells);
      AdvancesBetween(cells, cells, cells2, ClosedCells(cells2, t));
    }
  }

  lemma {:induction false} LastsSame(cells: seq<Cell>)
    ensures Lasts(cells, cells)
  {
  }

  lemma {:induction false} BodyEndsOpen(r: Runner, s: Section, t: nat)
    requires Ready(r, s, t)
    ensures RunnerOk(r) && t < |r.ctx.cells| <= |RunKids(r, s, 0).0.ctx.cells|
    ensures RunKids(r, s, 0).0.ctx.cells[t].state.IsOpen()
  {
    BodyCycle(r, s, t);
  }

  /** Every cycle of the re-run loop makes some tracker complete, and none that is complete starts again. */
  lemma {:induction false} CycleAdvances(r: Runner, test: Section)
    requires Between(r, test) && LeftOfTest(r, test) != []
    ensures Advances(r.ctx.cells, RunCycle(r, test).0.ctx.cells)
  {
    OpenTest(r, test);
    OpenedReady(r, test);
    OpenedUnderRoot(r, test);
    var r0 := Opened(r, test);
    var r1, t := r0.(log := r0.log + [test.name]), r0.ctx.current;
    OpenedLasts(r, test);
    TestBodyAdvances(r1, test, t);
    BodyCycle(r1, test, t);
    var (r2, threw) := RunKids(r1, test, 0);
    ClosedBy(r1, test, t, r2, threw);
    NothingUnfinished(r2.(ctx := Close(r2.ctx, t)), |r2.unfinished|);
    AdvancesBetween(r.ctx.cells, r1.ctx.cells, ClosedCells(r2.ctx.cells, t), ClosedCells(r2.ctx.cells, t));
  }

  lemma {:induction false} OpenedLasts(r: Runner, test: Section)
    requires Between(r, test) && LeftOfTest(r, test) != []
    ensures Lasts(r.ctx.cells, Opened(r, test).ctx.cells)
  {
    var cells, s := r.ctx.cells, Run(test);
    if cells[0].children != [] {
      assert Tree(cells, 0).kids[0] == Tree(cells, cells[0].children[0]);
      LeftEmpty(Tree(cells, cells[0].children[0]), Caught(test));
    }
    StartLasts(cells, 0, s, 0);
  }
}
