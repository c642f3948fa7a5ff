/** What one cycle does to a tree of trackers, and why the cycles of a run follow `SectionPlan.TestPlan`. */
module TrackerProofs {
  import opened SectionPlan
  import opened CycleStates
  import opened TrackerMachine
  import opened TrackerTrees

  ghost function Tree(cells: Cells, id: nat): Tracked
    requires id < |cells|
    decreases |cells| - id
  {
    var ch := cells[id].children;
    Tracked(cells[id].name, cells[id].state, seq(|ch|, j requires 0 <= j < |ch| => Tree(cells, ch[j])))
  }

  // ---------- Which trackers an operation can touch ----------
  ghost predicate Under(cells: Cells, top: nat, id: int)
    requires NONE <= id < |cells|
    decreases id + 1
  {
    id == top || (top < id && Under(cells, top, cells[id].parent))
  }

  lemma {:induction false} UnderParent(cells: Cells, top: nat, id: nat)
    requires top < |cells| && id < |cells|
    requires Under(cells, top, id)
    ensures cells[top].parent != NONE ==> Under(cells, cells[top].parent, id)
    decreases id
  {
    if id != top {
      UnderParent(cells, top, cells[id].parent);
    }
  }

  lemma {:induction false} UnderOne(cells: Cells, a: nat, b: nat, id: nat)
    requires a < b < |cells| && id < |cells|
    requires cells[a].parent == cells[b].parent
    ensures !(Under(cells, a, id) && Under(cells, b, id))
    decreases id
  {
    if Under(cells, a, id) && Under(cells, b, id) {
      if id == b {
        assert cells[b].parent < a;
      } else {
        assert Under(cells, b, cells[id].parent);
        UnderOne(cells, a, b, cells[id].parent);
      }
    }
  }

  lemma {:induction false} UnderStable(cells: Cells, cells': Cells, top: nat, id: int)
    requires |cells| <= |cells'| && NONE <= id < |cells|
    requires forall i :: 0 <= i < |cells| ==> cells'[i].parent == cells[i].parent
    ensures Under(cells, top, id) == Under(cells', top, id)
    decreases id + 1
  {
    if top < id {
      UnderStable(cells, cells', top, cells[id].parent);
    }
  }

  lemma {:induction false} TreeFrame(cells: Cells, cells': Cells, t: nat)
    requires t < |cells| <= |cells'|
    requires forall id {:trigger cells'[id]} :: 0 <= id < |cells| && Under(cells, t, id) ==> cells'[id] == cells[id]
    ensures Tree(cells, t) == Tree(cells', t)
    decreases |cells| - t
  {
    assert Under(cells, t, t);
    var ch := cells[t].children;
    forall j | 0 <= j < |ch|
      ensures Tree(cells, ch[j]) == Tree(cells', ch[j])
    {
      forall id | 0 <= id < |cells| && Under(cells, ch[j], id)
        ensures cells'[id] == cells[id]
  {
        UnderParent(cells, ch[j], id);
      }
      TreeFrame(cells, cells', ch[j]);
    }
    assert Tree(cells, t).kids == Tree(cells', t).kids;
  }

  /** Names and parents stay, and outside the subtree of `top` nothing changes at all. */
  ghost predicate Kept(cells: Cells, cells': Cells, top: nat)
  {
    && |cells| <= |cells'|
    && (forall i {:trigger cells'[i]} :: 0 <= i < |cells| ==>
          cells'[i].parent == cells[i].parent && cells'[i].name == cells[i].name)
    && (forall i {:trigger cells'[i]} :: 0 <= i < |cells| && !Under(cells, top, i) ==> cells'[i] == cells[i])
  }

  lemma {:induction false} KeptTrans(a: Cells, b: Cells, c: Cells, top: nat)
        requires Kept(a, b, top) && Kept(b, c, top)
    ensures Kept(a, c, top)
  {
    forall i | 0 <= i < |a| && !Under(a, top, i)
      ensures c[i] == a[i]
    {
      UnderStable(a, b, top, i);
    }
  }

  // ---------- Single operations ----------

  ghost predicate AncestorsOpen(cells: Cells, id: int)
    requires NONE <= id < |cells|
    decreases id + 1
  {
    id == NONE || (cells[id].state.ExecutingChildren? && AncestorsOpen(cells, cells[id].parent))
  }

  lemma {:induction false} AncestorsStable(cells: Cells, cells': Cells, id: int)
    requires |cells| <= |cells'| && NONE <= id < |cells|
    requires forall i :: 0 <= i <= id ==> cells'[i] == cells[i]
    requires AncestorsOpen(cells, id)
    ensures AncestorsOpen(cells', id)
    decreases id + 1
  {
    if id != NONE {
      AncestorsStable(cells, cells', cells[id].parent);
    }
  }

  lemma {:induction false} FindAt(cells: Cells, t: nat, s: Section, i: nat)
    requires t < |cells| && Fits(Tree(cells, t), s) && WellNamed(s)
    requires i <= |cells[t].children| && i < |s.kids|
    ensures FindChild(cells, cells[t].children, s.kids[i].name) == i
  {
    var ch := cells[t].children;
    forall j | 0 <= j < |ch|
      ensures cells[ch[j]].name == s.kids[j].name
    {
      assert Tree(cells, t).kids[j] == Tree(cells, ch[j]);
    }
  }

  lemma {:induction false} AddChildTree(cells: Cells, t: nat, name: NameAndLocation)
    requires t < |cells|
    ensures var cells' := AddChild(cells, t, name);
            && Kept(cells, cells', t)
            && Tree(cells', t) == Tree(cells, t).(kids := Tree(cells, t).kids + [Tracked(name, NotStarted, [])])
            && Tree(cells', |cells|) == Tracked(name, NotStarted, [])
  {
    var cells' := AddChild(cells, t, name);
    var ch := cells[t].children;
    forall j | 0 <= j < |ch|
      ensures Tree(cells', ch[j]) == Tree(cells, ch[j])
    {
      TreeFrame(cells, cells', ch[j]);
    }
    assert Tree(cells', |cells|).kids == [];
    assert Tree(cells', t).kids == Tree(cells, t).kids + [Tracked(name, NotStarted, [])];
  }

  lemma {:induction false} SetStateTree(cells: Cells, t: nat, state: CycleState)
    requires t < |cells|
    ensures var cells' := SetState(cells, t, state);
            Kept(cells, cells', t) && Tree(cells', t) == Tree(cells, t).(state := state)
  {
    var cells' := SetState(cells, t, state);
    var ch := cells[t].children;
    forall j | 0 <= j < |ch|
      ensures Tree(cells', ch[j]) == Tree(cells, ch[j])
    {
      TreeFrame(cells, cells', ch[j]);
    }
    assert Tree(cells', t).kids == Tree(cells, t).kids;
  }

  /** Nothing changes outside the subtree of `top`, except for the record of its parent. */
  ghost predicate KeptBut(cells: Cells, cells': Cells, top: nat, parent: nat)
  {
    && |cells| <= |cells'|
    && (forall i {:trigger cells'[i]} :: 0 <= i < |cells| ==>
          cells'[i].parent == cells[i].parent && cells'[i].name == cells[i].name)
    && (forall i {:trigger cells'[i]} :: 0 <= i < |cells| && i != parent && !Under(cells, top, i) ==> cells'[i] == cells[i])
  }

  lemma {:induction false} KeptInParent(cells: Cells, cells': Cells, kid: nat, t: nat)
    requires t < kid < |cells| && cells[kid].parent == t
    requires KeptBut(cells, cells', kid, t)
    ensures Kept(cells, cells', t)
  {
    forall i | 0 <= i < |cells| && !Under(cells, t, i)
      ensures cells'[i] == cells[i]
    {
      if Under(cells, kid, i) {
        UnderParent(cells, kid, i);
      }
    }
  }

  lemma {:induction false} SiblingKept(cells: Cells, cells': Cells, kid: nat, t: nat, other: nat)
    requires t < kid < |cells| && t < other < |cells| && kid != other
    requires cells[kid].parent == t && cells[other].parent == t
    requires KeptBut(cells, cells', kid, t)
    ensures Tree(cells', other) == Tree(cells, other)
  {
    forall id | 0 <= id < |cells| && Under(cells, other, id)
      ensures cells'[id] == cells[id]
    {
      if kid < other { UnderOne(cells, kid, other, id); } else { UnderOne(cells, other, kid, id); }
    }
    TreeFrame(cells, cells', other);
  }

  // ---------- One cycle through a body ----------

  /** `active` are the trackers from a child of the root down to `t`; the outermost one, the test case, is not
      an active section. */
  ghost predicate Chain(cells: Cells, active: seq<nat>, t: int)
    requires NONE <= t < |cells|
    decreases |active|
  {
    t != NONE &&
    if active == [] then cells[t].parent == 0
    else active[|active| - 1] == t && Chain(cells, active[..|active| - 1], cells[t].parent)
  }

  lemma {:induction false} ChainStable(cells: Cells, cells': Cells, active: seq<nat>, t: int)
    requires NONE <= t < |cells| <= |cells'| && Chain(cells, active, t)
    requires forall i :: 0 <= i < |cells| ==> cells'[i].parent == cells[i].parent
    ensures Chain(cells', active, t)
    decreases |active|
  {
    if active != [] {
      ChainStable(cells, cells', active[..|active| - 1], cells[t].parent);
    }
  }

  /** Tracker `t` of section `s` was just opened, and is about to run its body. */
  ghost predicate Ready(r: Runner, s: Section, t: nat) {
    && RunnerOk(r) && r.ctx.current == t && r.ctx.run.RunExecuting? && !r.ctx.fault
    && r.ctx.cells[t].state.Executing? && AncestorsOpen(r.ctx.cells, r.ctx.cells[t].parent)
    && r.unfinished == [] && Fits(Tree(r.ctx.cells, t), s) && WellNamed(s)
    && Chain(r.ctx.cells, r.active, t)
  }

  /** `cells'` is `cells` with more sections of the body of `t` discovered, but none of them started. */
  ghost predicate Discovered(cells: Cells, cells': Cells, s: Section, t: nat)
    requires t < |cells|
  {
    && Kept(cells, cells', t) && cells'[t].state == cells[t].state
    && Fits(Tree(cells', t), s)
    && var kids, kids' := Tree(cells, t).kids, Tree(cells', t).kids;
       |kids| <= |kids'| && kids == kids'[..|kids|]
       && forall j :: |kids| <= j < |kids'| ==> kids'[j].state.NotStarted?
  }

  ghost predicate Idle(r: Runner, s: Section, t: nat, i: nat) {
    && RunnerOk(r) && r.ctx.current == t && r.ctx.run.CompletedCycle?
    && Fits(Tree(r.ctx.cells, t), s) && WellNamed(s)
    && i <= |r.ctx.cells[t].children| && i <= |s.kids|
    && forall j :: i <= j < |r.ctx.cells[t].children| ==> Tree(r.ctx.cells, t).kids[j].state.NotStarted?
  }

  lemma {:induction false} IdleStep(r: Runner, s: Section, t: nat, i: nat)
    requires Idle(r, s, t, i) && i < |s.kids| && !r.ctx.cells[t].state.NotStarted?
    ensures var (r1, threw) := RunSection(r, s.kids[i]);
            && !threw && r1 == r.(ctx := r.ctx.(cells := r1.ctx.cells))
            && Discovered(r.ctx.cells, r1.ctx.cells, s, t) && Idle(r1, s, t, i + 1)
  {
    if i < |r.ctx.cells[t].children| {
      IdleFound(r, s, t, i);
    } else {
      IdleAdded(r, s, t, i);
    }
  }

  lemma {:induction false} IdleFound(r: Runner, s: Section, t: nat, i: nat)
    requires Idle(r, s, t, i) && i < |s.kids| && i < |r.ctx.cells[t].children|
    ensures RunSection(r, s.kids[i]) == (r, false)
    ensures Discovered(r.ctx.cells, r.ctx.cells, s, t) && Idle(r, s, t, i + 1)
  {
    var cells := r.ctx.cells;
    FindAt(cells, t, s, i);
    assert Tree(cells, t).kids[i] == Tree(cells, cells[t].children[i]);
    assert SectionStarted(r, s.kids[i].name) == (r, false);
  }

  lemma {:induction false} IdleAdded(r: Runner, s: Section, t: nat, i: nat)
    requires Idle(r, s, t, i) && i < |s.kids| && !r.ctx.cells[t].state.NotStarted? && i == |r.ctx.cells[t].children|
    ensures var (r1, threw) := RunSection(r, s.kids[i]);
            && !threw && r1 == r.(ctx := r.ctx.(cells := r1.ctx.cells))
            && Discovered(r.ctx.cells, r1.ctx.cells, s, t) && Idle(r1, s, t, i + 1)
  {
    var cells := r.ctx.cells;
    var name := s.kids[i].name;
    FindAt(cells, t, s, i);
    AddChildTree(cells, t, name);
    FitsMore(Tree(cells, t), s);
  }

  lemma {:induction false} DiscoveredTrans(a: Cells, b: Cells, c: Cells, s: Section, t: nat)
    requires t < |a| <= |b| && Discovered(a, b, s, t) && Discovered(b, c, s, t)
    ensures Discovered(a, c, s, t)
  {
    KeptTrans(a, b, c, t);
    var kids, kids1, kids2 := Tree(a, t).kids, Tree(b, t).kids, Tree(c, t).kids;
    assert kids == kids1[..|kids|] == kids2[..|kids1|][..|kids|];
    assert forall j :: |kids| <= j < |kids1| ==> kids2[j] == kids1[j];
  }

  /** Once the cycle is over, the rest of a body is only discovered. */
  lemma {:induction false} IdleKids(r: Runner, s: Section, t: nat, i: nat)
    requires Idle(r, s, t, i) && !r.ctx.cells[t].state.NotStarted?
    ensures var (r', threw) := RunKids(r, s, i);
            && !threw && r' == r.(ctx := r.ctx.(cells := r'.ctx.cells))
            && Discovered(r.ctx.cells, r'.ctx.cells, s, t) && |Tree(r'.ctx.cells, t).kids| == |s.kids|
    decreases |s.kids| - i
  {
    if i == |s.kids| {
      assert RunKids(r, s, i) == (r, false);
    } else {
      IdleStep(r, s, t, i);
      var r1 := RunSection(r, s.kids[i]).0;
      IdleKids(r1, s, t, i + 1);
      var r' := RunKids(r1, s, i + 1).0;
      assert RunKids(r, s, i) == (r', false);
      DiscoveredTrans(r.ctx.cells, r1.ctx.cells, r'.ctx.cells, s, t);
    }
  }

  /** Section `s` has just been reported as starting, with `t` as its tracker. */
  ghost predicate Entered(r: Runner, s: Section, t: nat) {
    && Ready(r, s, t)
    && 0 <= r.ctx.cells[t].parent
    && r.active != []
  }

  /** `cells` with child i of `t` opened. */
  function OpenedCells(cells: Cells, t: nat, i: nat): (r: Cells)
    requires t < |cells| && i < |cells[t].children|
  {
    SetState(SetState(cells, cells[t].children[i], Executing), t, ExecutingChildren)
  }

  /** Opening a child only touches the child and its parent, because everything further up is open already. */
  lemma {:induction false} OpenKid(c: Context, t: nat, i: nat)
    requires Ok(c) && t < |c.cells| && i < |c.cells[t].children|
    requires c.cells[t].state.Executing? && AncestorsOpen(c.cells, c.cells[t].parent)
    ensures var kid := c.cells[t].children[i];
            Open(c, kid) == c.(cells := OpenedCells(c.cells, t, i), current := kid)
  {
    var cells' := OpenedCells(c.cells, t, i);
    AncestorsStable(c.cells, cells', c.cells[t].parent);
    assert OpenChild(cells', c.cells[t].parent) == cells';
  }

  lemma {:induction false} OpenKidTree(cells: Cells, t: nat, i: nat)
    requires t < |cells| && i < |cells[t].children|
    requires AncestorsOpen(cells, cells[t].parent)
    ensures var kid := cells[t].children[i];
            var cells' := OpenedCells(cells, t, i);
            var tree := Tree(cells, t);
            && Kept(cells, cells', t)
            && AncestorsOpen(cells', t)
            && Tree(cells', kid) == tree.kids[i].(state := Executing)
            && Tree(cells', t) ==
               tree.(state := ExecutingChildren, kids := tree.kids[i := tree.kids[i].(state := Executing)])
  {
    var kid := cells[t].children[i];
    var cells1 := SetState(cells, kid, Executing);
    var cells' := OpenedCells(cells, t, i);
    SetStateTree(cells, kid, Executing);
    AncestorsStable(cells, cells', cells[t].parent);
    var ch := cells[t].children;
    forall j | 0 <= j < |ch| && j != i
      ensures Tree(cells', ch[j]) == Tree(cells, ch[j])
    {
      assert KeptBut(cells, cells', kid, t);
      SiblingKept(cells, cells', kid, t, ch[j]);
    }
    TreeFrame(cells1, cells', kid);
    assert Tree(cells', t).kids == Tree(cells, t).kids[i := Tree(cells, t).kids[i].(state := Executing)];
    UnderParent(cells, kid, kid);
  }

  /** `cells` with a tracker for the i-th section of the body, as found or made by `Acquire`. */
  ghost function FoundCells(cells: Cells, t: nat, s: Section, i: nat): Cells
    requires t < |cells| && i < |s.kids|
  {
    if i < |cells[t].children| then cells else AddChild(cells, t, s.kids[i].name)
  }

  lemma {:induction false} FoundKid(cells: Cells, t: nat, s: Section, i: nat)
    requires t < |cells| && i < |s.kids| && i <= |cells[t].children|
    ensures var found := FoundCells(cells, t, s, i);
            && i < |found[t].children|
            && found[t].children[i] == (if i < |cells[t].children| then cells[t].children[i] else |cells|)
            && Kept(cells, found, t)
            && found[..t] == cells[..t] && found[t].parent == cells[t].parent
            && Tree(found, t) == Tree(cells, t).(kids := WithKid(Tree(cells, t).kids, s, i))
  {
    if i == |cells[t].children| {
      AddChildTree(cells, t, s.kids[i].name);
    }
  }

  /** The trackers after the i-th section of the body was started. */
  ghost function StartedCells(cells: Cells, t: nat, s: Section, i: nat): Cells
    requires t < |cells| && i < |s.kids| && i <= |cells[t].children|
  {
    FoundKid(cells, t, s, i);
    OpenedCells(FoundCells(cells, t, s, i), t, i)
  }

  lemma {:induction false} StartedTree(cells: Cells, t: nat, s: Section, i: nat)
    requires t < |cells| && i < |s.kids| && i <= |cells[t].children|
    requires AncestorsOpen(cells, cells[t].parent)
    ensures var cells' := StartedCells(cells, t, s, i);
            && Kept(cells, cells', t)
            && cells'[t].state.ExecutingChildren? && AncestorsOpen(cells', t)
            && i < |cells'[t].children|
            && Tree(cells', t).kids == WithOpenKid(Tree(cells, t).kids, s, i)
  {
    var found := FoundCells(cells, t, s, i);
    FoundKid(cells, t, s, i);
    AncestorsStable(cells, found, cells[t].parent);
    OpenKidTree(found, t, i);
    KeptTrans(cells, found, StartedCells(cells, t, s, i), t);
  }

  /** The runner after the i-th section of the body was started. */
  ghost function StartedKid(r: Runner, s: Section, t: nat, i: nat): (r1: Runner)
    requires RunnerOk(r) && t < |r.ctx.cells| && i < |s.kids| && i <= |r.ctx.cells[t].children|
    ensures RunnerOk(r1) && |r.ctx.cells| <= |r1.ctx.cells|
  {
    FoundKid(r.ctx.cells, t, s, i);
    var cells := StartedCells(r.ctx.cells, t, s, i);
    var kid := cells[t].children[i];
    r.(ctx := r.ctx.(cells := cells, current := kid), active := r.active + [kid], log := r.log + [s.kids[i].name])
  }

  ghost predicate KidEntered(r: Runner, s: Section, t: nat, i: nat, r1: Runner)
    requires RunnerOk(r) && RunnerOk(r1) && t < |r.ctx.cells| <= |r1.ctx.cells|
    requires i < |s.kids| && i <= |r.ctx.cells[t].children|
  {
    var cells, cells1 := r.ctx.cells, r1.ctx.cells;
    var kid := r1.ctx.current;
    && Entered(r1, s.kids[i], kid)
    && r1.log == r.log + [s.kids[i].name]
    && cells1[kid].parent == t && cells1[t].state.ExecutingChildren?
    && Kept(cells, cells1, t)
    && i < |cells1[t].children| && cells1[t].children[i] == kid
    && Tree(cells1, t).kids == WithOpenKid(Tree(cells, t).kids, s, i)
    && LeftAt(Tree(cells1, t).kids, s.kids, i) == LeftAt(Tree(cells, t).kids, s.kids, i)
  }

  /** The i-th section of a body is the next to be entered: it is not complete, or not even discovered. */
  ghost predicate IsNext(r: Runner, s: Section, t: nat, i: nat) {
    && Ready(r, s, t) && i < |s.kids| && i <= |r.ctx.cells[t].children|
    && (i < |r.ctx.cells[t].children| ==> !Tree(r.ctx.cells, t).kids[i].state.IsComplete())
  }

  lemma {:induction false} KidNotComplete(r: Runner, s: Section, t: nat, i: nat)
    requires IsNext(r, s, t, i)
    ensures var cells := r.ctx.cells;
            i < |cells[t].children| ==> !cells[cells[t].children[i]].state.IsComplete()
  {
    var cells := r.ctx.cells;
    assert i < |cells[t].children| ==> Tree(cells, t).kids[i] == Tree(cells, cells[t].children[i]);
  }

  lemma {:induction false} StartKid(r: Runner, s: Section, t: nat, i: nat)
    requires IsNext(r, s, t, i)
    ensures SectionStarted(r, s.kids[i].name) == (StartedKid(r, s, t, i), true)
  {
    hide Tree, Fits, Chain, WellNamed;
    KidNotComplete(r, s, t, i);
    var cells := r.ctx.cells;
    FoundKid(cells, t, s, i);
    FindAt(cells, t, s, i);
    var c := r.ctx.(cells := FoundCells(cells, t, s, i));
    var kid := c.cells[t].children[i];
    AncestorsStable(cells, c.cells, cells[t].parent);
    OpenKid(c, t, i);
    assert !c.cells[kid].state.IsComplete();
    assert Acquire(r.ctx, s.kids[i].name) == (Open(c, kid), kid);
  }

  lemma {:induction false} KidReady(r: Runner, s: Section, t: nat, i: nat)
    requires IsNext(r, s, t, i)
    ensures var r1 := StartedKid(r, s, t, i); Entered(r1, s.kids[i], r1.ctx.current)
  {
    var r1 := StartedKid(r, s, t, i);
    var kid := r1.ctx.current;
    StartedTree(r.ctx.cells, t, s, i);
    OpenKidLeft(Tree(r.ctx.cells, t), s, i);
    assert Tree(r1.ctx.cells, kid) == Tree(r1.ctx.cells, t).kids[i];
    assert r1.ctx.cells[kid].parent == t && r1.ctx.cells[kid].state.Executing?;
    assert Chain(r1.ctx.cells, r1.active, kid) by {
      ChainStable(r.ctx.cells, r1.ctx.cells, r.active, t);
      assert r1.active[..|r1.active| - 1] == r.active;
    }
  }

  /** The first section that is not complete is opened, and nothing else happens. */
  lemma {:induction false} EnterKid(r: Runner, s: Section, t: nat, i: nat)
    requires IsNext(r, s, t, i)
    ensures KidEntered(r, s, t, i, StartedKid(r, s, t, i))
  {
    KidReady(r, s, t, i);
    StartedTree(r.ctx.cells, t, s, i);
    OpenKidLeft(Tree(r.ctx.cells, t), s, i);
  }

  /** The section of tracker `t` has been left: what that means outside its own subtree ... */
  ghost predicate LeftOutside(r: Runner, t: nat, r': Runner, threw: bool)
    requires RunnerOk(r) && RunnerOk(r') && t < |r.ctx.cells| <= |r'.ctx.cells| && 0 <= r.ctx.cells[t].parent
  {
    var cells, cells' := r.ctx.cells, r'.ctx.cells;
    var p := cells[t].parent;
    && !r'.ctx.fault && r'.ctx.current == p && r'.ctx.run.CompletedCycle?
    && KeptBut(cells, cells', t, p)
    && cells'[p] == cells[p].(state := if cells'[t].state.Failed? then NeedsAnotherRun else ExecutingChildren)
    && (r'.unfinished == [] <==> !threw)
  }

  /** ... and for the tracker itself: one cycle of its plan is used up. */
  ghost predicate LeftInside(r: Runner, s: Section, t: nat, r': Runner, threw: bool)
    requires RunnerOk(r) && RunnerOk(r') && t < |r.ctx.cells| <= |r'.ctx.cells|
  {
    var cells, cells' := r.ctx.cells, r'.ctx.cells;
    var left := Left(Tree(cells, t), s);
    && left != []
    && Left(Tree(cells', t), s) == left[1..]
    && r'.log == r.log + left[0].path[1..]
    && threw == left[0].threw
    && Fits(Tree(cells', t), s) && !cells'[t].state.NotStarted?
    && (cells'[t].state.Failed? ==> threw) && (cells'[t].state.CompletedSuccessfully? ==> !threw)
  }

  ghost predicate SectionDone(r: Runner, s: Section, t: nat, r': Runner, threw: bool)
    requires RunnerOk(r) && RunnerOk(r') && t < |r.ctx.cells| <= |r'.ctx.cells| && 0 <= r.ctx.cells[t].parent
  {
    LeftOutside(r, t, r', threw) && LeftInside(r, s, t, r', threw)
  }

  /** The sections of the body of `t` have been visited; `left` are the cycles it had still to come. */
  ghost predicate BodyDone(r: Runner, s: Section, t: nat, left: seq<Cycle>, r': Runner, threw: bool)
    requires RunnerOk(r) && RunnerOk(r') && t < |r.ctx.cells| <= |r'.ctx.cells|
  {
    var cells, cells' := r.ctx.cells, r'.ctx.cells;
    if left == [] then r' == r && !threw
    else
      var state := cells'[t].state;
      && !r'.ctx.fault && r'.ctx.current == t && r'.ctx.run.CompletedCycle?
      && Kept(cells, cells', t) && Fits(Tree(cells', t), s)
      && LeftKids(Tree(cells', t).kids, s.kids) == left[1..]
      && r'.log == r.log + left[0].path
      && threw == left[0].threw && (r'.unfinished == [] <==> !threw)
      && (state.NeedsAnotherRun? || state.ExecutingChildren?)
      && (state.NeedsAnotherRun? ==> threw)
      && (state.ExecutingChildren? ==> (LastChildComplete(cells', t) <==> left[1..] == []) && !(threw && left[1..] == []))
  }

  // ---------- Leaving a section ----------
  /** How `close` and `fail` leave the trackers: which state the tracker gets, if it gets a new one. */
  lemma {:induction false} EndCells(r: Runner, s: Section, t: nat, threw: bool)
    requires RunnerOk(r) && !r.ctx.fault && r.ctx.current == t && r.active != [] && r.active[|r.active| - 1] == t
    requires 0 <= r.ctx.cells[t].parent && r.ctx.cells[t].state.IsOpen()
    ensures var cells, p := r.ctx.cells, r.ctx.cells[t].parent;
            var cells' := if threw && r.unfinished == [] then SetState(SetState(cells, t, Failed), p, NeedsAnotherRun)
                          else if cells[t].state.Executing?
                               || (cells[t].state.ExecutingChildren? && LastChildComplete(cells, t))
                          then SetState(cells, t, CompletedSuccessfully)
                          else cells;
            var r' := EndSection(r, s, threw);
            && r'.ctx == Context(cells', p, CompletedCycle, false) && r'.log == r.log
            && r'.unfinished == if threw then r.unfinished + [s.name] else r.unfinished
  {
  }

  lemma {:induction false} EndKept(cells: Cells, cells1: Cells, cells': Cells, t: nat)
    requires t < |cells| && 0 <= cells[t].parent && Kept(cells, cells1, t)
    requires cells' == cells1 || cells' == SetState(cells1, t, CompletedSuccessfully)
          || cells' == SetState(SetState(cells1, t, Failed), cells[t].parent, NeedsAnotherRun)
    ensures var p := cells[t].parent;
            && KeptBut(cells, cells', t, p)
            && cells'[p] == cells[p].(state := cells'[p].state)
            && Tree(cells', t) == Tree(cells1, t).(state := cells'[t].state)
  {
    assert Under(cells, t, t);
    var p := cells[t].parent;
    assert cells1[p] == cells[p];
    if cells' != cells1 {
      var set1 := SetState(cells1, t, cells'[t].state);
      SetStateTree(cells1, t, cells'[t].state);
      TreeFrame(set1, cells', t);
    }
  }

  ghost predicate BodyLeft(r: Runner, s: Section, t: nat, r1: Runner, threw: bool) {
    && Entered(r, s, t) && RunnerOk(r1) && r1.active == r.active && |r.ctx.cells| <= |r1.ctx.cells|
    && BodyDone(r, s, t, LeftKids(Tree(r.ctx.cells, t).kids, s.kids), r1, threw)
  }

  lemma {:induction false} LeaveOutside(r: Runner, s: Section, t: nat, r1: Runner, threw: bool)
    requires BodyLeft(r, s, t, r1, threw)
    ensures LeftOutside(r, t, EndSection(r1, s, threw || s.throws), threw || s.throws)
  {
    hide Tree, EndSection, Fits, LeftKids;
    assert Kept(r.ctx.cells, r1.ctx.cells, t);
    EndCells(r1, s, t, threw || s.throws);
    EndKept(r.ctx.cells, r1.ctx.cells, EndSection(r1, s, threw || s.throws).ctx.cells, t);
  }

  /** The state a tracker is left in is the one its plan asks for. */
  lemma {:induction false} LeaveState(r: Runner, s: Section, t: nat, r1: Runner, threw: bool)
    requires BodyLeft(r, s, t, r1, threw)
    ensures var state := EndSection(r1, s, threw || s.throws).ctx.cells[t].state;
            var left := LeftKids(Tree(r.ctx.cells, t).kids, s.kids);
            && threw == Head(s, left).threw
            && (if Completes(s, left) then state.IsComplete() else state.IsOpen() && left != [])
            && (state.Failed? ==> s.throws) && (state.CompletedSuccessfully? ==> !threw && !s.throws)
            && (left != [] ==> LeftKids(Tree(r1.ctx.cells, t).kids, s.kids) == left[1..])
            && r1.log == r.log + Head(s, left).path
  {
    EndCells(r1, s, t, threw || s.throws);
  }

  lemma {:induction false} LeaveInside(r: Runner, s: Section, t: nat, r1: Runner, threw: bool)
    requires BodyLeft(r, s, t, r1, threw)
    ensures LeftInside(r, s, t, EndSection(r1, s, threw || s.throws), threw || s.throws)
  {
    var cells, cells1 := r.ctx.cells, r1.ctx.cells;
    var r' := EndSection(r1, s, threw || s.throws);
    var cells' := r'.ctx.cells;
    assert Tree(cells', t) == Tree(cells1, t).(state := cells'[t].state) && r'.log == r1.log by {
      assert Kept(cells, cells1, t);
      EndCells(r1, s, t, threw || s.throws);
      EndKept(cells, cells1, cells', t);
    }
    LeaveState(r, s, t, r1, threw);
    assert Fits(Tree(cells', t), s) by {
      FitsState(Tree(cells1, t), s, cells'[t].state);
    }
    LeftStep(Tree(cells, t), Tree(cells', t), s);
  }

  // ---------- One cycle through a body ----------

  /** Asking the last child is as good as asking all of them: it is complete exactly when there is nothing left
      below the tracker, provided all sections were discovered or one that was is not complete. */
  lemma {:induction false} LastChildDecides(cells: Cells, t: nat, s: Section)
    requires t < |cells| && Fits(Tree(cells, t), s) && cells[t].children != []
    requires var kids := Tree(cells, t).kids;
             |kids| == |s.kids| || exists i :: 0 <= i < |kids| && !kids[i].state.IsComplete()
    ensures LastChildComplete(cells, t) <==> LeftKids(Tree(cells, t).kids, s.kids) == []
  {
    var kids, ch := Tree(cells, t).kids, cells[t].children;
    LastDecides(kids, s.kids);
    assert kids[|ch| - 1] == Tree(cells, ch[|ch| - 1]);
  }

  /** The state between the section that was run and the rest of the body. */
  ghost predicate KidLeft(r: Runner, s: Section, t: nat, i: nat, r3: Runner, threw: bool)
    requires RunnerOk(r) && RunnerOk(r3) && t < |r.ctx.cells| <= |r3.ctx.cells|
  {
    var cells, cells3 := r.ctx.cells, r3.ctx.cells;
    var left := LeftKids(Tree(cells, t).kids, s.kids);
    var kids3 := Tree(cells3, t).kids;
    && Kept(cells, cells3, t) && Fits(Tree(cells3, t), s)
    && i < |kids3|
    && left != [] && LeftKids(kids3, s.kids) == left[1..]
    && threw == left[0].threw && r3.log == r.log + left[0].path
    && cells3[t].state == (if kids3[i].state.Failed? then NeedsAnotherRun else ExecutingChildren)
    && (kids3[i].state.Failed? ==> threw) && (kids3[i].state.CompletedSuccessfully? ==> !threw)
    && forall j :: i < j < |kids3| ==> kids3[j].state.NotStarted?
  }

  lemma {:induction false} KidTrees(r: Runner, s: Section, t: nat, i: nat, r1: Runner, r3: Runner, threw: bool)
    requires IsNext(r, s, t, i)
    requires RunnerOk(r1) && |r.ctx.cells| <= |r1.ctx.cells| && KidEntered(r, s, t, i, r1)
    requires RunnerOk(r3) && |r1.ctx.cells| <= |r3.ctx.cells| && LeftOutside(r1, r1.ctx.current, r3, threw)
    ensures var cells, cells3 := r.ctx.cells, r3.ctx.cells;
            var kids, kids3 := Tree(cells, t).kids, Tree(cells3, t).kids;
            && Kept(cells, cells3, t)
            && Tree(cells3, t).name == Tree(cells, t).name
            && |kids3| == (if i < |kids| then |kids| else i + 1)
            && (forall j :: 0 <= j < |kids| && j != i ==> kids3[j] == kids[j])
            && kids3[i] == Tree(cells3, r1.ctx.current)
  {
    var cells, cells1, cells3 := r.ctx.cells, r1.ctx.cells, r3.ctx.cells;
    var kid := r1.ctx.current;
    KeptInParent(cells1, cells3, kid, t);
    KeptTrans(cells, cells1, cells3, t);
    var ch := cells1[t].children;
    forall j | 0 <= j < |ch| && j != i
      ensures Tree(cells3, ch[j]) == Tree(cells1, ch[j])
    {
      SiblingKept(cells1, cells3, kid, t, ch[j]);
    }
    assert forall j :: 0 <= j < |ch| && j != i ==> Tree(cells3, t).kids[j] == Tree(cells1, t).kids[j];
  }

  /** What was left of a child before it was entered is left of its open tracker. */
  lemma {:induction false} EnteredLeft(r: Runner, s: Section, t: nat, i: nat, r1: Runner)
    requires IsNext(r, s, t, i)
    requires RunnerOk(r1) && |r.ctx.cells| <= |r1.ctx.cells| && KidEntered(r, s, t, i, r1)
    ensures LeftAt(Tree(r.ctx.cells, t).kids, s.kids, i) == Left(Tree(r1.ctx.cells, r1.ctx.current), s.kids[i])
    ensures i <= |Tree(r.ctx.cells, t).kids| <= |s.kids|
  {
    hide Left, LeftKids, Plan;
  }

  /** What the cycle was, and what is left, once the child is left. */
  lemma {:induction false} AfterKidPath(r: Runner, s: Section, t: nat, i: nat, r1: Runner, r3: Runner, threw: bool)
    requires IsNext(r, s, t, i)
    requires forall j :: 0 <= j < i ==> Tree(r.ctx.cells, t).kids[j].state.IsComplete()
    requires RunnerOk(r1) && |r.ctx.cells| <= |r1.ctx.cells| && KidEntered(r, s, t, i, r1)
    requires RunnerOk(r3) && |r1.ctx.cells| <= |r3.ctx.cells| && SectionDone(r1, s.kids[i], r1.ctx.current, r3, threw)
    ensures var left := LeftKids(Tree(r.ctx.cells, t).kids, s.kids);
            && left != [] && LeftKids(Tree(r3.ctx.cells, t).kids, s.kids) == left[1..]
            && threw == left[0].threw && r3.log == r.log + left[0].path
  {
    KidTrees(r, s, t, i, r1, r3, threw);
    EnteredLeft(r, s, t, i, r1);
    var kids, kids3 := Tree(r.ctx.cells, t).kids, Tree(r3.ctx.cells, t).kids;
    LeftKidsReplace(kids, kids3, s.kids, i);
    var left := Left(Tree(r1.ctx.cells, r1.ctx.current), s.kids[i]);
    LeftStart(Tree(r1.ctx.cells, r1.ctx.current), s.kids[i]);
    PathGoesOn(r.log, s.kids[i].name, left[0].path);
  }

  lemma {:induction false} PathGoesOn(log: seq<NameAndLocation>, name: NameAndLocation, path: seq<NameAndLocation>)
    requires path != [] && path[0] == name
    ensures (log + [name]) + path[1..] == log + path
  {
  }

  lemma {:induction false} AfterKid(r: Runner, s: Section, t: nat, i: nat, r1: Runner, r3: Runner, threw: bool)
    requires IsNext(r, s, t, i)
    requires forall j :: 0 <= j < i ==> Tree(r.ctx.cells, t).kids[j].state.IsComplete()
    requires RunnerOk(r1) && |r.ctx.cells| <= |r1.ctx.cells| && KidEntered(r, s, t, i, r1)
    requires RunnerOk(r3) && |r1.ctx.cells| <= |r3.ctx.cells| && SectionDone(r1, s.kids[i], r1.ctx.current, r3, threw)
    ensures KidLeft(r, s, t, i, r3, threw)
  {
    KidTrees(r, s, t, i, r1, r3, threw);
    AfterKidPath(r, s, t, i, r1, r3, threw);
    KidFits(Tree(r.ctx.cells, t), Tree(r3.ctx.cells, t), s, i);
  }

  /** The rest of the body changes neither the trackers that matter nor the log. */
  lemma {:induction false} FinishBody(r: Runner, s: Section, t: nat, i: nat, r3: Runner, threw: bool, r': Runner)
    requires Ready(r, s, t) && RunnerOk(r3) && i < |s.kids| && |r.ctx.cells| <= |r3.ctx.cells| <= |r'.ctx.cells|
    requires KidDone(r, s, t, i, r3, threw)
    requires r' == r3.(ctx := r3.ctx.(cells := r'.ctx.cells))
    requires if threw then r' == r3
             else Discovered(r3.ctx.cells, r'.ctx.cells, s, t) && |Tree(r'.ctx.cells, t).kids| == |s.kids|
    ensures BodyDone(r, s, t, LeftKids(Tree(r.ctx.cells, t).kids, s.kids), r', threw)
  {
    var cells3, cells' := r3.ctx.cells, r'.ctx.cells;
    var kids3, kids' := Tree(cells3, t).kids, Tree(cells', t).kids;
    assert kids3[i] == Tree(cells3, cells3[t].children[i]);
    if threw {
      if cells3[t].state.ExecutingChildren? {
        LastChildDecides(cells3, t, s);
        LeftKidsEmpty(kids3, s.kids);
      }
    } else {
      assert LeftKids(kids', s.kids) == LeftKids(kids3, s.kids) by {
        assert kids' == kids3 + kids'[|kids3|..];
        LeftKidsDiscover(kids3, kids'[|kids3|..], s.kids);
      }
      KeptTrans(r.ctx.cells, cells3, cells', t);
      LastChildDecides(cells', t, s);
    }
  }

  lemma {:induction false} SkipKid(r: Runner, s: Section, t: nat, i: nat)
    requires Ready(r, s, t) && i < |s.kids| && i < |r.ctx.cells[t].children|
    requires Tree(r.ctx.cells, t).kids[i].state.IsComplete()
    ensures RunSection(r, s.kids[i]) == (r, false)
  {
    FindAt(r.ctx.cells, t, s, i);
    assert Tree(r.ctx.cells, t).kids[i] == Tree(r.ctx.cells, r.ctx.cells[t].children[i]);
    assert SectionStarted(r, s.kids[i].name) == (r, false);
  }

  /** Sections that are complete are passed over. */
  lemma {:induction false} SkipKids(r: Runner, s: Section, t: nat, i: nat, n: nat)
    requires Ready(r, s, t) && i <= n <= |s.kids| && n <= |r.ctx.cells[t].children|
    requires forall j :: i <= j < n ==> Tree(r.ctx.cells, t).kids[j].state.IsComplete()
    ensures RunKids(r, s, i) == RunKids(r, s, n)
    decreases n - i
  {
    hide RunSection, Ready, Tree;
    if i < n {
      SkipKid(r, s, t, i);
      RunKidsStep(r, s, i);
      SkipKids(r, s, t, i + 1, n);
    }
  }

  lemma {:induction false} RunKidsStep(r: Runner, s: Section, i: nat)
    requires RunnerOk(r) && i < |s.kids| && RunSection(r, s.kids[i]) == (r, false)
    ensures RunKids(r, s, i) == RunKids(r, s, i + 1)
  {
    hide RunSection;
  }

  /** The state after the next section of a body was run. */
  ghost predicate KidDone(r: Runner, s: Section, t: nat, i: nat, r3: Runner, threw: bool)
    requires RunnerOk(r) && RunnerOk(r3) && t < |r.ctx.cells| <= |r3.ctx.cells|
  {
    && KidLeft(r, s, t, i, r3, threw)
    && !r3.ctx.fault && r3.ctx.current == t && r3.ctx.run.CompletedCycle? && (r3.unfinished == [] <==> !threw)
  }

  lemma {:induction false} KidCycle(r: Runner, s: Section, t: nat, i: nat)
    requires IsNext(r, s, t, i)
    requires forall j :: 0 <= j < i ==> Tree(r.ctx.cells, t).kids[j].state.IsComplete()
    ensures var (r3, threw) := RunSection(r, s.kids[i]);
            KidDone(r, s, t, i, r3, threw)
    decreases s, |s.kids|
  {
    var kid := s.kids[i];
    EnterKid(r, s, t, i);
    StartKid(r, s, t, i);
    var r1 := StartedKid(r, s, t, i);
    SectionCycle(r1, kid, r1.ctx.current);
    var (r2, threw) := RunBody(r1, kid);
    AfterKid(r, s, t, i, r1, EndSection(r2, kid, threw), threw);
    assert RunSection(r, kid) == (EndSection(r2, kid, threw), threw);
  }

  lemma {:induction false} RunRest(r: Runner, s: Section, t: nat, i: nat)
    requires IsNext(r, s, t, i)
    requires forall j :: 0 <= j < i ==> Tree(r.ctx.cells, t).kids[j].state.IsComplete()
    ensures var (r', threw) := RunKids(r, s, i);
            BodyDone(r, s, t, LeftKids(Tree(r.ctx.cells, t).kids, s.kids), r', threw)
    decreases s, |s.kids| + 1
  {
    hide RunSection;
    KidCycle(r, s, t, i);
    var (r3, threw) := RunSection(r, s.kids[i]);
    if threw {
      FinishBody(r, s, t, i, r3, true, r3);
    } else {
      IdleKids(r3, s, t, i + 1);
      FinishBody(r, s, t, i, r3, false, RunKids(r3, s, i + 1).0);
    }
  }

  /** A cycle that reaches the body of `t` uses up the first cycle the body had still to come. */
  lemma {:induction false} BodyCycle(r: Runner, s: Section, t: nat)
    requires Ready(r, s, t)
    ensures var (r', threw) := RunKids(r, s, 0);
            BodyDone(r, s, t, LeftKids(Tree(r.ctx.cells, t).kids, s.kids), r', threw)
    decreases s, |s.kids| + 2
  {
    var kids := Tree(r.ctx.cells, t).kids;
    var n := FirstIncomplete(kids);
    SkipKids(r, s, t, 0, n);
    if n == |s.kids| {
      LeftKidsEmpty(kids, s.kids);
      assert RunKids(r, s, n) == (r, false);
    } else {
      RunRest(r, s, t, n);
    }
  }

  /** From being entered to being left, a section uses up the first cycle of its plan. */
  lemma {:induction false} SectionCycle(r: Runner, s: Section, t: nat)
    requires Entered(r, s, t)
    ensures var (r1, threw) := RunBody(r, s);
            SectionDone(r, s, t, EndSection(r1, s, threw), threw)
    decreases s, |s.kids| + 3
  {
    BodyCycle(r, s, t);
    var (r1, threw) := RunKids(r, s, 0);
    LeaveOutside(r, s, t, r1, threw);
    LeaveInside(r, s, t, r1, threw);
  }
}
