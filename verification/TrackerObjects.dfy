/** Trackers and their context as objects that refer to one another, as the scheduler has them.

    The ghost field `view` keeps the numbered view of a context that TrackerMachine works on; a tracker's number
    is the order in which it was created.  Every method is proved to do to the objects what its counterpart in
    TrackerMachine does to the view. */
module TrackerObjects {
  import opened SectionPlan
  import opened CycleStates
  import M = TrackerMachine

  ghost function IdOf(t: Tracker?): int {
    if t == null then M.NONE else t.id
  }

  ghost predicate IsAmong(c: TrackerContext, all: seq<Tracker>, t: Tracker) {
    t.ctx == c && t.id < |all| && all[t.id] == t
  }

  class TrackerContext {
    var rootTracker: Tracker?
    var current: Tracker?
    var run: M.RunState
    /** Set where the program would raise an internal error or fail an assertion. */
    var fault: bool
    ghost var all: seq<Tracker>
    ghost var view: M.Context

    ghost predicate Has(t: Tracker)
      reads this`all
    {
      IsAmong(this, all, t)
    }

    /** The first n trackers are as the view has them. */
    ghost predicate ShownUpTo(n: nat)
      requires n <= |all| <= |view.cells|
      reads this`all, this`view, all
    {
      n == 0 ||
      (IsAmong(this, all, all[n - 1]) && all[n - 1].id == n - 1 && all[n - 1].ShowsAs(all, view.cells[n - 1])
       && ShownUpTo(n - 1))
    }

    ghost predicate Valid()
      reads this, all
    {
      && |view.cells| == |all| && ShownUpTo(|all|)
      && (current != null ==> Has(current))
      && view.current == IdOf(current) && view.run == run && view.fault == fault
    }

    lemma {:induction false} ShownAt(n: nat, i: nat)
      requires i < n <= |all| <= |view.cells| && ShownUpTo(n)
      ensures IsAmong(this, all, all[i]) && all[i].id == i && all[i].ShowsAs(all, view.cells[i])
    {
      if i < n - 1 {
        ShownAt(n - 1, i);
      }
    }

    lemma {:induction false} ShowAll(n: nat)
      requires n <= |all| <= |view.cells|
      requires forall i :: 0 <= i < n ==>
                 IsAmong(this, all, all[i]) && all[i].id == i && all[i].ShowsAs(all, view.cells[i])
      ensures ShownUpTo(n)
    {
      if n > 0 {
        ShowAll(n - 1);
      }
    }

    lemma {:induction false} AllShown()
      requires |all| <= |view.cells| && ShownUpTo(|all|)
      ensures forall i :: 0 <= i < |all| ==>
                 IsAmong(this, all, all[i]) && all[i].id == i && all[i].ShowsAs(all, view.cells[i])
    {
      forall i | 0 <= i < |all|
        ensures IsAmong(this, all, all[i]) && all[i].id == i && all[i].ShowsAs(all, view.cells[i])
      {
        ShownAt(|all|, i);
      }
    }

    /** `child` has been added to `t`; the cells are those from before. */
    lemma {:induction false} ShowAdded(before: seq<Tracker>, cells: M.Cells, t: Tracker, child: Tracker)
      requires |cells| == |before| && all == before + [child] && IsAmong(this, before, t)
      requires view.cells == M.AddChild(cells, t.id, child.name)
      requires forall i :: 0 <= i < |before| ==> IsAmong(this, before, before[i]) && before[i].id == i
      requires forall i :: 0 <= i < |before| && i != t.id ==> before[i].ShowsAs(all, cells[i])
      requires t.ShowsAs(all, M.AddChild(cells, t.id, child.name)[t.id])
      requires IsAmong(this, all, child) && child.id == |before| && child.parent == t
      requires child.children == [] && child.state == NotStarted
      ensures ShownUpTo(|all|)
    {
      ShowAll(|all|);
    }

    constructor ()
      ensures Valid() && all == [] && current == null && !fault
    {
      rootTracker, current, run, fault := null, null, M.RunNotStarted, false;
      all := [];
      view := M.Context([], M.NONE, M.RunNotStarted, false);
    }

    /** Forgets the trackers of earlier tests. */
    method StartRun()
      modifies this`rootTracker, this`current, this`run, this`all, this`view
      ensures Valid() && fresh(all) && rootTracker != null && Has(rootTracker) && rootTracker.id == 0
      ensures view == M.Context([M.ROOT], M.NONE, M.RunExecuting, fault)
    {
      var root := new Tracker(M.ROOT.name, this, null, 0);
      rootTracker, current, run := root, null, M.RunExecuting;
      all, view := [root], M.Context([M.ROOT], M.NONE, M.RunExecuting, fault);
      ShowAll(1);
    }

    method StartCycle()
      requires Valid() && rootTracker != null && Has(rootTracker) && rootTracker.id == 0
      modifies this`current, this`run, this`view
      ensures Valid() && current != null && view == M.StartCycle(old(view))
    {
      current, run, view := rootTracker, M.RunExecuting, M.StartCycle(view);
      assert view.cells == old(view.cells);
      KeepShown(|all|);
    }

    /** The child of the current tracker with this name, found or made. */
    method Locate(name: NameAndLocation) returns (section: Tracker)
      requires Valid() && current != null
      modifies this`all, all, this`view
      ensures Valid() && current != null && Has(section)
      ensures old(all) <= all && forall i :: |old(all)| <= i < |all| ==> fresh(all[i])
      ensures (view, section.id) == M.Locate(old(view), name)
    {
      current.Shown();
      var child := current.FindChild(name);
      if child != null {
        section := child;
      } else {
        section := current.AddChild(name);
      }
    }

    /** A located section is opened if the cycle still may. */
    method Acquire(name: NameAndLocation) returns (section: Tracker)
      requires Valid() && current != null
      modifies this`current, this`all, all, this`view
      ensures Valid() && current != null && Has(section)
      ensures old(all) <= all && forall i :: |old(all)| <= i < |all| ==> fresh(all[i])
      ensures (view, section.id) == M.Acquire(old(view), name)
    {
      section := Locate(name);
      if !run.CompletedCycle? {
        section.TryOpen();
      }
    }

    /** Changing the rest of the view leaves the trackers shown. */
    twostate lemma KeepShown(n: nat)
      requires n <= |all| <= |view.cells| && unchanged(this`all) && unchanged(all) && view.cells == old(view.cells)
      requires old(n <= |all| <= |view.cells| && ShownUpTo(n))
      ensures ShownUpTo(n)
    {
      if n > 0 {
        KeepShown(n - 1);
      }
    }
  }

  class Tracker {
    const name: NameAndLocation
    const ctx: TrackerContext
    const parent: Tracker?
    ghost const id: nat
    var children: seq<Tracker>
    var state: CycleState

    constructor (name: NameAndLocation, ctx: TrackerContext, parent: Tracker?, ghost id: nat)
      ensures this.name == name && this.ctx == ctx && this.parent == parent && this.id == id
      ensures children == [] && state == NotStarted
    {
      this.name, this.ctx, this.parent, this.id := name, ctx, parent, id;
      children, state := [], NotStarted;
    }

    ghost predicate ShowsAs(all: seq<Tracker>, cell: M.Cell)
      reads this
    {
      && cell.name == name && cell.parent == IdOf(parent) && cell.state == state
      && (parent != null ==> IsAmong(ctx, all, parent))
      && |cell.children| == |children|
      && forall j :: 0 <= j < |children| ==> IsAmong(ctx, all, children[j]) && cell.children[j] == children[j].id
    }

    ghost predicate Member()
      reads ctx, ctx.all
    {
      ctx.Valid() && ctx.Has(this)
    }

    lemma {:induction false} Shown()
      requires Member()
      ensures ShowsAs(ctx.all, ctx.view.cells[id])
    {
      ctx.ShownAt(|ctx.all|, id);
    }

    method Assign(state: CycleState)
      requires Member()
      modifies this`state, ctx`view
      ensures Member()
      ensures ctx.view == old(ctx.view).(cells := M.SetState(old(ctx.view).cells, id, state))
    {
      ctx.AllShown();
      this.state := state;
      ctx.view := ctx.view.(cells := M.SetState(ctx.view.cells, id, state));
      ctx.ShowAll(|ctx.all|);
    }

    method OpenChild()
      requires Member()
      modifies ctx.all, ctx`view
      ensures Member()
      ensures ctx.view == old(ctx.view).(cells := M.OpenChild(old(ctx.view).cells, id))
      decreases id
    {
      Shown();
      if !state.ExecutingChildren? {
        Assign(ExecutingChildren);
        if parent != null {
          parent.OpenChild();
        }
      }
    }

    method MoveToThis()
      requires Member()
      modifies ctx`current, ctx`view
      ensures Member() && ctx.current == this
      ensures ctx.view == old(ctx.view).(current := id)
    {
      ctx.current, ctx.view := this, ctx.view.(current := id);
      ctx.KeepShown(|ctx.all|);
    }

    method Open()
      requires Member() && ctx.current != null
      modifies ctx`current, ctx.all, ctx`view
      ensures Member() && ctx.current != null
      ensures ctx.view == M.Open(old(ctx.view), id)
    {
      Shown();
      Assign(Executing);
      MoveToThis();
      if parent != null {
        parent.OpenChild();
      }
    }

    method TryOpen()
      requires Member() && ctx.current != null
      modifies ctx`current, ctx.all, ctx`view
      ensures Member() && ctx.current != null
      ensures ctx.view == M.TryOpen(old(ctx.view), id)
    {
      Shown();
      if !state.IsComplete() {
        Open();
      }
    }

    /** Moves to the parent and completes the cycle; the root has no parent to move to. */
    method LeaveToParent()
      requires Member() && ctx.current != null
      modifies ctx`current, ctx`run, ctx`fault, ctx`view
      ensures Member() && ctx.current != null
      ensures ctx.view == M.LeaveTo(old(ctx.view), old(ctx.view).cells[id].parent)
    {
      Shown();
      ctx.view := M.LeaveTo(ctx.view, IdOf(parent));
      if parent == null {
        ctx.fault := true;
      } else {
        ctx.current, ctx.run := parent, M.CompletedCycle;
      }
      ctx.KeepShown(|ctx.all|);
    }

    method Close()
      requires Member() && ctx.current != null
      modifies ctx`current, ctx`run, ctx`fault, ctx.all, ctx`view
      ensures Member() && ctx.current != null
      ensures ctx.view == M.Close(old(ctx.view), id)
      decreases if ctx.current == this then 0 else 1, 1
    {
      if !ctx.fault {
        CloseOpenChildren();
        if !ctx.fault {
          CloseCurrent();
        }
      }
    }

    method CloseOpenChildren()
      requires Member() && ctx.current != null && !ctx.fault
      modifies ctx`current, ctx`run, ctx`fault, ctx.all, ctx`view
      ensures Member() && ctx.current != null
      ensures ctx.fault || ctx.current == this
      ensures M.Close(ctx.view, id) == M.Close(old(ctx.view), id)
      decreases if ctx.current == this then 0 else 1, 0
    {
      while ctx.current != this && !ctx.fault
        invariant Member() && ctx.current != null
        invariant M.Close(ctx.view, id) == M.Close(old(ctx.view), id)
        invariant old(ctx.current) == this ==> ctx.current == this
        decreases !ctx.fault, ctx.current.id
      {
        ctx.current.Shown();
        ctx.current.Close();
      }
    }

    /** The second half of `Close`, once every tracker below this one is closed. */
    method CloseCurrent()
      requires Member() && ctx.current != null && !ctx.fault
      modifies ctx`current, ctx`run, ctx`fault, ctx.all, ctx`view
      ensures Member() && ctx.current != null
      ensures ctx.view == M.CloseCurrent(old(ctx.view), id)
    {
      Shown();
      match state {
        case NeedsAnotherRun =>
          LeaveToParent();
        case Executing =>
          Assign(CompletedSuccessfully);
          LeaveToParent();
        case ExecutingChildren =>
          var done := LastChildComplete();
          if done {
            Assign(CompletedSuccessfully);
          }
          LeaveToParent();
        case _ =>
          RaiseInternalError();
      }
    }

    method RaiseInternalError()
      requires Member()
      modifies ctx`fault, ctx`view
      ensures Member()
      ensures ctx.view == old(ctx.view).(fault := true)
    {
      ctx.fault, ctx.view := true, ctx.view.(fault := true);
      ctx.KeepShown(|ctx.all|);
    }

    method LastChildComplete() returns (b: bool)
      requires Member()
      ensures b == M.LastChildComplete(ctx.view.cells, id)
    {
      Shown();
      if children != [] {
        var last := children[|children| - 1];
        last.Shown();
        return last.state.IsComplete();
      }
      return true;
    }

    method Fail()
      requires Member() && ctx.current != null
      modifies ctx`current, ctx`run, ctx`fault, ctx.all, ctx`view
      ensures Member() && ctx.current != null
      ensures ctx.view == M.Fail(old(ctx.view), id)
    {
      Shown();
      Assign(Failed);
      if parent != null {
        parent.MarkAsNeedingAnotherRun();
      }
      LeaveToParent();
    }

    method MarkAsNeedingAnotherRun()
      requires Member()
      modifies this`state, ctx`view
      ensures Member()
      ensures ctx.view == old(ctx.view).(cells := M.SetState(old(ctx.view).cells, id, NeedsAnotherRun))
    {
      Assign(NeedsAnotherRun);
    }

    /** A search from the first child on. */
    method FindChild(name: NameAndLocation) returns (found: Tracker?)
      requires Member()
      ensures var cells := ctx.view.cells;
              var k := M.FindChild(cells, cells[id].children, name);
              |children| == |cells[id].children| && if k < |children| then found == children[k] else found == null
      ensures found != null ==> ctx.Has(found) && found.id in ctx.view.cells[id].children
    {
      Shown();
      ghost var cells, ids := ctx.view.cells, ctx.view.cells[id].children;
      var i := 0;
      while i < |children|
        invariant i <= |children|
        invariant M.FindChild(cells, ids, name) == i + M.FindChild(cells, ids[i..], name)
      {
        children[i].Shown();
        assert ids[i..][1..] == ids[i + 1..];
        if children[i].name == name {
          return children[i];
        }
        i := i + 1;
      }
      return null;
    }

    method AddChild(name: NameAndLocation) returns (child: Tracker)
      requires Member()
      modifies this`children, ctx`all, ctx`view
      ensures Member() && fresh(child) && ctx.all == old(ctx.all) + [child] && ctx.Has(child)
      ensures ctx.view == old(ctx.view).(cells := M.AddChild(old(ctx.view).cells, id, name))
      ensures child.id == |old(ctx.view).cells|
    {
      hide TrackerContext.ShownUpTo;
      ghost var before, cells := ctx.all, ctx.view.cells;
      ctx.AllShown();
      child := new Tracker(name, ctx, this, |before|);
      ctx.all := before + [child];
      forall i | 0 <= i < |before|
        ensures before[i].ShowsAs(ctx.all, cells[i])
      {
        before[i].ShownAmongMore(before, ctx.all, cells[i]);
      }
      children := children + [child];
      ctx.view := ctx.view.(cells := M.AddChild(cells, id, name));
      ctx.ShowAdded(before, cells, this, child);
    }

    lemma {:induction false} ShownAmongMore(all: seq<Tracker>, more: seq<Tracker>, cell: M.Cell)
      requires ShowsAs(all, cell) && all <= more
      ensures ShowsAs(more, cell)
    {
    }
  }
}
