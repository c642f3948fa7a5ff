/** The tracker operations and the run of a test body, as functions on values.

    A tracker is named by the order in which it was created, so a parent always has a smaller number than its
    children.  Module TrackerObjects has the same operations on objects. */
module TrackerMachine {
  import opened SectionPlan
  import opened CycleStates

  datatype RunState = RunNotStarted | RunExecuting | CompletedCycle

  const NONE := -1

  datatype Cell = Cell(name: NameAndLocation, parent: int, children: seq<nat>, state: CycleState)

  /** All trackers, by number. */
  type Cells = cells: seq<Cell> | CellsOk(cells)

  /** A tracker context with everything that hangs off its root.  `fault` records that an internal error was
      raised: a tracker in an illogical state was closed, or the root was asked for its parent. */
  datatype Context = Context(cells: Cells, current: int, run: RunState, fault: bool)

  /** The part of a run context that takes part in scheduling; `log` are the sections reported as starting. */
  datatype Runner = Runner(ctx: Context, active: seq<nat>, unfinished: seq<NameAndLocation>, log: seq<NameAndLocation>)

  ghost predicate CellsOk(cells: seq<Cell>) {
    && (forall i {:trigger cells[i].parent} :: 0 <= i < |cells| ==> NONE <= cells[i].parent < i)
    && (forall i, j {:trigger cells[i].children[j]} :: 0 <= i < |cells| && 0 <= j < |cells[i].children| ==>
          i < cells[i].children[j] < |cells| && cells[cells[i].children[j]].parent == i)
    && (forall i, j, k {:trigger cells[i].children[j], cells[i].children[k]} ::
          0 <= i < |cells| && 0 <= j < k < |cells[i].children| ==> cells[i].children[j] < cells[i].children[k])
  }

  ghost predicate Ok(c: Context) {
    0 <= c.current < |c.cells|
  }

  ghost predicate RunnerOk(r: Runner) {
    Ok(r.ctx) && forall i :: 0 <= i < |r.active| ==> r.active[i] < |r.ctx.cells|
  }

  function SetState(cells: Cells, id: nat, state: CycleState): (r: Cells)
    requires id < |cells|
  {
    cells[id := cells[id].(state := state)]
  }

  // ---------- TrackerBase ----------

  function OpenChild(cells: Cells, id: int): (r: Cells)
    requires NONE <= id < |cells|
    ensures |r| == |cells|
    decreases id + 1
  {
    if id == NONE || cells[id].state.ExecutingChildren? then cells
    else OpenChild(SetState(cells, id, ExecutingChildren), cells[id].parent)
  }

  function Open(c: Context, id: nat): (r: Context)
    requires Ok(c) && id < |c.cells|
    ensures Ok(r) && |r.cells| == |c.cells|
  {
    c.(cells := OpenChild(SetState(c.cells, id, Executing), c.cells[id].parent), current := id)
  }

  function LeaveTo(c: Context, parent: int): (r: Context)
    requires Ok(c) && parent < |c.cells|
    ensures Ok(r)
  {
    if parent < 0 then c.(fault := true) else c.(current := parent, run := CompletedCycle)
  }

  predicate LastChildComplete(cells: Cells, id: nat)
    requires id < |cells|
  {
    var ch := cells[id].children;
    ch == [] || cells[ch[|ch| - 1]].state.IsComplete()
  }

  /** Closing a tracker that is the current one. */
  function CloseCurrent(c: Context, id: nat): (r: Context)
    requires Ok(c) && id < |c.cells|
    ensures Ok(r) && |r.cells| == |c.cells|
    ensures r.fault || r.current == c.cells[id].parent
  {
    var state := c.cells[id].state;
    if !state.IsOpen() then c.(fault := true)
    else
      var done := state.Executing? || (state.ExecutingChildren? && LastChildComplete(c.cells, id));
      LeaveTo(if done then c.(cells := SetState(c.cells, id, CompletedSuccessfully)) else c, c.cells[id].parent)
  }

  /** Closing any tracker closes the current one, over and over, until the tracker itself is current. */
  function Close(c: Context, id: nat): (r: Context)
    requires Ok(c) && id < |c.cells|
    ensures Ok(r) && |r.cells| == |c.cells|
    decreases c.current
  {
    if c.fault then c
    else if c.current == id then CloseCurrent(c, id)
    else
      var c1 := CloseCurrent(c, c.current);
      if c1.fault then c1 else Close(c1, id)
  }

  function Fail(c: Context, id: nat): (r: Context)
    requires Ok(c) && id < |c.cells|
    ensures Ok(r) && |r.cells| == |c.cells|
  {
    var p := c.cells[id].parent;
    var failed := SetState(c.cells, id, Failed);
    LeaveTo(c.(cells := if p == NONE then failed else SetState(failed, p, NeedsAnotherRun)), p)
  }

  // ---------- SectionTracker ----------

  /** Position of the first child called `name`, or the number of children. */
  function FindChild(cells: seq<Cell>, children: seq<nat>, name: NameAndLocation): (k: nat)
    requires forall i :: 0 <= i < |children| ==> children[i] < |cells|
    ensures k <= |children|
    ensures k < |children| ==> cells[children[k]].name == name
    ensures forall i :: 0 <= i < k ==> cells[children[i]].name != name
  {
    if children == [] || cells[children[0]].name == name then 0 else 1 + FindChild(cells, children[1..], name)
  }

  function AddChild(cells: Cells, parent: nat, name: NameAndLocation): (r: Cells)
    requires parent < |cells|
    ensures |r| == |cells| + 1
  {
    cells[parent := cells[parent].(children := cells[parent].children + [|cells|])]
    + [Cell(name, parent, [], NotStarted)]
  }

  function TryOpen(c: Context, id: nat): (r: Context)
    requires Ok(c) && id < |c.cells|
    ensures Ok(r) && |r.cells| == |c.cells|
  {
    if c.cells[id].state.IsComplete() then c else Open(c, id)
  }

  /** The child of the current tracker called `name`, created if it is new ... */
  function Locate(c: Context, name: NameAndLocation): (r: (Context, nat))
    requires Ok(c)
    ensures Ok(r.0) && r.1 < |r.0.cells| && |c.cells| <= |r.0.cells|
  {
    var children := c.cells[c.current].children;
    var k := FindChild(c.cells, children, name);
    if k < |children| then (c, children[k]) else (c.(cells := AddChild(c.cells, c.current, name)), |c.cells|)
  }

  /** ... and opened if this cycle still may. */
  function Acquire(c: Context, name: NameAndLocation): (r: (Context, nat))
    requires Ok(c)
    ensures Ok(r.0) && r.1 < |r.0.cells| && |c.cells| <= |r.0.cells|
  {
    var (c1, id) := Locate(c, name);
    (if c.run.CompletedCycle? then c1 else TryOpen(c1, id), id)
  }

  // ---------- RunContext ----------

  function SectionStarted(r: Runner, name: NameAndLocation): (res: (Runner, bool))
    requires RunnerOk(r)
    ensures RunnerOk(res.0)
    ensures |res.0.active| == |r.active| + (if res.1 then 1 else 0) && r.active <= res.0.active
    ensures |r.ctx.cells| <= |res.0.ctx.cells|
  {
    var (c, id) := Acquire(r.ctx, name);
    if c.cells[id].state.IsOpen() then
      (r.(ctx := c, active := r.active + [id], log := r.log + [name]), true)
    else
      (r.(ctx := c), false)
  }

  function SectionEnded(r: Runner): (res: Runner)
    requires RunnerOk(r)
    ensures RunnerOk(res)
    ensures res.active == if r.active == [] then [] else r.active[..|r.active| - 1]
    ensures |r.ctx.cells| == |res.ctx.cells|
  {
    if r.active == [] then r
    else
      var last := |r.active| - 1;
      r.(ctx := Close(r.ctx, r.active[last]), active := r.active[..last])
  }

  function SectionEndedEarly(r: Runner, name: NameAndLocation): (res: Runner)
    requires RunnerOk(r) && r.active != []
    ensures RunnerOk(res)
    ensures res.active == r.active[..|r.active| - 1]
    ensures |r.ctx.cells| == |res.ctx.cells|
  {
    var last := |r.active| - 1;
    var id := r.active[last];
    var c := if r.unfinished == [] then Fail(r.ctx, id) else Close(r.ctx, id);
    r.(ctx := c, active := r.active[..last], unfinished := r.unfinished + [name])
  }

  function EndSection(r: Runner, s: Section, threw: bool): (res: Runner)
    requires RunnerOk(r) && r.active != []
    ensures RunnerOk(res)
    ensures res.active == r.active[..|r.active| - 1]
    ensures |r.ctx.cells| == |res.ctx.cells|
  {
    if threw then SectionEndedEarly(r, s.name) else SectionEnded(r)
  }

  /** One section of a body, from its announcement to its end; the flag says that an exception leaves it. */
  function RunSection(r: Runner, s: Section): (res: (Runner, bool))
    requires RunnerOk(r)
    ensures RunnerOk(res.0) && res.0.active == r.active && |r.ctx.cells| <= |res.0.ctx.cells|
    decreases s, |s.kids| + 2
  {
    var (r1, included) := SectionStarted(r, s.name);
    if !included then (r1, false)
    else
      var (r2, threw) := RunBody(r1, s);
      (EndSection(r2, s, threw), threw)
  }

  function RunBody(r: Runner, s: Section): (res: (Runner, bool))
    requires RunnerOk(r)
    ensures RunnerOk(res.0) && res.0.active == r.active && |r.ctx.cells| <= |res.0.ctx.cells|
    decreases s, |s.kids| + 1
  {
    var (r1, threw) := RunKids(r, s, 0);
    (r1, threw || s.throws)
  }

  /** The sections `s.kids[i..]` of a body, up to the first one that an exception leaves. */
  function RunKids(r: Runner, s: Section, i: nat): (res: (Runner, bool))
    requires RunnerOk(r) && i <= |s.kids|
    ensures RunnerOk(res.0) && res.0.active == r.active && |r.ctx.cells| <= |res.0.ctx.cells|
    decreases s, |s.kids| - i
  {
    if i == |s.kids| then (r, false)
    else
      var (r1, threw) := RunSection(r, s.kids[i]);
      if threw then (r1, true) else RunKids(r1, s, i + 1)
  }

  function EndUnfinished(r: Runner, n: nat): (res: Runner)
    requires RunnerOk(r)
    ensures RunnerOk(res) && |r.ctx.cells| == |res.ctx.cells|
    decreases n
  {
    if n == 0 then r else EndUnfinished(SectionEnded(r), n - 1)
  }

  function HandleUnfinished(r: Runner): (res: Runner)
    requires RunnerOk(r)
    ensures RunnerOk(res) && res.unfinished == [] && |r.ctx.cells| == |res.ctx.cells|
  {
    EndUnfinished(r, |r.unfinished|).(unfinished := [])
  }

  function RunCurrentTest(r: Runner, test: Section, tracker: nat): (res: Runner)
    requires RunnerOk(r) && tracker < |r.ctx.cells|
    ensures RunnerOk(res) && |r.ctx.cells| <= |res.ctx.cells|
  {
    var r1 := RunBody(r.(log := r.log + [test.name]), test).0;
    HandleUnfinished(r1.(ctx := Close(r1.ctx, tracker)))
  }

  const ROOT := Cell(NameAndLocation("{root}", "", 0), NONE, [], NotStarted)

  function StartCycle(c: Context): (r: Context)
    requires c.cells != []
    ensures Ok(r) && r.cells == c.cells
  {
    c.(current := 0, run := RunExecuting)
  }

  function RunCycle(r: Runner, test: Section): (res: (Runner, nat))
    requires r.ctx.cells != [] && forall i :: 0 <= i < |r.active| ==> r.active[i] < |r.ctx.cells|
    ensures RunnerOk(res.0) && res.1 < |res.0.ctx.cells|
  {
    var (c, id) := Acquire(StartCycle(r.ctx), test.name);
    (RunCurrentTest(r.(ctx := c), test, id), id)
  }
}
