/** What a test body looks like to the section scheduler, and which sections every re-run of it must enter.

    A test is a finite tree of sections.  Everything here is a recursion over that tree; trackers, cycles
    and run states are not mentioned.  The scheduler itself is in TrackerMachine and TrackerObjects. */
module SectionPlan {

  datatype NameAndLocation = NameAndLocation(name: string, file: string, line: nat)

  /** One section body: it tries to enter `kids` in order and then throws if `throws` is set.  Sections behind
      an unconditional throw can never be reached, so a throw at the end of the body is the general case. */
  datatype Section = Section(name: NameAndLocation, kids: seq<Section>, throws: bool)

  /** One re-run, seen from some section: the sections entered below it, outermost first, whether the innermost
      of them is a leaf, and whether an exception leaves the section. */
  datatype Cycle = Cycle(path: seq<NameAndLocation>, leaf: bool, threw: bool)

  const IDLE := Cycle([], false, false)

  function Prefix(name: NameAndLocation, cycles: seq<Cycle>): (r: seq<Cycle>)
    ensures |r| == |cycles|
    ensures forall i :: 0 <= i < |r| ==> r[i] == cycles[i].(path := [name] + cycles[i].path)
  {
    seq(|cycles|, i requires 0 <= i < |cycles| => cycles[i].(path := [name] + cycles[i].path))
  }

  /** A body that throws fails for good in the first cycle in which nothing inside it threw before. */
  function Cut(cycles: seq<Cycle>): seq<Cycle> {
    if cycles == [] then []
    else if cycles[0].threw then [cycles[0]] + Cut(cycles[1..])
    else [cycles[0].(threw := true)]
  }

  /** The cycles that reach section `s`, until it is complete. */
  function Plan(s: Section): seq<Cycle>
    decreases s, 1
  {
    var body := Prefix(s.name, BodyPlan(s));
    if s.throws then Cut(body) else body
  }

  /** As `Plan`, inside the body of `s`.  When the last section of the body failed, one more cycle is needed in
      which nothing is left to enter. */
  function BodyPlan(s: Section): seq<Cycle>
    decreases s, 0
  {
    if s.kids == [] then [Cycle([], true, false)] else Settle(KidsPlan(s.kids))
  }

  function KidsPlan(kids: seq<Section>): seq<Cycle>
    decreases kids, 0
  {
    if kids == [] then [] else Plan(kids[0]) + KidsPlan(kids[1..])
  }

  function Settle(cycles: seq<Cycle>): seq<Cycle> {
    if cycles == [] || cycles[|cycles| - 1].threw then cycles + [IDLE] else cycles
  }

  /** The whole run of a test case: an exception that leaves the test case is caught by the runner. */
  function TestPlan(test: Section): seq<Cycle> {
    Prefix(test.name, BodyPlan(test))
  }

  function Paths(cycles: seq<Cycle>): (r: seq<seq<NameAndLocation>>)
    ensures |r| == |cycles|
  {
    seq(|cycles|, i requires 0 <= i < |cycles| => cycles[i].path)
  }

  /** Sections of one body are told apart by name and location. */
  ghost predicate WellNamed(s: Section) {
    && (forall i, j :: 0 <= i < j < |s.kids| ==> s.kids[i].name != s.kids[j].name)
    && (forall i :: 0 <= i < |s.kids| ==> WellNamed(s.kids[i]))
  }

  // ---------- Basic facts about plans ----------

  lemma {:induction false} CutFacts(cycles: seq<Cycle>)
    requires cycles != [] && !cycles[|cycles| - 1].threw
    ensures var r := Cut(cycles); 0 < |r| <= |cycles| && r[|r| - 1].threw
    ensures forall c :: c in Cut(cycles) ==> c.threw
  {
    if cycles[0].threw {
      CutFacts(cycles[1..]);
    }
  }

  lemma {:induction false} BodyPlanEnd(s: Section)
    ensures var b := BodyPlan(s); b != [] && !b[|b| - 1].threw
    decreases s, 0
  {
    hide KidsPlan;
    if s.kids != [] {
      KidsPlanEnd(s.kids);
    }
  }

  lemma {:induction false} KidsPlanEnd(kids: seq<Section>)
    requires kids != []
    ensures var k := KidsPlan(kids); k != [] && k[|k| - 1].threw == kids[|kids| - 1].throws
    decreases kids, 0
  {
    PlanEnd(kids[0]);
    if |kids| > 1 {
      KidsPlanEnd(kids[1..]);
    } else {
      assert KidsPlan(kids[1..]) == [];
    }
  }

  /** A plan is never empty; its last cycle throws exactly when the section itself does. */
  lemma {:induction false} PlanEnd(s: Section)
    ensures var p := Plan(s); p != [] && p[|p| - 1].threw == s.throws
    ensures var b := BodyPlan(s); b != [] && !b[|b| - 1].threw
    decreases s, 1
  {
    hide BodyPlan, Cut;
    BodyPlanEnd(s);
    if s.throws {
      CutFacts(Prefix(s.name, BodyPlan(s)));
    }
  }
}
