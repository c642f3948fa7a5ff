/** What the plan of a test means for its leaf sections: which are entered, in which order, and how often. */
module PlanProperties {
  import opened SectionPlan

  type Path = seq<NameAndLocation>

  // ---------- Leaves ----------

  function PrefixPaths(name: NameAndLocation, paths: seq<Path>): (r: seq<Path>)
    ensures |r| == |paths|
    ensures forall i :: 0 <= i < |r| ==> r[i] == [name] + paths[i]
  {
    seq(|paths|, i requires 0 <= i < |paths| => [name] + paths[i])
  }

  /** The paths from a section to the leaves below it, in the order of the test body. */
  function LeafPaths(s: Section): seq<Path>
    decreases s, 1
  {
    PrefixPaths(s.name, BodyLeafPaths(s))
  }

  function BodyLeafPaths(s: Section): seq<Path>
    decreases s, 0
  {
    if s.kids == [] then [[]] else KidsLeafPaths(s.kids)
  }

  function KidsLeafPaths(kids: seq<Section>): seq<Path>
    decreases kids, 0
  {
    if kids == [] then [] else LeafPaths(kids[0]) + KidsLeafPaths(kids[1..])
  }

  /** How many sections a test consists of, counting the test itself. */
  function Size(s: Section): nat
    decreases s, 1
  {
    1 + KidsSize(s.kids)
  }

  function KidsSize(kids: seq<Section>): nat
    decreases kids, 0
  {
    if kids == [] then 0 else Size(kids[0]) + KidsSize(kids[1..])
  }

  /** The leaves a sequence of cycles enters. */
  function Entered(cycles: seq<Cycle>): seq<Path> {
    if cycles == [] then []
    else (if cycles[0].leaf then [cycles[0].path] else []) + Entered(cycles[1..])
  }

  // ---------- Which exceptions keep leaves from running ----------

  predicate NothingThrows(s: Section) {
    !s.throws && forall i :: 0 <= i < |s.kids| ==> NothingThrows(s.kids[i])
  }

  predicate OnlyLeavesThrow(s: Section) {
    (s.throws ==> s.kids == []) && forall i :: 0 <= i < |s.kids| ==> OnlyLeavesThrow(s.kids[i])
  }

  /** No cycle gets past a section of the body without an exception before the last leaf was entered. */
  predicate HeldUp(s: Section)
    decreases s, 1
  {
    s.kids == [] || HeldUpBy(s.kids)
  }

  predicate HeldUpBy(kids: seq<Section>)
    requires kids != []
    decreases kids, 0
  {
    if |kids| == 1 then kids[0].throws || HeldUp(kids[0]) else kids[0].throws && HeldUpBy(kids[1..])
  }

  /** Every section that throws at its end is held up until all its leaves were entered. */
  predicate Exhaustive(s: Section)
    decreases s
  {
    (s.throws ==> HeldUp(s)) && forall i :: 0 <= i < |s.kids| ==> Exhaustive(s.kids[i])
  }

  /** The same for a test case, whose own exception is caught. */
  predicate ExhaustiveTest(test: Section) {
    forall i :: 0 <= i < |test.kids| ==> Exhaustive(test.kids[i])
  }

  // ---------- Entered leaves of composed cycles ----------

  lemma {:induction false} EnteredConcat(a: seq<Cycle>, b: seq<Cycle>)
    ensures Entered(a + b) == Entered(a) + Entered(b)
  {
    if a == [] {
      assert a + b == b;
    } else {
      assert (a + b)[1..] == a[1..] + b;
      EnteredConcat(a[1..], b);
    }
  }

  lemma {:induction false} EnteredPrefix(name: NameAndLocation, cycles: seq<Cycle>)
    ensures Entered(Prefix(name, cycles)) == PrefixPaths(name, Entered(cycles))
  {
    if cycles != [] {
      assert Prefix(name, cycles)[1..] == Prefix(name, cycles[1..]);
      EnteredPrefix(name, cycles[1..]);
    }
  }

  lemma {:induction false} EnteredSettle(cycles: seq<Cycle>)
    ensures Entered(Settle(cycles)) == Entered(cycles)
  {
    EnteredConcat(cycles, [IDLE]);
    assert Entered([IDLE]) == [];
  }

  /** What `Cut` cuts off. */
  function Lost(cycles: seq<Cycle>): seq<Cycle> {
    if cycles == [] then [] else if cycles[0].threw then Lost(cycles[1..]) else cycles[1..]
  }

  lemma {:induction false} EnteredCons(c: Cycle, rest: seq<Cycle>)
    ensures Entered([c] + rest) == (if c.leaf then [c.path] else []) + Entered(rest)
  {
    assert ([c] + rest)[1..] == rest;
  }

  lemma {:induction false} EnteredCut(cycles: seq<Cycle>)
    ensures Entered(cycles) == Entered(Cut(cycles)) + Entered(Lost(cycles))
  {
    if cycles != [] {
      var c, rest := cycles[0], cycles[1..];
      if c.threw {
        EnteredCut(rest);
        EnteredCons(c, Cut(rest));
        assert Cut(cycles) == [c] + Cut(rest);
      } else {
        EnteredCons(c.(threw := true), []);
      }
    }
  }

  lemma {:induction false} LostConcat(a: seq<Cycle>, b: seq<Cycle>)
    ensures Lost(a + b) == if forall c :: c in a ==> c.threw then Lost(b) else Lost(a) + b
  {
    if a == [] {
      assert a + b == b;
    } else {
      assert (a + b)[1..] == a[1..] + b;
      LostConcat(a[1..], b);
    }
  }

  lemma {:induction false} LostPrefix(name: NameAndLocation, cycles: seq<Cycle>)
    ensures Lost(Prefix(name, cycles)) == Prefix(name, Lost(cycles))
  {
    if cycles != [] {
      assert Prefix(name, cycles)[1..] == Prefix(name, cycles[1..]);
      LostPrefix(name, cycles[1..]);
    }
  }

  // ---------- Holding up ----------

  lemma {:induction false} ThrowsAlways(s: Section)
    requires s.throws
    ensures forall c :: c in Plan(s) ==> c.threw
  {
    PlanEnd(s);
    CutFacts(Prefix(s.name, BodyPlan(s)));
  }

  /** The first cycle of a section always gets to a leaf. */
  lemma {:induction false} FirstIsLeaf(s: Section)
    ensures BodyPlan(s) != [] && BodyPlan(s)[0].leaf && Plan(s) != [] && Plan(s)[0].leaf
    ensures Entered(Plan(s)) != []
  {
    PlanEnd(s);
    if s.kids != [] {
      FirstIsLeaf(s.kids[0]);
    }
  }

  lemma {:induction false} LostSettle(cycles: seq<Cycle>)
    ensures Entered(Lost(Settle(cycles))) == Entered(Lost(cycles))
  {
    LostConcat(cycles, [IDLE]);
    EnteredConcat(Lost(cycles), [IDLE]);
    assert Entered([IDLE]) == [] && Lost([IDLE]) == [];
    if forall c :: c in cycles ==> c.threw {
      LostConcat(cycles, []);
      assert cycles + [] == cycles;
    }
  }

  lemma {:induction false} HeldUpMeans(s: Section)
    ensures Entered(Lost(BodyPlan(s))) == [] <==> HeldUp(s)
    decreases s, 1
  {
    if s.kids != [] {
      LostSettle(KidsPlan(s.kids));
      HeldUpKids(s.kids);
    }
  }

  lemma {:induction false} HeldUpKids(kids: seq<Section>)
    requires kids != []
    ensures Entered(Lost(KidsPlan(kids))) == [] <==> HeldUpBy(kids)
    decreases kids, 0
  {
    var first, rest := Plan(kids[0]), KidsPlan(kids[1..]);
    LostConcat(first, rest);
    if kids[0].throws {
      ThrowsAlways(kids[0]);
      if |kids| > 1 {
        HeldUpKids(kids[1..]);
      }
    } else {
      assert exists c :: c in first && !c.threw by {
        PlanEnd(kids[0]);
        assert first[|first| - 1] in first;
      }
      EnteredConcat(Lost(first), rest);
      if |kids| > 1 {
        RestEnters(kids[1..]);
      } else {
        LostFirst(kids[0]);
        HeldUpMeans(kids[0]);
      }
    }
  }

  lemma {:induction false} LostFirst(s: Section)
    requires !s.throws
    ensures Entered(Lost(Plan(s))) == [] <==> Entered(Lost(BodyPlan(s))) == []
  {
    LostPrefix(s.name, BodyPlan(s));
    EnteredPrefix(s.name, Lost(BodyPlan(s)));
  }

  lemma {:induction false} RestEnters(kids: seq<Section>)
    requires kids != []
    ensures Entered(KidsPlan(kids)) != []
  {
    FirstIsLeaf(kids[0]);
    EnteredConcat(Plan(kids[0]), KidsPlan(kids[1..]));
  }

  // ---------- Which leaves a plan enters ----------

  /** `part` are some of `whole`, and all of them exactly if `all` holds. */
  ghost predicate SomeOf(part: seq<Path>, whole: seq<Path>, all: bool) {
    && |part| <= |whole|
    && multiset(part) <= multiset(whole)
    && (all ==> part == whole)
    && (|part| == |whole| ==> all)
  }

  lemma {:induction false} SomeOfConcat(a: seq<Path>, c: seq<Path>, p: bool, b: seq<Path>, d: seq<Path>, q: bool)
    requires SomeOf(a, c, p) && SomeOf(b, d, q)
    ensures SomeOf(a + b, c + d, p && q)
  {
  }

  lemma {:induction false} SomeOfPrefix(name: NameAndLocation, a: seq<Path>, c: seq<Path>, p: bool)
    requires SomeOf(a, c, p)
    ensures SomeOf(PrefixPaths(name, a), PrefixPaths(name, c), p)
  {
    PrefixSub(name, a, c);
  }

  lemma {:induction false} PrefixCount(name: NameAndLocation, a: seq<Path>, x: Path)
    ensures multiset(PrefixPaths(name, a))[x] == if x != [] && x[0] == name then multiset(a)[x[1..]] else 0
  {
    if a != [] {
      PrefixCount(name, a[1..], x);
      assert a == [a[0]] + a[1..];
      assert PrefixPaths(name, a) == [[name] + a[0]] + PrefixPaths(name, a[1..]);
      assert ([name] + a[0])[1..] == a[0];
      if x != [] && x[0] == name && x[1..] == a[0] {
        assert x == [name] + a[0];
      }
    }
  }

  lemma {:induction false} PrefixSub(name: NameAndLocation, a: seq<Path>, c: seq<Path>)
    requires multiset(a) <= multiset(c)
    ensures multiset(PrefixPaths(name, a)) <= multiset(PrefixPaths(name, c))
  {
    forall x
      ensures multiset(PrefixPaths(name, a))[x] <= multiset(PrefixPaths(name, c))[x]
    {
      PrefixCount(name, a, x);
      PrefixCount(name, c, x);
    }
  }

  lemma {:induction false} SomeOfPart(whole: seq<Path>, a: seq<Path>, b: seq<Path>, p: bool)
    requires SomeOf(a + b, whole, p)
    ensures SomeOf(a, whole, p && b == [])
  {
    assert multiset(a + b) == multiset(a) + multiset(b);
    if b == [] {
      assert a + b == a;
    }
  }

  lemma {:induction false} PlanEnters(s: Section)
    ensures SomeOf(Entered(Plan(s)), LeafPaths(s), Exhaustive(s))
    decreases s, 1
  {
    var body := BodyPlan(s);
    BodyEnters(s);
    SomeOfPrefix(s.name, Entered(body), BodyLeafPaths(s), ExhaustiveTest(s));
    EnteredPrefix(s.name, body);
    if s.throws {
      var cycles := Prefix(s.name, body);
      EnteredCut(cycles);
      SomeOfPart(LeafPaths(s), Entered(Cut(cycles)), Entered(Lost(cycles)), ExhaustiveTest(s));
      LostPrefix(s.name, body);
      EnteredPrefix(s.name, Lost(body));
      HeldUpMeans(s);
    }
  }

  lemma {:induction false} BodyEnters(s: Section)
    ensures SomeOf(Entered(BodyPlan(s)), BodyLeafPaths(s), ExhaustiveTest(s))
    decreases s, 0
  {
    if s.kids == [] {
      assert Entered(BodyPlan(s)) == [[]];
    } else {
      EnteredSettle(KidsPlan(s.kids));
      KidsEnter(s.kids);
    }
  }

  lemma {:induction false} KidsEnter(kids: seq<Section>)
    ensures SomeOf(Entered(KidsPlan(kids)), KidsLeafPaths(kids), forall i :: 0 <= i < |kids| ==> Exhaustive(kids[i]))
    decreases kids, 0
  {
    if kids != [] {
      hide Plan, Exhaustive, LeafPaths, SomeOf;
      PlanEnters(kids[0]);
      KidsEnter(kids[1..]);
      EnteredConcat(Plan(kids[0]), KidsPlan(kids[1..]));
      SomeOfConcat(Entered(Plan(kids[0])), LeafPaths(kids[0]), Exhaustive(kids[0]),
                   Entered(KidsPlan(kids[1..])), KidsLeafPaths(kids[1..]),
                   forall i :: 0 <= i < |kids[1..]| ==> Exhaustive(kids[1..][i]));
      FirstAndRest(kids);
    }
  }

  lemma {:induction false} FirstAndRest(kids: seq<Section>)
    requires kids != []
    ensures (forall i :: 0 <= i < |kids| ==> Exhaustive(kids[i]))
       <==> Exhaustive(kids[0]) && forall i :: 0 <= i < |kids[1..]| ==> Exhaustive(kids[1..][i])
  {
    hide Exhaustive;
    assert forall i :: 1 <= i < |kids| ==> kids[i] == kids[1..][i - 1];
  }

  /** Leaves are entered in the order of the test body, all of them exactly if no exception gets in the way. */
  lemma {:induction false} TestEnters(test: Section)
    ensures SomeOf(Entered(TestPlan(test)), LeafPaths(test), ExhaustiveTest(test))
  {
    BodyEnters(test);
    SomeOfPrefix(test.name, Entered(BodyPlan(test)), BodyLeafPaths(test), ExhaustiveTest(test));
    EnteredPrefix(test.name, BodyPlan(test));
  }

  // ---------- How often a leaf is entered ----------

  ghost function Names(kids: seq<Section>): set<NameAndLocation> {
    set i | 0 <= i < |kids| :: kids[i].name
  }

  ghost predicate Distinct(kids: seq<Section>) {
    && (forall i, j :: 0 <= i < j < |kids| ==> kids[i].name != kids[j].name)
    && (forall i :: 0 <= i < |kids| ==> WellNamed(kids[i]))
  }

  lemma {:induction false} DistinctRest(kids: seq<Section>)
    requires Distinct(kids) && kids != []
    ensures Distinct(kids[1..]) && kids[0].name !in Names(kids[1..]) && Names(kids) == {kids[0].name} + Names(kids[1..])
  {
    var rest := kids[1..];
    assert forall i :: 1 <= i < |kids| ==> kids[i] == rest[i - 1];
    forall n
      ensures n in Names(kids) <==> n == kids[0].name || n in Names(rest)
    {
      if i :| 0 <= i < |kids| && kids[i].name == n && i > 0 {
        assert rest[i - 1].name == n;
      }
      if i :| 0 <= i < |rest| && rest[i].name == n {
        assert kids[i + 1].name == n;
      }
    }
  }

  lemma {:induction false} LeafPathStarts(s: Section, x: Path)
    requires x in LeafPaths(s)
    ensures x != [] && x[0] == s.name && x[1..] in BodyLeafPaths(s)
  {
    var i :| 0 <= i < |LeafPaths(s)| && LeafPaths(s)[i] == x;
    assert x[1..] == BodyLeafPaths(s)[i];
  }

  lemma {:induction false} KidsLeafPathStarts(kids: seq<Section>, x: Path)
    requires x in KidsLeafPaths(kids) && Distinct(kids)
    ensures x != [] && x[0] in Names(kids)
  {
    DistinctRest(kids);
    if x in LeafPaths(kids[0]) {
      LeafPathStarts(kids[0], x);
    } else {
      KidsLeafPathStarts(kids[1..], x);
    }
  }

  lemma {:induction false} LeavesDistinct(s: Section, x: Path)
    requires WellNamed(s)
    ensures multiset(LeafPaths(s))[x] <= 1
    decreases s, 1
  {
    PrefixCount(s.name, BodyLeafPaths(s), x);
    if x != [] {
      if s.kids == [] {
        assert multiset(BodyLeafPaths(s))[x[1..]] <= 1;
      } else {
        KidsLeavesDistinct(s.kids, x[1..]);
      }
    }
  }

  lemma {:induction false} KidsLeavesDistinct(kids: seq<Section>, x: Path)
    requires Distinct(kids)
    ensures multiset(KidsLeafPaths(kids))[x] <= 1
    decreases kids, 0
  {
    if kids != [] {
      DistinctRest(kids);
      LeavesDistinct(kids[0], x);
      KidsLeavesDistinct(kids[1..], x);
      var first, rest := LeafPaths(kids[0]), KidsLeafPaths(kids[1..]);
      assert multiset(first + rest)[x] == multiset(first)[x] + multiset(rest)[x];
      if x in first && x in rest {
        LeafPathStarts(kids[0], x);
        KidsLeafPathStarts(kids[1..], x);
      }
    }
  }

  /** A cycle of a section starts with the section, and ends in a leaf exactly if it is marked as doing so. */
  ghost predicate Faithful(c: Cycle, leaves: seq<Path>) {
    c.leaf <==> c.path in leaves
  }

  lemma {:induction false} CutKeeps(cycles: seq<Cycle>, c: Cycle)
    requires c in Cut(cycles)
    ensures exists d :: d in cycles && d.path == c.path && d.leaf == c.leaf
  {
    if !cycles[0].threw || c == cycles[0] {
      assert cycles[0] in cycles;
    } else {
      CutKeeps(cycles[1..], c);
    }
  }

  lemma {:induction false} PlanFaithful(s: Section, c: Cycle)
    requires WellNamed(s) && c in Plan(s)
    ensures c.path != [] && c.path[0] == s.name && Faithful(c, LeafPaths(s))
    decreases s, 1
  {
    var cycles := Prefix(s.name, BodyPlan(s));
    if s.throws {
      CutKeeps(cycles, c);
    }
    var d :| d in cycles && d.path == c.path && d.leaf == c.leaf;
    PrefixFaithful(s, d);
  }

  lemma {:induction false} PrefixFaithful(s: Section, c: Cycle)
    requires WellNamed(s) && c in Prefix(s.name, BodyPlan(s))
    ensures c.path != [] && c.path[0] == s.name && Faithful(c, LeafPaths(s))
    decreases s, 0, 1
  {
    var i :| 0 <= i < |BodyPlan(s)| && c == Prefix(s.name, BodyPlan(s))[i];
    var d := BodyPlan(s)[i];
    BodyFaithful(s, d);
    assert c.path == [s.name] + d.path && c.path[1..] == d.path;
    if c.path in LeafPaths(s) {
      LeafPathStarts(s, c.path);
    }
    if d.path in BodyLeafPaths(s) {
      var j :| 0 <= j < |BodyLeafPaths(s)| && BodyLeafPaths(s)[j] == d.path;
      assert LeafPaths(s)[j] == c.path;
    }
  }

  lemma {:induction false} BodyFaithful(s: Section, c: Cycle)
    requires WellNamed(s) && c in BodyPlan(s)
    ensures Faithful(c, BodyLeafPaths(s))
    decreases s, 0, 0
  {
    if s.kids != [] {
      if c in KidsPlan(s.kids) {
        KidsFaithful(s.kids, c);
      } else {
        assert c == IDLE;
        if [] in KidsLeafPaths(s.kids) {
          KidsLeafPathStarts(s.kids, []);
        }
      }
    }
  }

  lemma {:induction false} KidsFaithful(kids: seq<Section>, c: Cycle)
    requires Distinct(kids) && c in KidsPlan(kids)
    ensures c.path != [] && c.path[0] in Names(kids) && Faithful(c, KidsLeafPaths(kids))
    decreases kids
  {
    DistinctRest(kids);
    var first, rest := LeafPaths(kids[0]), KidsLeafPaths(kids[1..]);
    if c in Plan(kids[0]) {
      PlanFaithful(kids[0], c);
      if c.path in rest {
        KidsLeafPathStarts(kids[1..], c.path);
      }
    } else {
      KidsFaithful(kids[1..], c);
      if c.path in first {
        LeafPathStarts(kids[0], c.path);
      }
    }
  }

  lemma {:induction false} VisitsAreEntries(cycles: seq<Cycle>, leaves: seq<Path>, p: Path)
    requires p in leaves && forall c :: c in cycles ==> Faithful(c, leaves)
    ensures multiset(Paths(cycles))[p] == multiset(Entered(cycles))[p]
  {
    if cycles != [] {
      VisitsAreEntries(cycles[1..], leaves, p);
      assert Paths(cycles) == [cycles[0].path] + Paths(cycles[1..]);
      assert Faithful(cycles[0], leaves);
    }
  }

  /** How many cycles of the run of a test end at p. */
  ghost function Visits(test: Section, p: Path): nat {
    multiset(Paths(TestPlan(test)))[p]
  }

  lemma {:induction false} TestVisits(test: Section, p: Path)
    requires WellNamed(test) && p in LeafPaths(test)
    ensures Visits(test, p) == multiset(Entered(TestPlan(test)))[p]
  {
    forall c | c in TestPlan(test)
      ensures Faithful(c, LeafPaths(test))
    {
      PrefixFaithful(test, c);
    }
    VisitsAreEntries(TestPlan(test), LeafPaths(test), p);
  }

  /** No leaf is ever entered twice; every leaf is entered exactly once, in all, if and only if every section that
      throws behind other sections is held up until its last leaf. */
  lemma {:induction false} EveryLeafOnce(test: Section)
    requires WellNamed(test)
    ensures forall p :: p in LeafPaths(test) ==> Visits(test, p) <= 1
    ensures (forall p :: p in LeafPaths(test) ==> Visits(test, p) == 1) <==> ExhaustiveTest(test)
  {
    var entered, leaves := Entered(TestPlan(test)), LeafPaths(test);
    TestEnters(test);
    forall p | p in leaves
      ensures Visits(test, p) == multiset(entered)[p] <= multiset(leaves)[p] == 1
    {
      TestVisits(test, p);
      LeavesDistinct(test, p);
      assert p in multiset(leaves);
    }
    if forall p :: p in leaves ==> Visits(test, p) == 1 {
      AllEntered(entered, leaves);
    }
  }

  lemma {:induction false} AllEntered(part: seq<Path>, whole: seq<Path>)
    requires |part| <= |whole| && multiset(part) <= multiset(whole)
    requires forall p :: p in whole ==> multiset(part)[p] == multiset(whole)[p]
    ensures multiset(part) == multiset(whole) && |part| == |whole|
  {
    forall p
      ensures multiset(part)[p] == multiset(whole)[p]
    {
      if p !in whole {
        assert p !in multiset(whole);
      }
    }
    assert multiset(part) == multiset(whole);
    assert |multiset(part)| == |part| && |multiset(whole)| == |whole|;
  }

  // ---------- Special cases, and a test that loses a section ----------

  /** Without exceptions, the cycles are exactly the paths to the leaves, one after the other. */
  lemma {:induction false} NothingThrowsPlan(s: Section)
    requires NothingThrows(s)
    ensures Paths(BodyPlan(s)) == BodyLeafPaths(s) && Paths(Plan(s)) == LeafPaths(s)
    decreases s, 1
  {
    PlanEnd(s);
    if s.kids != [] {
      KidsPlanEnd(s.kids);
      NothingThrowsKids(s.kids);
    }
    assert Paths(Plan(s)) == LeafPaths(s);
  }

  lemma {:induction false} NothingThrowsKids(kids: seq<Section>)
    requires forall i :: 0 <= i < |kids| ==> NothingThrows(kids[i])
    ensures Paths(KidsPlan(kids)) == KidsLeafPaths(kids)
    decreases kids, 0
  {
    if kids != [] {
      NothingThrowsPlan(kids[0]);
      NothingThrowsKids(kids[1..]);
      assert Paths(KidsPlan(kids)) == Paths(Plan(kids[0])) + Paths(KidsPlan(kids[1..]));
    }
  }

  /** One root-to-leaf path per cycle, in depth-first order, and as many cycles as leaves. */
  lemma {:induction false} OnePathPerCycle(test: Section)
    requires NothingThrows(test)
    ensures Paths(TestPlan(test)) == LeafPaths(test)
  {
    NothingThrowsPlan(test);
    assert TestPlan(test) == Plan(test);
  }

  /** Exceptions that are thrown by leaves, or by the test case itself, do no harm. */
  lemma {:induction false} LeavesMayThrow(s: Section)
    requires OnlyLeavesThrow(s)
    ensures Exhaustive(s)
  {
    forall i | 0 <= i < |s.kids|
      ensures Exhaustive(s.kids[i])
    {
      LeavesMayThrow(s.kids[i]);
    }
  }

  /** A run never takes more cycles than the test has sections. */
  lemma {:induction false} CyclesBounded(s: Section)
    ensures |BodyPlan(s)| <= Size(s) && |Plan(s)| <= Size(s) && |TestPlan(s)| <= Size(s)
    decreases s, 1
  {
    KidsBounded(s.kids);
    PlanEnd(s);
    if s.throws {
      CutFacts(Prefix(s.name, BodyPlan(s)));
    }
  }

  lemma {:induction false} KidsBounded(kids: seq<Section>)
    ensures |KidsPlan(kids)| <= KidsSize(kids)
    decreases kids, 0
  {
    if kids != [] {
      CyclesBounded(kids[0]);
      KidsBounded(kids[1..]);
    }
  }

  /** A section with two leaves that throws at its end, in a test of its own: the second leaf never runs. */
  lemma {:induction false} SecondLeafIsLost(t: NameAndLocation, s: NameAndLocation, a: NameAndLocation,
                                            b: NameAndLocation)
    requires a != b
    ensures var section := Section(s, [Section(a, [], false), Section(b, [], false)], true);
            var test := Section(t, [section], false);
            WellNamed(test) && [t, s, b] in LeafPaths(test) && Visits(test, [t, s, b]) == 0
  {
    var leafA, leafB := Section(a, [], false), Section(b, [], false);
    var section := Section(s, [leafA, leafB], true);
    var test := Section(t, [section], false);
    LeafAlone(a);
    LeafAlone(b);
    OneKid(leafB);
    OneKid(section);
    assert section.kids[1..] == [leafB];
    var inner := [Cycle([a], true, false), Cycle([b], true, false)];
    assert BodyPlan(section) == inner && KidsLeafPaths(section.kids) == [[a], [b]];
    assert Prefix(s, inner) == [Cycle([s, a], true, false), Cycle([s, b], true, false)] by {
      assert [s] + [a] == [s, a] && [s] + [b] == [s, b];
    }
    assert LeafPaths(section) == [[s, a], [s, b]] by {
      assert [s] + [a] == [s, a] && [s] + [b] == [s, b];
    }
    var cycles := [Cycle([s, a], true, true), IDLE];
    assert BodyPlan(test) == cycles;
    assert Prefix(t, cycles) == [Cycle([t, s, a], true, true), Cycle([t], false, false)] by {
      assert [t] + [s, a] == [t, s, a] && [t] + [] == [t];
    }
    assert Paths(TestPlan(test)) == [[t, s, a], [t]];
    assert BodyLeafPaths(test) == [[s, a], [s, b]];
    assert LeafPaths(test)[1] == [t, s, b];
    assert [t, s, a][2] == a && [t, s, b][2] == b;
  }

  lemma {:induction false} LeafAlone(n: NameAndLocation)
    ensures Plan(Section(n, [], false)) == [Cycle([n], true, false)] && LeafPaths(Section(n, [], false)) == [[n]]
  {
    assert [n] + [] == [n];
  }

  lemma {:induction false} OneKid(s: Section)
    ensures KidsPlan([s]) == Plan(s) && KidsLeafPaths([s]) == LeafPaths(s)
  {
    assert [s][1..] == [];
  }
}
