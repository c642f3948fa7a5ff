/** What a reporter is told while a test body runs: which sections start, and which end. */
module RunReports {
  import opened Wrappers
  import opened SectionPlan
  import opened TrackerMachine

  datatype Report = Started(name: NameAndLocation) | Ended(name: NameAndLocation)

  // ---------- What the run context reports ----------

  /** A section that an exception leaves is not reported to end, yet. */
  function SectionReports(r: Runner, s: Section): seq<Report>
    requires RunnerOk(r)
    decreases s, |s.kids| + 2
  {
    var (r1, included) := SectionStarted(r, s.name);
    if !included then []
    else [Started(s.name)] + BodyReports(r1, s) + if RunBody(r1, s).1 then [] else [Ended(s.name)]
  }

  function BodyReports(r: Runner, s: Section): seq<Report>
    requires RunnerOk(r)
    decreases s, |s.kids| + 1
  {
    KidsReports(r, s, 0)
  }

  function KidsReports(r: Runner, s: Section, i: nat): seq<Report>
    requires RunnerOk(r) && i <= |s.kids|
    decreases s, |s.kids| - i
  {
    if i == |s.kids| then []
    else
      var (r1, threw) := RunSection(r, s.kids[i]);
      SectionReports(r, s.kids[i]) + if threw then [] else KidsReports(r1, s, i + 1)
  }

  /** The sections that an exception left, the outermost of which was left last. */
  function UnfinishedReports(unfinished: seq<NameAndLocation>): seq<Report> {
    if unfinished == [] then []
    else
      var last := |unfinished| - 1;
      [Ended(unfinished[last])] + UnfinishedReports(unfinished[..last])
  }

  function TestReports(r: Runner, test: Section): seq<Report>
    requires RunnerOk(r)
  {
    var r1 := r.(log := r.log + [test.name]);
    [Started(test.name)] + BodyReports(r1, test) + UnfinishedReports(RunBody(r1, test).0.unfinished) + [Ended(test.name)]
  }

  function CycleReports(r: Runner, test: Section): seq<Report>
    requires r.ctx.cells != [] && forall i :: 0 <= i < |r.active| ==> r.active[i] < |r.ctx.cells|
  {
    TestReports(r.(ctx := Acquire(StartCycle(r.ctx), test.name).0), test)
  }

  lemma {:induction false} OneKid(before: seq<Report>, r: Runner, s: Section, i: nat)
    requires RunnerOk(r) && i < |s.kids|
    ensures var (r1, threw) := RunSection(r, s.kids[i]);
            before + KidsReports(r, s, i) ==
            (before + SectionReports(r, s.kids[i])) + if threw then [] else KidsReports(r1, s, i + 1)
    ensures var (r1, threw) := RunSection(r, s.kids[i]);
            threw ==> before + KidsReports(r, s, i) == before + SectionReports(r, s.kids[i])
  {
    hide RunSection, SectionReports;
  }

  lemma {:induction false} NoKids(before: seq<Report>, r: Runner, s: Section)
    requires RunnerOk(r)
    ensures before + KidsReports(r, s, |s.kids|) == before
  {
  }

  lemma {:induction false} OneUnfinished(before: seq<Report>, unfinished: seq<NameAndLocation>, k: nat)
    requires k < |unfinished|
    ensures before + UnfinishedReports(unfinished[..k + 1])
         == (before + [Ended(unfinished[k])]) + UnfinishedReports(unfinished[..k])
  {
    assert unfinished[..k + 1][..k] == unfinished[..k];
  }

  lemma {:induction false} NoneUnfinished(before: seq<Report>, unfinished: seq<NameAndLocation>)
    requires unfinished == []
    ensures before + UnfinishedReports(unfinished) == before
  {
  }

  // ---------- What a cycle should report ----------

  /** Position of the first section called `name`, or the number of sections. */
  function KidAt(kids: seq<Section>, name: NameAndLocation): (i: nat)
    ensures i <= |kids| && (i < |kids| ==> kids[i].name == name)
  {
    if kids == [] || kids[0].name == name then 0 else 1 + KidAt(kids[1..], name)
  }

  /** The names on `path` lead from section to section, down from the body of `s`. */
  predicate Leads(s: Section, path: seq<NameAndLocation>)
    decreases path
  {
    path != [] ==>
      var i := KidAt(s.kids, path[0]);
      i < |s.kids| && Leads(s.kids[i], path[1..])
  }

  /** In a cycle that follows `path`, an exception leaves `s`. */
  predicate Throws(s: Section, path: seq<NameAndLocation>)
    requires Leads(s, path)
    decreases path, 1
  {
    s.throws || ThrowsInside(s, path)
  }

  predicate ThrowsInside(s: Section, path: seq<NameAndLocation>)
    requires Leads(s, path)
    decreases path, 0
  {
    path != [] && Throws(s.kids[KidAt(s.kids, path[0])], path[1..])
  }

  /** The sections in the body of `s` that an exception leaves, outermost first. */
  function LeftEarly(s: Section, path: seq<NameAndLocation>): seq<NameAndLocation>
    requires Leads(s, path)
    decreases path
  {
    if path == [] then []
    else
      var kid := s.kids[KidAt(s.kids, path[0])];
      if Throws(kid, path[1..]) then [path[0]] + LeftEarly(kid, path[1..]) else []
  }

  function ToldInBody(s: Section, path: seq<NameAndLocation>): seq<Report>
    requires Leads(s, path)
    decreases path
  {
    if path == [] then []
    else
      var kid := s.kids[KidAt(s.kids, path[0])];
      [Started(path[0])] + ToldInBody(kid, path[1..]) + if Throws(kid, path[1..]) then [] else [Ended(path[0])]
  }

  function EndAll(names: seq<NameAndLocation>): seq<Report> {
    if names == [] then [] else [Ended(names[0])] + EndAll(names[1..])
  }

  /** The test case itself is started first and ended last; what an exception left is ended before that, the
      outermost section first. */
  function ToldInCycle(test: Section, path: seq<NameAndLocation>): seq<Report>
    requires Leads(test, path)
  {
    [Started(test.name)] + ToldInBody(test, path) + EndAll(LeftEarly(test, path)) + [Ended(test.name)]
  }

  lemma {:induction false} ToldFirst(s: Section, kid: Section, path: seq<NameAndLocation>)
    requires KidAt(s.kids, kid.name) < |s.kids| && s.kids[KidAt(s.kids, kid.name)] == kid && Leads(kid, path)
    ensures var more := [kid.name] + path;
            && Leads(s, more)
            && ToldInBody(s, more) ==
               [Started(kid.name)] + ToldInBody(kid, path) + (if Throws(kid, path) then [] else [Ended(kid.name)])
            && ThrowsInside(s, more) == Throws(kid, path)
            && LeftEarly(s, more) == if Throws(kid, path) then [kid.name] + LeftEarly(kid, path) else []
  {
    assert ([kid.name] + path)[1..] == path;
  }

  // ---------- Nesting ----------

  /** The sections that are open afterwards, outermost first, if every end is that of the innermost open one. */
  function OpenAfter(open: seq<NameAndLocation>, reports: seq<Report>): Option<seq<NameAndLocation>>
    decreases reports
  {
    if reports == [] then Some(open)
    else if reports[0].Started? then OpenAfter(open + [reports[0].name], reports[1..])
    else if open != [] && open[|open| - 1] == reports[0].name then OpenAfter(open[..|open| - 1], reports[1..])
    else None
  }

  /** As `OpenAfter`, by number only; negative once there was an end too many. */
  function Depth(depth: int, reports: seq<Report>): int
    decreases reports
  {
    if depth < 0 || reports == [] then depth
    else Depth(if reports[0].Started? then depth + 1 else depth - 1, reports[1..])
  }

  function Reversed(names: seq<NameAndLocation>): (r: seq<NameAndLocation>)
    ensures |r| == |names|
  {
    if names == [] then [] else Reversed(names[1..]) + [names[0]]
  }

  lemma {:induction false} OpenConcat(open: seq<NameAndLocation>, a: seq<Report>, b: seq<Report>)
    ensures OpenAfter(open, a + b) ==
            match OpenAfter(open, a) case None => None case Some(more) => OpenAfter(more, b)
    decreases a
  {
    if a == [] {
      assert a + b == b;
    } else {
      assert (a + b)[1..] == a[1..] + b;
      if a[0].Started? {
        OpenConcat(open + [a[0].name], a[1..], b);
      } else if open != [] {
        OpenConcat(open[..|open| - 1], a[1..], b);
      }
    }
  }

  lemma {:induction false} DepthConcat(depth: int, a: seq<Report>, b: seq<Report>)
    ensures Depth(depth, a + b) == Depth(Depth(depth, a), b)
    decreases a
  {
    if a == [] {
      assert a + b == b;
    } else {
      assert (a + b)[1..] == a[1..] + b;
      DepthConcat(if a[0].Started? then depth + 1 else depth - 1, a[1..], b);
    }
  }

  lemma {:induction false} DepthIsNumber(open: seq<NameAndLocation>, reports: seq<Report>)
    ensures var after := OpenAfter(open, reports); after.Some? ==> Depth(|open|, reports) == |after.value|
    decreases reports
  {
    if reports != [] {
      if reports[0].Started? {
        DepthIsNumber(open + [reports[0].name], reports[1..]);
      } else if open != [] {
        DepthIsNumber(open[..|open| - 1], reports[1..]);
      }
    }
  }

  lemma {:induction false} StartThenEnd(open: seq<NameAndLocation>, name: NameAndLocation)
    ensures OpenAfter(open, [Started(name)]) == Some(open + [name])
    ensures OpenAfter(open + [name], [Ended(name)]) == Some(open)
  {
    assert (open + [name])[..|open|] == open;
  }

  /** Behind the body, what is open are the sections that the exception left. */
  lemma {:induction false} BodyOpens(s: Section, path: seq<NameAndLocation>, open: seq<NameAndLocation>)
    requires Leads(s, path)
    ensures OpenAfter(open, ToldInBody(s, path)) == Some(open + LeftEarly(s, path))
    decreases path
  {
    if path == [] {
      assert open + [] == open;
    } else {
      var kid, rest := s.kids[KidAt(s.kids, path[0])], path[1..];
      var start, body := [Started(path[0])], ToldInBody(kid, rest);
      var end := if Throws(kid, rest) then [] else [Ended(path[0])];
      BodyOpens(kid, rest, open + [path[0]]);
      StartThenEnd(open, path[0]);
      OpenConcat(open, start, body);
      OpenConcat(open, start + body, end);
      if Throws(kid, rest) {
        assert open + ([path[0]] + LeftEarly(kid, rest)) == open + [path[0]] + LeftEarly(kid, rest);
      } else {
        NotLeft(kid, rest);
        assert open + [path[0]] + [] == open + [path[0]] && open + [] == open;
      }
    }
  }

  lemma {:induction false} NotLeft(s: Section, path: seq<NameAndLocation>)
    requires Leads(s, path) && !Throws(s, path)
    ensures LeftEarly(s, path) == []
  {
  }

  /** Ending sections in this order is right exactly if they were started in the opposite order. */
  lemma {:induction false} EndsMatch(open: seq<NameAndLocation>, inner: seq<NameAndLocation>, names: seq<NameAndLocation>)
    requires |inner| == |names|
    ensures OpenAfter(open + inner, EndAll(names)) == if inner == Reversed(names) then Some(open) else None
    decreases names
  {
    if names == [] {
      assert open + inner == open;
    } else {
      var last := |inner| - 1;
      assert (open + inner)[..|open| + last] == open + inner[..last];
      assert inner == inner[..last] + [inner[last]];
      EndsMatch(open, inner[..last], names[1..]);
    }
  }

  lemma {:induction false} EndsDepth(depth: nat, names: seq<NameAndLocation>)
    requires |names| <= depth
    ensures Depth(depth, EndAll(names)) == depth - |names|
    decreases names
  {
    if names != [] {
      EndsDepth(depth - 1, names[1..]);
    }
  }

  /** A cycle starts and ends its sections properly nested if and only if the sections that an exception left read
      the same inwards and outwards. */
  lemma {:induction false} CycleNests(test: Section, path: seq<NameAndLocation>)
    requires Leads(test, path)
    ensures OpenAfter([], ToldInCycle(test, path)) ==
            if LeftEarly(test, path) == Reversed(LeftEarly(test, path)) then Some([]) else None
  {
    hide ToldInBody, LeftEarly, EndAll;
    var start, body, left := [Started(test.name)], ToldInBody(test, path), LeftEarly(test, path);
    StartThenEnd([], test.name);
    assert [] + [test.name] == [test.name];
    BodyOpens(test, path, [test.name]);
    OpenConcat([], start, body);
    EndsMatch([test.name], left, left);
    OpenConcat([], start + body, EndAll(left));
    OpenConcat([], start + body + EndAll(left), [Ended(test.name)]);
  }

  /** By number, starts and ends are always balanced, and the test case's own section is around everything. */
  lemma {:induction false} CycleBalanced(test: Section, path: seq<NameAndLocation>)
    requires Leads(test, path)
    ensures Depth(0, ToldInCycle(test, path)) == 0
  {
    hide ToldInBody, LeftEarly, EndAll;
    var start, body, left := [Started(test.name)], ToldInBody(test, path), LeftEarly(test, path);
    BodyOpens(test, path, [test.name]);
    DepthIsNumber([test.name], body);
    DepthConcat(0, start, body);
    EndsDepth(1 + |left|, left);
    DepthConcat(0, start + body, EndAll(left));
    DepthConcat(0, start + body + EndAll(left), [Ended(test.name)]);
  }

  // ---------- A whole test ----------

  lemma {:induction false} CutPaths(cycles: seq<Cycle>, c: Cycle)
    requires c in Cut(cycles)
    ensures exists c1 :: c1 in cycles && c1.path == c.path
  {
    if cycles[0].threw && c in Cut(cycles[1..]) {
      CutPaths(cycles[1..], c);
      var c1 :| c1 in cycles[1..] && c1.path == c.path;
      assert c1 in cycles;
    } else {
      assert cycles[0].path == c.path;
    }
  }

  lemma {:induction false} PlanLeads(s: Section, c: Cycle)
    requires WellNamed(s) && c in Plan(s)
    ensures c.path != [] && c.path[0] == s.name && Leads(s, c.path[1..])
    decreases s, |s.kids| + 2
  {
    var body := Prefix(s.name, BodyPlan(s));
    var c1 := c;
    if s.throws {
      CutPaths(body, c);
      c1 :| c1 in body && c1.path == c.path;
    }
    var i :| 0 <= i < |body| && body[i] == c1;
    assert c1.path[1..] == BodyPlan(s)[i].path;
    BodyLeads(s, BodyPlan(s)[i]);
  }

  lemma {:induction false} BodyLeads(s: Section, c: Cycle)
    requires WellNamed(s) && c in BodyPlan(s)
    ensures Leads(s, c.path)
    decreases s, |s.kids| + 1
  {
    if c.path != [] {
      assert s.kids[0..] == s.kids;
      KidsLead(s, 0, c);
    }
  }

  lemma {:induction false} KidsLead(s: Section, i: nat, c: Cycle)
    requires WellNamed(s) && i <= |s.kids| && c in KidsPlan(s.kids[i..])
    ensures Leads(s, c.path)
    decreases s, |s.kids| - i
  {
    var kids := s.kids[i..];
    assert kids != [] && kids[0] == s.kids[i] && kids[1..] == s.kids[i + 1..];
    if c in Plan(kids[0]) {
      PlanLeads(kids[0], c);
      KidAtFirst(s.kids, i);
    } else {
      KidsLead(s, i + 1, c);
    }
  }

  lemma {:induction false} KidAtFirst(kids: seq<Section>, i: nat)
    requires i < |kids| && forall j :: 0 <= j < i ==> kids[j].name != kids[i].name
    ensures KidAt(kids, kids[i].name) == i
  {
    if i > 0 {
      assert kids[0].name != kids[i].name;
      KidAtFirst(kids[1..], i - 1);
    }
  }

  /** The path of a cycle below the test case. */
  function PathBelow(test: Section, i: nat): (path: seq<NameAndLocation>)
    requires WellNamed(test) && i < |TestPlan(test)|
    ensures TestPlan(test)[i].path == [test.name] + path && Leads(test, path)
  {
    BodyLeads(test, BodyPlan(test)[i]);
    BodyPlan(test)[i].path
  }

  /** The reports of all cycles of a test. */
  function ToldInTest(test: Section): seq<seq<Report>>
    requires WellNamed(test)
  {
    seq(|TestPlan(test)|, i requires 0 <= i < |TestPlan(test)| => ToldInCycle(test, PathBelow(test, i)))
  }

  lemma {:induction false} ToldLength(test: Section)
    requires WellNamed(test)
    ensures |ToldInTest(test)| == |TestPlan(test)|
  {
  }

  lemma {:induction false} ToldAt(test: Section, i: nat)
    requires WellNamed(test) && i < |TestPlan(test)|
    ensures var path := TestPlan(test)[i].path;
            path != [] && Leads(test, path[1..]) && ToldInTest(test)[i] == ToldInCycle(test, path[1..])
  {
    var below := PathBelow(test, i);
    assert TestPlan(test)[i].path[1..] == below;
  }

  /** In a test all reports are properly nested if and only if the sections that an exception leaves in a cycle always
      read the same inwards and outwards; so two of different names that one exception leaves are ended in the wrong
      order. */
  lemma {:induction false} TestNests(test: Section)
    requires WellNamed(test)
    ensures (forall i :: 0 <= i < |TestPlan(test)| ==> OpenAfter([], ToldInTest(test)[i]) == Some([]))
       <==> forall i :: 0 <= i < |TestPlan(test)| ==>
              var left := LeftEarly(test, PathBelow(test, i)); left == Reversed(left)
  {
    hide ToldInCycle, OpenAfter, LeftEarly, TestPlan;
    forall i | 0 <= i < |TestPlan(test)|
      ensures var left := LeftEarly(test, PathBelow(test, i));
              OpenAfter([], ToldInTest(test)[i]) == if left == Reversed(left) then Some([]) else None
    {
      CycleNests(test, PathBelow(test, i));
    }
  }

  /** An example: an exception in `inner` leaves `outer` too, and `outer` is reported to end first. */
  lemma {:induction false} OuterEndsFirst(t: NameAndLocation, outer: NameAndLocation, inner: NameAndLocation)
    requires outer != inner
    ensures var test := Section(t, [Section(outer, [Section(inner, [], true)], false)], false);
            && WellNamed(test) && |TestPlan(test)| > 0
            && ToldInTest(test)[0] ==
               [Started(t), Started(outer), Started(inner), Ended(outer), Ended(inner), Ended(t)]
            && OpenAfter([], ToldInTest(test)[0]) == None
  {
    var kid := Section(inner, [], true);
    var section := Section(outer, [kid], false);
    var test := Section(t, [section], false);
    OnlyKid(kid);
    OnlyKid(section);
    assert Plan(kid) == [Cycle([inner], true, true)] by {
      assert [inner] + [] == [inner];
    }
    assert BodyPlan(section) == [Cycle([inner], true, true), IDLE];
    assert BodyPlan(test)[0].path == [outer, inner] by {
      assert [outer] + [inner] == [outer, inner];
    }
    assert PathBelow(test, 0) == [outer, inner];
    ToldOfInner(test, outer, inner);
    CycleNests(test, [outer, inner]);
    assert Reversed([outer, inner]) == [inner, outer];
  }

  lemma {:induction false} OnlyKid(s: Section)
    ensures KidsPlan([s]) == Plan(s) && KidAt([s], s.name) == 0
  {
    assert [s][1..] == [];
  }

  lemma {:induction false} ToldOfInner(test: Section, outer: NameAndLocation, inner: NameAndLocation)
    requires test == Section(test.name, [Section(outer, [Section(inner, [], true)], false)], false)
    ensures Leads(test, [outer, inner]) && LeftEarly(test, [outer, inner]) == [outer, inner]
    ensures var t := test.name;
            ToldInCycle(test, [outer, inner]) ==
            [Started(t), Started(outer), Started(inner), Ended(outer), Ended(inner), Ended(t)]
  {
    var kid := Section(inner, [], true);
    var section := Section(outer, [kid], false);
    OnlyKid(kid);
    OnlyKid(section);
    hide ToldInBody, LeftEarly, Leads, Throws, KidAt;
    assert [inner] + [] == [inner] && [outer] + [inner] == [outer, inner];
    NothingBelow(kid);
    ToldFirst(section, kid, []);
    ThrowsBelow(section, [inner]);
    ToldFirst(test, section, [inner]);
    EndTwo(outer, inner);
  }

  lemma {:induction false} NothingBelow(s: Section)
    ensures Leads(s, []) && ToldInBody(s, []) == [] && LeftEarly(s, []) == [] && (s.throws ==> Throws(s, []))
  {
  }

  lemma {:induction false} ThrowsBelow(s: Section, path: seq<NameAndLocation>)
    requires Leads(s, path) && ThrowsInside(s, path)
    ensures Throws(s, path)
  {
  }

  lemma {:induction false} EndTwo(a: NameAndLocation, b: NameAndLocation)
    ensures EndAll([a, b]) == [Ended(a), Ended(b)]
  {
    assert [a, b][1..] == [b] && [b][1..] == [];
    assert EndAll([b]) == [Ended(b)];
  }

  // ---------- What starts and what ends ----------

  function Starts(reports: seq<Report>): seq<NameAndLocation> {
    if reports == [] then []
    else (if reports[0].Started? then [reports[0].name] else []) + Starts(reports[1..])
  }

  function Ends(reports: seq<Report>): seq<NameAndLocation> {
    if reports == [] then []
    else (if reports[0].Ended? then [reports[0].name] else []) + Ends(reports[1..])
  }

  lemma {:induction false} NamesConcat(a: seq<Report>, b: seq<Report>)
    ensures Starts(a + b) == Starts(a) + Starts(b) && Ends(a + b) == Ends(a) + Ends(b)
    decreases a
  {
    if a == [] {
      assert a + b == b;
    } else {
      var first := [a[0].name];
      NamesConcat(a[1..], b);
      assert (a + b)[1..] == a[1..] + b;
      Regroup(first, Starts(a[1..]), Starts(b));
      Regroup(first, Ends(a[1..]), Ends(b));
    }
  }

  lemma {:induction false} Regroup(a: seq<NameAndLocation>, b: seq<NameAndLocation>, c: seq<NameAndLocation>)
    ensures a + (b + c) == a + b + c && [] + b == b && [] + (b + c) == b + c
  {
  }

  lemma {:induction false} OneReport(e: Report)
    ensures Starts([e]) == (if e.Started? then [e.name] else []) && Ends([e]) == if e.Ended? then [e.name] else []
  {
  }

  lemma {:induction false} NamesOfEnds(names: seq<NameAndLocation>)
    ensures Starts(EndAll(names)) == [] && Ends(EndAll(names)) == names
    decreases names
  {
    if names != [] {
      NamesOfEnds(names[1..]);
      OneReport(Ended(names[0]));
      NamesConcat([Ended(names[0])], EndAll(names[1..]));
    }
  }

  lemma {:induction false} Together(a: seq<NameAndLocation>, b: seq<NameAndLocation>)
    ensures multiset(a + b) == multiset(a) + multiset(b)
  {
  }

  lemma {:induction false} BodyNames(s: Section, path: seq<NameAndLocation>)
    requires Leads(s, path)
    ensures var told := ToldInBody(s, path);
            Starts(told) == path && multiset(Ends(told)) + multiset(LeftEarly(s, path)) == multiset(path)
    decreases path
  {
    if path != [] {
      var kid, rest := s.kids[KidAt(s.kids, path[0])], path[1..];
      BodyNames(kid, rest);
      assert path == [path[0]] + rest;
      AroundNames(path[0], rest, ToldInBody(kid, rest), LeftEarly(kid, rest), Throws(kid, rest));
      if !Throws(kid, rest) {
        NotLeft(kid, rest);
      }
    }
  }

  lemma {:induction false} AroundNames(name: NameAndLocation, path: seq<NameAndLocation>, body: seq<Report>,
                                       left: seq<NameAndLocation>, threw: bool)
    requires Starts(body) == path && multiset(Ends(body)) + multiset(left) == multiset(path)
    ensures var told := [Started(name)] + body + if threw then [] else [Ended(name)];
            && Starts(told) == [name] + path
            && (threw ==> multiset(Ends(told)) + multiset([name] + left) == multiset([name] + path))
            && (!threw && left == [] ==> multiset(Ends(told)) == multiset([name] + path))
  {
    hide Starts, Ends;
    var start, end := [Started(name)], [Ended(name)];
    OneReport(start[0]);
    OneReport(end[0]);
    NamesConcat(start, body);
    NamesConcat(start + body, end);
    Together([name], path);
    Together([name], left);
    Together(Ends(body), [name]);
    assert start + body + [] == start + body && [name] + path + [] == [name] + path && [] + Ends(body) == Ends(body);
  }

  lemma {:induction false} CycleNames(test: Section, path: seq<NameAndLocation>)
    requires Leads(test, path)
    ensures var told := ToldInCycle(test, path);
            Starts(told) == [test.name] + path && multiset(Ends(told)) == multiset(Starts(told))
  {
    hide Starts, Ends, ToldInBody, EndAll;
    var start, body, ends, end := [Started(test.name)], ToldInBody(test, path), EndAll(LeftEarly(test, path)), [Ended(test.name)];
    BodyNames(test, path);
    NamesOfEnds(LeftEarly(test, path));
    OneReport(start[0]);
    OneReport(end[0]);
    NamesConcat(start, body);
    NamesConcat(start + body, ends);
    NamesConcat(start + body + ends, end);
    Together(Ends(body), LeftEarly(test, path));
    Together(Ends(body) + LeftEarly(test, path), [test.name]);
    Together([test.name], path);
    assert [test.name] + path + [] + [] == [test.name] + path && [] + Ends(body) == Ends(body);
  }

  /** Each cycle starts exactly the sections on its path, in order; and whatever happens, every section that starts
      ends once. */
  lemma {:induction false} TestNames(test: Section, i: nat)
    requires WellNamed(test) && i < |TestPlan(test)|
    ensures var told := ToldInTest(test)[i];
            && Starts(told) == Paths(TestPlan(test))[i] && multiset(Ends(told)) == multiset(Starts(told))
            && Depth(0, told) == 0
  {
    hide ToldInCycle, Depth, Starts, Ends;
    CycleNames(test, PathBelow(test, i));
    CycleBalanced(test, PathBelow(test, i));
  }
}
