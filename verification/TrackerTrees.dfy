/** Trees of trackers, and the cycles they have still to come. */
module TrackerTrees {
  import opened SectionPlan
  import opened CycleStates

  /** A tracker with everything below it. */
  datatype Tracked = Tracked(name: NameAndLocation, state: CycleState, kids: seq<Tracked>)

  /** Every tracker was discovered in the order of the body it belongs to; complete ones come first, then at
      most one that was started, then only ones that were not. */
  ghost predicate Fits(t: Tracked, s: Section)
    decreases s
  {
    && t.name == s.name
    && |t.kids| <= |s.kids|
    && (t.state.NotStarted? ==> t.kids == [])
    && (forall i :: 0 <= i < |t.kids| ==> Fits(t.kids[i], s.kids[i]))
    && InOrder(t.kids)
  }

  ghost predicate InOrder(kids: seq<Tracked>) {
    forall i, j :: 0 <= i < j < |kids| && !kids[i].state.IsComplete() ==> kids[j].state.NotStarted?
  }

  /** The cycles still to come for a tracker: what its section's plan becomes as trackers below it complete. */
  ghost function Left(t: Tracked, s: Section): seq<Cycle>
    decreases s, 1
  {
    if t.state.IsComplete() then []
    else if t.state.NotStarted? then Plan(s)
    else
      var body := Prefix(s.name, LeftBody(t.kids, s));
      if s.throws then Cut(body) else body
  }

  ghost function LeftBody(kids: seq<Tracked>, s: Section): seq<Cycle>
    decreases s, 0
  {
    if s.kids == [] then [Cycle([], true, false)] else Settle(LeftKids(kids, s.kids))
  }

  ghost function LeftKids(kids: seq<Tracked>, sections: seq<Section>): seq<Cycle>
    decreases sections, 0
  {
    if sections == [] then []
    else if kids == [] then KidsPlan(sections)
    else Left(kids[0], sections[0]) + LeftKids(kids[1..], sections[1..])
  }

  lemma {:induction false} LeftEmpty(t: Tracked, s: Section)
    ensures Left(t, s) == [] <==> t.state.IsComplete()
  {
    PlanEnd(s);
  }

  lemma {:induction false} LeftKidsEmpty(kids: seq<Tracked>, sections: seq<Section>)
    requires |kids| <= |sections|
    ensures LeftKids(kids, sections) == [] <==>
            |kids| == |sections| && forall i :: 0 <= i < |kids| ==> kids[i].state.IsComplete()
  {
    if sections == [] {
    } else if kids == [] {
      KidsPlanEnd(sections);
    } else {
      LeftEmpty(kids[0], sections[0]);
      LeftKidsEmpty(kids[1..], sections[1..]);
      assert forall i :: 1 <= i < |kids| ==> kids[i] == kids[1..][i - 1];
    }
  }

  /** Complete trackers at the front do not matter. */
  lemma {:induction false} LeftKidsSkip(kids: seq<Tracked>, sections: seq<Section>, i: nat)
    requires i <= |kids| <= |sections|
    requires forall j :: 0 <= j < i ==> kids[j].state.IsComplete()
    ensures LeftKids(kids, sections) == LeftKids(kids[i..], sections[i..])
  {
    if i == 0 {
      assert kids[0..] == kids && sections[0..] == sections;
    } else {
      LeftKidsSkip(kids[1..], sections[1..], i - 1);
      assert kids[1..][i - 1..] == kids[i..] && sections[1..][i - 1..] == sections[i..];
      assert LeftKids(kids, sections) == [] + LeftKids(kids[1..], sections[1..]);
    }
  }

  /** Discovering a section without opening it changes nothing. */
  lemma {:induction false} LeftKidsDiscover(kids: seq<Tracked>, more: seq<Tracked>, sections: seq<Section>)
    requires |kids| + |more| <= |sections|
    requires forall i :: 0 <= i < |more| ==> more[i].state.NotStarted?
    ensures LeftKids(kids + more, sections) == LeftKids(kids, sections)
  {
    if more == [] {
      assert kids + more == kids;
    } else if kids == [] {
      assert kids + more == more && [] + more[1..] == more[1..];
      LeftKidsDiscover([], more[1..], sections[1..]);
      assert LeftKids(more[1..], sections[1..]) == KidsPlan(sections[1..]);
    } else {
      assert (kids + more)[1..] == kids[1..] + more;
      LeftKidsDiscover(kids[1..], more, sections[1..]);
    }
  }

  /** What is left for the i-th section of a body, discovered or not. */
  ghost function LeftAt(kids: seq<Tracked>, sections: seq<Section>, i: nat): seq<Cycle>
    requires i < |sections|
  {
    if i < |kids| then Left(kids[i], sections[i]) else Plan(sections[i])
  }

  ghost function LeftBehind(kids: seq<Tracked>, sections: seq<Section>, i: nat): seq<Cycle>
    requires i < |sections|
  {
    LeftKids(if i < |kids| then kids[i + 1..] else [], sections[i + 1..])
  }

  /** The first incomplete tracker, at position i, is the only one that decides what the next cycle does. */
  lemma {:induction false} LeftKidsSplit(kids: seq<Tracked>, sections: seq<Section>, i: nat)
    requires i < |sections| && i <= |kids| <= |sections|
    requires forall j :: 0 <= j < i ==> kids[j].state.IsComplete()
    ensures LeftKids(kids, sections) == LeftAt(kids, sections, i) + LeftBehind(kids, sections, i)
  {
    LeftKidsSkip(kids, sections, i);
    assert sections[i..][1..] == sections[i + 1..];
    if i < |kids| {
      assert kids[i..][1..] == kids[i + 1..];
    } else {
      assert LeftKids([], sections[i + 1..]) == KidsPlan(sections[i + 1..]);
    }
  }

  lemma {:induction false} FitsMore(t: Tracked, s: Section)
    requires Fits(t, s) && |t.kids| < |s.kids| && !t.state.NotStarted?
    ensures Fits(t.(kids := t.kids + [Tracked(s.kids[|t.kids|].name, NotStarted, [])]), s)
  {
    var kids := t.kids + [Tracked(s.kids[|t.kids|].name, NotStarted, [])];
    assert forall i :: 0 <= i < |kids| ==> Fits(kids[i], s.kids[i]);
  }

  /** Opening makes no difference to what is left. */
  lemma {:induction false} LeftOpened(t: Tracked, s: Section)
    requires Fits(t, s) && !t.state.IsComplete()
    ensures Left(t.(state := Executing), s) == Left(t, s)
    ensures Fits(t.(state := Executing), s)
  {
    if t.state.NotStarted? {
      assert t.kids == [] && LeftKids([], s.kids) == KidsPlan(s.kids);
      assert LeftBody(t.kids, s) == BodyPlan(s);
    }
  }

  /** The trackers of a body, with the i-th one discovered ... */
  ghost function WithKid(kids: seq<Tracked>, s: Section, i: nat): (r: seq<Tracked>)
    requires i <= |kids| && i < |s.kids|
    ensures i < |r|
  {
    if i < |kids| then kids else kids + [Tracked(s.kids[i].name, NotStarted, [])]
  }

  /** ... and opened. */
  ghost function WithOpenKid(kids: seq<Tracked>, s: Section, i: nat): (r: seq<Tracked>)
    requires i <= |kids| && i < |s.kids|
    ensures i < |r|
  {
    var r := WithKid(kids, s, i);
    r[i := r[i].(state := Executing)]
  }

  lemma {:induction false} OpenKidLeft(t: Tracked, s: Section, i: nat)
    requires Fits(t, s) && i <= |t.kids| && i < |s.kids|
    requires i < |t.kids| ==> !t.kids[i].state.IsComplete()
    ensures Fits(WithOpenKid(t.kids, s, i)[i], s.kids[i])
    ensures LeftAt(WithOpenKid(t.kids, s, i), s.kids, i) == LeftAt(t.kids, s.kids, i)
  {
    var kid := WithKid(t.kids, s, i)[i];
    assert Fits(kid, s.kids[i]);
    LeftOpened(kid, s.kids[i]);
  }

  /** The first cycle of a started section. */
  ghost function Head(s: Section, left: seq<Cycle>): Cycle {
    if s.kids == [] then Cycle([], true, false) else if left == [] then IDLE else left[0]
  }

  /** Does section `s` complete in a cycle that starts with `left` cycles to come in its body? */
  ghost predicate Completes(s: Section, left: seq<Cycle>) {
    !Head(s, left).threw && (s.throws || |left| <= 1)
  }

  /** Which trackers a cycle completes decides exactly which cycle is gone from the plan. */
  lemma {:induction false} LeftStep(t: Tracked, t': Tracked, s: Section)
    requires t.state.IsOpen() && |t.kids| <= |s.kids|
    requires var left := LeftKids(t.kids, s.kids);
             if Completes(s, left) then t'.state.IsComplete()
             else t'.state.IsOpen() && left != [] && LeftKids(t'.kids, s.kids) == left[1..]
    ensures var left := LeftKids(t.kids, s.kids);
            var head := Head(s, left);
            && Left(t, s) != []
            && Left(t, s)[0] == Cycle([s.name] + head.path, head.leaf, head.threw || s.throws)
            && Left(t', s) == Left(t, s)[1..]
  {
    var left := LeftKids(t.kids, s.kids);
    var body := Prefix(s.name, LeftBody(t.kids, s));
    if !Completes(s, left) {
      assert Settle(left)[1..] == Settle(left[1..]);
      assert body[1..] == Prefix(s.name, LeftBody(t'.kids, s));
    }
  }

  lemma {:induction false} FitsState(t: Tracked, s: Section, state: CycleState)
    requires Fits(t, s) && !state.NotStarted?
    ensures Fits(t.(state := state), s)
  {
  }

  lemma {:induction false} LeftKidsReplace(kids: seq<Tracked>, kids': seq<Tracked>, sections: seq<Section>, i: nat)
    requires i < |sections| && i <= |kids| <= |sections| && |kids'| == (if i < |kids| then |kids| else i + 1)
    requires forall j :: 0 <= j < i ==> kids[j].state.IsComplete()
    requires forall j :: 0 <= j < |kids| && j != i ==> kids'[j] == kids[j]
    requires var left := LeftAt(kids, sections, i);
             left != [] && LeftAt(kids', sections, i) == left[1..]
    ensures var all := LeftKids(kids, sections);
            all != [] && all[0] == LeftAt(kids, sections, i)[0] && LeftKids(kids', sections) == all[1..]
  {
    var left, rest := LeftAt(kids, sections, i), LeftBehind(kids, sections, i);
    assert LeftKids(kids, sections) == left + rest by {
      LeftKidsSplit(kids, sections, i);
    }
    assert LeftKids(kids', sections) == left[1..] + rest by {
      LeftKidsSplit(kids', sections, i);
      assert i < |kids| ==> kids'[i + 1..] == kids[i + 1..];
    }
    DropHead(left, rest);
  }

  lemma {:induction false} DropHead(a: seq<Cycle>, b: seq<Cycle>)
    requires a != []
    ensures (a + b)[0] == a[0] && (a + b)[1..] == a[1..] + b
  {
  }

  ghost function FirstIncomplete(kids: seq<Tracked>): (n: nat)
    ensures n <= |kids|
    ensures forall j :: 0 <= j < n ==> kids[j].state.IsComplete()
    ensures n < |kids| ==> !kids[n].state.IsComplete()
  {
    if kids == [] || !kids[0].state.IsComplete() then 0 else 1 + FirstIncomplete(kids[1..])
  }

  lemma {:induction false} LastDecides(kids: seq<Tracked>, sections: seq<Section>)
    requires InOrder(kids) && kids != [] && |kids| <= |sections|
    requires |kids| == |sections| || exists i :: 0 <= i < |kids| && !kids[i].state.IsComplete()
    ensures kids[|kids| - 1].state.IsComplete() <==> LeftKids(kids, sections) == []
  {
    LeftKidsEmpty(kids, sections);
    if i :| 0 <= i < |kids| && !kids[i].state.IsComplete() {
      assert !kids[|kids| - 1].state.IsComplete();
    }
  }

  lemma {:induction false} LeftStart(t: Tracked, s: Section)
    requires Left(t, s) != []
    ensures var path := Left(t, s)[0].path; path != [] && path[0] == s.name
  {
    var body := if t.state.NotStarted? then Prefix(s.name, BodyPlan(s)) else Prefix(s.name, LeftBody(t.kids, s));
    assert body != [] && Left(t, s)[0].path == body[0].path;
  }

  lemma {:induction false} KidFits(t: Tracked, t': Tracked, s: Section, i: nat)
    requires Fits(t, s) && i < |s.kids| && i <= |t.kids| && t'.name == t.name && !t'.state.NotStarted?
    requires |t'.kids| == (if i < |t.kids| then |t.kids| else i + 1)
    requires forall j :: 0 <= j < |t.kids| && j != i ==> t'.kids[j] == t.kids[j]
    requires forall j :: 0 <= j < i ==> t.kids[j].state.IsComplete()
    requires i < |t.kids| ==> !t.kids[i].state.IsComplete()
    requires Fits(t'.kids[i], s.kids[i])
    ensures Fits(t', s)
    ensures forall j :: i < j < |t'.kids| ==> t'.kids[j].state.NotStarted?
  {
    assert forall j :: 0 <= j < |t'.kids| && j != i ==> Fits(t'.kids[j], s.kids[j]);
  }
}
