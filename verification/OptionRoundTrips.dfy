/** Parsing the arguments of an export gives back what was exported. */
module OptionRoundTrips {
  import opened CommandLines
  import opened DelimitedLists
  import opened OptionRoles
  import opened OptionExports
  import opened OptionLoneFlags
  import opened OptionParsers

  // ---------- Arguments that are pairs of flags and arguments, between others ----------

  ghost predicate IsLayout(o: Options, argv: seq<string>, a: nat, pairs: seq<Pair>)
    requires o.Valid()
  {
    && a + 2 * |pairs| <= |argv|
    && (forall i :: 0 <= i < a || a + 2 * |pairs| <= i < |argv| ==> !IsFlag(o, argv[i]))
    && (forall k :: 0 <= k < |pairs| ==> PairAt(o, argv, a + 2 * k, pairs[k]))
  }

  predicate PairAt(o: Options, argv: seq<string>, i: nat, pair: Pair)
    requires o.Valid()
  {
    i + 1 < |argv| && argv[i] == pair.flag && argv[i + 1] == pair.arg && TakesArg(o, pair.flag)
  }

  lemma {:induction false} LayoutFirst(o: Options, argv: seq<string>, a: nat, pairs: seq<Pair>)
    requires o.Valid() && IsLayout(o, argv, a, pairs)
    ensures FirstFlag(o, argv) == if pairs == [] then |argv| else a
  {
    var f := FirstFlag(o, argv);
    if pairs != [] {
      assert PairAt(o, argv, a + 2 * 0, pairs[0]);
      assert f >= a;
    }
  }

  lemma {:induction false} LayoutTaken(o: Options, argv: seq<string>, a: nat, pairs: seq<Pair>, k: nat)
    requires o.Valid() && IsLayout(o, argv, a, pairs) && k <= |pairs|
    ensures a + 2 * k < |argv| ==> !Taken(o, argv, a + 2 * k)
    ensures k < |pairs| ==> Taken(o, argv, a + 2 * k + 1)
  {
    if k > 0 {
      LayoutTaken(o, argv, a, pairs, k - 1);
    }
    if k < |pairs| {
      assert PairAt(o, argv, a + 2 * k, pairs[k]);
    }
  }

  /** The flag and the argument of a pair have their roles, whatever the argument looks like. */
  lemma {:induction false} PairRoles(o: Options, argv: seq<string>, a: nat, pairs: seq<Pair>, k: nat)
    requires o.Valid() && IsLayout(o, argv, a, pairs) && k < |pairs|
    ensures a + 2 * k + 1 < |argv| && TakesArg(o, pairs[k].flag)
    ensures RoleOf(o, argv, a + 2 * k) == FlagOf(o.ids[pairs[k].flag]) && argv[a + 2 * k] == pairs[k].flag
    ensures RoleOf(o, argv, a + 2 * k + 1) == ArgOf(o.ids[pairs[k].flag]) && argv[a + 2 * k + 1] == pairs[k].arg
  {
    LayoutFirst(o, argv, a, pairs);
    LayoutTaken(o, argv, a, pairs, k);
    assert PairAt(o, argv, a + 2 * k, pairs[k]);
  }

  lemma {:induction false} UnusedBehind(o: Options, argv: seq<string>, a: nat, pairs: seq<Pair>, i: nat)
    requires o.Valid() && IsLayout(o, argv, a, pairs) && a + 2 * |pairs| <= i < |argv|
    ensures !Used(o, argv, i)
  {
    if i == a + 2 * |pairs| {
      LayoutTaken(o, argv, a, pairs, |pairs|);
    }
  }

  /** The arguments of group g among the pairs. */
  function PairArgs(o: Options, pairs: seq<Pair>, g: nat): seq<string> {
    if pairs == [] then []
    else
      var k := |pairs| - 1;
      PairArgs(o, pairs[..k], g) + if IsOf(o, pairs[k], g) then [pairs[k].arg] else []
  }

  /** What is listed behind the first k pairs. */
  ghost predicate ListedIs(o: Options, argv: seq<string>, n: nat, g: nat, args: seq<string>)
    requires o.Valid() && n <= |argv|
  {
    && Texts(argv, Indexes(o, argv, ArgOf(g), n)) == args
    && (Indexes(o, argv, FlagOf(g), n) == [] <==> args == [])
    && Indexes(o, argv, UnknownArg, n) == []
  }

  /** One more argument that is neither unknown nor of the group. */
  lemma {:induction false} ListedSame(o: Options, argv: seq<string>, n: nat, g: nat, args: seq<string>)
    requires o.Valid() && n < |argv| && ListedIs(o, argv, n, g, args)
    requires RoleOf(o, argv, n) != ArgOf(g) && RoleOf(o, argv, n) != FlagOf(g) && RoleOf(o, argv, n) != UnknownArg
    ensures ListedIs(o, argv, n + 1, g, args)
  {
    hide Indexes, Texts, RoleOf;
    OneMore(o, argv, ArgOf(g), n);
    OneMore(o, argv, FlagOf(g), n);
    OneMore(o, argv, UnknownArg, n);
  }

  lemma {:induction false} ListedPair(o: Options, argv: seq<string>, n: nat, g: nat, args: seq<string>)
    requires o.Valid() && n + 1 < |argv| && ListedIs(o, argv, n, g, args)
    requires RoleOf(o, argv, n) == FlagOf(g) && RoleOf(o, argv, n + 1) == ArgOf(g)
    ensures ListedIs(o, argv, n + 2, g, args + [argv[n + 1]])
  {
    hide Indexes, Texts, RoleOf;
    OneMore(o, argv, ArgOf(g), n);
    OneMore(o, argv, FlagOf(g), n);
    OneMore(o, argv, UnknownArg, n);
    OneMore(o, argv, ArgOf(g), n + 1);
    OneMore(o, argv, FlagOf(g), n + 1);
    OneMore(o, argv, UnknownArg, n + 1);
  }

  lemma {:induction false} ListedStart(o: Options, argv: seq<string>, a: nat, pairs: seq<Pair>, g: nat)
    requires o.Valid() && IsLayout(o, argv, a, pairs) && pairs != []
    ensures ListedIs(o, argv, a, g, [])
  {
    LayoutFirst(o, argv, a, pairs);
    AllFirst(o, argv, ArgOf(g), a);
    AllFirst(o, argv, FlagOf(g), a);
    AllFirst(o, argv, UnknownArg, a);
  }

  lemma {:induction false} ListedPairs(o: Options, argv: seq<string>, a: nat, pairs: seq<Pair>, k: nat, g: nat)
    requires o.Valid() && IsLayout(o, argv, a, pairs) && k <= |pairs| && pairs != []
    ensures ListedIs(o, argv, a + 2 * k, g, PairArgs(o, pairs[..k], g))
  {
    hide ListedIs, IsLayout, RoleOf;
    if k == 0 {
      ListedStart(o, argv, a, pairs, g);
      assert pairs[..0] == [];
    } else {
      LayoutBound(o, argv, a, pairs);
      ListedPairs(o, argv, a, pairs, k - 1, g);
      PairRoles(o, argv, a, pairs, k - 1);
      var n, args := a + 2 * (k - 1), PairArgs(o, pairs[..k - 1], g);
      assert pairs[..k][..k - 1] == pairs[..k - 1];
      if IsOf(o, pairs[k - 1], g) {
        ListedPair(o, argv, n, g, args);
      } else {
        ListedSame(o, argv, n, g, args);
        ListedSame(o, argv, n + 1, g, args);
        assert args + [] == args;
      }
    }
  }

  lemma {:induction false} LayoutBound(o: Options, argv: seq<string>, a: nat, pairs: seq<Pair>)
    requires o.Valid() && IsLayout(o, argv, a, pairs)
    ensures a + 2 * |pairs| <= |argv|
  {
  }

  lemma {:induction false} ListedAll(o: Options, argv: seq<string>, a: nat, pairs: seq<Pair>, n: nat, g: nat)
    requires o.Valid() && IsLayout(o, argv, a, pairs) && a + 2 * |pairs| <= n <= |argv| && pairs != []
    ensures ListedIs(o, argv, n, g, PairArgs(o, pairs, g))
  {
    hide ListedIs, IsLayout;
    if n == a + 2 * |pairs| {
      ListedPairs(o, argv, a, pairs, |pairs|, g);
      assert pairs[..|pairs|] == pairs;
    } else {
      ListedAll(o, argv, a, pairs, n - 1, g);
      RoleLast(o, argv, a, pairs, n - 1);
      ListedSame(o, argv, n - 1, g, PairArgs(o, pairs, g));
    }
  }

  lemma {:induction false} RoleLast(o: Options, argv: seq<string>, a: nat, pairs: seq<Pair>, i: nat)
    requires o.Valid() && IsLayout(o, argv, a, pairs) && a + 2 * |pairs| <= i < |argv| && pairs != []
    ensures RoleOf(o, argv, i) == LastArg
  {
    LayoutFirst(o, argv, a, pairs);
    forall j | i <= j < |argv|
      ensures !Used(o, argv, j)
    {
      UnusedBehind(o, argv, a, pairs, j);
    }
    assert !Used(o, argv, i);
  }

  /** How arguments with at least one pair are parsed. */
  lemma {:induction false} LayoutSelected(o: Options, argv: seq<string>, a: nat, pairs: seq<Pair>)
    requires o.Valid() && IsLayout(o, argv, a, pairs) && pairs != []
    ensures Select(o, argv, FirstArg) == argv[..a] && Select(o, argv, LastArg) == argv[a + 2 * |pairs|..]
    ensures Select(o, argv, UnknownArg) == [] && !Incomplete(o, argv)
  {
    hide Indexes, Texts, RoleOf, IsLayout;
    LayoutBound(o, argv, a, pairs);
    LayoutFirst(o, argv, a, pairs);
    FirstArgs(o, argv, |argv|);
    var last := a + 2 * |pairs| - 1;
    LayoutTaken(o, argv, a, pairs, |pairs| - 1);
    forall j | last < j < |argv|
      ensures !Used(o, argv, j)
    {
      UnusedBehind(o, argv, a, pairs, j);
    }
    LastArgs(o, argv, last, |argv|);
    ListedAll(o, argv, a, pairs, |argv|, 0);
    assert last < |argv| - 1 ==> !Used(o, argv, |argv| - 1);
    assert argv[last + 1..|argv|] == argv[last + 1..];
    assert Texts(argv, []) == [] by {
      AtStart(o, argv, UnknownArg);
    }
  }

  // ---------- Exported groups ----------

  function NewGroups(n: nat): (r: seq<Group>)
    ensures |r| == n && forall g :: 0 <= g < n ==> r[g] == Group(false, [], [])
  {
    if n == 0 then [] else NewGroups(n - 1) + [Group(false, [], [])]
  }

  function Joins(lists: seq<seq<string>>, delim: char): seq<string> {
    if lists == [] then [] else [Join(lists[0], delim)] + Joins(lists[1..], delim)
  }

  lemma {:induction false} ListsCons(text: string, rest: seq<string>, delim: char)
    ensures Lists([text] + rest, delim) == [Split(text, delim)] + Lists(rest, delim)
    decreases rest
  {
    hide Split;
    if rest == [] {
      assert [text] + rest == [text] && [text][..0] == [];
    } else {
      var n := |rest| - 1;
      hide Lists;
      ListsCons(text, rest[..n], delim);
      LastApart(text, rest);
      ListsMore(rest[..n], rest[n], delim);
      ListsMore([text] + rest[..n], rest[n], delim);
      LastApart(Split(text, delim), Lists(rest[..n], delim) + [Split(rest[n], delim)]);
    }
  }

  lemma {:induction false} LastApart<T>(first: T, rest: seq<T>)
    requires rest != []
    ensures var n := |rest| - 1;
            rest == rest[..n] + [rest[n]] && [first] + rest == ([first] + rest[..n]) + [rest[n]]
  {
  }

  /** Splitting what was joined gives back every printable list. */
  lemma {:induction false} ListsOfJoins(lists: seq<seq<string>>, delim: char)
    requires forall j :: 0 <= j < |lists| ==> PrintableList(lists[j], delim)
    ensures Lists(Joins(lists, delim), delim) == lists
    decreases lists
  {
    if lists != [] {
      ListsOfJoins(lists[1..], delim);
      ListsCons(Join(lists[0], delim), Joins(lists[1..], delim), delim);
      SplitUndoesJoin(lists[0], delim);
    }
  }

  lemma {:induction false} PairArgsConcat(o: Options, a: seq<Pair>, b: seq<Pair>, g: nat)
    ensures PairArgs(o, a + b, g) == PairArgs(o, a, g) + PairArgs(o, b, g)
    decreases b
  {
    if b == [] {
      assert a + b == a;
    } else {
      var n := |b| - 1;
      assert (a + b)[..|a| + n] == a + b[..n];
      PairArgsConcat(o, a, b[..n], g);
    }
  }

  lemma {:induction false} ListPairArgs(o: Options, flag: string, lists: seq<seq<string>>, delim: char, g: nat)
    requires flag in o.ids
    ensures PairArgs(o, ListPairs(flag, lists, delim), g) == if o.ids[flag] == g then Joins(lists, delim) else []
    ensures forall k :: 0 <= k < |ListPairs(flag, lists, delim)| ==> ListPairs(flag, lists, delim)[k].flag == flag
  {
    ListArgs(o, flag, lists, delim, g);
    ListFlags(flag, lists, delim);
  }

  lemma {:induction false} ListFlags(flag: string, lists: seq<seq<string>>, delim: char)
    ensures forall k :: 0 <= k < |ListPairs(flag, lists, delim)| ==> ListPairs(flag, lists, delim)[k].flag == flag
    decreases lists
  {
    hide Join;
    if lists != [] {
      ListFlags(flag, lists[1..], delim);
    }
  }

  lemma {:induction false} ListArgs(o: Options, flag: string, lists: seq<seq<string>>, delim: char, g: nat)
    requires flag in o.ids
    ensures PairArgs(o, ListPairs(flag, lists, delim), g) == if o.ids[flag] == g then Joins(lists, delim) else []
    decreases lists
  {
    if lists != [] {
      var arg := Join(lists[0], delim);
      hide Join, PairArgs;
      var pair, rest := Pair(flag, arg), ListPairs(flag, lists[1..], delim);
      ListArgs(o, flag, lists[1..], delim, g);
      ListsOneMore(flag, lists, delim);
      hide ListPairs, Joins;
      PairArgsConcat(o, [pair], rest, g);
      OnePairArgs(o, pair, g);
    }
  }

  lemma {:induction false} ListsOneMore(flag: string, lists: seq<seq<string>>, delim: char)
    requires lists != []
    ensures var arg := Join(lists[0], delim);
            && ListPairs(flag, lists, delim) == [Pair(flag, arg)] + ListPairs(flag, lists[1..], delim)
            && Joins(lists, delim) == [arg] + Joins(lists[1..], delim)
  {
    hide Join;
  }

  lemma {:induction false} OnePairArgs(o: Options, pair: Pair, g: nat)
    ensures PairArgs(o, [pair], g) == if IsOf(o, pair, g) then [pair.arg] else []
  {
    assert [pair][..0] == [];
  }

  /** Every flag stands for another group, and takes an argument if its group has any. */
  predicate ProperlySorted(o: Options, groups: seq<Group>, sorted: seq<string>)
    requires o.Valid() && |groups| == |o.specs|
  {
    && (forall f :: f in sorted ==> f in o.ids && (groups[o.ids[f]].isSet && groups[o.ids[f]].args != [] ==> TakesArg(o, f)))
    && (forall i, j :: 0 <= i < j < |sorted| ==> o.ids[sorted[i]] != o.ids[sorted[j]])
  }

  /** Every group that is set has argument lists. */
  predicate HaveArgs(groups: seq<Group>) {
    forall g :: 0 <= g < |groups| && groups[g].isSet ==> groups[g].args != []
  }

  lemma {:induction false} SortedRest(o: Options, defaults: seq<string>, groups: seq<Group>, sorted: seq<string>)
    requires o.Valid() && |groups| == |defaults| == |o.specs| && sorted != [] && ProperlySorted(o, groups, sorted)
    ensures ProperlySorted(o, groups, sorted[1..])
    ensures Exportable(o, defaults, groups, sorted) ==> Exportable(o, defaults, groups, sorted[1..])
    ensures forall f :: f in sorted[1..] ==> o.ids[f] != o.ids[sorted[0]]
  {
    assert forall f :: f in sorted[1..] ==> f in sorted;
  }

  /** The arguments that are exported for a group. */
  lemma {:induction false} ExportedArgs(o: Options, defaults: seq<string>, groups: seq<Group>, sorted: seq<string>, g: nat)
    requires o.Valid() && |groups| == |defaults| == |o.specs| && ProperlySorted(o, groups, sorted) && g < |groups|
    requires HaveArgs(groups)
    ensures PairArgs(o, GroupsPairs(o, defaults, groups, sorted), g)
         == if groups[g].isSet && (exists f :: f in sorted && o.ids[f] == g) then Joins(groups[g].args, o.specs[g].delim) else []
    decreases sorted
  {
    if sorted != [] {
      var flag, rest := sorted[0], sorted[1..];
      var k := o.ids[flag];
      SortedRest(o, defaults, groups, sorted);
      ExportedArgs(o, defaults, groups, rest, g);
      PairArgsConcat(o, GroupPairs(flag, o.specs[k].delim, defaults[k], groups[k]), GroupsPairs(o, defaults, groups, rest), g);
      if groups[k].isSet {
        ListPairArgs(o, flag, groups[k].args, o.specs[k].delim, g);
      }
      assert forall f :: f in sorted <==> f == flag || f in rest;
    }
  }

  lemma {:induction false} ExportedFlags(o: Options, defaults: seq<string>, groups: seq<Group>, sorted: seq<string>, k: nat)
    requires o.Valid() && |groups| == |defaults| == |o.specs| && ProperlySorted(o, groups, sorted)
    requires k < |GroupsPairs(o, defaults, groups, sorted)|
    requires HaveArgs(groups)
    ensures TakesArg(o, GroupsPairs(o, defaults, groups, sorted)[k].flag)
    decreases sorted
  {
    var flag, rest := sorted[0], sorted[1..];
    var g := o.ids[flag];
    var pairs := GroupPairs(flag, o.specs[g].delim, defaults[g], groups[g]);
    if k < |pairs| {
      ListPairArgs(o, flag, groups[g].args, o.specs[g].delim, g);
    } else {
      SortedRest(o, defaults, groups, sorted);
      ExportedFlags(o, defaults, groups, rest, k - |pairs|);
    }
  }

  lemma {:induction false} FlatAt(pairs: seq<Pair>, k: nat)
    ensures |Flat(pairs)| == 2 * |pairs|
    ensures k < |pairs| ==> Flat(pairs)[2 * k] == pairs[k].flag && Flat(pairs)[2 * k + 1] == pairs[k].arg
  {
    if pairs != [] {
      FlatAt(pairs[1..], if k == 0 then 0 else k - 1);
    }
  }

  predicate NoFlagsIn(o: Options, words: seq<string>) {
    forall i :: 0 <= i < |words| ==> !IsFlag(o, words[i])
  }

  lemma {:induction false} ExportIsLayout(o: Options, defaults: seq<string>, groups: seq<Group>, sorted: seq<string>,
                                          first: seq<string>, last: seq<string>)
    requires o.Valid() && |groups| == |defaults| == |o.specs| && ProperlySorted(o, groups, sorted)
    requires NoFlagsIn(o, first) && NoFlagsIn(o, last)
    requires HaveArgs(groups)
    ensures var pairs := GroupsPairs(o, defaults, groups, sorted);
            IsLayout(o, first + Flat(pairs) + last, |first|, pairs) && |Flat(pairs)| == 2 * |pairs|
  {
    hide Flat;
    var pairs := GroupsPairs(o, defaults, groups, sorted);
    var argv := first + Flat(pairs) + last;
    FlatAt(pairs, 0);
    forall k | 0 <= k < |pairs|
      ensures PairAt(o, argv, |first| + 2 * k, pairs[k])
    {
      FlatAt(pairs, k);
      ExportedFlags(o, defaults, groups, sorted, k);
    }
  }

  /** The sorted flags reach every group that is set. */
  predicate AllSorted(o: Options, groups: seq<Group>, sorted: seq<string>)
    requires o.Valid() && |groups| == |o.specs|
  {
    forall g :: 0 <= g < |groups| && groups[g].isSet ==> exists f :: f in sorted && f in o.ids && o.ids[f] == g
  }

  predicate SameLists(before: seq<Group>, after: seq<Group>) {
    |after| == |before| && forall g :: 0 <= g < |before| ==>
      after[g].isSet == before[g].isSet && after[g].args == if before[g].isSet then before[g].args else []
  }

  lemma {:induction false} GroupRestored(o: Options, argv: seq<string>, defaults: seq<string>, groups: seq<Group>,
                                         sorted: seq<string>, a: nat, g: nat)
    requires o.Valid() && |groups| == |defaults| == |o.specs| && ProperlySorted(o, groups, sorted) && AllSorted(o, groups, sorted)
    requires Exportable(o, defaults, groups, sorted) && g < |groups|
    requires IsLayout(o, argv, a, GroupsPairs(o, defaults, groups, sorted)) && GroupsPairs(o, defaults, groups, sorted) != []
    requires HaveArgs(groups)
    ensures var group := GroupAfter(o, argv, |argv|, Group(false, [], []), g);
            group.isSet == groups[g].isSet && group.args == if groups[g].isSet then groups[g].args else []
  {
    hide IsLayout, Indexes, Texts, PairArgs, GroupsPairs;
    LayoutBound(o, argv, a, GroupsPairs(o, defaults, groups, sorted));
    ListedAll(o, argv, a, GroupsPairs(o, defaults, groups, sorted), |argv|, g);
    ExportedArgs(o, defaults, groups, sorted, g);
    if groups[g].isSet {
      var f :| f in sorted && f in o.ids && o.ids[f] == g;
      SortedExportable(o, defaults, groups, sorted, f);
      ListsOfJoins(groups[g].args, o.specs[g].delim);
    }
  }

  lemma {:induction false} SortedExportable(o: Options, defaults: seq<string>, groups: seq<Group>, sorted: seq<string>, f: string)
    requires o.Valid() && |groups| == |defaults| == |o.specs| && ProperlySorted(o, groups, sorted)
    requires Exportable(o, defaults, groups, sorted) && f in sorted
    ensures var g := o.ids[f]; ExportableGroup(f, o.specs[g].delim, defaults[g], groups[g])
  {
    var i :| 0 <= i < |sorted| && sorted[i] == f;
  }

  lemma {:induction false} SomePairs(o: Options, defaults: seq<string>, groups: seq<Group>, sorted: seq<string>)
    requires o.Valid() && |groups| == |defaults| == |o.specs| && ProperlySorted(o, groups, sorted) && AllSorted(o, groups, sorted)
    requires Exportable(o, defaults, groups, sorted)
    requires HaveArgs(groups)
    ensures GroupsPairs(o, defaults, groups, sorted) == [] <==> forall g :: 0 <= g < |groups| ==> !groups[g].isSet
  {
    hide GroupsPairs, Joins, PairArgs;
    if g :| 0 <= g < |groups| && groups[g].isSet {
      ExportedArgs(o, defaults, groups, sorted, g);
      var f :| f in sorted && f in o.ids && o.ids[f] == g;
      SortedExportable(o, defaults, groups, sorted, f);
      JoinsSome(groups[g].args, o.specs[g].delim);
      NoPairArgs(o, g);
    } else {
      NoPairs(o, defaults, groups, sorted);
    }
  }

  lemma {:induction false} JoinsSome(lists: seq<seq<string>>, delim: char)
    requires lists != []
    ensures Joins(lists, delim) != []
  {
  }

  lemma {:induction false} NoPairArgs(o: Options, g: nat)
    ensures PairArgs(o, [], g) == []
  {
  }

  lemma {:induction false} NoPairs(o: Options, defaults: seq<string>, groups: seq<Group>, sorted: seq<string>)
    requires o.Valid() && |groups| == |defaults| == |o.specs| && ProperlySorted(o, groups, sorted)
    requires forall g :: 0 <= g < |groups| ==> !groups[g].isSet
    ensures GroupsPairs(o, defaults, groups, sorted) == []
    decreases sorted
  {
    if sorted != [] {
      SortedRest(o, defaults, groups, sorted);
      NoPairs(o, defaults, groups, sorted[1..]);
    }
  }

  // ---------- The round trip ----------

  /** A default that is exported behind a flag that does not take it is no flag itself. */
  predicate LoneDefaults(o: Options, defaults: seq<string>, groups: seq<Group>, sorted: seq<string>)
    requires o.Valid() && |groups| == |defaults| == |o.specs| && ProperlySorted(o, groups, sorted)
  {
    forall f :: f in sorted ==>
      var g := o.ids[f];
      groups[g].isSet && groups[g].args == [] && !TakesArg(o, f) ==> !IsFlag(o, defaults[g])
  }

  /** What a new parser with the same options reads from an export. */
  ghost predicate Restored(o: Options, argv: seq<string>, groups: seq<Group>, first: seq<string>, last: seq<string>)
    requires o.Valid() && |groups| == |o.specs|
  {
    && (forall after :: After(o, argv, |argv|, NewGroups(|groups|), after) ==> SameLists(groups, after))
    && Select(o, argv, FirstArg) == Rest(first) && Select(o, argv, LastArg) == last
    && Select(o, argv, UnknownArg) == [] && !Incomplete(o, argv)
  }

  ghost predicate CanExport(o: Options, defaults: seq<string>, groups: seq<Group>, sorted: seq<string>, first: seq<string>, last: seq<string>)
    requires o.Valid() && |groups| == |defaults| == |o.specs|
  {
    && ProperlySorted(o, groups, sorted) && AllSorted(o, groups, sorted) && Exportable(o, defaults, groups, sorted)
    && LoneDefaults(o, defaults, groups, sorted)
    && PrintableWords(Rest(first)) && PrintableWords(last) && NoFlagsIn(o, Rest(first)) && NoFlagsIn(o, last)
  }

  lemma {:induction false} LayoutRestored(o: Options, argv: seq<string>, defaults: seq<string>, groups: seq<Group>, sorted: seq<string>,
                                          first: seq<string>, last: seq<string>)
    requires o.Valid() && |groups| == |defaults| == |o.specs| && CanExport(o, defaults, groups, sorted, first, last)
    requires exists g :: 0 <= g < |groups| && groups[g].isSet
    requires argv == Rest(first) + Flat(GroupsPairs(o, defaults, groups, sorted)) + last
    requires HaveArgs(groups)
    ensures Restored(o, argv, groups, first, last)
  {
    hide IsLayout, GroupsPairs, Flat, GroupAfter, Select;
    var pairs := GroupsPairs(o, defaults, groups, sorted);
    SomePairs(o, defaults, groups, sorted);
    ExportIsLayout(o, defaults, groups, sorted, Rest(first), last);
    LayoutSelected(o, argv, |Rest(first)|, pairs);
    assert argv[..|Rest(first)|] == Rest(first) && argv[|Rest(first)| + 2 * |pairs|..] == last;
    forall g | 0 <= g < |groups|
      ensures var group := GroupAfter(o, argv, |argv|, Group(false, [], []), g);
              group.isSet == groups[g].isSet && group.args == if groups[g].isSet then groups[g].args else []
    {
      GroupRestored(o, argv, defaults, groups, sorted, |Rest(first)|, g);
    }
  }

  /** Without a set group there is nothing to tell first arguments from last ones. */
  lemma {:induction false} NothingSetRestored(o: Options, argv: seq<string>, groups: seq<Group>,
                                              first: seq<string>, last: seq<string>)
    requires o.Valid() && |groups| == |o.specs| && argv == Rest(first) + last && NoFlagsIn(o, argv)
    requires forall g :: 0 <= g < |groups| ==> !groups[g].isSet
    ensures Restored(o, argv, groups, first, last) <==> |Rest(first)| == 1 || argv == []
  {
    hide GroupAfter, Indexes, Texts;
    AfterNoFlags(o, argv, NewGroups(|groups|));
    if argv == [] {
      NothingParsed(o, argv);
    } else {
      ParsedNoFlags(o, argv, NewGroups(|groups|));
    }
  }

  // ---------- Groups that are set without arguments ----------

  lemma {:induction false} LooseRest(o: Options, defaults: seq<string>, groups: seq<Group>, sorted: seq<string>)
    requires o.Valid() && |groups| == |defaults| == |o.specs| && ProperlySorted(o, groups, sorted) && sorted != []
    requires LoneDefaults(o, defaults, groups, sorted)
    ensures ProperlySorted(o, groups, sorted[1..]) && LoneDefaults(o, defaults, groups, sorted[1..])
    ensures forall f :: f in sorted[1..] ==> o.ids[f] != o.ids[sorted[0]]
  {
    assert forall f :: f in sorted[1..] ==> f in sorted;
  }

  lemma {:induction false} ExportedLoose(o: Options, defaults: seq<string>, groups: seq<Group>, sorted: seq<string>, k: nat)
    requires o.Valid() && |groups| == |defaults| == |o.specs| && ProperlySorted(o, groups, sorted)
    requires LoneDefaults(o, defaults, groups, sorted) && k < |GroupsPairs(o, defaults, groups, sorted)|
    ensures IsLoosePair(o, GroupsPairs(o, defaults, groups, sorted)[k])
    decreases sorted
  {
    var flag, rest := sorted[0], sorted[1..];
    var g := o.ids[flag];
    var pairs := GroupPairs(flag, o.specs[g].delim, defaults[g], groups[g]);
    if k < |pairs| {
      ListPairArgs(o, flag, groups[g].args, o.specs[g].delim, g);
    } else {
      LooseRest(o, defaults, groups, sorted);
      ExportedLoose(o, defaults, groups, rest, k - |pairs|);
    }
  }

  /** The pair that is exported for a set group without arguments, if it has a default. */
  lemma {:induction false} LonePair(o: Options, defaults: seq<string>, groups: seq<Group>, sorted: seq<string>, f: string)
    requires o.Valid() && |groups| == |defaults| == |o.specs| && ProperlySorted(o, groups, sorted) && f in sorted
    requires LoneDefaults(o, defaults, groups, sorted)
    requires groups[o.ids[f]].isSet && groups[o.ids[f]].args == []
    ensures var g, pairs := o.ids[f], GroupsPairs(o, defaults, groups, sorted);
            && (defaults[g] == "" ==> NoneOf(o, pairs, g))
            && (defaults[g] != "" ==> Pair(f, defaults[g]) in pairs)
    decreases sorted
  {
    var flag, rest, g := sorted[0], sorted[1..], o.ids[f];
    var pairs := GroupPairs(flag, o.specs[o.ids[flag]].delim, defaults[o.ids[flag]], groups[o.ids[flag]]);
    LooseRest(o, defaults, groups, sorted);
    GroupsStep(o, defaults, groups, sorted);
    if f == flag {
      LoneGroup(f, o.specs[g].delim, defaults[g], groups[g]);
      hide GroupsPairs, GroupPairs, LoneDefaults;
      OthersPairs(o, defaults, groups, rest, g);
    } else {
      OtherGroup(o, flag, o.specs[o.ids[flag]].delim, defaults[o.ids[flag]], groups[o.ids[flag]], g);
      hide GroupsPairs, GroupPairs, LoneDefaults;
      LonePair(o, defaults, groups, rest, f);
    }
  }

  lemma {:induction false} GroupsStep(o: Options, defaults: seq<string>, groups: seq<Group>, sorted: seq<string>)
    requires o.Valid() && |groups| == |defaults| == |o.specs| && sorted != [] && forall f :: f in sorted ==> f in o.ids
    ensures var g := o.ids[sorted[0]];
            GroupsPairs(o, defaults, groups, sorted) ==
            GroupPairs(sorted[0], o.specs[g].delim, defaults[g], groups[g]) + GroupsPairs(o, defaults, groups, sorted[1..])
  {
  }

  lemma {:induction false} LoneGroup(flag: string, delim: char, defaults: string, group: Group)
    requires group.isSet && group.args == []
    ensures GroupPairs(flag, delim, defaults, group) == if defaults == "" then [] else [Pair(flag, defaults)]
  {
  }

  lemma {:induction false} OtherGroup(o: Options, flag: string, delim: char, defaults: string, group: Group, g: nat)
    requires flag in o.ids && o.ids[flag] != g
    ensures NoneOf(o, GroupPairs(flag, delim, defaults, group), g)
  {
    ListPairArgs(o, flag, group.args, delim, g);
  }

  lemma {:induction false} OthersPairs(o: Options, defaults: seq<string>, groups: seq<Group>, sorted: seq<string>, g: nat)
    requires o.Valid() && |groups| == |defaults| == |o.specs| && ProperlySorted(o, groups, sorted)
    requires LoneDefaults(o, defaults, groups, sorted) && forall f :: f in sorted ==> o.ids[f] != g
    ensures NoneOf(o, GroupsPairs(o, defaults, groups, sorted), g)
    decreases sorted
  {
    if sorted != [] {
      var flag := sorted[0];
      LooseRest(o, defaults, groups, sorted);
      OtherGroup(o, flag, o.specs[o.ids[flag]].delim, defaults[o.ids[flag]], groups[o.ids[flag]], g);
      OthersPairs(o, defaults, groups, sorted[1..], g);
      assert flag in sorted;
    }
  }

  lemma {:induction false} ExportIsLoose(o: Options, defaults: seq<string>, groups: seq<Group>, sorted: seq<string>,
                                         first: seq<string>, last: seq<string>)
    requires o.Valid() && |groups| == |defaults| == |o.specs| && ProperlySorted(o, groups, sorted)
    requires LoneDefaults(o, defaults, groups, sorted) && NoFlagsIn(o, first) && NoFlagsIn(o, last)
    ensures var pairs := GroupsPairs(o, defaults, groups, sorted);
            IsLoose(o, first + Flat(pairs) + last, |first|, pairs) && |Flat(pairs)| == 2 * |pairs|
  {
    hide Flat, GroupsPairs, IsLoosePair, LoneDefaults;
    var pairs := GroupsPairs(o, defaults, groups, sorted);
    var argv := first + Flat(pairs) + last;
    FlatAt(pairs, 0);
    forall k | 0 <= k < |pairs|
      ensures LooseAt(o, argv, |first| + 2 * k, pairs[k])
    {
      FlatAt(pairs, k);
      ExportedLoose(o, defaults, groups, sorted, k);
    }
  }

  ghost function Parsed(o: Options, argv: seq<string>): seq<Group>
    requires o.Valid()
  {
    seq(|o.specs|, g requires 0 <= g < |o.specs| => GroupAfter(o, argv, |argv|, Group(false, [], []), g))
  }

  /** What a new parser reads for one group is enough to say that something is not restored. */
  lemma {:induction false} GroupDiffers(o: Options, argv: seq<string>, groups: seq<Group>,
                                        first: seq<string>, last: seq<string>, g: nat)
    requires o.Valid() && |groups| == |o.specs| && g < |groups| && groups[g].isSet && groups[g].args == []
    requires var group := GroupAfter(o, argv, |argv|, Group(false, [], []), g); !group.isSet || group.args != []
    ensures !Restored(o, argv, groups, first, last)
  {
    hide GroupAfter;
    var after := Parsed(o, argv);
    assert After(o, argv, |argv|, NewGroups(|groups|), after);
    assert after[g] == GroupAfter(o, argv, |argv|, Group(false, [], []), g);
    assert !SameLists(groups, after);
  }

  lemma {:induction false} SomeTexts(argv: seq<string>, indexes: seq<nat>, delim: char)
    requires indexes != [] && forall k :: 0 <= k < |indexes| ==> indexes[k] < |argv|
    ensures Texts(argv, indexes) != [] && Lists(Texts(argv, indexes), delim) != []
  {
  }

  /** A group that is set without arguments is lost, or it or other arguments are read differently. */
  lemma {:induction false} LoneLost(o: Options, argv: seq<string>, defaults: seq<string>, groups: seq<Group>,
                                    sorted: seq<string>, first: seq<string>, last: seq<string>, g: nat)
    requires o.Valid() && |groups| == |defaults| == |o.specs| && CanExport(o, defaults, groups, sorted, first, last)
    requires argv == Rest(first) + Flat(GroupsPairs(o, defaults, groups, sorted)) + last
    requires g < |groups| && groups[g].isSet && groups[g].args == []
    ensures !Restored(o, argv, groups, first, last)
  {
    hide IsLoose, GroupsPairs, Flat, Indexes, Texts, Restored, Exportable, LoneDefaults;
    var a, pairs := |Rest(first)|, GroupsPairs(o, defaults, groups, sorted);
    var f :| f in sorted && f in o.ids && o.ids[f] == g;
    ExportIsLoose(o, defaults, groups, sorted, Rest(first), last);
    LonePair(o, defaults, groups, sorted, f);
    if defaults[g] == "" {
      NotSet(o, argv, a, pairs, g);
      GroupDiffers(o, argv, groups, first, last, g);
    } else {
      var k :| 0 <= k < |pairs| && pairs[k] == Pair(f, defaults[g]);
      if TakesArg(o, f) {
        WordTaken(o, argv, a, pairs, k);
        SomeTexts(argv, Indexes(o, argv, ArgOf(g), |argv|), o.specs[g].delim);
        GroupDiffers(o, argv, groups, first, last, g);
      } else {
        WordLeft(o, argv, a, pairs, k);
        WordDiffers(o, argv, groups, first, last, a + 2 * k + 1);
      }
    }
  }

  lemma {:induction false} WordDiffers(o: Options, argv: seq<string>, groups: seq<Group>,
                                       first: seq<string>, last: seq<string>, i: nat)
    requires o.Valid() && |groups| == |o.specs| && i + |last| < |argv|
    requires Indexes(o, argv, UnknownArg, |argv|) != [] || Select(o, argv, LastArg) == argv[i..]
    ensures !Restored(o, argv, groups, first, last)
  {
    hide Indexes, After;
    if Indexes(o, argv, UnknownArg, |argv|) != [] {
      SomeTexts(argv, Indexes(o, argv, UnknownArg, |argv|), ',');
    }
  }

  // ---------- All of it ----------

  /** Tokenising an export and parsing it gives every list of every group, the last arguments, and the first ones
      without the program name: exactly if no group is set without arguments, and some group is set or there is nothing
      to confuse. */
  lemma {:induction false} ExportRoundTrip(o: Options, defaults: seq<string>, groups: seq<Group>, sorted: seq<string>,
                                           first: seq<string>, last: seq<string>)
    requires o.Valid() && |groups| == |defaults| == |o.specs| && CanExport(o, defaults, groups, sorted, first, last)
    ensures Restored(o, Arguments(ExportText(o, defaults, groups, sorted, false, first, last)), groups, first, last)
       <==> HaveArgs(groups)
            && ((exists g :: 0 <= g < |groups| && groups[g].isSet) || |Rest(first)| == 1 || Rest(first) + last == [])
  {
    hide Restored, ExportText, Arguments, GroupsPairs;
    ArgumentsOfExport(o, defaults, groups, sorted, first, last);
    var argv := Rest(first) + Flat(GroupsPairs(o, defaults, groups, sorted)) + last;
    if g :| 0 <= g < |groups| && groups[g].isSet && groups[g].args == [] {
      LoneLost(o, argv, defaults, groups, sorted, first, last, g);
    } else if g :| 0 <= g < |groups| && groups[g].isSet {
      LayoutRestored(o, argv, defaults, groups, sorted, first, last);
    } else {
      NoPairs(o, defaults, groups, sorted);
      assert Rest(first) + [] == Rest(first);
      NothingSetRestored(o, argv, groups, first, last);
    }
  }

  /** For instance: a last argument, without any option set, is read back as a first one. */
  lemma {:induction false} LastArgumentMoves()
    ensures var o, groups := Options(map["-v" := 0], [Spec(',', true)]), [Group(false, [], [])];
            && o.Valid() && CanExport(o, [""], groups, ["-v"], ["program"], ["file"])
            && var text := ExportText(o, [""], groups, ["-v"], false, ["program"], ["file"]);
               !Restored(o, Arguments(text), groups, ["program"], ["file"])
  {
    var o, groups := Options(map["-v" := 0], [Spec(',', true)]), [Group(false, [], [])];
    hide Restored, ExportText, Arguments;
    assert PrintableWord("file") && Rest(["program"]) == [];
    ExportRoundTrip(o, [""], groups, ["-v"], ["program"], ["file"]);
  }

  /** And an option that is set and takes no arguments is not read back at all. */
  lemma {:induction false} SetFlagIsLost()
    ensures var o, groups := Options(map["-v" := 0], [Spec('\0', false)]), [Group(true, [], [1])];
            && o.Valid() && CanExport(o, [""], groups, ["-v"], ["program"], [])
            && var text := ExportText(o, [""], groups, ["-v"], false, ["program"], []);
               text == "" && !Restored(o, Arguments(text), groups, ["program"], [])
  {
    var o, groups := Options(map["-v" := 0], [Spec('\0', false)]), [Group(true, [], [1])];
    hide Restored, Arguments;
    assert GroupsText(o, [""], groups, ["-v"], false) == "";
    ExportRoundTrip(o, [""], groups, ["-v"], ["program"], []);
  }
}
