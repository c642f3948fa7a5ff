/** The option parser: it sorts the arguments of a command line in two passes. */
module OptionParsers {
  import CommandLines
  import opened DelimitedLists
  import opened OptionRoles
  import opened OptionExports
  import OptionImports

  /** What the first n arguments have made of the groups. */
  ghost predicate After(o: Options, argv: seq<string>, n: nat, before: seq<Group>, after: seq<Group>)
    requires o.Valid() && n <= |argv| && |before| == |o.specs|
  {
    |after| == |before| && forall g :: 0 <= g < |before| ==> after[g] == GroupAfter(o, argv, n, before[g], g)
  }

  ghost function GroupAfter(o: Options, argv: seq<string>, n: nat, before: Group, g: nat): Group
    requires o.Valid() && n <= |argv| && g < |o.specs|
  {
    var flags, args := Indexes(o, argv, FlagOf(g), n), Indexes(o, argv, ArgOf(g), n);
    Group(before.isSet || flags != [], before.args + Lists(Texts(argv, args), o.specs[g].delim), before.parseIndex + flags)
  }

  function AddFlag(group: Group, i: nat): Group {
    group.(isSet := true, parseIndex := group.parseIndex + [i])
  }

  function AddArgs(group: Group, list: seq<string>): Group {
    group.(args := group.args + [list])
  }

  lemma {:induction false} GroupAfterStep(o: Options, argv: seq<string>, n: nat, before: Group, g: nat)
    requires o.Valid() && n < |argv| && g < |o.specs|
    ensures var group := GroupAfter(o, argv, n, before, g);
            GroupAfter(o, argv, n + 1, before, g) ==
            match RoleOf(o, argv, n)
            case FlagOf(k) => if k == g then AddFlag(group, n) else group
            case ArgOf(k) => if k == g then AddArgs(group, Split(argv[n], o.specs[g].delim)) else group
            case _ => group
  {
    hide Indexes, RoleOf, Split, Texts, Lists;
    OneMore(o, argv, FlagOf(g), n);
    OneMore(o, argv, ArgOf(g), n);
    var args := Texts(argv, Indexes(o, argv, ArgOf(g), n));
    ListsMore(args, argv[n], o.specs[g].delim);
    Associate(before.args, Lists(args, o.specs[g].delim), Split(argv[n], o.specs[g].delim));
  }

  lemma {:induction false} Associate<T>(a: seq<T>, b: seq<T>, x: T)
    ensures a + (b + [x]) == (a + b) + [x]
  {
  }

  lemma {:induction false} GroupUntouched(o: Options, argv: seq<string>, n: nat, before: Group, g: nat)
    requires o.Valid() && n <= |argv| && g < |o.specs|
    requires Indexes(o, argv, FlagOf(g), n) == Indexes(o, argv, ArgOf(g), n) == []
    ensures GroupAfter(o, argv, n, before, g) == before
  {
    hide Indexes;
    assert before.args + [] == before.args && before.parseIndex + [] == before.parseIndex;
  }

  lemma {:induction false} AfterStart(o: Options, argv: seq<string>, n: nat, before: seq<Group>)
    requires o.Valid() && |before| == |o.specs|
    requires n == 0 || n <= FirstFlag(o, argv) < |argv|
    ensures After(o, argv, n, before, before)
  {
    hide GroupAfter, Indexes;
    forall g | 0 <= g < |before|
      ensures GroupAfter(o, argv, n, before[g], g) == before[g]
    {
      AtStart(o, argv, FlagOf(g));
      AtStart(o, argv, ArgOf(g));
      if n > 0 {
        AllFirst(o, argv, FlagOf(g), n);
        AllFirst(o, argv, ArgOf(g), n);
      }
      GroupUntouched(o, argv, n, before[g], g);
    }
  }

  /** One more argument changes at most the group it belongs to. */
  lemma {:induction false} AfterStep(o: Options, argv: seq<string>, n: nat, before: seq<Group>, after: seq<Group>)
    requires o.Valid() && n < |argv| && |before| == |o.specs|
    requires After(o, argv, n, before, after)
    ensures After(o, argv, n + 1, before,
                  match RoleOf(o, argv, n)
                  case FlagOf(k) => if k < |after| then after[k := AddFlag(after[k], n)] else after
                  case ArgOf(k) => if k < |after| then after[k := AddArgs(after[k], Split(argv[n], o.specs[k].delim))] else after
                  case _ => after)
  {
    hide GroupAfter, RoleOf;
    forall g | 0 <= g < |before|
      ensures GroupAfter(o, argv, n + 1, before[g], g) ==
              match RoleOf(o, argv, n)
              case FlagOf(k) => if k == g then AddFlag(after[g], n) else after[g]
              case ArgOf(k) => if k == g then AddArgs(after[g], Split(argv[n], o.specs[g].delim)) else after[g]
              case _ => after[g]
    {
      GroupAfterStep(o, argv, n, before[g], g);
    }
  }

  lemma {:induction false} AfterFlag(o: Options, argv: seq<string>, n: nat, k: nat, before: seq<Group>,
                                     after: seq<Group>)
    requires o.Valid() && n < |argv| && |before| == |o.specs| && k < |after| && RoleOf(o, argv, n) == FlagOf(k)
    requires After(o, argv, n, before, after)
    ensures After(o, argv, n + 1, before, after[k := AddFlag(after[k], n)])
  {
    hide After, RoleOf;
    AfterStep(o, argv, n, before, after);
  }

  lemma {:induction false} AfterArg(o: Options, argv: seq<string>, n: nat, k: nat, before: seq<Group>,
                                    after: seq<Group>)
    requires o.Valid() && n < |argv| && |before| == |o.specs| && k < |after| <= |o.specs| && RoleOf(o, argv, n) == ArgOf(k)
    requires After(o, argv, n, before, after)
    ensures After(o, argv, n + 1, before, after[k := AddArgs(after[k], Split(argv[n], o.specs[k].delim))])
  {
    hide After, RoleOf, Split;
    AfterStep(o, argv, n, before, after);
  }

  lemma {:induction false} AfterNoFlags(o: Options, argv: seq<string>, before: seq<Group>)
    requires o.Valid() && |before| == |o.specs| && FirstFlag(o, argv) == |argv|
    ensures After(o, argv, |argv|, before, before)
  {
    hide GroupAfter, Indexes;
    forall g | 0 <= g < |before|
      ensures GroupAfter(o, argv, |argv|, before[g], g) == before[g]
    {
      AtStart(o, argv, FlagOf(g));
      AtStart(o, argv, ArgOf(g));
      if argv != [] {
        NoFlags(o, argv, FlagOf(g), |argv|);
        NoFlags(o, argv, ArgOf(g), |argv|);
      }
      GroupUntouched(o, argv, |argv|, before[g], g);
    }
  }

  /** Of the positions before n, `last` is the last that is a flag or an argument of one. */
  ghost predicate IsLastUsed(o: Options, argv: seq<string>, first: nat, n: nat, last: nat)
    requires o.Valid() && n <= |argv|
  {
    first <= last < n && Used(o, argv, last) && forall j :: last < j < n ==> !Used(o, argv, j)
  }

  /** Scanning past a position that is not taken, and past the argument of a flag that takes one. */
  lemma {:induction false} LastUsedStep(o: Options, argv: seq<string>, first: nat, i: nat, last: nat)
    requires o.Valid() && first <= i < |argv| && !Taken(o, argv, i)
    requires (i == first && IsFlag(o, argv[i])) || IsLastUsed(o, argv, first, i, last)
    ensures IsLastUsed(o, argv, first, i + 1, if IsFlag(o, argv[i]) then i else last)
    ensures TakesArg(o, argv[i]) && i + 1 < |argv| ==> IsLastUsed(o, argv, first, i + 2, i + 1)
  {
  }

  lemma {:induction false} LastUsedBound(o: Options, argv: seq<string>, first: nat, i: nat, last: nat)
    requires o.Valid() && i < |argv| && IsLastUsed(o, argv, first, |argv|, last) && Used(o, argv, i)
    ensures i <= last
  {
  }

  lemma {:induction false} RoleAhead(o: Options, argv: seq<string>, i: nat)
    requires o.Valid() && FirstFlag(o, argv) <= i < |argv| && !Taken(o, argv, i)
    ensures if IsFlag(o, argv[i]) then RoleOf(o, argv, i) == FlagOf(o.ids[argv[i]])
            else RoleOf(o, argv, i) == if UsedBehind(o, argv, i) then UnknownArg else LastArg
  {
  }

  lemma {:induction false} RoleTaken(o: Options, argv: seq<string>, i: nat)
    requires o.Valid() && FirstFlag(o, argv) <= i < |argv| && Taken(o, argv, i)
    ensures RoleOf(o, argv, i) == ArgOf(o.ids[argv[i - 1]])
  {
  }

  lemma {:induction false} UnknownAhead(o: Options, argv: seq<string>, i: nat, last: nat)
    requires o.Valid() && i <= last < |argv| && Used(o, argv, last) && !Used(o, argv, i)
    ensures UsedBehind(o, argv, i)
  {
  }

  lemma {:induction false} ParsedNoFlags(o: Options, argv: seq<string>, before: seq<Group>)
    requires o.Valid() && |before| == |o.specs| && argv != [] && FirstFlag(o, argv) == |argv|
    ensures After(o, argv, |argv|, before, before) && !Incomplete(o, argv)
    ensures Select(o, argv, FirstArg) == [argv[0]] && Select(o, argv, LastArg) == argv[1..]
    ensures Select(o, argv, UnknownArg) == []
  {
    hide Indexes, Texts, After;
    AfterNoFlags(o, argv, before);
    NoFlags(o, argv, FirstArg, |argv|);
    NoFlags(o, argv, LastArg, |argv|);
    NoFlags(o, argv, UnknownArg, |argv|);
  }

  lemma {:induction false} NothingParsed(o: Options, argv: seq<string>)
    requires o.Valid() && argv == []
    ensures !Incomplete(o, argv) && forall role :: Select(o, argv, role) == []
  {
  }

  lemma {:induction false} NothingLast(o: Options, argv: seq<string>)
    requires o.Valid() && Incomplete(o, argv) && FirstFlag(o, argv) < |argv|
    ensures Select(o, argv, LastArg) == []
  {
    NoLastBefore(o, argv, |argv| - 1, |argv|);
  }

  class OptionGroup {
    /** The delimiter in an argument, which is zero if it is not a list. */
    const delim: char
    const expectArgs: bool
    const defaults: string
    var isSet: bool
    var args: seq<seq<string>>
    var parseIndex: seq<nat>

    constructor (defaults: string, expectArgs: bool, delim: char)
      ensures this.defaults == defaults && this.delim == delim && this.expectArgs == expectArgs
      ensures !isSet && args == [] && parseIndex == []
    {
      this.defaults, this.expectArgs, this.delim := defaults, expectArgs, delim;
      isSet, args, parseIndex := false, [], [];
    }
  }

  class OptionParser {
    var optionGroupIds: map<string, nat>
    var groups: seq<OptionGroup>
    var firstArgs: seq<string>
    var unknownArgs: seq<string>
    var lastArgs: seq<string>
    ghost var options: Options
    ghost var defaults: seq<string>
    ghost var view: seq<Group>

    ghost predicate Valid()
      reads this, groups
    {
      && options.Valid() && options.ids == optionGroupIds && |options.specs| == |groups| == |view| == |defaults|
      && (forall i :: 0 <= i < |groups| ==> defaults[i] == groups[i].defaults)
      && (forall i :: 0 <= i < |groups| ==> options.specs[i] == Spec(groups[i].delim, groups[i].expectArgs))
      && (forall i :: 0 <= i < |groups| ==> view[i] == Group(groups[i].isSet, groups[i].args, groups[i].parseIndex))
      && (forall i, j :: 0 <= i < j < |groups| ==> groups[i] != groups[j])
    }

    constructor ()
      ensures Valid() && options == Options(map[], []) && view == [] && defaults == []
      ensures firstArgs == unknownArgs == lastArgs == []
    {
      optionGroupIds, groups, firstArgs, unknownArgs, lastArgs := map[], [], [], [], [];
      options, defaults, view := Options(map[], []), [], [];
    }

    /** A flag that two groups share stands for the later one. */
    method Add(defaults: string, expectArgs: bool, delim: char, flags: seq<string>)
      requires Valid()
      modifies this`optionGroupIds, this`groups, this`options, this`defaults, this`view
      ensures Valid() && view == old(view) + [Group(false, [], [])] && this.defaults == old(this.defaults) + [defaults]
      ensures options.specs == old(options).specs + [Spec(delim, expectArgs)]
      ensures forall f :: if f in flags then f in options.ids && options.ids[f] == |old(view)|
                          else (f in options.ids <==> f in old(options).ids)
                               && (f in options.ids ==> options.ids[f] == old(options).ids[f])
    {
      var id := |groups|;
      var g := new OptionGroup(defaults, expectArgs, delim);
      var ids := optionGroupIds;
      for i := 0 to |flags|
        invariant forall f :: if f in flags[..i] then f in ids && ids[f] == id
                              else (f in ids <==> f in optionGroupIds) && (f in ids ==> ids[f] == optionGroupIds[f])
      {
        ids := ids[flags[i] := id];
        assert flags[..i + 1] == flags[..i] + [flags[i]];
      }
      assert flags[..|flags|] == flags;
      optionGroupIds, groups := ids, groups + [g];
      options := Options(ids, options.specs + [Spec(delim, expectArgs)]);
      this.defaults, view := this.defaults + [defaults], view + [Group(false, [], [])];
    }

    method FlagFound(k: nat, i: nat)
      requires Valid() && k < |groups|
      modifies groups, this`view
      ensures Valid() && view == old(view)[k := AddFlag(old(view)[k], i)]
    {
      var g := groups[k];
      g.isSet := true;
      g.parseIndex := g.parseIndex + [i];
      view := view[k := AddFlag(view[k], i)];
    }

    method ArgsFound(k: nat, arg: string)
      requires Valid() && k < |groups|
      modifies groups, this`view
      ensures Valid() && view == old(view)[k := AddArgs(old(view)[k], Split(arg, options.specs[k].delim))]
    {
      var g := groups[k];
      var list := SplitDelim(arg, g.delim);
      g.args := g.args + [list];
      view := view[k := AddArgs(view[k], list)];
    }

    lemma {:induction false} Shape()
      requires Valid()
      ensures options.Valid() && options.ids == optionGroupIds && |options.specs| == |groups| == |view| == |defaults|
      ensures forall i :: 0 <= i < |groups| ==> options.specs[i].expectArgs == groups[i].expectArgs
    {
    }

    method FindFlag(argv: seq<string>) returns (i: nat)
      requires Valid()
      ensures i == FirstFlag(options, argv)
    {
      i := 0;
      while i < |argv|
        invariant i <= FirstFlag(options, argv)
      {
        if argv[i] in optionGroupIds {
          break;
        }
        i := i + 1;
      }
    }

    /** The first pass, from the first flag on; it stops if the last flag lacks its argument. */
    method ScanOptions(argv: seq<string>, first: nat) returns (complete: bool, lastOptIndex: nat)
      requires Valid() && first == FirstFlag(options, argv) < |argv|
      modifies this`view, groups
      ensures Valid() && After(options, argv, |argv|, old(view), view)
      ensures complete <==> !Incomplete(options, argv)
      ensures complete ==> IsLastUsed(options, argv, first, |argv|, lastOptIndex)
    {
      hide Valid, After, RoleOf, FirstFlag, Taken, Used, IsLastUsed, Split, AddFlag, AddArgs;
      Shape();
      lastOptIndex := 0;
      var i := first;
      AfterStart(options, argv, i, view);
      NothingTakenBefore(options, argv, i);
      while i < |argv|
        invariant first <= i <= |argv| && Valid() && unchanged(`options) && unchanged(`groups)
        invariant i < |argv| ==> !Taken(options, argv, i)
        invariant i == |argv| ==> !Incomplete(options, argv)
        invariant After(options, argv, i, old(view), view)
        invariant i == first || IsLastUsed(options, argv, first, i, lastOptIndex)
      {
        Shape();
        ScanGoesOn(options, argv, i);
        RoleAhead(options, argv, i);
        LastUsedStep(options, argv, first, i, lastOptIndex);
        if argv[i] !in optionGroupIds {
          AfterStep(options, argv, i, old(view), view);
        } else {
          var k := optionGroupIds[argv[i]];
          AfterFlag(options, argv, i, k, old(view), view);
          FlagFound(k, i);
          if groups[k].expectArgs {
            i := i + 1;
            if i >= |argv| {
              return false, lastOptIndex;
            }
            RoleTaken(options, argv, i);
            AfterArg(options, argv, i, k, old(view), view);
            ArgsFound(k, argv[i]);
          }
          lastOptIndex := i;
        }
        i := i + 1;
      }
      complete := true;
    }

    /** The second pass, which skips the arguments of flags as the first one did. */
    method ScanUnknown(argv: seq<string>, first: nat, lastOptIndex: nat)
      requires Valid() && first == FirstFlag(options, argv) < |argv| && !Incomplete(options, argv)
      requires IsLastUsed(options, argv, first, |argv|, lastOptIndex)
      modifies this`unknownArgs
      ensures unknownArgs == old(unknownArgs) + Texts(argv, Indexes(options, argv, UnknownArg, lastOptIndex + 1))
    {
      hide RoleOf, FirstFlag, Indexes, Texts;
      var i := first;
      AllFirst(options, argv, UnknownArg, i);
      NothingTakenBefore(options, argv, i);
      while i <= lastOptIndex
        invariant first <= i <= lastOptIndex + 1
        invariant i < |argv| ==> !Taken(options, argv, i)
        invariant unknownArgs == old(unknownArgs) + Texts(argv, Indexes(options, argv, UnknownArg, i))
      {
        ScanGoesOn(options, argv, i);
        RoleAhead(options, argv, i);
        OneMore(options, argv, UnknownArg, i);
        if argv[i] in optionGroupIds {
          var k := optionGroupIds[argv[i]];
          if groups[k].expectArgs {
            i := i + 1;
            LastUsedBound(options, argv, first, i, lastOptIndex);
            RoleTaken(options, argv, i);
            OneMore(options, argv, UnknownArg, i);
          }
        } else {
          UnknownAhead(options, argv, i, lastOptIndex);
          unknownArgs := unknownArgs + [argv[i]];
        }
        i := i + 1;
      }
    }

    /** Every argument goes where its role says; unknown arguments get lost if the last flag lacks its argument. */
    method Parse(argv: seq<string>)
      requires Valid()
      modifies this`firstArgs, this`unknownArgs, this`lastArgs, this`view, groups
      ensures Valid() && After(options, argv, |argv|, old(view), view)
      ensures firstArgs == old(firstArgs) + Select(options, argv, FirstArg)
      ensures unknownArgs == old(unknownArgs) + if Incomplete(options, argv) then [] else Select(options, argv, UnknownArg)
      ensures lastArgs == old(lastArgs) + Select(options, argv, LastArg)
    {
      hide After, Indexes, Texts, RoleOf, FirstFlag, Taken, Used, Incomplete;
      if |argv| < 1 {
        NothingParsed(options, argv);
        AfterStart(options, argv, 0, view);
        return;
      }
      var i := FindFlag(argv);
      if i == |argv| {
        firstArgs := firstArgs + [argv[0]];
        lastArgs := lastArgs + argv[1..];
        ParsedNoFlags(options, argv, view);
        return;
      }
      firstArgs := firstArgs + argv[..i];
      FirstArgs(options, argv, |argv|);
      var complete, lastOptIndex := ScanOptions(argv, i);
      if !complete {
        NothingLast(options, argv);
        return;
      }
      ScanUnknown(argv, i, lastOptIndex);
      LastArgs(options, argv, lastOptIndex, |argv|);
      lastArgs := lastArgs + argv[lastOptIndex + 1..];
    }

    /** A file, of which `memblock` is the contents up to the first zero, is read as a command line. */
    method Import(memblock: string, comment: char)
      requires Valid() && '\0' !in memblock
      modifies this`firstArgs, this`unknownArgs, this`lastArgs, this`view, groups
      ensures Valid()
      ensures var argv := CommandLines.Arguments(OptionImports.ImportCommand(memblock, comment));
              && After(options, argv, |argv|, old(view), view)
              && firstArgs == old(firstArgs) + Select(options, argv, FirstArg)
              && unknownArgs == old(unknownArgs)
                                + (if Incomplete(options, argv) then [] else Select(options, argv, UnknownArg))
              && lastArgs == old(lastArgs) + Select(options, argv, LastArg)
    {
      var cmd := OptionImports.MakeCommand(memblock, comment);
      OptionImports.NoZeroAdded(memblock, comment);
      var argv := CommandLines.ReadArguments(cmd);
      Parse(argv);
    }

    /** The text to write to a file, given the first flags of all groups in sorted order. */
    method Export(sorted: seq<string>, all: bool) returns (out: string)
      requires Valid() && forall f :: f in sorted ==> f in optionGroupIds
      ensures out == ExportText(options, defaults, view, sorted, all, firstArgs, lastArgs)
    {
      out := ExportFirst(firstArgs);
      out := ExportGroups(out, sorted, all);
      out := ExportLast(out, lastArgs);
    }

    method ExportGroups(text: string, sorted: seq<string>, all: bool) returns (out: string)
      requires Valid() && forall f :: f in sorted ==> f in optionGroupIds
      ensures out == text + GroupsText(options, defaults, view, sorted, all)
    {
      hide Valid, GroupText;
      Shape();
      out := text;
      for i := 0 to |sorted|
        invariant out + GroupsText(options, defaults, view, sorted[i..], all)
               == text + GroupsText(options, defaults, view, sorted, all)
      {
        var k := optionGroupIds[sorted[i]];
        ghost var part := GroupText(sorted[i], options.specs[k].delim, defaults[k], view[k], all);
        assert sorted[i..][1..] == sorted[i + 1..];
        Regroup(out, part, "", GroupsText(options, defaults, view, sorted[i + 1..], all));
        out := ExportGroup(out, sorted[i], k, all);
      }
      assert sorted[|sorted|..] == [];
    }

    method ExportGroup(text: string, flag: string, k: nat, all: bool) returns (out: string)
      requires Valid() && k < |groups|
      ensures out == text + GroupText(flag, options.specs[k].delim, defaults[k], view[k], all)
    {
      hide ListsText, QuotedOnce;
      var g := groups[k];
      out := text;
      if g.isSet || all {
        if !g.isSet || g.args == [] {
          if g.defaults != "" {
            out := out + (flag + " " + QuotedOnce(g.defaults) + "\n");
          }
        } else {
          out := ExportLists(out, flag, g.args, g.delim);
        }
      }
    }
  }

  /** Text is appended one part after another. */
  lemma {:induction false} Regroup(out: string, a: string, b: string, rest: string)
    ensures out + (a + b + rest) == (out + a + b) + rest
    ensures out + "" == out
  {
  }

  method ExportFirst(words: seq<string>) returns (out: string)
    ensures out == FirstLine(words)
  {
    hide QuotedOnce;
    out := "";
    var i := 1;
    while i < |words|
      invariant 1 <= i && (i <= |words| || i == 1)
      invariant |words| > 1 ==> out + FirstText(words[i..]) == FirstText(words[1..])
      invariant |words| <= 1 ==> out == ""
    {
      assert words[i..][1..] == words[i + 1..];
      Regroup(out, QuotedOnce(words[i]), " ", FirstText(words[i + 1..]));
      out := out + QuotedOnce(words[i]) + " ";
      i := i + 1;
    }
    if |words| > 1 {
      assert words[i..] == [] && out + "" == out;
      out := out + "\n";
    }
  }

  method ExportLast(text: string, words: seq<string>) returns (out: string)
    ensures out == text + LastText(words)
  {
    hide Quoted;
    out := text;
    for i := 0 to |words|
      invariant out + LastText(words[i..]) == text + LastText(words)
    {
      assert words[i..][1..] == words[i + 1..];
      Regroup(out, Quoted(words[i]), " ", LastText(words[i + 1..]));
      out := out + Quoted(words[i]) + " ";
    }
    assert words[|words|..] == [] && out + "" == out;
  }

  /** One list, with its pieces in quotes where they need them. */
  method ExportList(text: string, pieces: seq<string>, delim: char) returns (out: string)
    ensures out == text + ListText(pieces, delim)
  {
    hide Quoted;
    out := text;
    for k := 0 to |pieces|
      invariant out + ListText(pieces[k..], delim) == text + ListText(pieces, delim)
    {
      assert pieces[k..][1..] == pieces[k + 1..];
      Regroup(out, Quoted(pieces[k]), if k + 1 != |pieces| then DelimText(delim) else "", ListText(pieces[k + 1..], delim));
      out := out + Quoted(pieces[k]);
      if delim != '\0' && k + 1 != |pieces| {
        out := out + [delim];
      }
    }
    assert pieces[|pieces|..] == [] && out + "" == out;
  }

  method ExportLists(text: string, flag: string, lists: seq<seq<string>>, delim: char) returns (out: string)
    ensures out == text + ListsText(flag, lists, delim)
  {
    out := text;
    for j := 0 to |lists|
      invariant out + ListsText(flag, lists[j..], delim) == text + ListsText(flag, lists, delim)
    {
      hide ListText;
      assert lists[j..][1..] == lists[j + 1..];
      Regroup(out, flag + " ", ListText(lists[j], delim) + "\n", ListsText(flag, lists[j + 1..], delim));
      out := out + flag + " ";
      out := ExportList(out, lists[j], delim);
      out := out + "\n";
    }
    assert lists[|lists|..] == [] && out + "" == out;
  }
}
