/** The text that options are exported as, and the arguments it stands for. */
module OptionExports {
  import opened CommandLines
  import opened DelimitedLists
  import opened OptionRoles

  predicate HasBlank(s: string) {
    ' ' in s || '\t' in s
  }

  predicate HasQuote(s: string) {
    '"' in s || '\'' in s
  }

  function InQuotes(s: string): string {
    "\"" + s + "\""
  }

  function Quoted(s: string): string {
    if HasBlank(s) then InQuotes(s) else s
  }

  /** First arguments and defaults that hold quotes are trusted to be quoted already. */
  function QuotedOnce(s: string): string {
    if HasBlank(s) && !HasQuote(s) then InQuotes(s) else s
  }

  function DelimText(delim: char): string {
    if delim == '\0' then "" else [delim]
  }

  function ListText(pieces: seq<string>, delim: char): string {
    if pieces == [] then ""
    else if |pieces| == 1 then Quoted(pieces[0])
    else Quoted(pieces[0]) + DelimText(delim) + ListText(pieces[1..], delim)
  }

  function ListsText(flag: string, lists: seq<seq<string>>, delim: char): string {
    if lists == [] then ""
    else flag + " " + ListText(lists[0], delim) + "\n" + ListsText(flag, lists[1..], delim)
  }

  function FirstText(words: seq<string>): string {
    if words == [] then "" else QuotedOnce(words[0]) + " " + FirstText(words[1..])
  }

  function LastText(words: seq<string>): string {
    if words == [] then "" else Quoted(words[0]) + " " + LastText(words[1..])
  }

  function GroupText(flag: string, delim: char, defaults: string, group: Group, all: bool): string {
    if !group.isSet && !all then ""
    else if !group.isSet || group.args == [] then
      if defaults == "" then "" else flag + " " + QuotedOnce(defaults) + "\n"
    else ListsText(flag, group.args, delim)
  }

  /** The groups in the order of their first flags, which are sorted. */
  function GroupsText(o: Options, defaults: seq<string>, groups: seq<Group>, sorted: seq<string>, all: bool): string
    requires o.Valid() && |groups| == |defaults| == |o.specs| && forall f :: f in sorted ==> f in o.ids
  {
    if sorted == [] then ""
    else
      var g := o.ids[sorted[0]];
      GroupText(sorted[0], o.specs[g].delim, defaults[g], groups[g], all) + GroupsText(o, defaults, groups, sorted[1..], all)
  }

  function FirstLine(first: seq<string>): string {
    if |first| > 1 then FirstText(first[1..]) + "\n" else ""
  }

  /** The program name, which is the first of the first arguments, is left out. */
  function ExportText(o: Options, defaults: seq<string>, groups: seq<Group>, sorted: seq<string>, all: bool,
                      first: seq<string>, last: seq<string>): string
    requires o.Valid() && |groups| == |defaults| == |o.specs| && forall f :: f in sorted ==> f in o.ids
  {
    FirstLine(first) + GroupsText(o, defaults, groups, sorted, all) + LastText(last)
  }

  // ---------- What can be exported ----------

  /** Text without quotes, and without line ends that are not between blanks to be quoted. */
  predicate Printable(s: string) {
    AllText(s, HasBlank(s))
  }

  predicate PrintableWord(s: string) {
    s != "" && Printable(s)
  }

  predicate PrintableFlag(s: string) {
    s != "" && AllText(s, false)
  }

  /** A list that survives splitting, and whose delimiter is not mistaken. */
  predicate PrintableList(pieces: seq<string>, delim: char) {
    && pieces != [] && FreeOf(pieces, delim) && !EndsEmpty(pieces)
    && (forall i :: 0 <= i < |pieces| ==> Printable(pieces[i]))
    && (|pieces| == 1 || (delim != '\0' && IsText(delim, false)))
  }

  // ---------- Reading it again ----------

  /** A lexer between arguments. */
  function Idle(argv: seq<string>): (l: Lexer)
    ensures l.Valid()
  {
    Lexer(argv, false, false)
  }

  lemma {:induction false} FeedPrinted(l: Lexer, s: string)
    requires l.Valid() && !l.inQuotes && Printable(s)
    ensures FeedAll(l, Quoted(s)) == if s == "" then l else l.Append(s)
  {
    hide FeedAll;
    if HasBlank(s) {
      FeedQuoted(l, s);
    } else if s != "" {
      FeedText(l, s);
    } else {
      FeedEmpty(l);
    }
  }

  lemma {:induction false} PrintedHasNoQuote(s: string)
    requires Printable(s)
    ensures QuotedOnce(s) == Quoted(s)
  {
    assert forall i :: 0 <= i < |s| ==> IsText(s[i], HasBlank(s));
  }

  /** A word and the blank behind it. */
  lemma {:induction false} FeedWord(argv: seq<string>, w: string, text: string, blank: char)
    requires FeedAll(Idle(argv), text) == Idle(argv).Append(w) && IsBlank(blank)
    ensures FeedAll(Idle(argv), text + [blank]) == Idle(argv + [w])
  {
    FeedConcat(Idle(argv), text, [blank]);
    FeedOne(Idle(argv).Append(w), blank);
    AppendIdle(argv, w);
  }

  lemma {:induction false} AppendIdle(argv: seq<string>, w: string)
    ensures Idle(argv).Append(w) == Lexer(argv + [w], true, false)
  {
    var begun := argv + [""];
    assert begun[|argv|] + w == w;
    assert begun[|argv| := begun[|argv|] + w] == argv + [w];
  }

  lemma {:induction false} FeedNext(l: Lexer, a: string, b: string, mid: Lexer, end: Lexer)
    requires l.Valid() && mid.Valid() && FeedAll(l, a) == mid && FeedAll(mid, b) == end
    ensures FeedAll(l, a + b) == end
  {
    FeedConcat(l, a, b);
  }

  lemma {:induction false} FeedLast(argv: seq<string>, words: seq<string>)
    requires forall i :: 0 <= i < |words| ==> PrintableWord(words[i])
    ensures FeedAll(Idle(argv), LastText(words)) == Idle(argv + words)
    decreases words
  {
    hide FeedAll, Quoted;
    if words == [] {
      FeedEmpty(Idle(argv));
      assert argv + words == argv;
    } else {
      var w, rest := words[0], words[1..];
      FeedPrinted(Idle(argv), w);
      FeedWord(argv, w, Quoted(w), ' ');
      FeedLast(argv + [w], rest);
      FeedNext(Idle(argv), Quoted(w) + " ", LastText(rest), Idle(argv + [w]), Idle(argv + [w] + rest));
      assert argv + [w] + rest == argv + words;
    }
  }

  lemma {:induction false} FirstAsLast(words: seq<string>)
    requires forall i :: 0 <= i < |words| ==> PrintableWord(words[i])
    ensures FirstText(words) == LastText(words)
    decreases words
  {
    if words != [] {
      PrintedHasNoQuote(words[0]);
      FirstAsLast(words[1..]);
    }
  }

  lemma {:induction false} ListCons(pieces: seq<string>, delim: char)
    requires |pieces| > 1 && PrintableList(pieces, delim)
    ensures PrintableList(pieces[1..], delim) && Join(pieces[1..], delim) != "" && Printable([delim])
  {
    JoinNotEmpty(pieces[1..], delim);
  }

  lemma {:induction false} JoinNotEmpty(pieces: seq<string>, delim: char)
    requires pieces != [] && !EndsEmpty(pieces)
    ensures Join(pieces, delim) != ""
  {
  }

  /** The quotes around single pieces vanish. */
  lemma {:induction false} FeedList(l: Lexer, pieces: seq<string>, delim: char)
    requires l.Valid() && !l.inQuotes && PrintableList(pieces, delim)
    ensures FeedAll(l, ListText(pieces, delim)) == l.Append(Join(pieces, delim))
    decreases pieces
  {
    hide FeedAll, Quoted, PrintableList, Join;
    ListPieces(pieces, delim);
    var p, rest := pieces[0], pieces[1..];
    FeedPrinted(l, p);
    if |pieces| > 1 {
      ListCons(pieces, delim);
      var l1 := if p == "" then l else l.Append(p);
      FeedText(l1, [delim]);
      var l2 := l1.Append([delim]);
      FeedList(l2, rest, delim);
      FeedNext(l1, [delim], ListText(rest, delim), l2, l2.Append(Join(rest, delim)));
      FeedNext(l, Quoted(p), [delim] + ListText(rest, delim), l1, l2.Append(Join(rest, delim)));
      assert Quoted(p) + ([delim] + ListText(rest, delim)) == ListText(pieces, delim);
      AppendPieces(l, p, [delim], Join(rest, delim));
    }
  }

  lemma {:induction false} ListPieces(pieces: seq<string>, delim: char)
    requires PrintableList(pieces, delim)
    ensures pieces != [] && Printable(pieces[0])
    ensures |pieces| == 1 ==> pieces[0] != "" && Join(pieces, delim) == pieces[0]
    ensures |pieces| > 1 ==> Join(pieces, delim) == pieces[0] + [delim] + Join(pieces[1..], delim)
    ensures |pieces| > 1 ==> delim != '\0' && IsText(delim, false)
  {
  }

  lemma {:induction false} AppendPieces(l: Lexer, p: string, d: string, rest: string)
    requires l.Valid()
    ensures (if p == "" then l else l.Append(p)).Append(d).Append(rest) == l.Append(p + d + rest)
  {
    AppendTwice(l, p + d, rest);
    if p == "" {
      assert p + d == d;
    } else {
      AppendTwice(l, p, d);
    }
  }

  // ---------- The arguments of an export ----------

  /** A flag and its argument. */
  datatype Pair = Pair(flag: string, arg: string)

  function Flat(pairs: seq<Pair>): seq<string> {
    if pairs == [] then [] else [pairs[0].flag, pairs[0].arg] + Flat(pairs[1..])
  }

  function ListPairs(flag: string, lists: seq<seq<string>>, delim: char): seq<Pair> {
    if lists == [] then [] else [Pair(flag, Join(lists[0], delim))] + ListPairs(flag, lists[1..], delim)
  }

  /** A group that is set but has no arguments is exported with its default, if it has one. */
  function GroupPairs(flag: string, delim: char, defaults: string, group: Group): seq<Pair> {
    if !group.isSet then []
    else if group.args == [] then (if defaults == "" then [] else [Pair(flag, defaults)])
    else ListPairs(flag, group.args, delim)
  }

  function GroupsPairs(o: Options, defaults: seq<string>, groups: seq<Group>, sorted: seq<string>): seq<Pair>
    requires o.Valid() && |groups| == |defaults| == |o.specs| && forall f :: f in sorted ==> f in o.ids
  {
    if sorted == [] then []
    else
      var g := o.ids[sorted[0]];
      GroupPairs(sorted[0], o.specs[g].delim, defaults[g], groups[g]) + GroupsPairs(o, defaults, groups, sorted[1..])
  }

  function Rest(first: seq<string>): seq<string> {
    if |first| > 1 then first[1..] else []
  }

  /** What is exported of every set group can be printed. */
  predicate Exportable(o: Options, defaults: seq<string>, groups: seq<Group>, sorted: seq<string>)
    requires o.Valid() && |groups| == |defaults| == |o.specs| && forall f :: f in sorted ==> f in o.ids
  {
    forall i :: 0 <= i < |sorted| ==>
      var g := o.ids[sorted[i]];
      ExportableGroup(sorted[i], o.specs[g].delim, defaults[g], groups[g])
  }

  predicate ExportableGroup(flag: string, delim: char, defaults: string, group: Group) {
    group.isSet ==>
      && PrintableFlag(flag)
      && (group.args == [] ==> defaults == "" || PrintableWord(defaults))
      && forall j :: 0 <= j < |group.args| ==> PrintableList(group.args[j], delim)
  }

  predicate PrintableWords(words: seq<string>) {
    forall i :: 0 <= i < |words| ==> PrintableWord(words[i])
  }

  lemma {:induction false} FeedBlank(argv: seq<string>, blank: char)
    requires IsBlank(blank)
    ensures FeedAll(Idle(argv), [blank]) == Idle(argv)
  {
    FeedOne(Idle(argv), blank);
  }

  lemma {:induction false} FeedPair(argv: seq<string>, flag: string, pieces: seq<string>, delim: char)
    requires PrintableFlag(flag) && PrintableList(pieces, delim)
    ensures FeedAll(Idle(argv), flag + " " + ListText(pieces, delim) + "\n")
         == Idle(argv + [flag, Join(pieces, delim)])
  {
    hide FeedAll, ListText, Join;
    FeedText(Idle(argv), flag);
    FeedWord(argv, flag, flag, ' ');
    var argv1, text, arg := argv + [flag], ListText(pieces, delim), Join(pieces, delim);
    FeedList(Idle(argv1), pieces, delim);
    FeedWord(argv1, arg, text, '\n');
    FeedNext(Idle(argv), flag + " ", text + "\n", Idle(argv1), Idle(argv1 + [arg]));
    assert flag + " " + (text + "\n") == flag + " " + text + "\n";
    assert argv1 + [arg] == argv + [flag, arg];
  }

  lemma {:induction false} FeedLists(argv: seq<string>, flag: string, lists: seq<seq<string>>, delim: char)
    requires PrintableFlag(flag) && forall j :: 0 <= j < |lists| ==> PrintableList(lists[j], delim)
    ensures FeedAll(Idle(argv), ListsText(flag, lists, delim)) == Idle(argv + Flat(ListPairs(flag, lists, delim)))
    decreases lists
  {
    hide FeedAll, ListText, Join, PrintableList, PrintableFlag;
    if lists == [] {
      FeedEmpty(Idle(argv));
      assert argv + [] == argv;
    } else {
      var line, rest := flag + " " + ListText(lists[0], delim) + "\n", lists[1..];
      var pair := [flag, Join(lists[0], delim)];
      FeedPair(argv, flag, lists[0], delim);
      FeedLists(argv + pair, flag, rest, delim);
      FlatCons(Pair(flag, Join(lists[0], delim)), ListPairs(flag, rest, delim));
      var end := argv + pair + Flat(ListPairs(flag, rest, delim));
      FeedNext(Idle(argv), line, ListsText(flag, rest, delim), Idle(argv + pair), Idle(end));
      assert end == argv + (pair + Flat(ListPairs(flag, rest, delim)));
    }
  }

  lemma {:induction false} FlatCons(pair: Pair, rest: seq<Pair>)
    ensures Flat([pair] + rest) == [pair.flag, pair.arg] + Flat(rest)
  {
    assert ([pair] + rest)[1..] == rest;
  }

  lemma {:induction false} FlatConcat(a: seq<Pair>, b: seq<Pair>)
    ensures Flat(a + b) == Flat(a) + Flat(b)
    decreases a
  {
    if a == [] {
      assert a + b == b;
    } else {
      assert (a + b)[1..] == a[1..] + b && (a + b)[0] == a[0];
      FlatConcat(a[1..], b);
    }
  }

  lemma {:induction false} FeedDefault(argv: seq<string>, flag: string, word: string)
    requires PrintableFlag(flag) && PrintableWord(word)
    ensures FeedAll(Idle(argv), flag + " " + QuotedOnce(word) + "\n") == Idle(argv + [flag, word])
  {
    PrintedHasNoQuote(word);
    hide FeedAll, Quoted, QuotedOnce;
    FeedText(Idle(argv), flag);
    FeedWord(argv, flag, flag, ' ');
    var argv1, text := argv + [flag], Quoted(word);
    FeedPrinted(Idle(argv1), word);
    FeedWord(argv1, word, text, '\n');
    FeedNext(Idle(argv), flag + " ", text + "\n", Idle(argv1), Idle(argv1 + [word]));
    assert flag + " " + (text + "\n") == flag + " " + text + "\n";
    assert argv1 + [word] == argv + [flag, word];
  }

  lemma {:induction false} OneFlat(pair: Pair)
    ensures Flat([pair]) == [pair.flag, pair.arg]
  {
    assert [pair][1..] == [];
  }

  lemma {:induction false} FeedGroup(argv: seq<string>, flag: string, delim: char, defaults: string, group: Group)
    requires ExportableGroup(flag, delim, defaults, group)
    ensures FeedAll(Idle(argv), GroupText(flag, delim, defaults, group, false))
         == Idle(argv + Flat(GroupPairs(flag, delim, defaults, group)))
  {
    hide FeedAll, PrintableList, PrintableFlag, PrintableWord, QuotedOnce, ListPairs, ListsText;
    if group.isSet && group.args != [] {
      FeedLists(argv, flag, group.args, delim);
    } else if group.isSet && defaults != "" {
      FeedDefault(argv, flag, defaults);
      OneFlat(Pair(flag, defaults));
    } else {
      FeedEmpty(Idle(argv));
      assert argv + [] == argv;
    }
  }

  lemma {:induction false} Associative(a: seq<string>, b: seq<string>, c: seq<string>)
    ensures (a + b) + c == a + (b + c)
  {
  }

  lemma {:induction false} FeedGroups(argv: seq<string>, o: Options, defaults: seq<string>, groups: seq<Group>,
                                      sorted: seq<string>)
    requires o.Valid() && |groups| == |defaults| == |o.specs| && forall f :: f in sorted ==> f in o.ids
    requires Exportable(o, defaults, groups, sorted)
    ensures FeedAll(Idle(argv), GroupsText(o, defaults, groups, sorted, false))
         == Idle(argv + Flat(GroupsPairs(o, defaults, groups, sorted)))
    decreases sorted
  {
    hide FeedAll, GroupText, GroupPairs, ExportableGroup;
    if sorted == [] {
      FeedEmpty(Idle(argv));
      assert argv + [] == argv;
    } else {
      hide Flat;
      var flag, rest := sorted[0], sorted[1..];
      var g := o.ids[flag];
      var pairs, more := GroupPairs(flag, o.specs[g].delim, defaults[g], groups[g]), GroupsPairs(o, defaults, groups, rest);
      var argv1 := argv + Flat(pairs);
      FeedGroup(argv, flag, o.specs[g].delim, defaults[g], groups[g]);
      FeedGroups(argv1, o, defaults, groups, rest);
      FeedNext(Idle(argv), GroupText(flag, o.specs[g].delim, defaults[g], groups[g], false),
               GroupsText(o, defaults, groups, rest, false), Idle(argv1), Idle(argv1 + Flat(more)));
      FlatConcat(pairs, more);
      Associative(argv, Flat(pairs), Flat(more));
    }
  }

  /** The exported text stands for the first arguments, a flag and an argument for every list, and the last ones. */
  lemma {:induction false} ArgumentsOfExport(o: Options, defaults: seq<string>, groups: seq<Group>, sorted: seq<string>,
                                             first: seq<string>, last: seq<string>)
    requires o.Valid() && |groups| == |defaults| == |o.specs| && forall f :: f in sorted ==> f in o.ids
    requires Exportable(o, defaults, groups, sorted) && PrintableWords(Rest(first)) && PrintableWords(last)
    ensures Arguments(ExportText(o, defaults, groups, sorted, false, first, last))
         == Rest(first) + Flat(GroupsPairs(o, defaults, groups, sorted)) + last
  {
    hide FeedAll, GroupsText, GroupsPairs, LastText, FirstText;
    var a, text, pairs := Rest(first), GroupsText(o, defaults, groups, sorted, false), Flat(GroupsPairs(o, defaults, groups, sorted));
    FeedFirstLine(first);
    FeedGroups(a, o, defaults, groups, sorted);
    FeedLast(a + pairs, last);
    FeedNext(START, FirstLine(first), text, Idle(a), Idle(a + pairs));
    FeedNext(START, FirstLine(first) + text, LastText(last), Idle(a + pairs), Idle(a + pairs + last));
  }

  lemma {:induction false} FeedFirstLine(first: seq<string>)
    requires PrintableWords(Rest(first))
    ensures FeedAll(START, FirstLine(first)) == Idle(Rest(first))
  {
    hide FeedAll, FirstText, LastText;
    var words := Rest(first);
    if |first| > 1 {
      FirstAsLast(words);
      FeedLast([], words);
      FeedBlank(words, '\n');
      assert [] + words == words;
      FeedNext(START, FirstText(words), "\n", Idle(words), Idle(words));
    } else {
      FeedEmpty(START);
    }
  }

  // ---------- The export of all options ----------

  /** What an export of all options makes of the groups: those that are not set count as set, without arguments. */
  function SetAll(groups: seq<Group>): (r: seq<Group>)
    ensures |r| == |groups|
  {
    seq(|groups|, i requires 0 <= i < |groups| => if groups[i].isSet then groups[i] else groups[i].(isSet := true, args := []))
  }

  lemma {:induction false} GroupsOfAll(o: Options, defaults: seq<string>, groups: seq<Group>, sorted: seq<string>)
    requires o.Valid() && |groups| == |defaults| == |o.specs| && forall f :: f in sorted ==> f in o.ids
    ensures GroupsText(o, defaults, groups, sorted, true) == GroupsText(o, defaults, SetAll(groups), sorted, false)
    decreases sorted
  {
    if sorted != [] {
      GroupsOfAll(o, defaults, groups, sorted[1..]);
    }
  }

  /** An export of all options stands for the same as one of the set ones only, when the others have their defaults. */
  lemma {:induction false} ArgumentsOfFullExport(o: Options, defaults: seq<string>, groups: seq<Group>, sorted: seq<string>,
                                                 first: seq<string>, last: seq<string>)
    requires o.Valid() && |groups| == |defaults| == |o.specs| && forall f :: f in sorted ==> f in o.ids
    requires Exportable(o, defaults, SetAll(groups), sorted) && PrintableWords(Rest(first)) && PrintableWords(last)
    ensures Arguments(ExportText(o, defaults, groups, sorted, true, first, last))
         == Rest(first) + Flat(GroupsPairs(o, defaults, SetAll(groups), sorted)) + last
  {
    hide GroupsText, Exportable, Arguments, SetAll, GroupsPairs;
    GroupsOfAll(o, defaults, groups, sorted);
    ArgumentsOfExport(o, defaults, SetAll(groups), sorted, first, last);
  }
}
