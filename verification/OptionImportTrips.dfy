/** Importing an exported file restores what was exported. */
module OptionImportTrips {
  import opened CommandLines
  import opened DelimitedLists
  import opened OptionRoles
  import opened OptionExports
  import opened OptionImports
  import opened OptionRoundTrips
  import opened SafeLines

  // ---------- Exported text has balanced lines ----------

  /** One line of its own. */
  predicate IsLine(s: string) {
    '\n' !in s && Balanced(s)
  }

  lemma {:induction false} LineBefore(line: string, rest: string)
    requires IsLine(line) && BalancedLines(rest)
    ensures BalancedLines(line + "\n" + rest)
  {
    SplitFirst(line, '\n', rest);
    BalancedRest(line, rest, line + "\n" + rest);
  }

  lemma {:induction false} LineAlone(line: string)
    requires IsLine(line)
    ensures BalancedLines(line)
  {
    SplitOne(line, '\n');
  }

  predicate OneLine(words: seq<string>) {
    forall i :: 0 <= i < |words| ==> '\n' !in words[i]
  }

  lemma {:induction false} LastTextIsLine(words: seq<string>)
    requires PrintableWords(words) && OneLine(words)
    ensures IsLine(LastText(words))
  {
    FeedLast([], words);
    LastTextOneLine(words);
  }

  lemma {:induction false} LastTextOneLine(words: seq<string>)
    requires OneLine(words)
    ensures '\n' !in LastText(words)
    decreases words
  {
    if words != [] {
      LastTextOneLine(words[1..]);
    }
  }

  lemma {:induction false} ListTextOneLine(pieces: seq<string>, delim: char)
    requires OneLine(pieces) && (|pieces| > 1 ==> delim != '\n')
    ensures '\n' !in ListText(pieces, delim)
    decreases pieces
  {
    if |pieces| > 1 {
      ListTextOneLine(pieces[1..], delim);
    }
  }

  lemma {:induction false} ListIsLine(flag: string, pieces: seq<string>, delim: char)
    requires PrintableFlag(flag) && PrintableList(pieces, delim) && OneLine(pieces)
    ensures IsLine(flag + " " + ListText(pieces, delim))
  {
    FeedText(START, flag);
    FeedWord([], flag, flag, ' ');
    FeedList(Idle([] + [flag]), pieces, delim);
    FeedNext(START, flag + " ", ListText(pieces, delim), Idle([] + [flag]), Idle([] + [flag]).Append(Join(pieces, delim)));
    ListTextOneLine(pieces, delim);
    assert forall i :: 0 <= i < |flag| ==> IsText(flag[i], false);
  }

  lemma {:induction false} WordIsLine(flag: string, word: string)
    requires PrintableFlag(flag) && PrintableWord(word) && '\n' !in word
    ensures IsLine(flag + " " + QuotedOnce(word))
  {
    FeedText(START, flag);
    FeedWord([], flag, flag, ' ');
    PrintedHasNoQuote(word);
    FeedPrinted(Idle([] + [flag]), word);
    FeedNext(START, flag + " ", Quoted(word), Idle([] + [flag]), Idle([] + [flag]).Append(word));
    assert forall i :: 0 <= i < |flag| ==> IsText(flag[i], false);
  }

  lemma {:induction false} ListsBefore(flag: string, lists: seq<seq<string>>, delim: char, rest: string)
    requires PrintableFlag(flag) && BalancedLines(rest)
    requires forall j :: 0 <= j < |lists| ==> PrintableList(lists[j], delim) && OneLine(lists[j])
    ensures BalancedLines(ListsText(flag, lists, delim) + rest)
    decreases lists
  {
    if lists == [] {
      assert "" + rest == rest;
    } else {
      hide BalancedLines, PrintableFlag, PrintableList, OneLine, IsLine;
      var line, more := flag + " " + ListText(lists[0], delim), ListsText(flag, lists[1..], delim);
      ListIsLine(flag, lists[0], delim);
      ListsBefore(flag, lists[1..], delim, rest);
      LineBefore(line, more + rest);
      assert ListsText(flag, lists, delim) + rest == line + "\n" + (more + rest);
    }
  }

  /** No exported string has a line end. */
  predicate OneLineGroups(defaults: seq<string>, groups: seq<Group>)
    requires |groups| == |defaults|
  {
    && (forall g, j :: 0 <= g < |groups| && 0 <= j < |groups[g].args| ==> OneLine(groups[g].args[j]))
    && (forall g :: 0 <= g < |groups| && groups[g].isSet && groups[g].args == [] ==> '\n' !in defaults[g])
  }

  lemma {:induction false} GroupsBefore(o: Options, defaults: seq<string>, groups: seq<Group>,
                                        sorted: seq<string>, rest: string)
    requires o.Valid() && |groups| == |defaults| == |o.specs| && forall f :: f in sorted ==> f in o.ids
    requires Exportable(o, defaults, groups, sorted) && OneLineGroups(defaults, groups) && BalancedLines(rest)
    ensures BalancedLines(GroupsText(o, defaults, groups, sorted, false) + rest)
    decreases sorted
  {
    if sorted == [] {
      assert "" + rest == rest;
    } else {
      hide BalancedLines;
      var g, more := o.ids[sorted[0]], GroupsText(o, defaults, groups, sorted[1..], false);
      var text := GroupText(sorted[0], o.specs[g].delim, defaults[g], groups[g], false);
      GroupsBefore(o, defaults, groups, sorted[1..], rest);
      GroupBefore(sorted[0], o.specs[g].delim, defaults[g], groups[g], more + rest);
      assert text + more + rest == text + (more + rest);
    }
  }

  lemma {:induction false} GroupBefore(flag: string, delim: char, defaults: string, group: Group, rest: string)
    requires ExportableGroup(flag, delim, defaults, group) && BalancedLines(rest)
    requires forall j :: 0 <= j < |group.args| ==> OneLine(group.args[j])
    requires group.isSet && group.args == [] ==> '\n' !in defaults
    ensures BalancedLines(GroupText(flag, delim, defaults, group, false) + rest)
  {
    hide BalancedLines, PrintableFlag, PrintableList, PrintableWord, QuotedOnce, OneLine, IsLine, ListsText;
    if group.isSet && group.args != [] {
      ListsBefore(flag, group.args, delim, rest);
    } else if group.isSet && defaults != "" {
      WordIsLine(flag, defaults);
      LineBefore(flag + " " + QuotedOnce(defaults), rest);
      assert flag + " " + QuotedOnce(defaults) + "\n" + rest == (flag + " " + QuotedOnce(defaults) + "\n") + rest;
    } else {
      assert "" + rest == rest;
    }
  }

  lemma {:induction false} ExportBalanced(o: Options, defaults: seq<string>, groups: seq<Group>, sorted: seq<string>,
                                          first: seq<string>, last: seq<string>)
    requires o.Valid() && |groups| == |defaults| == |o.specs| && CanExport(o, defaults, groups, sorted, first, last)
    requires OneLineGroups(defaults, groups) && OneLine(Rest(first)) && OneLine(last)
    ensures BalancedLines(ExportText(o, defaults, groups, sorted, false, first, last))
  {
    hide BalancedLines, IsLine, LastText, FirstText, GroupsText;
    var text, end := GroupsText(o, defaults, groups, sorted, false), LastText(last);
    LastTextIsLine(last);
    LineAlone(end);
    GroupsBefore(o, defaults, groups, sorted, end);
    if |first| > 1 {
      FirstAsLast(first[1..]);
      LastTextIsLine(first[1..]);
      LineBefore(FirstText(first[1..]), text + end);
      assert FirstLine(first) + text + end == FirstText(first[1..]) + "\n" + (text + end);
    } else {
      assert FirstLine(first) + text + end == text + end;
    }
  }

  // ---------- Comment characters in quotes ----------

  lemma {:induction false} SafeBefore(line: string, rest: string, comment: char)
    requires '\n' !in line && Safe(line, comment) && KeptLines(rest, comment)
    ensures KeptLines(line + "\n" + rest, comment)
  {
    hide Safe, IsKept;
    SafeIsKept(line, comment);
    SplitFirst(line, '\n', rest);
    KeptRest(line, rest, line + "\n" + rest, comment);
  }

  lemma {:induction false} SafeAlone(line: string, comment: char)
    requires '\n' !in line && Safe(line, comment)
    ensures KeptLines(line, comment)
  {
    hide Safe, IsKept;
    SafeIsKept(line, comment);
    SplitOne(line, '\n');
  }

  /** The comment character is in no string of the group but those that are printed in quotes. */
  predicate SafeGroup(flag: string, delim: char, defaults: string, group: Group, comment: char) {
    group.isSet ==>
      && comment !in flag && (group.args == [] ==> SafeString(defaults, comment))
      && forall j :: 0 <= j < |group.args| ==>
           SafeWords(group.args[j], comment) && (|group.args[j]| > 1 ==> delim != comment && delim != '\\')
  }

  predicate SafeGroups(o: Options, defaults: seq<string>, groups: seq<Group>, sorted: seq<string>, comment: char)
    requires o.Valid() && |groups| == |defaults| == |o.specs| && forall f :: f in sorted ==> f in o.ids
  {
    forall i :: 0 <= i < |sorted| ==>
      var g := o.ids[sorted[i]];
      SafeGroup(sorted[i], o.specs[g].delim, defaults[g], groups[g], comment)
  }

  lemma {:induction false} SafeListsBefore(flag: string, lists: seq<seq<string>>, delim: char, rest: string, comment: char)
    requires PrintableFlag(flag) && comment !in flag && comment !in " \"" && KeptLines(rest, comment)
    requires forall j :: 0 <= j < |lists| ==> PrintableList(lists[j], delim) && OneLine(lists[j])
    requires forall j :: 0 <= j < |lists| ==>
               SafeWords(lists[j], comment) && (|lists[j]| > 1 ==> delim != comment && delim != '\\')
    ensures KeptLines(ListsText(flag, lists, delim) + rest, comment)
    decreases lists
  {
    if lists == [] {
      assert "" + rest == rest;
    } else {
      var text := ListText(lists[0], delim);
      var line, more := flag + " " + text, ListsText(flag, lists[1..], delim);
      ListIsLine(flag, lists[0], delim);
      SafeList(lists[0], delim, comment);
      hide KeptLines, PrintableFlag, PrintableList, SafeWords, Safe, OneLine, ListText;
      SafeLine(flag, text, comment);
      SafeListsBefore(flag, lists[1..], delim, rest, comment);
      SafeBefore(line, more + rest, comment);
      assert ListsText(flag, lists, delim) + rest == line + "\n" + (more + rest);
    }
  }

  lemma {:induction false} SafeGroupBefore(flag: string, delim: char, defaults: string, group: Group, rest: string,
                                           comment: char)
    requires ExportableGroup(flag, delim, defaults, group) && KeptLines(rest, comment) && comment !in " \""
    requires SafeGroup(flag, delim, defaults, group, comment) && forall j :: 0 <= j < |group.args| ==> OneLine(group.args[j])
    requires group.isSet && group.args == [] ==> '\n' !in defaults
    ensures KeptLines(GroupText(flag, delim, defaults, group, false) + rest, comment)
  {
    hide KeptLines, PrintableFlag, PrintableList, OneLine, Safe, ListsText, SafeString, SafeWords;
    if group.isSet && group.args != [] {
      SafeListsBefore(flag, group.args, delim, rest, comment);
    } else if group.isSet && defaults != "" {
      WordIsPrintable(defaults);
      PrintedHasNoQuote(defaults);
      WordIsLine(flag, defaults);
      SafeQuoted(defaults, comment);
      hide Quoted, QuotedOnce, PrintableWord, Printable;
      SafeLine(flag, Quoted(defaults), comment);
      SafeBefore(flag + " " + Quoted(defaults), rest, comment);
    } else {
      assert "" + rest == rest;
    }
  }

  lemma {:induction false} SafeGroupsBefore(o: Options, defaults: seq<string>, groups: seq<Group>, sorted: seq<string>,
                                            rest: string, comment: char)
    requires o.Valid() && |groups| == |defaults| == |o.specs| && forall f :: f in sorted ==> f in o.ids
    requires Exportable(o, defaults, groups, sorted) && OneLineGroups(defaults, groups)
    requires SafeGroups(o, defaults, groups, sorted, comment) && KeptLines(rest, comment) && comment !in " \""
    ensures KeptLines(GroupsText(o, defaults, groups, sorted, false) + rest, comment)
    decreases sorted
  {
    if sorted == [] {
      assert "" + rest == rest;
    } else {
      hide KeptLines, GroupText, ExportableGroup, SafeGroup;
      var g, more := o.ids[sorted[0]], GroupsText(o, defaults, groups, sorted[1..], false);
      var text := GroupText(sorted[0], o.specs[g].delim, defaults[g], groups[g], false);
      SafeGroupsBefore(o, defaults, groups, sorted[1..], rest, comment);
      SafeGroupBefore(sorted[0], o.specs[g].delim, defaults[g], groups[g], more + rest, comment);
      assert text + more + rest == text + (more + rest);
    }
  }

  /** The comment character is printed in quotes only. */
  predicate SafeExport(o: Options, defaults: seq<string>, groups: seq<Group>, sorted: seq<string>,
                       first: seq<string>, last: seq<string>, comment: char)
    requires o.Valid() && |groups| == |defaults| == |o.specs| && forall f :: f in sorted ==> f in o.ids
  {
    && comment !in " \"" && SafeWords(Rest(first), comment) && SafeWords(last, comment)
    && SafeGroups(o, defaults, groups, sorted, comment)
  }

  lemma {:induction false} ExportKept(o: Options, defaults: seq<string>, groups: seq<Group>, sorted: seq<string>,
                                      first: seq<string>, last: seq<string>, comment: char)
    requires o.Valid() && |groups| == |defaults| == |o.specs| && CanExport(o, defaults, groups, sorted, first, last)
    requires OneLineGroups(defaults, groups) && OneLine(Rest(first)) && OneLine(last)
    requires SafeExport(o, defaults, groups, sorted, first, last, comment)
    ensures KeptLines(ExportText(o, defaults, groups, sorted, false, first, last), comment)
  {
    hide KeptLines, LastText, FirstText, GroupsText, Safe, SafeGroups, OneLineGroups;
    var text, end := GroupsText(o, defaults, groups, sorted, false), LastText(last);
    LastTextOneLine(last);
    SafeLast(last, comment);
    SafeAlone(end, comment);
    SafeGroupsBefore(o, defaults, groups, sorted, end, comment);
    if |first| > 1 {
      FirstAsLast(first[1..]);
      LastTextOneLine(first[1..]);
      SafeLast(first[1..], comment);
      SafeBefore(FirstText(first[1..]), text + end, comment);
      assert FirstLine(first) + text + end == FirstText(first[1..]) + "\n" + (text + end);
    } else {
      assert FirstLine(first) + text + end == text + end;
    }
  }

  /** Importing an exported file and parsing it restores what was exported, under the same condition as parsing the
      text directly, if no string has a line end, and the character for comments is in strings only that are printed in
      quotes. */
  lemma {:induction false} ImportRoundTrip(o: Options, defaults: seq<string>, groups: seq<Group>, sorted: seq<string>,
                                           first: seq<string>, last: seq<string>, comment: char)
    requires o.Valid() && |groups| == |defaults| == |o.specs| && CanExport(o, defaults, groups, sorted, first, last)
    requires OneLineGroups(defaults, groups) && OneLine(Rest(first)) && OneLine(last)
    requires comment !in ExportText(o, defaults, groups, sorted, false, first, last)
             || SafeExport(o, defaults, groups, sorted, first, last, comment)
    ensures var text := ExportText(o, defaults, groups, sorted, false, first, last);
            Restored(o, Arguments(ImportCommand(text, comment)), groups, first, last)
            <==> HaveArgs(groups)
                 && ((exists g :: 0 <= g < |groups| && groups[g].isSet) || |Rest(first)| == 1 || Rest(first) + last == [])
  {
    var text := ExportText(o, defaults, groups, sorted, false, first, last);
    hide BalancedLines, KeptLines, Restored, ExportText, ImportCommand, CanExport, FeedAll, SafeExport;
    if comment !in text {
      LinesWithoutComment(text, comment);
    } else {
      ExportKept(o, defaults, groups, sorted, first, last, comment);
    }
    ExportBalanced(o, defaults, groups, sorted, first, last);
    ImportKept([], text, comment);
    assert Idle([]) == START;
    ExportRoundTrip(o, defaults, groups, sorted, first, last);
  }
}
