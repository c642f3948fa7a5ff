/** Exported lines in which the comment character occurs in quotes only. */
module SafeLines {
  import opened CommandLines
  import opened DelimitedLists
  import opened OptionRoles
  import opened OptionExports
  import opened OptionImports
  import opened QuotedComments

  /** Text with double quotes only, which are all closed and have all comment characters between them. */
  predicate Safe(s: string, comment: char) {
    && '\'' !in s && Balanced(s)
    && (forall i :: 0 < i < |s| && s[i] == '"' ==> s[i - 1] != '\\')
    && (forall i :: 0 <= i < |s| && s[i] == comment ==> IsQuoted(s, i))
  }

  /** Nothing that the quotes of the next piece of text might depend on. */
  predicate Joins(a: string, b: string) {
    a != "" && b != "" && b[0] == '"' ==> a[|a| - 1] != '\\'
  }

  lemma {:induction false} QuotedShift(a: string, b: string, i: nat)
    requires Balanced(a) && i <= |b|
    ensures IsQuoted(a + b, |a| + i) <==> IsQuoted(b, i)
  {
    assert (a + b)[..|a| + i] == a + b[..i];
    FeedConcat(START, a, b[..i]);
    SameQuotes(FeedAll(START, a), START, b[..i]);
  }

  lemma {:induction false} QuotedPrefix(a: string, b: string, i: nat)
    requires i <= |a|
    ensures IsQuoted(a + b, i) <==> IsQuoted(a, i)
  {
    assert (a + b)[..i] == a[..i];
  }

  lemma {:induction false} SafeConcat(a: string, b: string, comment: char)
    requires Safe(a, comment) && Safe(b, comment) && Joins(a, b)
    ensures Safe(a + b, comment)
  {
    hide IsQuoted;
    FeedConcat(START, a, b);
    SameQuotes(FeedAll(START, a), START, b);
    forall i | 0 <= i < |a + b| && (a + b)[i] == comment
      ensures IsQuoted(a + b, i)
    {
      if i < |a| {
        QuotedPrefix(a, b, i);
      } else {
        QuotedShift(a, b, i - |a|);
      }
    }
  }

  lemma {:induction false} NoQuotes(s: string, i: nat)
    requires i <= |s| && '"' !in s && '\'' !in s
    ensures !IsQuoted(s, i)
  {
    if i > 0 {
      hide IsQuoted;
      NoQuotes(s, i - 1);
      QuotedNext(s, i - 1);
    } else {
      assert s[..0] == "";
      FeedEmpty(START);
    }
  }

  lemma {:induction false} SafeText(s: string, comment: char)
    requires '"' !in s && '\'' !in s && comment !in s
    ensures Safe(s, comment)
  {
    NoQuotes(s, |s|);
    assert s[..|s|] == s;
  }

  lemma {:induction false} BetweenQuotes(s: string, i: nat)
    requires i <= |s| + 2 && '"' !in s && '\'' !in s
    ensures IsQuoted(InQuotes(s), i) <==> 0 < i <= |s| + 1
  {
    var line := InQuotes(s);
    assert line[0] == '"' && line[|s| + 1] == '"' && forall k :: 1 <= k <= |s| ==> line[k] == s[k - 1];
    if i > 0 {
      hide IsQuoted;
      BetweenQuotes(s, i - 1);
      QuotedNext(line, i - 1);
    } else {
      assert line[..0] == "";
      FeedEmpty(START);
    }
  }

  lemma {:induction false} SafeInQuotes(s: string, comment: char)
    requires '"' !in s && '\'' !in s && (s != "" ==> s[|s| - 1] != '\\') && comment != '"'
    ensures Safe(InQuotes(s), comment)
  {
    hide IsQuoted;
    var line := InQuotes(s);
    assert line[0] == '"' && line[|s| + 1] == '"' && forall k :: 1 <= k <= |s| ==> line[k] == s[k - 1];
    BetweenQuotes(s, |s| + 2);
    BalancedIs(line);
    forall i | 0 <= i < |line| && line[i] == comment
      ensures IsQuoted(line, i)
    {
      BetweenQuotes(s, i);
    }
  }

  lemma {:induction false} BalancedIs(s: string)
    ensures Balanced(s) <==> !IsQuoted(s, |s|)
  {
    assert s[..|s|] == s;
  }

  // ---------- Safe lines are kept ----------

  lemma {:induction false} IndentIsSafe(line: string, comment: char)
    requires Safe(line, comment) && line != "" && IsIndent(line[0])
    ensures Safe(line[1..], comment)
  {
    hide IsQuoted;
    var a, b := [line[0]], line[1..];
    assert line == a + b;
    NoQuotes(a, 1);
    BalancedIs(a);
    FeedConcat(START, a, b);
    SameQuotes(FeedAll(START, a), START, b);
    forall i | 0 <= i < |b| && b[i] == comment
      ensures IsQuoted(b, i)
    {
      assert line[i + 1] == comment;
      QuotedShift(a, b, i);
    }
  }

  lemma {:induction false} SafeUnindented(line: string, comment: char)
    requires Safe(line, comment)
    ensures Safe(WithoutIndent(line), comment)
  {
    if line != "" && IsIndent(line[0]) {
      IndentIsSafe(line, comment);
      SafeUnindented(line[1..], comment);
    }
  }

  lemma {:induction false} KeptUnindented(line: string, comment: char)
    requires Safe(line, comment) && line != "" && !IsIndent(line[0])
    ensures ImportLine(line, comment) == line
  {
    hide IsQuoted, ImportLine;
    NoQuotes("", 0);
    QuotedPrefix("", line, 0);
    assert "" + line == line;
    LineIsCut(line, comment, |line|);
    assert line[..|line|] == line;
  }

  /** No comment is found in a safe line. */
  lemma {:induction false} SafeIsKept(line: string, comment: char)
    requires Safe(line, comment)
    ensures IsKept(line, comment)
  {
    SafeUnindented(line, comment);
    var text := WithoutIndent(line);
    hide Safe;
    if text != "" {
      KeptUnindented(text, comment);
      Unindented(line);
    }
  }

  lemma {:induction false} Unindented(line: string)
    ensures WithoutIndent(WithoutIndent(line)) == WithoutIndent(line)
  {
  }

  // ---------- What is exported is safe ----------

  /** A string that is printed in quotes may have the comment character; any other may not. */
  predicate SafeString(s: string, comment: char) {
    if HasBlank(s) then s[|s| - 1] != '\\' else comment !in s
  }

  predicate SafeWords(words: seq<string>, comment: char) {
    forall i :: 0 <= i < |words| ==> SafeString(words[i], comment)
  }

  lemma {:induction false} SafeQuoted(s: string, comment: char)
    requires Printable(s) && SafeString(s, comment) && comment != '"'
    ensures Safe(Quoted(s), comment)
  {
    assert forall i :: 0 <= i < |s| ==> IsText(s[i], HasBlank(s));
    if HasBlank(s) {
      SafeInQuotes(s, comment);
    } else {
      SafeText(s, comment);
    }
  }

  lemma {:induction false} SafeLast(words: seq<string>, comment: char)
    requires PrintableWords(words) && SafeWords(words, comment) && comment !in " \""
    ensures Safe(LastText(words), comment)
    decreases words
  {
    if words == [] {
      SafeText("", comment);
    } else {
      hide Safe, Quoted, SafeString, PrintableWord;
      WordIsPrintable(words[0]);
      SafeQuoted(words[0], comment);
      SafeText(" ", comment);
      SafeLast(words[1..], comment);
      SafeConcat(Quoted(words[0]), " ", comment);
      SafeConcat(Quoted(words[0]) + " ", LastText(words[1..]), comment);
    }
  }

  lemma {:induction false} WordIsPrintable(s: string)
    requires PrintableWord(s)
    ensures Printable(s)
  {
  }

  lemma {:induction false} SafeList(pieces: seq<string>, delim: char, comment: char)
    requires PrintableList(pieces, delim) && SafeWords(pieces, comment) && comment !in " \""
    requires |pieces| > 1 ==> delim != comment && delim != '\\'
    ensures Safe(ListText(pieces, delim), comment)
    decreases pieces
  {
    hide Safe, Quoted, SafeString, PrintableList;
    ListPieces(pieces, delim);
    SafeQuoted(pieces[0], comment);
    if |pieces| > 1 {
      ListCons(pieces, delim);
      SafeText([delim], comment);
      SafeList(pieces[1..], delim, comment);
      SafeConcat(Quoted(pieces[0]), [delim], comment);
      SafeConcat(Quoted(pieces[0]) + [delim], ListText(pieces[1..], delim), comment);
    }
  }

  /** A flag and what is printed behind it. */
  lemma {:induction false} SafeLine(flag: string, text: string, comment: char)
    requires PrintableFlag(flag) && comment !in flag && Safe(text, comment) && comment !in " \""
    ensures Safe(flag + " " + text, comment)
  {
    assert forall i :: 0 <= i < |flag| ==> IsText(flag[i], false);
    assert '"' !in flag + " " && '\'' !in flag + " " && comment !in flag + " ";
    hide Safe;
    SafeText(flag + " ", comment);
    SafeConcat(flag + " ", text, comment);
  }
}
