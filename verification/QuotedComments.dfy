/** Comments in imported lines, and quotes: inside quotes a comment character means nothing. */
module QuotedComments {
  import opened CommandLines
  import opened DelimitedLists
  import opened OptionExports
  import opened OptionImports

  /** Whether a command line that starts like this has quotes open at position i. */
  predicate IsQuoted(line: string, i: nat)
    requires i <= |line|
  {
    FeedAll(START, line[..i]).inQuotes
  }

  /** Quotes of one kind only, none of them behind a backslash. */
  predicate PlainQuotes(line: string) {
    && ('"' !in line || '\'' !in line)
    && forall i :: 0 < i < |line| && IsQuote(line[i]) ==> line[i - 1] != '\\'
  }

  /** A comment starts behind the first character of the line, and neither in quotes nor behind a backslash. */
  predicate IsComment(line: string, comment: char, i: nat) {
    0 < i < |line| && line[i] == comment && line[i - 1] != '\\' && !IsQuoted(line, i)
  }

  // ---------- The search through the quotes ----------

  lemma {:induction false} QuotedNext(line: string, i: nat)
    requires i < |line|
    ensures IsQuoted(line, i + 1) <==> IsQuoted(line, i) != IsQuote(line[i])
    ensures !IsQuoted(line, 0)
  {
    assert line[..i + 1] == line[..i] + [line[i]];
    FeedConcat(START, line[..i], [line[i]]);
    FeedOne(FeedAll(START, line[..i]), line[i]);
  }

  lemma {:induction false} NoneCounted(line: string, c: char, i: nat)
    requires i <= |line| && c !in line
    ensures CountBefore(line, c, i) == 0
  {
    if i > 0 {
      NoneCounted(line, c, i - 1);
    }
  }

  lemma {:induction false} CountIsQuoted(line: string, c: char, i: nat)
    requires i <= |line| && PlainQuotes(line) && IsQuote(c)
    requires forall k :: 0 <= k < |line| && IsQuote(line[k]) ==> line[k] == c
    ensures CountBefore(line, c, i) % 2 == 1 <==> IsQuoted(line, i)
  {
    if i > 0 {
      CountIsQuoted(line, c, i - 1);
      QuotedNext(line, i - 1);
    } else if line != "" {
      QuotedNext(line, 0);
    }
  }

  lemma {:induction false} CountsUp(line: string, c: char, i: nat, n: nat)
    requires i <= n <= |line|
    ensures CountBefore(line, c, i) <= CountBefore(line, c, n)
  {
    if i < n {
      CountsUp(line, c, i, n - 1);
    }
  }

  /** The parity of the quotes counted says what the tokenizer will find. */
  lemma {:induction false} InsideIsQuoted(line: string, i: nat)
    requires i <= |line| && PlainQuotes(line)
    ensures InsideQuotes(line, i) <==> IsQuoted(line, i)
  {
    hide IsQuoted, CountBefore;
    if '\'' in line {
      CountIsQuoted(line, '\'', i);
      CountsUp(line, '\'', i, |line|);
      NoneCounted(line, '"', i);
    } else {
      NoneCounted(line, '\'', |line|);
      CountIsQuoted(line, '"', i);
    }
  }

  lemma {:induction false} CutAtComment(line: string, comment: char, i: nat, k: nat)
    requires 0 < i <= k <= |line| && PlainQuotes(line) && (k < |line| ==> IsComment(line, comment, k))
    requires forall j :: i <= j < k ==> !IsComment(line, comment, j)
    ensures CommentFrom(line, comment, i) == k
    decreases k - i
  {
    hide IsQuoted, InsideQuotes;
    if i < |line| {
      InsideIsQuoted(line, i);
      assert StartsComment(line, i, comment) <==> IsComment(line, comment, i);
      if i < k {
        CutAtComment(line, comment, i + 1, k);
      }
    }
  }

  /** A line whose quotes are of one kind is cut at its first comment, which is where the tokenizer is not in quotes. */
  lemma {:induction false} LineIsCut(line: string, comment: char, k: nat)
    requires PlainQuotes(line) && line != "" && line[0] != comment && !IsIndent(line[0])
    requires 0 < k <= |line| && (k < |line| ==> IsComment(line, comment, k))
    requires forall j :: 0 < j < k ==> !IsComment(line, comment, j)
    ensures ImportLine(line, comment) == line[..k]
  {
    CutAtComment(line, comment, 1, k);
  }

  // ---------- Text, a string in quotes, and text ----------

  /** No quotes, no backslash in front of what follows, and no comment. */
  predicate IsPlain(text: string, comment: char) {
    '"' !in text && '\'' !in text && comment !in text && (text != "" ==> text[|text| - 1] != '\\')
  }

  predicate IsInner(s: string) {
    '"' !in s && '\'' !in s && '\\' !in s
  }

  function Quoting(a: string, quote: char, s: string, b: string): string {
    a + [quote] + s + [quote] + b
  }

  lemma {:induction false} QuotingAt(a: string, quote: char, s: string, b: string, i: nat)
    requires i < |Quoting(a, quote, s, b)|
    ensures var line := Quoting(a, quote, s, b);
            line[i] == if i < |a| then a[i]
                       else if i == |a| || i == |a| + 1 + |s| then quote
                       else if i < |a| + 1 + |s| then s[i - |a| - 1]
                       else b[i - |a| - |s| - 2]
  {
  }

  lemma {:induction false} QuotedInside(a: string, quote: char, s: string, b: string, comment: char, i: nat)
    requires quote == '"' || quote == '\''
    requires IsPlain(a, comment) && IsInner(s) && '"' !in b && '\'' !in b
    requires i <= |Quoting(a, quote, s, b)|
    ensures IsQuoted(Quoting(a, quote, s, b), i) <==> |a| < i <= |a| + 1 + |s|
  {
    if i > 0 {
      hide IsQuoted;
      QuotedInside(a, quote, s, b, comment, i - 1);
      QuotingAt(a, quote, s, b, i - 1);
      QuotedNext(Quoting(a, quote, s, b), i - 1);
    } else {
      QuotedNext(Quoting(a, quote, s, b), 0);
    }
  }

  lemma {:induction false} QuotingIsPlain(a: string, quote: char, s: string, b: string, comment: char)
    requires quote == '"' || quote == '\''
    requires IsPlain(a, comment) && IsInner(s) && '"' !in b && '\'' !in b
    ensures PlainQuotes(Quoting(a, quote, s, b))
  {
    var line := Quoting(a, quote, s, b);
    forall i | 0 <= i < |line|
      ensures IsQuote(line[i]) <==> i == |a| || i == |a| + 1 + |s|
      ensures IsQuote(line[i]) ==> line[i] == quote && (i > 0 ==> line[i - 1] != '\\')
    {
      QuotingAt(a, quote, s, b, i);
      if i > 0 {
        QuotingAt(a, quote, s, b, i - 1);
      }
    }
    var other := if quote == '"' then '\'' else '"';
    if other in line {
      var i :| 0 <= i < |line| && line[i] == other;
      assert IsQuote(line[i]);
    }
  }

  /** Inside either kind of quotes a string is kept whatever it is, with all of the line. */
  lemma {:induction false} QuotedIsKept(a: string, quote: char, s: string, b: string, comment: char)
    requires quote == '"' || quote == '\''
    requires IsPlain(a, comment) && a != "" && a[0] !in " \t\r" && IsInner(s) && comment != quote
    requires '"' !in b && '\'' !in b && comment !in b
    ensures ImportLine(Quoting(a, quote, s, b), comment) == Quoting(a, quote, s, b)
  {
    var line := Quoting(a, quote, s, b);
    QuotingIsPlain(a, quote, s, b, comment);
    QuotingAt(a, quote, s, b, 0);
    forall j | 0 < j < |line|
      ensures !IsComment(line, comment, j)
    {
      QuotingAt(a, quote, s, b, j);
      QuotedInside(a, quote, s, b, comment, j);
    }
    LineIsCut(line, comment, |line|);
    assert line[..|line|] == line;
  }

  /** A comment behind a string in quotes. */
  function Commented(a: string, quote: char, s: string, b: string, comment: char, rest: string): string {
    Quoting(a, quote, s, b) + [comment] + rest
  }

  /** Counting goes over the text, the string and its quotes in the same way, whatever comes behind. */
  lemma {:induction false} CountInside(a: string, quote: char, s: string, b: string, line: string, comment: char, c: char, i: nat)
    requires (quote == '"' || quote == '\'') && IsQuote(c)
    requires IsPlain(a, comment) && IsInner(s) && IsPlain(b, comment)
    requires i <= |Quoting(a, quote, s, b)| && Quoting(a, quote, s, b) <= line
    ensures CountBefore(line, c, i) == if c != quote then 0 else if i <= |a| then 0 else if i <= |a| + 1 + |s| then 1 else 2
  {
    if i > 0 {
      CountInside(a, quote, s, b, line, comment, c, i - 1);
      QuotingAt(a, quote, s, b, i - 1);
      if i > 1 {
        QuotingAt(a, quote, s, b, i - 2);
      }
    }
  }

  lemma {:induction false} FirstComment(line: string, comment: char, i: nat, k: nat)
    requires i <= k < |line| && StartsComment(line, k, comment)
    ensures CommentFrom(line, comment, i) <= k
    ensures CommentFrom(line, comment, i) == k <==> forall j :: i <= j < k ==> !StartsComment(line, j, comment)
    decreases k - i
  {
    hide InsideQuotes;
    if i < k && !StartsComment(line, i, comment) {
      FirstComment(line, comment, i + 1, k);
    }
  }

  lemma {:induction false} SomeCounted(line: string, c: char, n: nat)
    requires n <= |line|
    ensures CountBefore(line, c, n) > 0 <==> exists i :: 0 <= i < n && Unescaped(line, i, c)
  {
    if n > 0 {
      SomeCounted(line, c, n - 1);
      if Unescaped(line, n - 1, c) {
        assert CountBefore(line, c, n) > 0;
      }
    }
  }

  /** There is a single quote behind the comment character that no backslash stands before. */
  predicate HasSingle(comment: char, rest: string) {
    exists j :: 0 <= j < |rest| && rest[j] == '\'' && (if j == 0 then comment else rest[j - 1]) != '\\'
  }

  lemma {:induction false} SinglesBehind(a: string, s: string, b: string, comment: char, rest: string)
    requires IsPlain(a, comment) && IsInner(s) && IsPlain(b, comment) && comment != '\''
    ensures var line := Commented(a, '"', s, b, comment, rest);
            CountBefore(line, '\'', |line|) > 0 <==> HasSingle(comment, rest)
  {
    var kept, line := Quoting(a, '"', s, b), Commented(a, '"', s, b, comment, rest);
    CountInside(a, '"', s, b, line, comment, '\'', |kept|);
    assert line == kept + ([comment] + rest);
    hide Quoting, Commented, IsPlain, IsInner, CountBefore, HasSingle;
    SomeCounted(line, '\'', |kept|);
    SomeCounted(line, '\'', |line|);
    SingleBehind(kept, comment, rest);
  }

  /** If there is no single quote in front, it is looked for behind. */
  lemma {:induction false} SingleBehind(kept: string, comment: char, rest: string)
    requires comment != '\''
    requires forall i :: 0 <= i < |kept| ==> !Unescaped(kept + ([comment] + rest), i, '\'')
    ensures var line := kept + ([comment] + rest);
            (exists i :: 0 <= i < |line| && Unescaped(line, i, '\'')) <==> HasSingle(comment, rest)
  {
    var line, n := kept + ([comment] + rest), |kept|;
    assert line[n] == comment && forall j :: 0 <= j < |rest| ==> line[n + 1 + j] == rest[j];
    if i :| 0 <= i < |line| && Unescaped(line, i, '\'') {
      var j := i - n - 1;
      assert rest[j] == line[i] && (if j == 0 then comment else rest[j - 1]) == line[i - 1];
    }
    if j :| 0 <= j < |rest| && rest[j] == '\'' && (if j == 0 then comment else rest[j - 1]) != '\\' {
      assert line[n + j] == if j == 0 then comment else rest[j - 1];
      assert Unescaped(line, n + 1 + j, '\'');
    }
  }

  lemma {:induction false} CommentInside(a: string, quote: char, s: string, b: string, comment: char, rest: string, i: nat)
    requires quote == '"' || quote == '\''
    requires IsPlain(a, comment) && IsInner(s) && IsPlain(b, comment) && comment != '"' && comment != '\''
    requires 0 < i <= |Quoting(a, quote, s, b)|
    ensures var line := Commented(a, quote, s, b, comment, rest);
            InsideQuotes(line, i) <==>
              |a| < i <= |a| + 1 + |s| && (quote == '\'' || !HasSingle(comment, rest))
  {
    var line := Commented(a, quote, s, b, comment, rest);
    assert Quoting(a, quote, s, b) <= line;
    CountInside(a, quote, s, b, line, comment, '"', i);
    CountInside(a, quote, s, b, line, comment, '\'', i);
    if quote == '"' {
      SinglesBehind(a, s, b, comment, rest);
    } else {
      CountInside(a, quote, s, b, line, comment, '\'', |Quoting(a, quote, s, b)|);
      CountsUp(line, '\'', |Quoting(a, quote, s, b)|, |line|);
    }
  }

  lemma {:induction false} CommentHere(a: string, quote: char, s: string, b: string, comment: char, rest: string, i: nat)
    requires quote == '"' || quote == '\''
    requires IsPlain(a, comment) && IsInner(s) && IsPlain(b, comment) && comment != '"' && comment != '\''
    requires 0 < i <= |Quoting(a, quote, s, b)|
    ensures var line := Commented(a, quote, s, b, comment, rest);
            StartsComment(line, i, comment) <==>
              i == |Quoting(a, quote, s, b)|
              || (|a| < i <= |a| + |s| && s[i - |a| - 1] == comment && quote == '"' && HasSingle(comment, rest))
  {
    CommentInside(a, quote, s, b, comment, rest, i);
    hide InsideQuotes, HasSingle;
    var kept, line := Quoting(a, quote, s, b), Commented(a, quote, s, b, comment, rest);
    assert kept <= line && line[|kept|] == comment;
    QuotingAt(a, quote, s, b, i - 1);
    if i < |kept| {
      QuotingAt(a, quote, s, b, i);
    }
  }

  /** A comment behind a string in quotes is cut off and nothing else, unless the string is in double quotes and has the
      comment character, and there is a single quote in the comment. */
  lemma {:induction false} CommentBehindQuotes(a: string, quote: char, s: string, b: string, comment: char, rest: string)
    requires quote == '"' || quote == '\''
    requires IsPlain(a, comment) && a != "" && a[0] !in " \t\r" && IsInner(s) && IsPlain(b, comment)
    requires comment != '"' && comment != '\''
    ensures ImportLine(Commented(a, quote, s, b, comment, rest), comment) == Quoting(a, quote, s, b)
       <==> !(quote == '"' && comment in s && HasSingle(comment, rest))
  {
    hide HasSingle, StartsComment;
    var kept, line := Quoting(a, quote, s, b), Commented(a, quote, s, b, comment, rest);
    assert line[..|kept|] == kept && line[0] == a[0];
    forall i | 0 < i <= |kept|
      ensures StartsComment(line, i, comment) <==>
                i == |kept|
                || (|a| < i <= |a| + |s| && s[i - |a| - 1] == comment && quote == '"' && HasSingle(comment, rest))
    {
      CommentHere(a, quote, s, b, comment, rest, i);
    }
    FirstComment(line, comment, 1, |kept|);
    if quote == '"' && comment in s && HasSingle(comment, rest) {
      var j :| 0 <= j < |s| && s[j] == comment;
      assert StartsComment(line, |a| + 1 + j, comment);
    }
  }

  /** For instance, the apostrophe in this comment makes the line end inside the string. */
  lemma {:induction false} ApostropheCuts()
    ensures ImportLine("-s \"a # b\" # don't", '#') != "-s \"a # b\" "
  {
    var a, s, rest := "-s ", "a # b", " don't";
    assert s[2] == '#' && rest[4] == '\'' && rest[3] == 'n';
    assert Quoting(a, '"', s, " ") == "-s \"a # b\" ";
    assert Commented(a, '"', s, " ", '#', rest) == "-s \"a # b\" # don't";
    assert HasSingle('#', rest);
    CommentBehindQuotes(a, '"', s, " ", '#', rest);
  }
}
