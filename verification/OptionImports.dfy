/** Importing a file of options: it is cut into lines, comments are removed, and the rest is a command line. */
module OptionImports {
  import opened CommandLines
  import opened DelimitedLists
  import opened OptionExports

  predicate IsIndent(c: char) {
    c == ' ' || c == '\t' || c == '\r'
  }

  function WithoutIndent(line: string): (r: string)
    ensures r != "" ==> !IsIndent(r[0])
  {
    if line != "" && IsIndent(line[0]) then WithoutIndent(line[1..]) else line
  }

  /** A character that no backslash stands before. */
  predicate Unescaped(line: string, i: nat, c: char)
    requires i < |line|
  {
    line[i] == c && (i > 0 ==> line[i - 1] != '\\')
  }

  /** How many such characters there are before position i. */
  function CountBefore(line: string, c: char, i: nat): nat
    requires i <= |line|
  {
    if i == 0 then 0 else CountBefore(line, c, i - 1) + if Unescaped(line, i - 1, c) then 1 else 0
  }

  /** Whether position i is inside quotes: single ones if the line has any, and double ones otherwise. */
  predicate InsideQuotes(line: string, i: nat)
    requires i <= |line|
  {
    if CountBefore(line, '\'', |line|) > 0 then CountBefore(line, '\'', i) % 2 == 1
    else CountBefore(line, '"', i) % 2 == 1
  }

  predicate StartsComment(line: string, i: nat, comment: char)
    requires i < |line|
  {
    i > 0 && Unescaped(line, i, comment) && !InsideQuotes(line, i)
  }

  function CommentFrom(line: string, comment: char, i: nat): (r: nat)
    requires i <= |line|
    ensures i <= r <= |line| && (r < |line| ==> StartsComment(line, r, comment))
    decreases |line| - i
  {
    if i < |line| && !StartsComment(line, i, comment) then CommentFrom(line, comment, i + 1) else i
  }

  function ImportLine(line: string, comment: char): string {
    var text := WithoutIndent(line);
    if text == "" || text[0] == comment then "" else text[..CommentFrom(text, comment, 1)]
  }

  function CommandOf(lines: seq<string>, comment: char): string {
    if lines == [] then ""
    else
      var text := ImportLine(lines[0], comment);
      (if text == "" then "" else text + " ") + CommandOf(lines[1..], comment)
  }

  function ImportCommand(text: string, comment: char): string {
    CommandOf(Split(text, '\n'), comment)
  }

  // ---------- Importing text without comments ----------

  lemma {:induction false} NoComment(line: string, comment: char, i: nat)
    requires comment !in line && i <= |line|
    ensures CommentFrom(line, comment, i) == |line|
    decreases |line| - i
  {
    if i < |line| {
      NoComment(line, comment, i + 1);
    }
  }

  lemma {:induction false} LineWithoutComment(line: string, comment: char)
    requires comment !in line
    ensures ImportLine(line, comment) == WithoutIndent(line)
  {
    var text := WithoutIndent(line);
    OnlyFewer(line, comment);
    if text != "" {
      NoComment(text, comment, 1);
      assert text[..|text|] == text;
    }
  }

  /** No comment is found in the line. */
  predicate IsKept(line: string, comment: char) {
    ImportLine(line, comment) == WithoutIndent(line)
  }

  lemma {:induction false} OnlyFewer(line: string, comment: char)
    requires comment !in line
    ensures comment !in WithoutIndent(line)
  {
    if line != "" && IsIndent(line[0]) {
      OnlyFewer(line[1..], comment);
    }
  }

  /** Between arguments, indentation does nothing. */
  lemma {:induction false} FeedIndent(argv: seq<string>, line: string)
    ensures FeedAll(Idle(argv), line) == FeedAll(Idle(argv), WithoutIndent(line))
    decreases line
  {
    if line != "" && IsIndent(line[0]) {
      FeedIndent(argv, line[1..]);
    }
  }

  /** A line that leaves no quotes open. */
  predicate Balanced(line: string) {
    !FeedAll(START, line).inQuotes
  }

  lemma {:induction false} SameQuotes(l: Lexer, m: Lexer, s: string)
    requires l.Valid() && m.Valid() && l.inQuotes == m.inQuotes
    ensures FeedAll(l, s).inQuotes == FeedAll(m, s).inQuotes
    decreases s
  {
    if s != "" {
      SameQuotes(Feed(l, s[0]), Feed(m, s[0]), s[1..]);
    }
  }

  /** Behind a balanced line, every blank ends the argument. */
  lemma {:induction false} FeedLineEnd(argv: seq<string>, line: string, blank: char)
    requires Balanced(line) && IsBlank(blank)
    ensures FeedAll(Idle(argv), line + [blank]) == Idle(FeedAll(Idle(argv), line).argv)
  {
    SameQuotes(Idle(argv), START, line);
    FeedConcat(Idle(argv), line, [blank]);
    FeedOne(FeedAll(Idle(argv), line), blank);
  }

  /** An imported line is as good as the line itself. */
  lemma {:induction false} FeedImported(argv: seq<string>, line: string, comment: char)
    requires Balanced(line) && IsKept(line, comment)
    ensures var text := ImportLine(line, comment);
            FeedAll(Idle(argv), if text == "" then "" else text + " ") == Idle(FeedAll(Idle(argv), line).argv)
  {
    FeedIndent(argv, line);
    FeedIndent([], line);
    if WithoutIndent(line) == "" {
      FeedEmpty(Idle(argv));
    } else {
      FeedLineEnd(argv, WithoutIndent(line), ' ');
    }
  }

  ghost predicate BalancedLines(text: string) {
    forall i :: 0 <= i < |Split(text, '\n')| ==> Balanced(Split(text, '\n')[i])
  }

  ghost predicate KeptLines(text: string, comment: char) {
    forall i :: 0 <= i < |Split(text, '\n')| ==> IsKept(Split(text, '\n')[i], comment)
  }

  /** Importing a text in whose lines no comment is found gives its arguments, if no quotes go over a line end. */
  lemma {:induction false} ImportKept(argv: seq<string>, text: string, comment: char)
    requires KeptLines(text, comment) && BalancedLines(text)
    ensures FeedAll(Idle(argv), ImportCommand(text, comment)).argv == FeedAll(Idle(argv), text).argv
    decreases |text|
  {
    if text != "" {
      var k := FirstAt(text, '\n');
      var line, rest := text[..k], if k == |text| then "" else text[k + 1..];
      assert Split(text, '\n') == [line] + Split(rest, '\n');
      BalancedRest(line, rest, text);
      KeptRest(line, rest, text, comment);
      hide Balanced, IsKept, BalancedLines, KeptLines;
      var argv1 := FeedAll(Idle(argv), line).argv;
      var imported := ImportLine(line, comment);
      FeedImported(argv, line, comment);
      CommandCons(line, Split(rest, '\n'), comment);
      ImportKept(argv1, rest, comment);
      FeedConcat(Idle(argv), if imported == "" then "" else imported + " ", ImportCommand(rest, comment));
      if k < |text| {
        CutAt(text, k);
        FeedLineEnd(argv, line, '\n');
        FeedConcat(Idle(argv), line + "\n", rest);
      } else {
        assert line == text;
        FeedEmpty(Idle(argv1));
      }
    }
  }

  lemma {:induction false} KeptRest(line: string, rest: string, text: string, comment: char)
    requires Split(text, '\n') == [line] + Split(rest, '\n')
    ensures KeptLines(text, comment) <==> IsKept(line, comment) && KeptLines(rest, comment)
  {
    hide IsKept, Split;
    var lines, more := Split(text, '\n'), Split(rest, '\n');
    assert lines[0] == line && forall i :: 0 <= i < |more| ==> more[i] == lines[i + 1];
  }

  /** The first line of a text, and the rest of it. */
  lemma {:induction false} LineCut(text: string, comment: char)
    requires text != "" && comment !in text
    ensures var k := FirstAt(text, '\n');
            var line, rest := text[..k], if k == |text| then "" else text[k + 1..];
            && Split(text, '\n') == [line] + Split(rest, '\n')
            && comment !in line && comment !in rest && |rest| < |text|
  {
    var k := FirstAt(text, '\n');
    assert forall i :: 0 <= i < |text[..k]| ==> text[..k][i] == text[i];
  }

  lemma {:induction false} NoLines(text: string, comment: char)
    requires text == ""
    ensures KeptLines(text, comment)
  {
  }

  lemma {:induction false} LinesWithoutComment(text: string, comment: char)
    requires comment !in text
    ensures KeptLines(text, comment)
    decreases |text|
  {
    hide Split, KeptLines, FirstAt;
    if text == "" {
      NoLines(text, comment);
    } else {
      var k := FirstAt(text, '\n');
      var line, rest := text[..k], if k == |text| then "" else text[k + 1..];
      LineCut(text, comment);
      LineWithoutComment(line, comment);
      LinesWithoutComment(rest, comment);
      KeptRest(line, rest, text, comment);
    }
  }

  /** Importing a text without comments gives the arguments of the text, if no quotes go over a line end. */
  lemma {:induction false} ImportIsText(argv: seq<string>, text: string, comment: char)
    requires comment !in text && BalancedLines(text)
    ensures FeedAll(Idle(argv), ImportCommand(text, comment)).argv == FeedAll(Idle(argv), text).argv
  {
    LinesWithoutComment(text, comment);
    ImportKept(argv, text, comment);
  }

  /** A line that starts with the comment character, behind any indentation, is a comment as a whole. */
  lemma {:induction false} CommentLine(indent: string, comment: char, rest: string)
    requires (forall c :: c in indent ==> c in " \t\r") && comment !in " \t\r"
    ensures ImportLine(indent + [comment] + rest, comment) == ""
  {
    if indent != "" {
      var line := indent + [comment] + rest;
      assert line[1..] == indent[1..] + [comment] + rest && line[0] in indent;
      assert forall c :: c in indent[1..] ==> c in indent;
      CommentLine(indent[1..], comment, rest);
    }
  }

  lemma {:induction false} CommandCons(line: string, rest: seq<string>, comment: char)
    ensures CommandOf([line] + rest, comment)
         == (var text := ImportLine(line, comment); if text == "" then "" else text + " ") + CommandOf(rest, comment)
  {
    assert ([line] + rest)[1..] == rest;
  }

  lemma {:induction false} BalancedRest(line: string, rest: string, text: string)
    requires Split(text, '\n') == [line] + Split(rest, '\n')
    ensures BalancedLines(text) <==> Balanced(line) && BalancedLines(rest)
  {
    hide Balanced, Split;
    var lines, more := Split(text, '\n'), Split(rest, '\n');
    assert lines[0] == line && forall i :: 0 <= i < |more| ==> more[i] == lines[i + 1];
  }

  lemma {:induction false} NoQuotesBefore(line: string, c: char, i: nat)
    requires i <= |line| && c !in line[..i]
    ensures CountBefore(line, c, i) == 0
  {
    if i > 0 {
      assert line[..i - 1] == line[..i][..i - 1] && line[i - 1] in line[..i];
      NoQuotesBefore(line, c, i - 1);
    }
  }

  lemma {:induction false} CommentAt(line: string, comment: char, i: nat, k: nat)
    requires i <= k < |line| && comment !in line[..k] && StartsComment(line, k, comment)
    ensures CommentFrom(line, comment, i) == k
    decreases k - i
  {
    if i < k {
      assert line[i] in line[..k];
      CommentAt(line, comment, i + 1, k);
    }
  }

  /** Behind text without quotes, a comment is removed to the end of the line, whatever it is. */
  lemma {:induction false} CommentRemoved(text: string, comment: char, rest: string)
    requires text != "" && !IsIndent(text[0]) && comment !in text && !HasQuote(text) && text[|text| - 1] != '\\'
    ensures ImportLine(text + [comment] + rest, comment) == text
  {
    var line, k := text + [comment] + rest, |text|;
    assert line[..k] == text && line[k] == comment && line[0] == text[0] && line[k - 1] == text[k - 1];
    NoQuotesBefore(line, '\'', k);
    NoQuotesBefore(line, '"', k);
    CommentAt(line, comment, 1, k);
  }

  lemma {:induction false} NoZeroAdded(text: string, comment: char)
    requires '\0' !in text
    ensures '\0' !in ImportCommand(text, comment)
  {
    NoZeroInPieces(text);
    NoZeroInLines(Split(text, '\n'), comment);
  }

  lemma {:induction false} NoZeroInPieces(text: string)
    requires '\0' !in text
    ensures forall i :: 0 <= i < |Split(text, '\n')| ==> '\0' !in Split(text, '\n')[i]
    decreases |text|
  {
    if text != "" {
      var k := FirstAt(text, '\n');
      if k < |text| {
        NoZeroInPieces(text[k + 1..]);
      }
    }
  }

  lemma {:induction false} NoZeroInLines(lines: seq<string>, comment: char)
    requires forall i :: 0 <= i < |lines| ==> '\0' !in lines[i]
    ensures '\0' !in CommandOf(lines, comment)
    decreases lines
  {
    if lines != [] {
      OnlyFewer(lines[0], '\0');
      NoZeroInLines(lines[1..], comment);
    }
  }

  // ---------- The program ----------

  /** The positions of the quotes of one kind that are not escaped. */
  function QuotesBefore(line: string, c: char, i: nat): seq<nat>
    requires i <= |line|
  {
    if i == 0 then [] else QuotesBefore(line, c, i - 1) + if Unescaped(line, i - 1, c) then [i - 1] else []
  }

  /** How many of the positions are below i. */
  method LowerBound(positions: seq<nat>, i: nat) returns (j: nat)
    requires forall a, b :: 0 <= a < b < |positions| ==> positions[a] < positions[b]
    ensures j <= |positions|
    ensures (forall a :: 0 <= a < j ==> positions[a] < i) && (forall a :: j <= a < |positions| ==> i <= positions[a])
  {
    j := 0;
    while j < |positions| && positions[j] < i
      invariant j <= |positions| && forall a :: 0 <= a < j ==> positions[a] < i
    {
      j := j + 1;
    }
  }

  lemma {:induction false} QuotesSorted(line: string, c: char, i: nat)
    requires i <= |line|
    ensures var quotes := QuotesBefore(line, c, i);
            && |quotes| == CountBefore(line, c, i) && (forall k :: 0 <= k < |quotes| ==> quotes[k] < i)
            && forall a, b :: 0 <= a < b < |quotes| ==> quotes[a] < quotes[b]
  {
    if i > 0 {
      QuotesSorted(line, c, i - 1);
    }
  }

  /** The quotes before a position are a prefix of all quotes. */
  lemma {:induction false} QuotesPrefix(line: string, c: char, i: nat, n: nat)
    requires i <= n <= |line|
    ensures QuotesBefore(line, c, i) <= QuotesBefore(line, c, n)
    ensures forall k :: |QuotesBefore(line, c, i)| <= k < |QuotesBefore(line, c, n)| ==> i <= QuotesBefore(line, c, n)[k]
  {
    if i < n {
      QuotesPrefix(line, c, i, n - 1);
    }
  }

  /** The number of quotes below i is what the search finds. */
  lemma {:induction false} LowerBoundCounts(line: string, c: char, i: nat, j: nat)
    requires i <= |line| && j <= |QuotesBefore(line, c, |line|)|
    requires var quotes := QuotesBefore(line, c, |line|);
             && (forall a :: 0 <= a < j ==> quotes[a] < i) && (forall a :: j <= a < |quotes| ==> i <= quotes[a])
    ensures j == CountBefore(line, c, i)
  {
    QuotesSorted(line, c, i);
    QuotesPrefix(line, c, i, |line|);
    var quotes, before := QuotesBefore(line, c, |line|), QuotesBefore(line, c, i);
    assert forall a :: 0 <= a < |before| ==> quotes[a] == before[a];
    assert |before| > 0 ==> quotes[|before| - 1] < i;
    assert j > 0 ==> quotes[j - 1] < i;
  }

  method FindQuotes(line: string) returns (sq: seq<nat>, dq: seq<nat>)
    ensures sq == QuotesBefore(line, '\'', |line|) && dq == QuotesBefore(line, '"', |line|)
  {
    sq, dq := [], [];
    for i := 0 to |line|
      invariant sq == QuotesBefore(line, '\'', i) && dq == QuotesBefore(line, '"', i)
    {
      if line[i] == '"' && (i == 0 || line[i - 1] != '\\') {
        dq := dq + [i];
      } else if line[i] == '\'' && (i == 0 || line[i - 1] != '\\') {
        sq := sq + [i];
      }
    }
  }

  /** Removes indentation and a comment. */
  method StripLine(line: string, comment: char) returns (text: string)
    ensures text == ImportLine(line, comment)
  {
    var pos := 0;
    assert line[0..] == line;
    while pos < |line| && IsIndent(line[pos])
      invariant pos <= |line| && WithoutIndent(line[pos..]) == WithoutIndent(line)
    {
      assert line[pos..][1..] == line[pos + 1..];
      pos := pos + 1;
    }
    text := line[pos..];
    if text == "" || text[0] == comment {
      return "";
    }
    var sq, dq := FindQuotes(text);
    QuotesSorted(text, '\'', |text|);
    QuotesSorted(text, '"', |text|);
    var i := 1;
    while i < |text|
      invariant 1 <= i <= |text| && CommentFrom(text, comment, i) == CommentFrom(text, comment, 1)
    {
      if text[i] == comment && text[i - 1] != '\\' {
        var j := 0;
        if sq != [] {
          j := LowerBound(sq, i);
          LowerBoundCounts(text, '\'', i, j);
        } else if dq != [] {
          j := LowerBound(dq, i);
          LowerBoundCounts(text, '"', i, j);
        } else {
          QuotesPrefix(text, '"', i, |text|);
          QuotesSorted(text, '"', i);
        }
        if j % 2 == 0 {
          return text[..i];
        }
      }
      i := i + 1;
    }
    assert text[..|text|] == text;
  }

  /** The command line that a file amounts to. */
  method MakeCommand(memblock: string, comment: char) returns (cmd: string)
    ensures cmd == ImportCommand(memblock, comment)
  {
    hide ImportLine, Split, CommandOf;
    var lines := SplitDelim(memblock, '\n');
    cmd := "";
    assert lines[0..] == lines;
    for k := 0 to |lines|
      invariant cmd + CommandOf(lines[k..], comment) == CommandOf(lines, comment)
    {
      var text := StripLine(lines[k], comment);
      assert lines[k..] == [lines[k]] + lines[k + 1..];
      CommandCons(lines[k], lines[k + 1..], comment);
      Regroup(cmd, if text == "" then "" else text + " ", CommandOf(lines[k + 1..], comment));
      if text != "" {
        cmd := cmd + (text + " ");
      }
    }
    assert lines[|lines|..] == [];
    NoCommand(comment);
    Regroup(cmd, "", "");
  }

  lemma {:induction false} NoCommand(comment: char)
    ensures CommandOf([], comment) == ""
  {
  }

  lemma {:induction false} Regroup(a: string, b: string, c: string)
    ensures (a + b) + c == a + (b + c) && a + "" == a
  {
  }
}
