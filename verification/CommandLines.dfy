/** Cutting a command line into arguments at blanks outside quotes. */
module CommandLines {

  predicate IsQuote(c: char) {
    c == '"' || c == '\''
  }

  predicate IsBlank(c: char) {
    c == ' ' || c == '\t' || c == '\n' || c == '\r'
  }

  /** The arguments found so far; inside text, the last of them is still growing.  Either quote ends quotes. */
  datatype Lexer = Lexer(argv: seq<string>, inText: bool, inQuotes: bool) {
    ghost predicate Valid() {
      (inQuotes ==> inText) && (inText ==> argv != [])
    }

    /** In text, starting an argument if there is none. */
    function Begin(): (r: Lexer)
      ensures r.Valid() && r.inText
    {
      if inText && argv != [] then this else this.(argv := argv + [""], inText := true)
    }

    function Append(text: string): (r: Lexer)
      ensures r.Valid() && r.inText && r.inQuotes == inQuotes
    {
      var begun := Begin();
      var last := |begun.argv| - 1;
      begun.(argv := begun.argv[last := begun.argv[last] + text])
    }
  }

  const START := Lexer([], false, false)

  function Feed(l: Lexer, c: char): (r: Lexer)
    requires l.Valid()
    ensures r.Valid()
  {
    if l.inQuotes then
      if IsQuote(c) then l.(inQuotes := false) else l.Append([c])
    else if IsQuote(c) then l.Begin().(inQuotes := true)
    else if IsBlank(c) then l.(inText := false)
    else l.Append([c])
  }

  function FeedAll(l: Lexer, s: string): (r: Lexer)
    requires l.Valid()
    ensures r.Valid()
    decreases s
  {
    if s == "" then l else FeedAll(Feed(l, s[0]), s[1..])
  }

  function Arguments(cmdLine: string): seq<string> {
    FeedAll(START, cmdLine).argv
  }

  lemma {:induction false} FeedConcat(l: Lexer, a: string, b: string)
    requires l.Valid()
    ensures FeedAll(l, a + b) == FeedAll(FeedAll(l, a), b)
    decreases a
  {
    if a == "" {
      assert a + b == b;
    } else {
      assert (a + b)[1..] == a[1..] + b;
      FeedConcat(Feed(l, a[0]), a[1..], b);
    }
  }

  lemma {:induction false} FeedOne(l: Lexer, c: char)
    requires l.Valid()
    ensures FeedAll(l, [c]) == Feed(l, c)
  {
    assert [c][1..] == "";
  }

  lemma {:induction false} AppendTwice(l: Lexer, a: string, b: string)
    ensures l.Append(a).Append(b) == l.Append(a + b)
  {
    var begun := l.Begin();
    var last := |begun.argv| - 1;
    assert begun.argv[last] + a + b == begun.argv[last] + (a + b);
  }

  lemma {:induction false} AppendNothing(l: Lexer)
    ensures l.Append("") == l.Begin()
  {
    var begun := l.Begin();
    var last := |begun.argv| - 1;
    assert begun.argv[last] + "" == begun.argv[last];
    assert begun.argv[last := begun.argv[last]] == begun.argv;
  }

  /** Text that is fed as it is: anything but quotes inside quotes, anything but quotes and blanks outside. */
  predicate IsText(c: char, quoted: bool) {
    !IsQuote(c) && (quoted || !IsBlank(c))
  }

  predicate AllText(s: string, quoted: bool) {
    forall i :: 0 <= i < |s| ==> IsText(s[i], quoted)
  }

  lemma {:induction false} FeedText(l: Lexer, s: string)
    requires l.Valid() && s != "" && AllText(s, l.inQuotes)
    ensures FeedAll(l, s) == l.Append(s)
    decreases s
  {
    FeedOne(l, s[0]);
    assert s == [s[0]] + s[1..] && IsText(s[0], l.inQuotes);
    if |s| > 1 {
      FeedText(l.Append([s[0]]), s[1..]);
      AppendTwice(l, [s[0]], s[1..]);
    } else {
      assert s == [s[0]];
    }
  }

  /** A pair of quotes adds what is between them to the argument, and starts it even if that is nothing. */
  lemma {:induction false} FeedQuoted(l: Lexer, s: string)
    requires l.Valid() && !l.inQuotes && AllText(s, true)
    ensures FeedAll(l, "\"" + s + "\"") == l.Append(s)
  {
    hide FeedAll;
    var quoted := l.Begin().(inQuotes := true);
    FeedConcat(l, "\"" + s, "\"");
    FeedConcat(l, "\"", s);
    FeedOne(l, '"');
    if s != "" {
      FeedText(quoted, s);
    } else {
      AppendNothing(l);
      FeedEmpty(quoted);
    }
    FeedOne(FeedAll(quoted, s), '"');
  }

  lemma {:induction false} FeedEmpty(l: Lexer)
    requires l.Valid()
    ensures FeedAll(l, "") == l
  {
  }

  // ---------- The arguments in memory ----------

  /** The text is in memory from position `at` on, and a zero behind it. */
  ghost predicate Holds(memory: seq<char>, at: nat, text: string) {
    && at + |text| < |memory| && memory[at..at + |text|] == text && memory[at + |text|] == '\0' && '\0' !in text
  }

  /** Memory holds every argument that is complete, and the growing one at its end. */
  ghost predicate Shows(memory: seq<char>, starts: seq<nat>, l: Lexer) {
    && |starts| == |l.argv| && l.Valid()
    && (forall k :: 0 <= k < (if l.inText then |starts| - 1 else |starts|) ==> Holds(memory, starts[k], l.argv[k]))
    && (l.inText ==>
          var last := |starts| - 1;
          starts[last] <= |memory| && memory[starts[last]..] == l.argv[last] && '\0' !in l.argv[last])
  }

  lemma {:induction false} HoldsMore(memory: seq<char>, c: char, at: nat, text: string)
    requires Holds(memory, at, text)
    ensures Holds(memory + [c], at, text)
  {
    assert (memory + [c])[at..at + |text|] == memory[at..at + |text|];
  }

  lemma {:induction false} ShowsBegin(memory: seq<char>, starts: seq<nat>, l: Lexer)
    requires Shows(memory, starts, l)
    ensures Shows(memory, if l.inText then starts else starts + [|memory|], l.Begin())
  {
  }

  lemma {:induction false} ShowsAppend(memory: seq<char>, starts: seq<nat>, l: Lexer, c: char)
    requires Shows(memory, starts, l) && l.inText && c != '\0'
    ensures Shows(memory + [c], starts, l.Append([c]))
  {
    var last, memory' := |starts| - 1, memory + [c];
    forall k | 0 <= k < last
      ensures Holds(memory', starts[k], l.argv[k])
    {
      HoldsMore(memory, c, starts[k], l.argv[k]);
    }
    assert memory'[starts[last]..] == memory[starts[last]..] + [c];
  }

  lemma {:induction false} ShowsEnd(memory: seq<char>, starts: seq<nat>, l: Lexer)
    requires Shows(memory, starts, l)
    ensures l.inText ==> Shows(memory + ['\0'], starts, l.(inText := false, inQuotes := false))
    ensures forall k :: 0 <= k < |starts| ==> Holds(memory + ['\0'], starts[k], l.argv[k])
  {
    var memory' := memory + ['\0'];
    forall k | 0 <= k < |starts|
      ensures Holds(memory', starts[k], l.argv[k])
    {
      if l.inText && k == |starts| - 1 {
        assert memory'[starts[k]..starts[k] + |l.argv[k]|] == memory[starts[k]..];
      } else {
        HoldsMore(memory, '\0', starts[k], l.argv[k]);
      }
    }
  }

  /** What feeding one character writes to memory, and where it starts an argument. */
  function Written(l: Lexer, c: char): seq<char> {
    if l.inQuotes then (if IsQuote(c) then [] else [c])
    else if IsQuote(c) then []
    else if IsBlank(c) then (if l.inText then ['\0'] else [])
    else [c]
  }

  function Started(l: Lexer, c: char, j: nat): seq<nat> {
    if !l.inText && (IsQuote(c) || !IsBlank(c)) then [j] else []
  }

  lemma {:induction false} ShowsStep(memory: seq<char>, starts: seq<nat>, l: Lexer, c: char)
    requires Shows(memory, starts, l) && c != '\0'
    ensures Shows(memory + Written(l, c), starts + Started(l, c, |memory|), Feed(l, c))
  {
    assert memory + [] == memory && starts + [] == starts;
    ShowsBegin(memory, starts, l);
    if l.inQuotes || !IsQuote(c) {
      if !l.inQuotes && IsBlank(c) {
        ShowsEnd(memory, starts, l);
      } else {
        ShowsAppend(memory, starts + Started(l, c, |memory|), l.Begin(), c);
      }
    }
  }

  /** The memory is allocated in advance, from the length of the command line only. */
  method CommandLineToArgv(cmdLine: string) returns (memory: array<char>, argv: array<nat>, argc: nat)
    requires '\0' !in cmdLine
    ensures argc == |Arguments(cmdLine)| && argc < argv.Length
    ensures forall k :: 0 <= k < argc ==> Holds(memory[..], argv[k], Arguments(cmdLine)[k])
  {
    hide Shows, Holds, Feed, FeedAll, IsQuote, IsBlank;
    var len := |cmdLine|;
    memory := new char[len + 2];
    argv := new nat[(len + 2) / 2 + 1];
    argc := 0;
    var inQuotes, inText, inSpace := false, false, true;
    var i, j: nat := 0, 0;
    ghost var l := START;
    ShowsStart(memory[..0], argv[..0]);
    assert cmdLine[0..] == cmdLine;
    while i < len
      invariant i <= len && j <= i && 2 * argc <= (if inText then i + 1 else i)
      invariant inSpace == !inText && l.Valid() && l.inText == inText && l.inQuotes == inQuotes
      invariant argc == |l.argv| && Shows(memory[..j], argv[..argc], l)
      invariant FeedAll(START, cmdLine) == FeedAll(l, cmdLine[i..])
    {
      var a := cmdLine[i];
      assert cmdLine[i..][1..] == cmdLine[i + 1..];
      FeedFirst(l, cmdLine[i..]);
      FeedFlags(l, a);
      ghost var b, s := memory[..j], argv[..argc];
      ShowsStep(b, s, l, a);
      if inQuotes {
        if IsQuote(a) {
          inQuotes := false;
        } else {
          memory[j] := a;
          j := j + 1;
        }
      } else if IsQuote(a) {
        inQuotes, inText := true, true;
        if inSpace {
          argv[argc] := j;
          argc := argc + 1;
        }
        inSpace := false;
      } else if IsBlank(a) {
        if inText {
          memory[j] := '\0';
          j := j + 1;
        }
        inText, inSpace := false, true;
      } else {
        inText := true;
        if inSpace {
          argv[argc] := j;
          argc := argc + 1;
        }
        memory[j] := a;
        j := j + 1;
        inSpace := false;
      }
      assert memory[..j] == b + Written(l, a) && argv[..argc] == s + Started(l, a, |b|);
      l := Feed(l, a);
      i := i + 1;
    }
    assert cmdLine[i..] == "";
    FeedEmpty(l);
    assert Arguments(cmdLine) == l.argv;
    ghost var b := memory[..j];
    ShowsEnd(b, argv[..argc], l);
    memory[j] := '\0';
    assert memory[..j + 1] == b + ['\0'];
    HoldWhole(memory[..], j + 1, argv[..argc], l.argv);
  }

  lemma {:induction false} ShowsStart(memory: seq<char>, starts: seq<nat>)
    requires memory == [] && starts == []
    ensures Shows(memory, starts, START)
  {
  }

  lemma {:induction false} FeedFirst(l: Lexer, s: string)
    requires l.Valid() && s != ""
    ensures FeedAll(l, s) == FeedAll(Feed(l, s[0]), s[1..])
  {
  }

  lemma {:induction false} FeedFlags(l: Lexer, c: char)
    requires l.Valid()
    ensures var l' := Feed(l, c);
            && l'.inQuotes == (if IsQuote(c) then !l.inQuotes else l.inQuotes)
            && l'.inText == (l.inQuotes || IsQuote(c) || !IsBlank(c))
            && |l'.argv| == |l.argv| + |Started(l, c, 0)|
  {
  }

  lemma {:induction false} HoldWhole(memory: seq<char>, n: nat, starts: seq<nat>, argv: seq<string>)
    requires n <= |memory| && |starts| == |argv|
    requires forall k :: 0 <= k < |starts| ==> Holds(memory[..n], starts[k], argv[k])
    ensures forall k :: 0 <= k < |starts| ==> Holds(memory, starts[k], argv[k])
  {
    forall k | 0 <= k < |starts|
      ensures Holds(memory, starts[k], argv[k])
    {
      assert Holds(memory[..n], starts[k], argv[k]);
      assert memory[..n][starts[k]..starts[k] + |argv[k]|] == memory[starts[k]..starts[k] + |argv[k]|];
    }
  }

  /** The arguments as a program reads them, each up to the zero behind it. */
  method ReadArguments(cmdLine: string) returns (arguments: seq<string>)
    requires '\0' !in cmdLine
    ensures arguments == Arguments(cmdLine)
  {
    var memory, argv, argc := CommandLineToArgv(cmdLine);
    arguments := [];
    for k := 0 to argc
      invariant arguments == Arguments(cmdLine)[..k]
      invariant argc == |Arguments(cmdLine)| && argc < argv.Length
      invariant forall m :: 0 <= m < argc ==> Holds(memory[..], argv[m], Arguments(cmdLine)[m])
    {
      var arg := ReadFrom(memory, argv[k], Arguments(cmdLine)[k]);
      arguments := arguments + [arg];
    }
  }

  method ReadFrom(memory: array<char>, at: nat, ghost text: string) returns (arg: string)
    requires Holds(memory[..], at, text)
    ensures arg == text
  {
    assert forall m :: at <= m < at + |text| ==> memory[m] == memory[..][at..at + |text|][m - at] == text[m - at];
    var i := at;
    while memory[i] != '\0'
      invariant at <= i <= at + |text| < memory.Length && memory[at + |text|] == '\0'
      invariant i < at + |text| ==> memory[i] != '\0'
      decreases at + |text| - i
    {
      i := i + 1;
    }
    arg := memory[at..i];
    assert memory[at..at + |text|] == memory[..][at..at + |text|];
  }
}
