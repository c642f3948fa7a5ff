/** The test specification parser as the program has it: an object whose fields change with every character. */
module TestSpecParsers {
  import opened TestSpecs

  class TestSpecParser {
    var mode: Mode
    var exclusion: bool
    var start: nat
    var pos: nat
    var arg: string
    var escapeChars: seq<nat>
    var currentFilter: Filter
    var filters: seq<Filter>

    constructor ()
      ensures View() == NEW
    {
      mode, exclusion, start, pos, arg := Outside, false, NPOS, 0, "";
      escapeChars, currentFilter, filters := [], [], [];
    }

    ghost function View(): State
      reads this
    {
      State(mode, exclusion, start, pos, arg, escapeChars, currentFilter, filters)
    }

    /** `expanded` is the argument with tag aliases expanded. */
    method Parse(expanded: string)
      modifies this
      ensures View() == TestSpecs.Parse(old(View()), expanded)
    {
      hide Without, TestSpecs.VisitChar, TestSpecs.AddPattern, EscapesOk;
      mode, exclusion, start, arg, escapeChars := Outside, false, NPOS, expanded, [];
      pos := 0;
      while pos < |arg|
        invariant Ok(View()) && arg == expanded
        invariant Run(View()) == Run(Begin(old(View()), expanded))
        decreases |arg| - pos
      {
        StepOk(View());
        VisitChar(arg[pos]);
        pos := pos + 1;
      }
      if mode == Name {
        AddPattern(false);
      }
    }

    method TestSpec() returns (spec: seq<Filter>)
      modifies this`currentFilter, this`filters
      ensures spec == TestSpecs.TestSpec(old(View()))
    {
      AddFilter();
      return filters;
    }

    method VisitChar(c: char)
      requires Ok(View()) && pos < |arg|
      modifies this
      ensures View() == TestSpecs.VisitChar(old(View()), c)
    {
      if mode == Outside {
        match c {
          case ' ' => return;
          case '~' =>
            exclusion := true;
            return;
          case '[' =>
            pos := pos + 1;
            StartNewMode(Tag, pos);
            return;
          case '"' =>
            pos := pos + 1;
            StartNewMode(QuotedName, pos);
            return;
          case '\\' =>
            Escape();
            return;
          case _ =>
            StartNewMode(Name, pos);
        }
      }
      if mode == Name {
        if c == ',' {
          AddPattern(false);
          AddFilter();
        } else if c == '[' {
          if arg[start..pos] == EXCLUDE {
            exclusion := true;
          } else {
            AddPattern(false);
          }
          pos := pos + 1;
          StartNewMode(Tag, pos);
        } else if c == '\\' {
          Escape();
        }
      } else if mode == EscapedName {
        mode := Name;
      } else if mode == QuotedName && c == '"' {
        AddPattern(false);
      } else if mode == Tag && c == ']' {
        AddPattern(true);
      }
    }

    method StartNewMode(mode: Mode, start: nat)
      modifies this`mode, this`start
      ensures this.mode == mode && this.start == start
    {
      this.mode, this.start := mode, start;
    }

    method Escape()
      modifies this`mode, this`start, this`escapeChars
      ensures View() == TestSpecs.Escape(old(View()))
    {
      if mode == Outside {
        start := pos;
      }
      mode := EscapedName;
      escapeChars := escapeChars + [pos];
    }

    /** The current token, with the recorded backslashes cut out one by one, each at the place the earlier cuts have
        moved it to. */
    method TokenWithoutEscapes() returns (token: string)
      requires start <= pos <= |arg| && EscapesOk(View())
      ensures token == Without(arg[start..pos], start, escapeChars)
    {
      hide Without;
      token := arg[start..pos];
      EscapesWithin();
      WithoutNone(token, start, []);
      for i := 0 to |escapeChars|
        invariant token == Without(arg[start..pos], start, escapeChars[..i])
      {
        WithoutOneMore(arg[start..pos], start, escapeChars, i);
        var at := escapeChars[i] - start - i;
        token := token[..at] + token[at + 1..];
      }
      assert escapeChars[..|escapeChars|] == escapeChars;
    }

    method AddPattern(isTag: bool)
      requires start <= pos <= |arg| && EscapesOk(View())
      modifies this`mode, this`exclusion, this`escapeChars, this`currentFilter
      ensures View() == TestSpecs.AddPattern(old(View()), isTag)
    {
      var token := TokenWithoutEscapes();
      hide Without;
      escapeChars := [];
      if EXCLUDE <= token {
        exclusion := true;
        token := token[|EXCLUDE|..];
      }
      assert currentFilter + [] == currentFilter;
      if token != "" {
        var pattern := if isTag then TagPattern(token) else NamePattern(token);
        if exclusion {
          pattern := ExcludedPattern(pattern);
        }
        currentFilter := currentFilter + [pattern];
      }
      exclusion := false;
      mode := Outside;
    }

    lemma {:induction false} EscapesWithin()
      requires start <= pos <= |arg| && EscapesOk(View())
      ensures Within(escapeChars, start, arg[start..pos])
    {
    }

    method AddFilter()
      modifies this`currentFilter, this`filters
      ensures View() == TestSpecs.AddFilter(old(View()))
    {
      if currentFilter != [] {
        filters := filters + [currentFilter];
        currentFilter := [];
      }
    }
  }

  /** A new parser, given one argument. */
  method ParseTestSpec(arg: string) returns (spec: seq<Filter>)
    ensures spec == TestSpecs.ParseTestSpec(arg)
  {
    var parser := new TestSpecParser();
    parser.Parse(arg);
    spec := parser.TestSpec();
  }
}
