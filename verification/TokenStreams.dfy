/** Command line arguments as a stream of tokens. */
module TokenStreams {

  datatype Token = Option(text: string) | Argument(text: string)

  predicate IsOptPrefix(c: char) {
    c == '-'
  }

  predicate IsDelimiter(c: char) {
    c == ' ' || c == ':' || c == '='
  }

  function FirstDelimiter(s: string): (k: nat)
    ensures k <= |s| && (k < |s| ==> IsDelimiter(s[k])) && forall i :: 0 <= i < k ==> !IsDelimiter(s[i])
  {
    if s == "" || IsDelimiter(s[0]) then 0 else 1 + FirstDelimiter(s[1..])
  }

  function Letters(s: string): (r: seq<Token>)
    ensures |r| == |s|
  {
    if s == "" then [] else Letters(s[..|s| - 1]) + [Option(['-', s[|s| - 1]])]
  }

  /** The tokens of one argument: an option with its value, options of one letter, an option, or an argument. */
  function Expand(arg: string): (r: seq<Token>)
    requires arg != ""
    ensures r != []
  {
    if !IsOptPrefix(arg[0]) then [Argument(arg)]
    else
      var k := FirstDelimiter(arg);
      if k < |arg| then [Option(arg[..k]), Argument(arg[k + 1..])]
      else if |arg| > 2 && arg[1] != '-' then Letters(arg[1..])
      else [Option(arg)]
  }

  /** Empty arguments are skipped. */
  function ExpandAll(args: seq<string>): seq<Token> {
    if args == [] then [] else (if args[0] == "" then [] else Expand(args[0])) + ExpandAll(args[1..])
  }

  class TokenStream {
    const args: seq<string>
    var it: nat
    var tokenBuffer: seq<Token>

    ghost predicate Valid()
      reads this
    {
      it <= |args| && (it == |args| <==> tokenBuffer == [])
    }

    /** The tokens to come. */
    ghost function Remaining(): seq<Token>
      requires Valid()
      reads this
    {
      tokenBuffer + if it == |args| then [] else ExpandAll(args[it + 1..])
    }

    constructor (args: seq<string>)
      ensures Valid() && Remaining() == ExpandAll(args) && this.args == args
    {
      this.args, it, tokenBuffer := args, 0, [];
      new;
      LoadBuffer();
      assert args[0..] == args;
    }

    constructor Copy(other: TokenStream)
      requires other.Valid()
      ensures Valid() && Remaining() == other.Remaining()
    {
      args, it, tokenBuffer := other.args, other.it, other.tokenBuffer;
    }

    method LoadBuffer()
      requires it <= |args|
      modifies this
      ensures Valid() && Remaining() == ExpandAll(args[old(it)..])
    {
      hide Expand;
      ghost var from := it;
      tokenBuffer := [];
      while it < |args| && args[it] == ""
        invariant it <= |args| && tokenBuffer == [] && ExpandAll(args[it..]) == ExpandAll(args[from..])
      {
        assert args[it..][1..] == args[it + 1..];
        it := it + 1;
      }
      if it < |args| {
        tokenBuffer := Load(args[it]);
        assert args[it..][1..] == args[it + 1..];
      } else {
        assert args[it..] == [];
      }
    }

    predicate More()
      reads this
    {
      tokenBuffer != [] || it < |args|
    }

    /** Whether there are more tokens, and which one is first. */
    lemma {:induction false} Front()
      requires Valid()
      ensures More() <==> Remaining() != []
      ensures More() ==> tokenBuffer != [] && tokenBuffer[0] == Remaining()[0]
    {
    }

    method Advance()
      requires Valid() && More()
      modifies this
      ensures Valid() && Remaining() == old(Remaining())[1..]
    {
      hide ExpandAll;
      if |tokenBuffer| >= 2 {
        tokenBuffer := tokenBuffer[1..];
      } else {
        if it < |args| {
          it := it + 1;
        }
        LoadBuffer();
      }
    }
  }

  method Load(arg: string) returns (buffer: seq<Token>)
    requires arg != ""
    ensures buffer == Expand(arg)
  {
    if IsOptPrefix(arg[0]) {
      var delimiterPos := FirstDelimiter(arg);
      if delimiterPos < |arg| {
        buffer := [Option(arg[..delimiterPos]), Argument(arg[delimiterPos + 1..])];
      } else if |arg| > 2 && arg[1] != '-' {
        buffer := [];
        for i := 1 to |arg|
          invariant buffer == Letters(arg[1..i])
        {
          assert arg[1..i + 1][..i - 1] == arg[1..i];
          buffer := buffer + [Option(['-', arg[i]])];
        }
        assert arg[1..|arg|] == arg[1..];
      } else {
        buffer := [Option(arg)];
      }
    } else {
      buffer := [Argument(arg)];
    }
  }

  lemma {:induction false} Shift(tokens: seq<Token>, rest: seq<Token>)
    ensures rest != [] ==> (tokens + [rest[0]]) + rest[1..] == tokens + rest
    ensures tokens + [] == tokens && [] + rest == rest
  {
  }

  /** Reading token by token gives the expansions of all arguments that are not empty. */
  method ReadAll(args: seq<string>) returns (tokens: seq<Token>)
    ensures tokens == ExpandAll(args)
  {
    hide ExpandAll, TokenStream.Remaining;
    var stream := new TokenStream(args);
    tokens := [];
    stream.Front();
    Shift(tokens, stream.Remaining());
    while stream.More()
      invariant stream.Valid() && fresh(stream) && (stream.More() <==> stream.Remaining() != [])
      invariant tokens + stream.Remaining() == ExpandAll(args)
      decreases |stream.Remaining()|
    {
      stream.Front();
      Shift(tokens, stream.Remaining());
      tokens := tokens + [stream.tokenBuffer[0]];
      stream.Advance();
      stream.Front();
    }
    Shift(tokens, []);
  }

  // ---------- Different ways to write options ----------

  lemma {:induction false} FirstDelimiterIs(s: string, k: nat)
    requires k <= |s| && (k < |s| ==> IsDelimiter(s[k])) && forall i :: 0 <= i < k ==> !IsDelimiter(s[i])
    ensures FirstDelimiter(s) == k
  {
    if k > 0 {
      FirstDelimiterIs(s[1..], k - 1);
    }
  }

  /** Nothing in it sets off a value. */
  predicate IsUndivided(s: string) {
    ' ' !in s && ':' !in s && '=' !in s
  }

  /** An option and its value may be one argument, whatever the value is. */
  lemma {:induction false} OptionWithValue(name: string, delimiter: char, value: string)
    requires name != "" && name[0] == '-' && delimiter in {' ', ':', '='} && IsUndivided(name)
    ensures Expand(name + [delimiter] + value) == [Option(name), Argument(value)]
  {
    var arg := name + [delimiter] + value;
    FirstDelimiterIs(arg, |name|);
    assert arg[..|name|] == name && arg[|name| + 1..] == value;
  }

  function OneLetterEach(letters: string): seq<string> {
    if letters == "" then [] else OneLetterEach(letters[..|letters| - 1]) + [['-', letters[|letters| - 1]]]
  }

  lemma {:induction false} ExpandAllConcat(a: seq<string>, b: seq<string>)
    ensures ExpandAll(a + b) == ExpandAll(a) + ExpandAll(b)
  {
    if a == [] {
      assert a + b == b;
    } else {
      assert (a + b)[1..] == a[1..] + b && (a + b)[0] == a[0];
      ExpandAllConcat(a[1..], b);
    }
  }

  lemma {:induction false} LettersExpand(letters: string)
    requires IsUndivided(letters)
    ensures ExpandAll(OneLetterEach(letters)) == Letters(letters)
  {
    if letters != "" {
      var n := |letters| - 1;
      LettersExpand(letters[..n]);
      var one := ['-', letters[n]];
      ExpandAllConcat(OneLetterEach(letters[..n]), [one]);
      FirstDelimiterIs(one, 2);
      assert ExpandAll([one]) == Expand(one) + ExpandAll([one][1..]) == [Option(one)];
    }
  }

  /** Options of one letter may be put together. */
  lemma {:induction false} LettersTogether(letters: string)
    requires |letters| >= 2 && letters[0] != '-' && IsUndivided(letters)
    ensures Expand("-" + letters) == ExpandAll(OneLetterEach(letters))
    ensures Expand("-" + letters) == OptionPerLetter(letters)
  {
    var arg := "-" + letters;
    assert arg[1..] == letters;
    FirstDelimiterIs(arg, |arg|);
    LettersExpand(letters);
    PerLetter(letters);
  }

  // ---------- Reading what was written ----------

  function OptionPerLetter(letters: string): seq<Token> {
    seq(|letters|, i requires 0 <= i < |letters| => Option("-" + [letters[i]]))
  }

  lemma {:induction false} PerLetter(letters: string)
    ensures Letters(letters) == OptionPerLetter(letters)
  {
    if letters != "" {
      var n := |letters| - 1;
      PerLetter(letters[..n]);
      assert "-" + [letters[n]] == ['-', letters[n]];
      assert OptionPerLetter(letters) == OptionPerLetter(letters[..n]) + [Option("-" + [letters[n]])];
    }
  }

  /** Ways to write an argument. */
  datatype Given =
    | Nothing
    | Word(text: string)
    | Alone(name: string)
    | Valued(name: string, delimiter: char, value: string)
    | Grouped(letters: string)
  {
    predicate IsProper() {
      match this
      case Nothing => true
      case Word(text) => text != "" && text[0] != '-'
      case Alone(name) => IsUndivided(name) && (|name| <= 1 || name[0] == '-')
      case Valued(name, delimiter, _) => delimiter in {' ', ':', '='} && IsUndivided(name)
      case Grouped(letters) => |letters| >= 2 && letters[0] != '-' && IsUndivided(letters)
    }

    function Written(): string {
      match this
      case Nothing => ""
      case Word(text) => text
      case Alone(name) => "-" + name
      case Valued(name, delimiter, value) => "-" + name + [delimiter] + value
      case Grouped(letters) => "-" + letters
    }

    function Meant(): seq<Token> {
      match this
      case Nothing => []
      case Word(text) => [Argument(text)]
      case Alone(name) => [Option("-" + name)]
      case Valued(name, _, value) => [Option("-" + name), Argument(value)]
      case Grouped(letters) => OptionPerLetter(letters)
    }
  }

  function AllWritten(given: seq<Given>): seq<string> {
    if given == [] then [] else [given[0].Written()] + AllWritten(given[1..])
  }

  function AllMeant(given: seq<Given>): seq<Token> {
    if given == [] then [] else given[0].Meant() + AllMeant(given[1..])
  }

  lemma {:induction false} AloneIsRead(name: string)
    requires IsUndivided(name) && (|name| <= 1 || name[0] == '-')
    ensures Expand("-" + name) == [Option("-" + name)]
  {
    FirstDelimiterIs("-" + name, 1 + |name|);
  }

  lemma {:induction false} OneIsRead(g: Given)
    requires g.IsProper()
    ensures ExpandAll([g.Written()]) == g.Meant()
  {
    hide Expand, IsUndivided, OptionPerLetter;
    var arg := g.Written();
    assert [arg][1..] == [] && ExpandAll([]) == [];
    match g {
      case Nothing =>
      case Word(text) => WordIsRead(text);
      case Alone(name) => AloneIsRead(name);
      case Valued(name, delimiter, value) =>
        DashedIsUndivided(name);
        OptionWithValue("-" + name, delimiter, value);
      case Grouped(letters) => LettersTogether(letters);
    }
  }

  lemma {:induction false} DashedIsUndivided(name: string)
    requires IsUndivided(name)
    ensures IsUndivided("-" + name)
  {
  }

  lemma {:induction false} WordIsRead(text: string)
    requires text != "" && text[0] != '-'
    ensures Expand(text) == [Argument(text)]
  {
  }

  /** Every argument that is not empty is read as what it is written for: a word, an option alone or with a value, or
      several options of one letter. */
  lemma {:induction false} GivenIsRead(given: seq<Given>)
    requires forall g :: g in given ==> g.IsProper()
    ensures ExpandAll(AllWritten(given)) == AllMeant(given)
    decreases given
  {
    if given != [] {
      hide Expand;
      GivenIsRead(given[1..]);
      OneIsRead(given[0]);
      ExpandAllConcat([given[0].Written()], AllWritten(given[1..]));
    }
  }

  /** Where the delimiter of a given argument is, or its end. */
  lemma {:induction false} DelimiterOf(g: Given)
    requires g.IsProper() && !g.Word? && !g.Nothing?
    ensures var k := FirstDelimiter(g.Written());
            if g.Valued? then 0 < k < |g.Written()| && g == Valued(g.Written()[1..k], g.Written()[k], g.Written()[k + 1..])
            else k == |g.Written()| > 0 && g.Written()[1..] == if g.Alone? then g.name else g.letters
  {
    var arg := g.Written();
    match g {
      case Alone(name) => FirstDelimiterIs(arg, |arg|);
      case Grouped(letters) => FirstDelimiterIs(arg, |arg|);
      case Valued(name, delimiter, value) =>
        FirstDelimiterIs(arg, 1 + |name|);
        assert arg[1..1 + |name|] == name && arg[2 + |name|..] == value;
    }
  }

  lemma {:induction false} Unambiguous(g: Given, h: Given)
    requires g.IsProper() && h.IsProper() && g.Written() == h.Written()
    ensures g == h
  {
    if !g.Word? && !g.Nothing? && !h.Word? && !h.Nothing? {
      DelimiterOf(g);
      DelimiterOf(h);
      hide IsUndivided, FirstDelimiter;
    }
  }

  /** Every argument can be written in just one of these ways. */
  lemma {:induction false} EveryArgument(arg: string) returns (g: Given)
    ensures g.IsProper() && g.Written() == arg
    ensures forall h: Given :: h.IsProper() && h.Written() == arg ==> h == g
  {
    var k := FirstDelimiter(arg);
    if arg == "" {
      g := Nothing;
    } else if arg[0] != '-' {
      g := Word(arg);
    } else if k < |arg| {
      g := Valued(arg[1..k], arg[k], arg[k + 1..]);
    } else if |arg| > 2 && arg[1] != '-' {
      g := Grouped(arg[1..]);
    } else {
      g := Alone(arg[1..]);
    }
    assert g.IsProper() && g.Written() == arg;
    forall h: Given | h.IsProper() && h.Written() == arg
      ensures h == g
    {
      Unambiguous(g, h);
    }
  }
}
