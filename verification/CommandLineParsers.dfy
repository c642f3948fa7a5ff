/** A parser for command lines that is made of parsers for options and for arguments. */
module CommandLineParsers {
  import opened TokenStreams

  /** What happens when a parser's variable is set: it can refuse the text, or stop the parsing. */
  datatype Outcome = Accepted | Stop | Refused(message: string)

  datatype Parser =
    | OptParser(names: seq<string>, isFlag: bool, isContainer: bool, set1: string -> Outcome)
    | ArgParser(isContainer: bool, set1: string -> Outcome)
  {
    /** What is wrong with the names of an option, if anything. */
    function Fault(): string {
      if ArgParser? then "" else if names == [] then "No options supplied to Opt" else FaultOf(names)
    }

    /** Containers can be set any number of times. */
    predicate Available(count: nat) {
      isContainer || count < 1
    }
  }

  /** What is wrong with the first name that has a fault. */
  function FaultOf(names: seq<string>): string {
    if names == [] then ""
    else if names[0] == "" then "Option name cannot be empty"
    else if names[0][0] != '-' then "Option name must begin with '-'"
    else FaultOf(names[1..])
  }

  /** What one parser makes of the first tokens. */
  datatype Try = NoMatch | Match(taken: nat) | ShortCircuit | Failure(message: string)

  function Settle(outcome: Outcome, taken: nat, mayStop: bool): Try {
    match outcome
    case Accepted => Match(taken)
    case Stop => if mayStop then ShortCircuit else Match(taken)
    case Refused(message) => Failure(message)
  }

  function TryParser(p: Parser, tokens: seq<Token>): (t: Try)
    requires tokens != []
    ensures t.Match? ==> 1 <= t.taken <= |tokens|
  {
    if p.Fault() != "" then Failure(p.Fault())
    else if p.ArgParser? then
      if tokens[0].Argument? then Settle(p.set1(tokens[0].text), 1, false) else NoMatch
    else if tokens[0].Argument? || tokens[0].text !in p.names then NoMatch
    else if p.isFlag then Settle(p.set1("true"), 1, true)
    else if |tokens| < 2 || tokens[1].Option? then Failure("Expected argument following " + tokens[0].text)
    else Settle(p.set1(tokens[1].text), 2, true)
  }

  type Counts = seq<nat>

  /** The parser is used up, or has nothing to do with the first token. */
  predicate Passes(p: Parser, count: nat, tokens: seq<Token>)
    requires tokens != []
  {
    p.Available(count) ==> TryParser(p, tokens).NoMatch?
  }

  /** The first parser from i on that is available and does something; its number is |parsers| if there is none. */
  function FirstTry(parsers: seq<Parser>, counts: Counts, tokens: seq<Token>, i: nat): (r: (Try, nat))
    requires tokens != [] && |counts| == |parsers| && i <= |parsers|
    ensures i <= r.1 <= |parsers| && (r.0.NoMatch? <==> r.1 == |parsers|) && (r.0.Match? ==> 1 <= r.0.taken <= |tokens|)
    ensures r.1 < |parsers| ==> parsers[r.1].Available(counts[r.1]) && r.0 == TryParser(parsers[r.1], tokens)
    ensures forall j :: i <= j < r.1 ==> Passes(parsers[j], counts[j], tokens)
    decreases |parsers| - i
  {
    if i == |parsers| then (NoMatch, i)
    else if Passes(parsers[i], counts[i], tokens) then FirstTry(parsers, counts, tokens, i + 1)
    else (TryParser(parsers[i], tokens), i)
  }

  /** One parser has taken some tokens. */
  datatype Use = Use(parser: nat, tokens: seq<Token>)

  datatype Parsed = Complete(uses: seq<Use>) | Stopped(uses: seq<Use>) | Failed(message: string)

  function Unrecognised(t: Token): string {
    "Unrecognised token: " + t.text
  }

  function ParseFrom(parsers: seq<Parser>, counts: Counts, tokens: seq<Token>, uses: seq<Use>): Parsed
    requires |counts| == |parsers|
    decreases |tokens|
  {
    if tokens == [] then Complete(uses)
    else
      var (t, i) := FirstTry(parsers, counts, tokens, 0);
      match t
      case Match(taken) =>
        ParseFrom(parsers, counts[i := counts[i] + 1], tokens[taken..], uses + [Use(i, tokens[..taken])])
      case ShortCircuit => Stopped(uses)
      case Failure(message) => Failed(message)
      case NoMatch => Failed(Unrecognised(tokens[0]))
  }

  function Zeros(n: nat): (r: Counts)
    ensures |r| == n && forall i :: 0 <= i < n ==> r[i] == 0
  {
    if n == 0 then [] else Zeros(n - 1) + [0]
  }

  function ParseTokens(parsers: seq<Parser>, tokens: seq<Token>): Parsed {
    ParseFrom(parsers, Zeros(|parsers|), tokens, [])
  }

  // ---------- What parsing guarantees ----------

  function Taken(uses: seq<Use>): seq<Token> {
    if uses == [] then [] else Taken(uses[..|uses| - 1]) + uses[|uses| - 1].tokens
  }

  function TimesUsed(uses: seq<Use>, i: nat): nat {
    if uses == [] then 0
    else TimesUsed(uses[..|uses| - 1], i) + if uses[|uses| - 1].parser == i then 1 else 0
  }

  /** Every use fits its parser. */
  predicate IsProper(parsers: seq<Parser>, u: Use) {
    && u.parser < |parsers| && u.tokens != []
    && match parsers[u.parser]
       case OptParser(names, isFlag, _, _) =>
         && u.tokens[0].Option? && u.tokens[0].text in names
         && if isFlag then |u.tokens| == 1 else |u.tokens| == 2 && u.tokens[1].Argument?
       case ArgParser(_, _) => |u.tokens| == 1 && u.tokens[0].Argument?
  }

  predicate AllProper(parsers: seq<Parser>, uses: seq<Use>) {
    forall k :: 0 <= k < |uses| ==> IsProper(parsers, uses[k])
  }

  /** Every use fits its parser, and only containers are used more than once. */
  predicate UsedRightly(parsers: seq<Parser>, uses: seq<Use>) {
    && AllProper(parsers, uses)
    && forall i :: 0 <= i < |parsers| ==> parsers[i].isContainer || TimesUsed(uses, i) <= 1
  }

  predicate CountsAre(parsers: seq<Parser>, counts: Counts, uses: seq<Use>) {
    |counts| == |parsers|
    && forall i :: 0 <= i < |parsers| ==> counts[i] == TimesUsed(uses, i) && (parsers[i].isContainer || counts[i] <= 1)
  }

  lemma {:induction false} UseMore(uses: seq<Use>, u: Use)
    ensures Taken(uses + [u]) == Taken(uses) + u.tokens
    ensures forall i :: TimesUsed(uses + [u], i) == TimesUsed(uses, i) + if u.parser == i then 1 else 0
  {
    assert (uses + [u])[..|uses|] == uses;
  }

  lemma {:induction false} MatchIsProper(parsers: seq<Parser>, i: nat, tokens: seq<Token>)
    requires i < |parsers| && tokens != [] && TryParser(parsers[i], tokens).Match?
    ensures IsProper(parsers, Use(i, tokens[..TryParser(parsers[i], tokens).taken]))
  {
  }

  lemma {:induction false} ProperMore(parsers: seq<Parser>, uses: seq<Use>, i: nat, tokens: seq<Token>)
    requires AllProper(parsers, uses)
    requires i < |parsers| && tokens != [] && TryParser(parsers[i], tokens).Match?
    ensures AllProper(parsers, uses + [Use(i, tokens[..TryParser(parsers[i], tokens).taken])])
  {
    hide TryParser, IsProper;
    MatchIsProper(parsers, i, tokens);
  }

  lemma {:induction false} Rejoin(taken: seq<Token>, tokens: seq<Token>, n: nat)
    requires n <= |tokens|
    ensures (taken + tokens[..n]) + tokens[n..] == taken + tokens
  {
    assert tokens[..n] + tokens[n..] == tokens;
  }

  lemma {:induction false} CountsMore(parsers: seq<Parser>, counts: Counts, uses: seq<Use>, u: Use)
    requires CountsAre(parsers, counts, uses) && u.parser < |parsers|
    requires parsers[u.parser].Available(counts[u.parser])
    ensures CountsAre(parsers, counts[u.parser := counts[u.parser] + 1], uses + [u])
  {
    UseMore(uses, u);
  }

  lemma {:induction false} ParseFromUses(parsers: seq<Parser>, counts: Counts, tokens: seq<Token>,
                                         uses: seq<Use>, all: seq<Token>)
    requires CountsAre(parsers, counts, uses) && AllProper(parsers, uses) && Taken(uses) + tokens == all
    ensures var r := ParseFrom(parsers, counts, tokens, uses);
            !r.Failed? ==> UsedRightly(parsers, r.uses) && (r.Complete? ==> Taken(r.uses) == all) && Taken(r.uses) <= all
    decreases |tokens|
  {
    hide UsedRightly, TryParser, AllProper, Taken, TimesUsed, CountsAre;
    UsesAreRight(parsers, counts, uses);
    if tokens != [] {
      var (t, i) := FirstTry(parsers, counts, tokens, 0);
      if t.Match? {
        var u := Use(i, tokens[..t.taken]);
        UseMore(uses, u);
        CountsMore(parsers, counts, uses, u);
        ProperMore(parsers, uses, i, tokens);
        Rejoin(Taken(uses), tokens, t.taken);
        ParseFromUses(parsers, counts[i := counts[i] + 1], tokens[t.taken..], uses + [u], all);
      }
    } else {
      assert Taken(uses) + [] == Taken(uses);
    }
  }

  lemma {:induction false} UsesAreRight(parsers: seq<Parser>, counts: Counts, uses: seq<Use>)
    requires CountsAre(parsers, counts, uses) && AllProper(parsers, uses)
    ensures UsedRightly(parsers, uses) && |counts| == |parsers|
  {
    hide TimesUsed, IsProper;
  }

  /** If parsing completes, every token was taken by one parser that it fits, in order; and what is not a
      container was used once at most. */
  lemma {:induction false} ParsedUses(parsers: seq<Parser>, tokens: seq<Token>)
    ensures var r := ParseTokens(parsers, tokens);
            !r.Failed? ==>
              UsedRightly(parsers, r.uses) && (r.Complete? ==> Taken(r.uses) == tokens) && Taken(r.uses) <= tokens
  {
    assert [] + tokens == tokens;
    ParseFromUses(parsers, Zeros(|parsers|), tokens, [], tokens);
  }

  // ---------- The program ----------

  /** Goes through the names of an option. */
  method Validate(p: Parser) returns (fault: string)
    ensures fault == p.Fault()
  {
    if p.ArgParser? {
      return "";
    }
    if p.names == [] {
      return "No options supplied to Opt";
    }
    for i := 0 to |p.names|
      invariant FaultOf(p.names[i..]) == FaultOf(p.names)
    {
      assert p.names[i..][1..] == p.names[i + 1..];
      if p.names[i] == "" {
        return "Option name cannot be empty";
      }
      if p.names[i][0] != '-' {
        return "Option name must begin with '-'";
      }
    }
    fault := "";
  }

  /** One parser, on a copy of the stream that is moved on if it matches. */
  method TryOn(p: Parser, tokens: TokenStream) returns (t: Try, used: seq<Token>, remaining: TokenStream)
    requires tokens.Valid() && tokens.Remaining() != []
    ensures fresh(remaining) && remaining.Valid()
    ensures t == TryParser(p, tokens.Remaining())
    ensures t.Match? ==> used == tokens.Remaining()[..t.taken] && remaining.Remaining() == tokens.Remaining()[t.taken..]
    ensures t.NoMatch? ==> remaining.Remaining() == tokens.Remaining()
  {
    hide TokenStream.Remaining, TokenStream.Valid;
    used := [];
    remaining := new TokenStream.Copy(tokens);
    ghost var all := tokens.Remaining();
    remaining.Front();
    var fault := Validate(p);
    if fault != "" {
      return Failure(fault), [], remaining;
    }
    var token := remaining.tokenBuffer[0];
    match p {
      case ArgParser(_, set1) =>
        if token.Option? {
          return NoMatch, [], remaining;
        }
        t := Settle(set1(token.text), 1, false);
        if t.Match? {
          used := [token];
          remaining.Advance();
        }
      case OptParser(names, isFlag, _, set1) =>
        if token.Argument? || token.text !in names {
          return NoMatch, [], remaining;
        }
        if isFlag {
          t := Settle(set1("true"), 1, true);
          used := [token];
        } else {
          remaining.Advance();
          remaining.Front();
          if !remaining.More() || remaining.tokenBuffer[0].Option? {
            return Failure("Expected argument following " + token.text), [], remaining;
          }
          t := Settle(set1(remaining.tokenBuffer[0].text), 2, true);
          used := [token, remaining.tokenBuffer[0]];
        }
        if t.Match? {
          remaining.Advance();
        }
    }
  }

  /** Offers the first tokens to every parser that is available, until one does something. */
  method TryAll(parsers: seq<Parser>, counts: Counts, tokens: TokenStream)
    returns (t: Try, i: nat, used: seq<Token>, remaining: TokenStream)
    requires tokens.Valid() && tokens.Remaining() != [] && |counts| == |parsers|
    ensures fresh(remaining) && remaining.Valid()
    ensures (t, i) == FirstTry(parsers, counts, tokens.Remaining(), 0)
    ensures t.Match? ==> used == tokens.Remaining()[..t.taken] && remaining.Remaining() == tokens.Remaining()[t.taken..]
  {
    hide TokenStream.Remaining, TokenStream.Valid, TryParser;
    i := 0;
    while i < |parsers|
      invariant i <= |parsers|
      invariant FirstTry(parsers, counts, tokens.Remaining(), i) == FirstTry(parsers, counts, tokens.Remaining(), 0)
    {
      if parsers[i].Available(counts[i]) {
        t, used, remaining := TryOn(parsers[i], tokens);
        if !t.NoMatch? {
          return;
        }
      }
      i := i + 1;
    }
    t, used := NoMatch, [];
    remaining := new TokenStream.Copy(tokens);
  }

  /** Every token is offered to the parsers in turn, until none is left. */
  method Parse(parsers: seq<Parser>, tokens: TokenStream) returns (result: Parsed)
    requires tokens.Valid()
    ensures result == ParseTokens(parsers, tokens.Remaining())
  {
    hide TokenStream.Remaining, TokenStream.Valid, FirstTry, ParseFrom;
    var counts := Zeros(|parsers|);
    var uses: seq<Use> := [];
    var remaining := new TokenStream.Copy(tokens);
    ghost var all := tokens.Remaining();
    remaining.Front();
    while remaining.More()
      invariant fresh(remaining) && remaining.Valid() && |counts| == |parsers|
      invariant remaining.More() <==> remaining.Remaining() != []
      invariant ParseFrom(parsers, counts, remaining.Remaining(), uses) == ParseTokens(parsers, all)
      decreases |remaining.Remaining()|
    {
      remaining.Front();
      ParseStep(parsers, counts, remaining.Remaining(), uses);
      var t, i, used, next := TryAll(parsers, counts, remaining);
      match t {
        case NoMatch => return Failed(Unrecognised(remaining.tokenBuffer[0]));
        case ShortCircuit => return Stopped(uses);
        case Failure(message) => return Failed(message);
        case Match(_) =>
          counts, uses := counts[i := counts[i] + 1], uses + [Use(i, used)];
          remaining := next;
          remaining.Front();
      }
    }
    ParseEnd(parsers, counts, uses);
    result := Complete(uses);
  }

  lemma {:induction false} ParseStep(parsers: seq<Parser>, counts: Counts, tokens: seq<Token>, uses: seq<Use>)
    requires |counts| == |parsers| && tokens != []
    ensures var (t, i) := FirstTry(parsers, counts, tokens, 0);
            ParseFrom(parsers, counts, tokens, uses) ==
            match t
            case Match(taken) =>
              ParseFrom(parsers, counts[i := counts[i] + 1], tokens[taken..], uses + [Use(i, tokens[..taken])])
            case ShortCircuit => Stopped(uses)
            case Failure(message) => Failed(message)
            case NoMatch => Failed(Unrecognised(tokens[0]))
  {
    hide FirstTry;
  }

  lemma {:induction false} ParseEnd(parsers: seq<Parser>, counts: Counts, uses: seq<Use>)
    requires |counts| == |parsers|
    ensures ParseFrom(parsers, counts, [], uses) == Complete(uses)
  {
  }
}
