/** How parsing a command line comes out, told without going through the tokens. */
module CommandLineOutcomes {
  import opened TokenStreams
  import opened CommandLineParsers

  predicate NamesOk(names: seq<string>) {
    names != [] && forall name :: name in names ==> name != "" && name[0] == '-'
  }

  /** Containers can be used any number of times, everything else once. */
  predicate IsFree(parsers: seq<Parser>, uses: seq<Use>, i: nat)
    requires i < |parsers|
  {
    parsers[i].isContainer || forall u :: u in uses ==> u.parser != i
  }

  /** The parser reacts to the token, be it with a complaint about its own names. */
  predicate Acts(p: Parser, first: Token) {
    match p
    case ArgParser(_, _) => first.Argument?
    case OptParser(names, _, _, _) => !NamesOk(names) || (first.Option? && first.text in names)
  }

  predicate IsFirst(parsers: seq<Parser>, uses: seq<Use>, first: Token, i: nat) {
    && i < |parsers| && IsFree(parsers, uses, i) && Acts(parsers[i], first)
    && forall j :: 0 <= j < i && IsFree(parsers, uses, j) ==> !Acts(parsers[j], first)
  }

  /** The tokens are all right for the parser: an argument, a flag, or an option with its value. */
  predicate Took(p: Parser, tokens: seq<Token>) {
    match p
    case ArgParser(_, set1) => |tokens| == 1 && tokens[0].Argument? && !set1(tokens[0].text).Refused?
    case OptParser(names, isFlag, _, set1) =>
      && NamesOk(names) && tokens != [] && tokens[0].Option? && tokens[0].text in names
      && if isFlag then |tokens| == 1 && set1("true").Accepted?
         else |tokens| == 2 && tokens[1].Argument? && set1(tokens[1].text).Accepted?
  }

  /** Options can stop the parsing. */
  predicate Stops(p: Parser, rest: seq<Token>) {
    match p
    case ArgParser(_, _) => false
    case OptParser(names, isFlag, _, set1) =>
      && NamesOk(names) && rest != [] && rest[0].Option? && rest[0].text in names
      && if isFlag then set1("true").Stop? else |rest| >= 2 && rest[1].Argument? && set1(rest[1].text).Stop?
  }

  /** The names are at fault, the value is missing, or it is refused. */
  predicate Complains(p: Parser, rest: seq<Token>, message: string) {
    match p
    case ArgParser(_, set1) => rest != [] && rest[0].Argument? && set1(rest[0].text) == Refused(message)
    case OptParser(names, isFlag, _, set1) =>
      if !NamesOk(names) then message == p.Fault()
      else
        && rest != [] && rest[0].Option? && rest[0].text in names
        && if isFlag then set1("true") == Refused(message)
           else if |rest| < 2 || rest[1].Option? then message == "Expected argument following " + rest[0].text
           else set1(rest[1].text) == Refused(message)
  }

  /** Each of the parsers was the first to act on what it took. */
  predicate Explained(parsers: seq<Parser>, uses: seq<Use>) {
    uses != [] ==>
      var n, u := |uses| - 1, uses[|uses| - 1];
      && Explained(parsers, uses[..n]) && u.tokens != []
      && IsFirst(parsers, uses[..n], u.tokens[0], u.parser) && Took(parsers[u.parser], u.tokens)
  }

  /** How parsing ends with the rest of the tokens: there is none, or the first parser to act stops or complains, or
      there is no parser to act. */
  ghost predicate Ended(parsers: seq<Parser>, uses: seq<Use>, rest: seq<Token>, r: Parsed) {
    if rest == [] then r == Complete(uses)
    else if forall i: nat :: !IsFirst(parsers, uses, rest[0], i) then r == Failed("Unrecognised token: " + rest[0].text)
    else exists i: nat ::
      && IsFirst(parsers, uses, rest[0], i)
      && match r
         case Complete(_) => false
         case Stopped(before) => before == uses && Stops(parsers[i], rest)
         case Failed(message) => Complains(parsers[i], rest, message)
  }

  // ---------- One parser ----------

  lemma {:induction false} FaultMeans(names: seq<string>)
    ensures FaultOf(names) == "" <==> forall name :: name in names ==> name != "" && name[0] == '-'
  {
    if names != [] {
      FaultMeans(names[1..]);
      assert forall name :: name in names <==> name == names[0] || name in names[1..];
      assert names[0] in names;
      if names[0] == "" || names[0][0] != '-' {
        assert |FaultOf(names)| > 0;
      } else {
        assert FaultOf(names) == FaultOf(names[1..]);
      }
    }
  }

  lemma {:induction false} ActsExactly(p: Parser, tokens: seq<Token>)
    requires tokens != []
    ensures TryParser(p, tokens).NoMatch? <==> !Acts(p, tokens[0])
  {
    if p.OptParser? {
      FaultMeans(p.names);
    }
  }

  lemma {:induction false} EndsExactly(p: Parser, tokens: seq<Token>, message: string)
    requires tokens != []
    ensures TryParser(p, tokens).ShortCircuit? <==> Stops(p, tokens)
    ensures TryParser(p, tokens) == Failure(message) <==> Complains(p, tokens, message)
  {
    if p.OptParser? {
      FaultMeans(p.names);
    }
  }

  lemma {:induction false} TookExactly(p: Parser, tokens: seq<Token>, n: nat)
    requires 0 < n <= |tokens|
    ensures TryParser(p, tokens) == Match(n) <==> Took(p, tokens[..n])
  {
    if p.OptParser? {
      FaultMeans(p.names);
    }
  }

  // ---------- The first parser ----------

  lemma {:induction false} NeverUsed(uses: seq<Use>, i: nat)
    ensures TimesUsed(uses, i) == 0 <==> forall u :: u in uses ==> u.parser != i
  {
    if uses != [] {
      var n := |uses| - 1;
      NeverUsed(uses[..n], i);
      assert uses == uses[..n] + [uses[n]];
    }
  }

  lemma {:induction false} FreeExactly(parsers: seq<Parser>, counts: Counts, uses: seq<Use>, i: nat)
    requires CountsAre(parsers, counts, uses) && i < |parsers|
    ensures parsers[i].Available(counts[i]) <==> IsFree(parsers, uses, i)
  {
    NeverUsed(uses, i);
  }

  lemma {:induction false} FirstExactly(parsers: seq<Parser>, counts: Counts, uses: seq<Use>, tokens: seq<Token>)
    requires CountsAre(parsers, counts, uses) && tokens != []
    ensures var (t, i) := FirstTry(parsers, counts, tokens, 0);
            && (forall j: nat :: IsFirst(parsers, uses, tokens[0], j) <==> j == i < |parsers|)
            && (i < |parsers| ==> t == TryParser(parsers[i], tokens)) && (t.NoMatch? <==> i == |parsers|)
  {
    hide CountsAre, TryParser, Acts, IsFree;
    CountsFit(parsers, counts, uses);
    forall j | 0 <= j < |parsers|
      ensures parsers[j].Available(counts[j]) <==> IsFree(parsers, uses, j)
      ensures TryParser(parsers[j], tokens).NoMatch? <==> !Acts(parsers[j], tokens[0])
    {
      FreeExactly(parsers, counts, uses, j);
      ActsExactly(parsers[j], tokens);
    }
  }

  lemma {:induction false} CountsFit(parsers: seq<Parser>, counts: Counts, uses: seq<Use>)
    requires CountsAre(parsers, counts, uses)
    ensures |counts| == |parsers|
  {
  }

  // ---------- Whole command lines ----------

  lemma {:induction false} CutUse(before: seq<Use>, u: Use, rest: seq<Token>)
    ensures Taken(before + [u]) + rest == Taken(before) + (u.tokens + rest)
    ensures (u.tokens + rest)[..|u.tokens|] == u.tokens && (u.tokens + rest)[|u.tokens|..] == rest
    ensures u.tokens != [] ==> (u.tokens + rest)[0] == u.tokens[0]
  {
    assert (before + [u])[..|before|] == before;
  }

  lemma {:induction false} UsesCut(uses: seq<Use>)
    ensures uses != [] ==> uses == uses[..|uses| - 1] + [uses[|uses| - 1]]
    ensures uses == [] ==> forall rest: seq<Token> :: Taken(uses) + rest == rest
  {
  }

  lemma {:induction false} NoCounts(parsers: seq<Parser>)
    ensures CountsAre(parsers, Zeros(|parsers|), [])
  {
  }

  /** One explained use is one step of parsing. */
  lemma {:induction false} OneUse(parsers: seq<Parser>, counts: Counts, before: seq<Use>, u: Use, rest: seq<Token>)
    requires CountsAre(parsers, counts, before) && u.tokens != []
    requires IsFirst(parsers, before, u.tokens[0], u.parser) && Took(parsers[u.parser], u.tokens)
    ensures u.parser < |parsers| == |counts| && CountsAre(parsers, counts[u.parser := counts[u.parser] + 1], before + [u])
    ensures ParseFrom(parsers, counts, u.tokens + rest, before)
         == ParseFrom(parsers, counts[u.parser := counts[u.parser] + 1], rest, before + [u])
  {
    hide CountsAre, TryParser, Took, ParseFrom, FirstTry, Taken;
    var tokens := u.tokens + rest;
    CountsFit(parsers, counts, before);
    CutUse(before, u, rest);
    FirstExactly(parsers, counts, before, tokens);
    TookExactly(parsers[u.parser], tokens, |u.tokens|);
    ParseStep(parsers, counts, tokens, before);
    FreeExactly(parsers, counts, before, u.parser);
    CountsMore(parsers, counts, before, u);
  }

  /** So uses that are explained are what parsing goes through. */
  lemma {:induction false} GoesThrough(parsers: seq<Parser>, uses: seq<Use>, rest: seq<Token>) returns (counts: Counts)
    requires Explained(parsers, uses)
    ensures CountsAre(parsers, counts, uses) && |counts| == |parsers|
    ensures ParseTokens(parsers, Taken(uses) + rest) == ParseFrom(parsers, counts, rest, uses)
    decreases uses
  {
    hide CountsAre, IsFirst, Took, ParseFrom, Taken;
    UsesCut(uses);
    if uses == [] {
      counts := Zeros(|parsers|);
      NoCounts(parsers);
    } else {
      var before, u := uses[..|uses| - 1], uses[|uses| - 1];
      CutUse(before, u, rest);
      var fewer := GoesThrough(parsers, before, u.tokens + rest);
      OneUse(parsers, fewer, before, u, rest);
      counts := fewer[u.parser := fewer[u.parser] + 1];
    }
  }

  /** The end of parsing, from where the uses have come to. */
  lemma {:induction false} EndIs(parsers: seq<Parser>, counts: Counts, uses: seq<Use>, rest: seq<Token>, r: Parsed)
    requires CountsAre(parsers, counts, uses) && |counts| == |parsers| && Ended(parsers, uses, rest, r)
    ensures ParseFrom(parsers, counts, rest, uses) == r
  {
    hide CountsAre, TryParser, ParseFrom, FirstTry, IsFirst, Stops, Complains;
    if rest == [] {
      ParseEnd(parsers, counts, uses);
    } else {
      ParseStep(parsers, counts, rest, uses);
      FirstExactly(parsers, counts, uses, rest);
      var i := FirstTry(parsers, counts, rest, 0).1;
      if i < |parsers| {
        assert IsFirst(parsers, uses, rest[0], i);
        EndsExactly(parsers[i], rest, if r.Failed? then r.message else "");
      }
    }
  }

  /** However a command line can be explained by uses of the parsers and an end, so does it parse. */
  lemma {:induction false} ParsedExactly(parsers: seq<Parser>, tokens: seq<Token>, uses: seq<Use>, rest: seq<Token>, r: Parsed)
    requires Explained(parsers, uses) && Taken(uses) + rest == tokens && Ended(parsers, uses, rest, r)
    ensures ParseTokens(parsers, tokens) == r
  {
    hide ParseTokens, Explained, CountsAre, ParseFrom, Ended, Taken;
    var counts := GoesThrough(parsers, uses, rest);
    EndIs(parsers, counts, uses, rest, r);
  }

  lemma {:induction false} ExplainedFrom(parsers: seq<Parser>, counts: Counts, uses: seq<Use>, tokens: seq<Token>)
    returns (all: seq<Use>, rest: seq<Token>)
    requires CountsAre(parsers, counts, uses) && |counts| == |parsers| && Explained(parsers, uses)
    ensures Explained(parsers, all) && Taken(all) + rest == Taken(uses) + tokens
    ensures Ended(parsers, all, rest, ParseFrom(parsers, counts, tokens, uses))
    decreases |tokens|
  {
    hide CountsAre, TryParser, ParseFrom, FirstTry, IsFirst, Stops, Complains, Taken, Took;
    all, rest := uses, tokens;
    if tokens == [] {
      ParseEnd(parsers, counts, uses);
      return;
    }
    ParseStep(parsers, counts, tokens, uses);
    FirstExactly(parsers, counts, uses, tokens);
    var (t, i) := FirstTry(parsers, counts, tokens, 0);
    if t.Match? {
      var u, later := Use(i, tokens[..t.taken]), tokens[t.taken..];
      assert u.tokens + later == tokens;
      TookExactly(parsers[i], tokens, t.taken);
      OneUse(parsers, counts, uses, u, later);
      CutUse(uses, u, later);
      assert (uses + [u])[..|uses|] == uses;
      all, rest := ExplainedFrom(parsers, counts[i := counts[i] + 1], uses + [u], later);
    } else if i < |parsers| {
      EndsExactly(parsers[i], tokens, if t.Failure? then t.message else "");
    }
  }

  /** And every command line can be explained so. */
  lemma {:induction false} AlwaysExplained(parsers: seq<Parser>, tokens: seq<Token>)
    returns (uses: seq<Use>, rest: seq<Token>)
    ensures Explained(parsers, uses) && Taken(uses) + rest == tokens
    ensures Ended(parsers, uses, rest, ParseTokens(parsers, tokens))
  {
    hide CountsAre, ParseFrom, Ended, Taken;
    NoCounts(parsers);
    UsesCut([]);
    uses, rest := ExplainedFrom(parsers, Zeros(|parsers|), [], tokens);
  }

  /** Parsing completes if and only if all tokens can be taken, each by the first parser that acts on it. */
  lemma {:induction false} CompletesExactly(parsers: seq<Parser>, tokens: seq<Token>)
    ensures ParseTokens(parsers, tokens).Complete? <==> exists uses :: Explained(parsers, uses) && Taken(uses) == tokens
  {
    hide ParseTokens, Explained, Taken;
    var all, rest := AlwaysExplained(parsers, tokens);
    assert rest == [] ==> Taken(all) + rest == Taken(all);
    forall uses | Explained(parsers, uses) && Taken(uses) == tokens
      ensures ParseTokens(parsers, tokens).Complete?
    {
      assert Taken(uses) + [] == Taken(uses);
      ParsedExactly(parsers, tokens, uses, [], Complete(uses));
    }
  }
}
