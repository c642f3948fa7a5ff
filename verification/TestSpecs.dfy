/** The parser of test specifications: a machine that looks at one character at a time.

    `Step` and the functions around it specify the methods of the class in module TestSpecParsers. */
module TestSpecs {

  datatype Mode = Outside | Name | QuotedName | Tag | EscapedName

  datatype Pattern =
    | NamePattern(name: string)
    | TagPattern(tag: string)
    | ExcludedPattern(underlying: Pattern)

  /** All patterns of a filter have to match, and any of the filters of a specification. */
  type Filter = seq<Pattern>

  /** The position `start` means something only while the parser is inside a pattern. */
  datatype State = State(
    mode: Mode,
    exclusion: bool,
    start: nat,
    pos: nat,
    arg: string,
    escapes: seq<nat>,
    filter: Filter,
    filters: seq<Filter>)

  const NPOS := 0xFFFF_FFFF_FFFF_FFFF

  const EXCLUDE := "exclude:"

  /** The positions of backslashes recorded while reading a name: increasing, and all inside the name. */
  ghost predicate EscapesOk(s: State) {
    && (forall i, j :: 0 <= i < j < |s.escapes| ==> s.escapes[i] < s.escapes[j])
    && (forall i :: 0 <= i < |s.escapes| ==>
          s.start <= s.escapes[i] < s.pos && s.escapes[i] < |s.arg| && s.arg[s.escapes[i]] == '\\')
  }

  /** What holds between two characters. */
  ghost predicate Ok(s: State) {
    && s.pos <= |s.arg| + 1
    && (s.mode != Outside ==> s.start <= s.pos && s.start <= |s.arg|)
    && (s.mode == Name || s.mode == EscapedName ==> s.pos <= |s.arg| && EscapesOk(s))
    && (s.mode != Name && s.mode != EscapedName ==> s.escapes == [])
  }

  function SubString(s: State): string
    requires s.start <= s.pos <= |s.arg|
  {
    s.arg[s.start..s.pos]
  }

  // ---------- Removing escapes ----------

  /** The token without the characters at the given positions, of which the first character has position `base`. */
  function Without(token: string, base: nat, positions: seq<nat>): (r: string)
    ensures |r| <= |token|
  {
    if token == "" then ""
    else (if base in positions then "" else [token[0]]) + Without(token[1..], base + 1, positions)
  }

  ghost predicate Increasing(positions: seq<nat>) {
    forall i, j :: 0 <= i < j < |positions| ==> positions[i] < positions[j]
  }

  lemma {:induction false} WithoutNone(token: string, base: nat, positions: seq<nat>)
    requires forall p :: p in positions ==> p < base
    ensures Without(token, base, positions) == token
  {
    if token != "" {
      WithoutNone(token[1..], base + 1, positions);
    }
  }

  lemma {:induction false} WithoutCons(c: char, rest: string, base: nat, positions: seq<nat>)
    ensures Without([c] + rest, base, positions)
         == (if base in positions then "" else [c]) + Without(rest, base + 1, positions)
  {
    assert ([c] + rest)[1..] == rest;
  }

  lemma {:induction false} WithoutConcat(a: string, b: string, base: nat, positions: seq<nat>)
    ensures Without(a + b, base, positions) == Without(a, base, positions) + Without(b, base + |a|, positions)
  {
    if a == "" {
      assert a + b == b;
    } else {
      hide Without;
      assert a == [a[0]] + a[1..] && a + b == [a[0]] + (a[1..] + b);
      WithoutCons(a[0], a[1..], base, positions);
      WithoutCons(a[0], a[1..] + b, base, positions);
      WithoutConcat(a[1..], b, base + 1, positions);
    }
  }

  lemma {:induction false} WithoutElsewhere(token: string, base: nat, positions: seq<nat>, p: nat)
    requires p < base || base + |token| <= p
    ensures Without(token, base, positions + [p]) == Without(token, base, positions)
  {
    if token != "" {
      WithoutElsewhere(token[1..], base + 1, positions, p);
    }
  }

  lemma {:induction false} WithoutHead(c: char, b: string, p: nat, positions: seq<nat>)
    requires forall q :: q in positions ==> q < p
    ensures Without([c] + b, p, positions) == [c] + b && Without([c] + b, p, positions + [p]) == b
  {
    WithoutNone([c] + b, p, positions);
    assert ([c] + b)[1..] == b;
    WithoutNone(b, p + 1, positions + [p]);
    assert p in positions + [p];
  }

  lemma {:induction false} WithoutSplit(token: string, base: nat, positions: seq<nat>, p: nat)
    requires base <= p < base + |token| && forall q :: q in positions ==> q < p
    ensures var a, b := token[..p - base], token[p - base + 1..];
            && Without(token, base, positions) == Without(a, base, positions) + ([token[p - base]] + b)
            && Without(token, base, positions + [p]) == Without(a, base, positions) + b
  {
    var a, c, b := token[..p - base], token[p - base], token[p - base + 1..];
    assert token == a + ([c] + b);
    WithoutHead(c, b, p, positions);
    WithoutElsewhere(a, base, positions, p);
    WithoutConcat(a, [c] + b, base, positions);
    WithoutConcat(a, [c] + b, base, positions + [p]);
  }

  ghost predicate Within(positions: seq<nat>, base: nat, token: string) {
    Increasing(positions) && forall q :: q in positions ==> base <= q < base + |token|
  }

  lemma {:induction false} WithinFewer(positions: seq<nat>, n: nat, base: nat, token: string)
    requires Within(positions, base, token) && n < |positions|
    ensures Within(positions[..n], base, token) && positions[..n + 1] == positions[..n] + [positions[n]]
    ensures forall q :: q in positions[..n] ==> q < positions[n]
    ensures base <= positions[n] < base + |token|
  {
    assert forall q :: q in positions[..n] ==> q in positions;
    assert positions[n] in positions;
  }

  lemma {:induction false} WithoutLength(token: string, base: nat, positions: seq<nat>, n: nat)
    requires Within(positions, base, token) && n <= |positions|
    ensures |Without(token, base, positions[..n])| == |token| - n
  {
    if n == 0 {
      WithoutNone(token, base, []);
    } else {
      WithinFewer(positions, n - 1, base, token);
      WithoutSplit(token, base, positions[..n - 1], positions[n - 1]);
      WithoutLength(token, base, positions, n - 1);
    }
  }

  /** Deleting one more position deletes the character that the earlier deletions have shifted there. */
  lemma {:induction false} WithoutOneMore(token: string, base: nat, positions: seq<nat>, n: nat)
    requires Within(positions, base, token) && n < |positions|
    ensures var w := Without(token, base, positions[..n]);
            var k := positions[n] - base - n;
            0 <= k < |w| && Without(token, base, positions[..n + 1]) == w[..k] + w[k + 1..]
  {
    var p := positions[n];
    WithinFewer(positions, n, base, token);
    var a, b := token[..p - base], token[p - base + 1..];
    WithoutSplit(token, base, positions[..n], p);
    assert Within(positions[..n], base, a);
    WithoutLength(a, base, positions[..n], n);
    assert positions[..n][..n] == positions[..n];
    var head, w, k := Without(a, base, positions[..n]), Without(token, base, positions[..n]), p - base - n;
    assert w[..k] == head && w[k + 1..] == b;
  }

  // ---------- The machine ----------

  function AsPatterns(isTag: bool, excluded: bool, text: string): Filter {
    var plain := if isTag then TagPattern(text) else NamePattern(text);
    if text == "" then [] else [if excluded then ExcludedPattern(plain) else plain]
  }

  /** Ends a pattern: escapes are removed, and the prefix `exclude:` is another way to exclude it. */
  function AddPattern(s: State, isTag: bool): (r: State)
    requires s.start <= s.pos <= |s.arg|
  {
    var token := Without(SubString(s), s.start, s.escapes);
    var excluded := EXCLUDE <= token;
    var text := if excluded then token[|EXCLUDE|..] else token;
    s.(mode := Outside, exclusion := false, escapes := [],
       filter := s.filter + AsPatterns(isTag, s.exclusion || excluded, text))
  }

  function AddFilter(s: State): State {
    if s.filter == [] then s else s.(filters := s.filters + [s.filter], filter := [])
  }

  function Escape(s: State): State {
    s.(start := if s.mode == Outside then s.pos else s.start, mode := EscapedName, escapes := s.escapes + [s.pos])
  }

  /** Starts a pattern behind its opening character; the parser does not look at the next character itself. */
  function StartBehind(s: State, mode: Mode): State {
    s.(mode := mode, start := s.pos + 1, pos := s.pos + 1)
  }

  function VisitName(s: State, c: char): (r: State)
    requires Ok(s) && s.mode == Name && s.pos < |s.arg|
  {
    match c
    case ',' => AddFilter(AddPattern(s, false))
    case '[' =>
      StartBehind(if SubString(s) == EXCLUDE then s.(exclusion := true) else AddPattern(s, false), Tag)
    case '\\' => Escape(s)
    case _ => s
  }

  function VisitChar(s: State, c: char): (r: State)
    requires Ok(s) && s.pos < |s.arg|
  {
    match s.mode
    case Outside => (
      match c
      case ' ' => s
      case '~' => s.(exclusion := true)
      case '[' => StartBehind(s, Tag)
      case '"' => StartBehind(s, QuotedName)
      case '\\' => Escape(s)
      case _ => VisitName(s.(mode := Name, start := s.pos), c))
    case Name => VisitName(s, c)
    case EscapedName => s.(mode := Name)
    case QuotedName => if c == '"' then AddPattern(s, false) else s
    case Tag => if c == ']' then AddPattern(s, true) else s
  }

  function Step(s: State): (r: State)
    requires Ok(s) && s.pos < |s.arg|
    ensures r.arg == s.arg && s.pos < r.pos
  {
    var s1 := VisitChar(s, s.arg[s.pos]);
    s1.(pos := s1.pos + 1)
  }

  /** Every position a token is cut at lies inside the argument, whatever the argument is. */
  lemma {:induction false} StepOk(s: State)
    requires Ok(s) && s.pos < |s.arg|
    ensures Ok(Step(s))
  {
    hide Without, AsPatterns, SubString;
    var c := s.arg[s.pos];
    if s.mode == Name && c == '[' && SubString(s) == EXCLUDE {
      NoEscapes(s);
    }
  }

  lemma {:induction false} NoEscapes(s: State)
    requires Ok(s) && s.mode == Name && s.pos < |s.arg| && SubString(s) == EXCLUDE
    ensures s.escapes == []
  {
    EscapesShow(s);
    assert '\\' !in EXCLUDE;
  }

  lemma {:induction false} EscapesShow(s: State)
    requires Ok(s) && s.mode == Name
    ensures s.escapes != [] ==> '\\' in SubString(s)
  {
    if s.escapes != [] {
      assert SubString(s)[s.escapes[0] - s.start] == '\\';
    }
  }

  function Run(s: State): (r: State)
    requires Ok(s)
    ensures Ok(r) && r.arg == s.arg && |s.arg| <= r.pos
    decreases |s.arg| + 1 - s.pos
  {
    if |s.arg| <= s.pos then s
    else
      StepOk(s);
      Run(Step(s))
  }

  /** `arg` is the argument with tag aliases expanded. */
  function Begin(s: State, arg: string): (r: State)
    ensures Ok(r)
  {
    s.(mode := Outside, exclusion := false, start := NPOS, pos := 0, arg := arg, escapes := [])
  }

  function Parse(s: State, arg: string): (r: State) {
    var s1 := Run(Begin(s, arg));
    if s1.mode == Name then AddPattern(s1, false) else s1
  }

  function TestSpec(s: State): seq<Filter> {
    AddFilter(s).filters
  }

  const NEW := State(Outside, false, NPOS, 0, "", [], [], [])

  /** Parsing one argument with a new parser. */
  function ParseTestSpec(arg: string): seq<Filter> {
    TestSpec(Parse(NEW, arg))
  }
}
