/** Command lines as they are written: arguments in pieces, with blanks between them. */
module WrittenArguments {
  import opened CommandLines

  predicate OnlyBlanks(s: string) {
    forall c :: c in s ==> c in {' ', '\t', '\n', '\r'}
  }

  /** A piece of an argument is written as it is or in quotes; either kind of quote opens, and either closes. */
  datatype Piece = Bare(text: string) | Between(open: char, text: string, close: char) {
    predicate IsProper() {
      && '"' !in text && '\'' !in text
      && match this
         case Bare(text) => text != "" && forall c :: c in text ==> c !in {' ', '\t', '\n', '\r'}
         case Between(open, _, close) => open in {'"', '\''} && close in {'"', '\''}
    }

    function Written(): string {
      match this
      case Bare(text) => text
      case Between(open, text, close) => [open] + text + [close]
    }
  }

  predicate AllProper(pieces: seq<Piece>) {
    forall p :: p in pieces ==> p.IsProper()
  }

  function PiecesWritten(pieces: seq<Piece>): string {
    if pieces == [] then "" else pieces[0].Written() + PiecesWritten(pieces[1..])
  }

  function Texts(pieces: seq<Piece>): string {
    if pieces == [] then "" else pieces[0].text + Texts(pieces[1..])
  }

  /** An argument with the blanks in front of it. */
  datatype Argument = Argument(gap: string, pieces: seq<Piece>)

  predicate AreProper(args: seq<Argument>) {
    forall i :: 0 <= i < |args| ==>
      OnlyBlanks(args[i].gap) && (i > 0 ==> args[i].gap != "") && args[i].pieces != [] && AllProper(args[i].pieces)
  }

  function AllWritten(args: seq<Argument>): string {
    if args == [] then ""
    else
      var n := |args| - 1;
      AllWritten(args[..n]) + args[n].gap + PiecesWritten(args[n].pieces)
  }

  function Values(args: seq<Argument>): seq<string> {
    if args == [] then [] else Values(args[..|args| - 1]) + [Texts(args[|args| - 1].pieces)]
  }

  // ---------- Pieces ----------

  lemma {:induction false} MarksAndBlanks(c: char)
    ensures IsQuote(c) <==> c in {'"', '\''}
    ensures IsBlank(c) <==> c in {' ', '\t', '\n', '\r'}
  {
  }

  lemma {:induction false} PieceIsText(p: Piece)
    requires p.IsProper()
    ensures AllText(p.text, p.Between?)
  {
    forall i | 0 <= i < |p.text|
      ensures IsText(p.text[i], p.Between?)
    {
      MarksAndBlanks(p.text[i]);
      assert p.text[i] in p.text;
    }
  }

  lemma {:induction false} FeedMarked(l: Lexer, open: char, s: string, close: char)
    requires l.Valid() && !l.inQuotes && IsQuote(open) && IsQuote(close) && AllText(s, true)
    ensures FeedAll(l, [open] + s + [close]) == l.Append(s)
    ensures FeedAll(l, [open] + s) == l.Append(s).(inQuotes := true)
  {
    hide FeedAll;
    var quoted := l.Begin().(inQuotes := true);
    FeedConcat(l, [open] + s, [close]);
    FeedConcat(l, [open], s);
    FeedOne(l, open);
    if s != "" {
      FeedText(quoted, s);
    } else {
      AppendNothing(l);
      FeedEmpty(quoted);
    }
    FeedOne(FeedAll(quoted, s), close);
  }

  lemma {:induction false} FeedPiece(l: Lexer, p: Piece)
    requires l.Valid() && !l.inQuotes && p.IsProper()
    ensures FeedAll(l, p.Written()) == l.Append(p.text)
  {
    hide FeedAll;
    PieceIsText(p);
    match p {
      case Bare(text) => FeedText(l, text);
      case Between(open, text, close) => FeedMarked(l, open, text, close);
    }
  }

  lemma {:induction false} FeedPieces(l: Lexer, pieces: seq<Piece>)
    requires l.Valid() && !l.inQuotes && pieces != [] && AllProper(pieces)
    ensures FeedAll(l, PiecesWritten(pieces)) == l.Append(Texts(pieces))
    decreases pieces
  {
    hide FeedAll, Piece.IsProper;
    var p, rest := pieces[0], pieces[1..];
    FeedPiece(l, p);
    FeedConcat(l, p.Written(), PiecesWritten(rest));
    if rest == [] {
      FeedEmpty(l.Append(p.text));
      assert p.text + "" == p.text;
    } else {
      FeedPieces(l.Append(p.text), rest);
      AppendTwice(l, p.text, Texts(rest));
    }
  }

  // ---------- Blanks ----------

  lemma {:induction false} FeedBlanks(l: Lexer, s: string)
    requires l.Valid() && !l.inQuotes && OnlyBlanks(s)
    ensures FeedAll(l, s) == if s == "" then l else l.(inText := false)
    decreases s
  {
    if s != "" {
      assert s[0] in s && forall c :: c in s[1..] ==> c in s;
      MarksAndBlanks(s[0]);
      FeedBlanks(l.(inText := false), s[1..]);
    }
  }

  lemma {:induction false} StartsAnew(argv: seq<string>, text: string)
    ensures Lexer(argv, false, false).Append(text) == Lexer(argv + [text], true, false)
  {
    var begun := argv + [""];
    assert begun[|argv|] + text == text;
    assert begun[|argv| := begun[|argv|] + text] == argv + [text];
  }

  // ---------- Whole lines ----------

  /** Arguments that were read, and the last of them may still grow. */
  lemma {:induction false} FeedArguments(args: seq<Argument>)
    requires AreProper(args)
    ensures FeedAll(START, AllWritten(args)) == Lexer(Values(args), args != [], false)
    decreases args
  {
    hide FeedAll, PiecesWritten, Texts, AllProper;
    if args == [] {
      FeedEmpty(START);
    } else {
      var n := |args| - 1;
      var before, arg, l := AllWritten(args[..n]), args[n], Lexer(Values(args[..n]), n > 0, false);
      FeedArguments(args[..n]);
      FeedConcat(START, before, arg.gap);
      FeedBlanks(l, arg.gap);
      FeedConcat(START, before + arg.gap, PiecesWritten(arg.pieces));
      FeedPieces(l.(inText := false), arg.pieces);
      StartsAnew(Values(args[..n]), Texts(arg.pieces));
    }
  }

  /** Arguments are read as they were written, whatever blanks are between them and behind them. */
  lemma {:induction false} WrittenIsRead(args: seq<Argument>, end: string)
    requires AreProper(args) && OnlyBlanks(end)
    ensures Arguments(AllWritten(args) + end) == Values(args)
  {
    hide FeedAll, AreProper, AllWritten, Values;
    FeedArguments(args);
    FeedConcat(START, AllWritten(args), end);
    FeedBlanks(Lexer(Values(args), args != [], false), end);
  }

  /** A quote that is never closed takes the rest of the line, be it to an argument of its own. */
  lemma {:induction false} UnclosedIsRead(args: seq<Argument>, gap: string, open: char, text: string)
    requires AreProper(args) && OnlyBlanks(gap) && open in {'"', '\''} && '"' !in text && '\'' !in text
    ensures Arguments(AllWritten(args) + gap + [open] + text)
         == if args == [] || gap != "" then Values(args) + [text]
            else Values(args)[|Values(args)| - 1 := Values(args)[|Values(args)| - 1] + text]
  {
    hide FeedAll, AreProper, AllWritten, AllText;
    ValuesLength(args);
    var l := Lexer(Values(args), args != [], false);
    var next := if gap == "" then l else l.(inText := false);
    FeedArguments(args);
    FeedConcat(START, AllWritten(args), gap);
    FeedBlanks(l, gap);
    assert AllWritten(args) + gap + [open] + text == AllWritten(args) + gap + ([open] + text);
    FeedConcat(START, AllWritten(args) + gap, [open] + text);
    MarksAndBlanks(open);
    PieceIsText(Between(open, text, open));
    FeedMarked(next, open, text, open);
    StartsAnew(Values(args), text);
  }

  lemma {:induction false} ValuesLength(args: seq<Argument>)
    ensures |Values(args)| == |args|
  {
    if args != [] {
      ValuesLength(args[..|args| - 1]);
    }
  }
}
