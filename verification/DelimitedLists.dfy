/** Lists of pieces in one string, separated by a delimiter. */
module DelimitedLists {

  /** The pieces between delimiters; a delimiter at the end does not start another piece. */
  function Split(s: string, d: char): seq<string> {
    if s == "" then []
    else
      var k := FirstAt(s, d);
      [s[..k]] + if k == |s| then [] else Split(s[k + 1..], d)
  }

  function FirstAt(s: string, c: char): (k: nat)
    ensures k <= |s| && c !in s[..k] && (k < |s| ==> s[k] == c)
  {
    if s == "" || s[0] == c then 0
    else
      var k := 1 + FirstAt(s[1..], c);
      assert s[..k] == [s[0]] + s[1..][..k - 1];
      k
  }

  function Join(pieces: seq<string>, d: char): string {
    if pieces == [] then ""
    else if |pieces| == 1 then pieces[0]
    else pieces[0] + [d] + Join(pieces[1..], d)
  }

  predicate FreeOf(pieces: seq<string>, d: char) {
    forall i :: 0 <= i < |pieces| ==> d !in pieces[i]
  }

  predicate EndsEmpty(pieces: seq<string>) {
    pieces != [] && pieces[|pieces| - 1] == ""
  }

  lemma {:induction false} FirstIs(s: string, c: char, k: nat)
    requires k <= |s| && c !in s[..k] && (k < |s| ==> s[k] == c)
    ensures FirstAt(s, c) == k
  {
    if k > 0 {
      assert s[0] == s[..k][0] && s[1..][..k - 1] == s[..k][1..];
      FirstIs(s[1..], c, k - 1);
    }
  }

  lemma {:induction false} SplitStep(s: string, d: char, k: nat)
    requires s != "" && k <= |s| && d !in s[..k] && (k < |s| ==> s[k] == d)
    ensures Split(s, d) == [s[..k]] + Split(s[if k == |s| then k else k + 1..], d)
  {
    FirstIs(s, d, k);
  }

  lemma {:induction false} SplitFirst(piece: string, d: char, rest: string)
    requires d !in piece
    ensures Split(piece + [d] + rest, d) == [piece] + Split(rest, d)
  {
    var s := piece + [d] + rest;
    assert s[..|piece|] == piece && s[|piece|] == d && s[|piece| + 1..] == rest;
    SplitStep(s, d, |piece|);
  }

  lemma {:induction false} SplitOne(piece: string, d: char)
    requires d !in piece
    ensures Split(piece, d) == if piece == "" then [] else [piece]
  {
    if piece != "" {
      assert piece[..|piece|] == piece;
      SplitStep(piece, d, |piece|);
    }
  }

  lemma {:induction false} SplitFree(s: string, d: char)
    ensures FreeOf(Split(s, d), d)
    decreases s
  {
    if s != "" {
      var k := FirstAt(s, d);
      if k < |s| {
        SplitFree(s[k + 1..], d);
      }
    }
  }

  /** An empty piece at the end is lost. */
  lemma {:induction false} SplitJoined(pieces: seq<string>, d: char)
    requires FreeOf(pieces, d)
    ensures Split(Join(pieces, d), d) == if EndsEmpty(pieces) then pieces[..|pieces| - 1] else pieces
    decreases pieces
  {
    if |pieces| == 1 {
      SplitOne(pieces[0], d);
    } else if |pieces| > 1 {
      hide Split;
      var rest := pieces[1..];
      ConsCut(pieces);
      SplitJoined(rest, d);
      SplitFirst(pieces[0], d, Join(rest, d));
    }
  }

  lemma {:induction false} ConsCut(pieces: seq<string>)
    requires |pieces| > 1
    ensures var first, rest := [pieces[0]], pieces[1..];
            first + rest == pieces && first + rest[..|rest| - 1] == pieces[..|pieces| - 1]
  {
  }

  /** Splitting gives back the pieces that were joined exactly if none holds the delimiter and the last is not empty. */
  lemma {:induction false} SplitUndoesJoin(pieces: seq<string>, d: char)
    ensures Split(Join(pieces, d), d) == pieces <==> FreeOf(pieces, d) && !EndsEmpty(pieces)
  {
    SplitFree(Join(pieces, d), d);
    if FreeOf(pieces, d) {
      SplitJoined(pieces, d);
    }
  }

  lemma {:induction false} JoinCons(piece: string, rest: seq<string>, d: char)
    ensures Join([piece] + rest, d) == if rest == [] then piece else piece + [d] + Join(rest, d)
  {
    assert ([piece] + rest)[1..] == rest;
  }

  lemma {:induction false} CutAt(s: string, k: nat)
    requires k < |s|
    ensures s == s[..k] + [s[k]] + s[k + 1..] && (k + 1 == |s| ==> s == s[..k] + [s[k]])
    ensures k + 1 < |s| ==> s[k + 1..][|s| - k - 2] == s[|s| - 1]
  {
  }

  lemma {:induction false} JoinAgain(a: string, d: char, b: string)
    ensures (a + [d]) + (b + [d]) == ((a + [d]) + b) + [d]
  {
  }

  /** Equal, but for one delimiter at the end of `s`. */
  predicate UpToEnd(s: string, joined: string, d: char) {
    s == if s != "" && s[|s| - 1] == d then joined + [d] else joined
  }

  lemma {:induction false} UpToEndAgain(s: string, k: nat, joined: string, d: char)
    requires k < |s| && s[k] == d && UpToEnd(s[k + 1..], joined, d)
    ensures UpToEnd(s, if k + 1 == |s| then s[..k] else s[..k] + [d] + joined, d)
  {
    CutAt(s, k);
    JoinAgain(s[..k], d, joined);
  }

  lemma {:induction false} SplitFromFirst(s: string, d: char) returns (k: nat)
    requires s != ""
    ensures k <= |s| && (k == |s| ==> s[|s| - 1] != d && Split(s, d) == [s])
    ensures k < |s| ==> s[k] == d && Split(s, d) == [s[..k]] + Split(s[k + 1..], d)
    ensures k < |s| ==> (Split(s[k + 1..], d) == [] <==> k + 1 == |s|)
  {
    k := FirstAt(s, d);
    if k == |s| {
      assert s[..k] == s && s[|s| - 1] in s[..k];
    }
  }

  lemma {:induction false} JoinOne(s: string, d: char)
    requires s != "" && s[|s| - 1] != d
    ensures UpToEnd(s, Join([s], d), d)
  {
  }

  /** Joining gives back the string that was split, up to one delimiter at its end. */
  lemma {:induction false} JoinUndoesSplit(s: string, d: char)
    ensures UpToEnd(s, Join(Split(s, d), d), d)
    decreases |s|
  {
    if s != "" {
      hide Join, FirstAt, Split, UpToEnd;
      var k := SplitFromFirst(s, d);
      if k == |s| {
        JoinOne(s, d);
      } else {
        var tail := Split(s[k + 1..], d);
        JoinUndoesSplit(s[k + 1..], d);
        JoinCons(s[..k], tail, d);
        UpToEndAgain(s, k, Join(tail, d), d);
      }
    }
  }

  method SplitDelim(s: string, token: char) returns (result: seq<string>)
    ensures result == Split(s, token)
  {
    hide Split;
    result := [];
    var i, j := 0, 0;
    assert s[0..] == s && [] + Split(s, token) == Split(s, token);
    while i < |s|
      invariant i == j <= |s|
      invariant result + Split(s[j..], token) == Split(s, token)
      decreases |s| - i
    {
      var found := false;
      while i < |s| && !found
        invariant j <= i <= |s| && (i == j ==> !found)
        invariant token !in (if found then s[j..i - 1] else s[j..i]) && (found ==> s[i - 1] == token)
        decreases |s| - i, !found
      {
        found := s[i] == token;
        i := i + 1;
      }
      var piece := s[j..i];
      if piece[|piece| - 1] == token {
        piece := piece[..|piece| - 1];
      }
      PieceStep(s, token, j, i, piece);
      result := result + [piece];
      j := i;
    }
    assert s[j..] == "" && result + [] == result;
    SplitOne(s[j..], token);
  }

  /** One piece of the string, from j to i. */
  lemma {:induction false} PieceStep(s: string, d: char, j: nat, i: nat, piece: string)
    requires j < i <= |s| && |piece| <= i - j && piece == s[j..j + |piece|] && d !in piece
    requires if i == j + |piece| then i == |s| else i == j + |piece| + 1 && s[i - 1] == d
    ensures Split(s[j..], d) == [piece] + Split(s[i..], d)
  {
    var t := s[j..];
    assert t[..|piece|] == piece && t[i - j..] == s[i..];
    SplitStep(t, d, |piece|);
  }
}
