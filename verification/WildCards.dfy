/** Matching a string against a pattern with wildcards.  A string is what comes before its terminating zero. */
module WildCards {

  // ---------- What a match is ----------

  /** What one character of a pattern stands for. */
  predicate StandsFor(c: char, piece: string) {
    match c
    case '?' => |piece| == 1
    case '*' => true
    case _ => piece == [c]
  }

  function Joined(pieces: seq<string>): string {
    if pieces == [] then "" else pieces[0] + Joined(pieces[1..])
  }

  predicate Decomposes(str: string, pattern: string, pieces: seq<string>) {
    |pieces| == |pattern| && Joined(pieces) == str && forall i :: 0 <= i < |pattern| ==> StandsFor(pattern[i], pieces[i])
  }

  /** The string is cut into one piece for every character of the pattern. */
  ghost predicate Matches(str: string, pattern: string) {
    exists pieces :: Decomposes(str, pattern, pieces)
  }

  lemma {:induction false} FirstPiece(str: string, pattern: string, pieces: seq<string>)
    requires pattern != "" && Decomposes(str, pattern, pieces)
    ensures StandsFor(pattern[0], pieces[0]) && str == pieces[0] + Joined(pieces[1..])
    ensures Decomposes(Joined(pieces[1..]), pattern[1..], pieces[1..])
  {
  }

  lemma {:induction false} AddPiece(piece: string, str: string, pattern: string, pieces: seq<string>)
    requires pattern != "" && StandsFor(pattern[0], piece) && Decomposes(str, pattern[1..], pieces)
    ensures Decomposes(piece + str, pattern, [piece] + pieces)
  {
    assert ([piece] + pieces)[1..] == pieces;
  }

  lemma {:induction false} MatchesNothing(str: string)
    ensures Matches(str, "") <==> str == ""
  {
    assert Decomposes("", "", []);
  }

  lemma {:induction false} MatchesOne(str: string, pattern: string)
    requires pattern != "" && pattern[0] != '*'
    ensures Matches(str, pattern)
       <==> str != "" && (pattern[0] == '?' || str[0] == pattern[0]) && Matches(str[1..], pattern[1..])
  {
    if pieces :| Decomposes(str, pattern, pieces) {
      FirstPiece(str, pattern, pieces);
      assert |pieces[0]| == 1 && str[1..] == Joined(pieces[1..]);
    }
    if str != "" && (pattern[0] == '?' || str[0] == pattern[0]) {
      assert [str[0]] + str[1..] == str;
      if pieces :| Decomposes(str[1..], pattern[1..], pieces) {
        AddPiece([str[0]], str[1..], pattern, pieces);
      }
    }
  }

  lemma {:induction false} StarShrinks(str: string, pattern: string)
    requires pattern != "" && pattern[0] == '*' && Matches(str, pattern)
    ensures Matches(str, pattern[1..]) || (str != "" && Matches(str[1..], pattern))
  {
    var pieces :| Decomposes(str, pattern, pieces);
    FirstPiece(str, pattern, pieces);
    if pieces[0] == "" {
      assert str == Joined(pieces[1..]);
    } else {
      var rest := pieces[0][1..];
      AddPiece(rest, Joined(pieces[1..]), pattern, pieces[1..]);
      assert rest + Joined(pieces[1..]) == str[1..];
    }
  }

  lemma {:induction false} StarGrows(str: string, pattern: string)
    requires pattern != "" && pattern[0] == '*' && str != "" && Matches(str[1..], pattern)
    ensures Matches(str, pattern)
  {
    var pieces :| Decomposes(str[1..], pattern, pieces);
    FirstPiece(str[1..], pattern, pieces);
    AddPiece([str[0]] + pieces[0], Joined(pieces[1..]), pattern, pieces[1..]);
    assert [str[0]] + pieces[0] + Joined(pieces[1..]) == [str[0]] + str[1..] == str;
  }

  /** A star stands for nothing, or for one more character than it would otherwise. */
  lemma {:induction false} MatchesStar(str: string, pattern: string)
    requires pattern != "" && pattern[0] == '*'
    ensures Matches(str, pattern) <==> Matches(str, pattern[1..]) || (str != "" && Matches(str[1..], pattern))
  {
    if Matches(str, pattern) {
      StarShrinks(str, pattern);
    }
    if pieces :| Decomposes(str, pattern[1..], pieces) {
      AddPiece("", str, pattern, pieces);
      assert "" + str == str;
    }
    if str != "" && Matches(str[1..], pattern) {
      StarGrows(str, pattern);
    }
  }

  // ---------- The program ----------

  method WildCardMatch(str: string, pattern: string) returns (matches: bool)
    ensures matches <==> Matches(str, pattern)
    decreases |str| + |pattern|
  {
    var i, j := 0, 0;
    while j < |pattern|
      invariant i <= |str| && j <= |pattern|
      invariant Matches(str, pattern) <==> Matches(str[i..], pattern[j..])
    {
      var s, p := str[i..], pattern[j..];
      assert p[1..] == pattern[j + 1..];
      match pattern[j]
      case '?' =>
        MatchesOne(s, p);
        if i == |str| {
          return false;
        }
        assert s[1..] == str[i + 1..];
        i, j := i + 1, j + 1;
      case '*' =>
        MatchesStar(s, p);
        var skipped := WildCardMatch(s, pattern[j + 1..]);
        if skipped {
          return true;
        }
        if i < |str| {
          assert s[1..] == str[i + 1..];
          var longer := WildCardMatch(str[i + 1..], p);
          if longer {
            return true;
          }
        }
        return false;
      case c =>
        MatchesOne(s, p);
        if i == |str| || str[i] != c {
          return false;
        }
        assert s[1..] == str[i + 1..];
        i, j := i + 1, j + 1;
    }
    MatchesNothing(str[i..]);
    return i == |str|;
  }

  // ---------- What follows for patterns ----------

  lemma {:induction false} JoinedConcat(a: seq<string>, b: seq<string>)
    ensures Joined(a + b) == Joined(a) + Joined(b)
  {
    if a == [] {
      assert a + b == b;
    } else {
      assert (a + b)[1..] == a[1..] + b;
      JoinedConcat(a[1..], b);
    }
  }

  lemma {:induction false} DecomposesConcat(s: string, p: string, a: seq<string>, s': string, q: string, b: seq<string>)
    requires Decomposes(s, p, a) && Decomposes(s', q, b)
    ensures Decomposes(s + s', p + q, a + b)
  {
    JoinedConcat(a, b);
  }

  lemma {:induction false} DecomposesSplit(str: string, p: string, q: string, pieces: seq<string>) returns (k: nat)
    requires Decomposes(str, p + q, pieces)
    ensures k <= |str| && Decomposes(str[..k], p, pieces[..|p|]) && Decomposes(str[k..], q, pieces[|p|..])
  {
    var a, b := pieces[..|p|], pieces[|p|..];
    assert a + b == pieces;
    JoinedConcat(a, b);
    k := |Joined(a)|;
    assert str[..k] == Joined(a) && str[k..] == Joined(b);
    assert forall i :: 0 <= i < |q| ==> (p + q)[|p| + i] == q[i] && pieces[|p| + i] == b[i];
  }

  /** A pattern in two parts matches the strings in two parts that match them. */
  lemma {:induction false} MatchesConcat(str: string, p: string, q: string)
    ensures Matches(str, p + q) <==> exists k :: 0 <= k <= |str| && Matches(str[..k], p) && Matches(str[k..], q)
  {
    if pieces :| Decomposes(str, p + q, pieces) {
      var k := DecomposesSplit(str, p, q, pieces);
    }
    if k :| 0 <= k <= |str| && Matches(str[..k], p) && Matches(str[k..], q) {
      var a :| Decomposes(str[..k], p, a);
      var b :| Decomposes(str[k..], q, b);
      DecomposesConcat(str[..k], p, a, str[k..], q, b);
      assert str[..k] + str[k..] == str;
    }
  }

  /** Without wildcards a pattern matches itself only. */
  lemma {:induction false} MatchesPlain(str: string, pattern: string)
    requires '?' !in pattern && '*' !in pattern
    ensures Matches(str, pattern) <==> str == pattern
    decreases pattern
  {
    if pattern == "" {
      MatchesNothing(str);
    } else {
      MatchesOne(str, pattern);
      assert pattern == [pattern[0]] + pattern[1..];
      if str != "" {
        MatchesPlain(str[1..], pattern[1..]);
        assert str == [str[0]] + str[1..];
      }
    }
  }

  /** The pattern `prefix*` matches the strings that start with the prefix. */
  lemma {:induction false} MatchesPrefix(str: string, prefix: string)
    requires '?' !in prefix && '*' !in prefix
    ensures Matches(str, prefix + "*") <==> prefix <= str
  {
    MatchesConcat(str, prefix, "*");
    forall k | 0 <= k <= |str|
      ensures (Matches(str[..k], prefix) <==> str[..k] == prefix) && Matches(str[k..], "*")
    {
      MatchesPlain(str[..k], prefix);
      assert Joined([str[k..]]) == str[k..];
      assert Decomposes(str[k..], "*", [str[k..]]);
    }
    if prefix <= str {
      assert str[..|prefix|] == prefix;
    }
  }
}
