/** Names written without quotes: a backslash in front of every character that means something to the parser, and of
    any others. */
module TestSpecEscapes {
  import opened TestSpecs

  /** `name` with a backslash in front of every character that is marked. */
  function Written(name: string, marks: seq<bool>): string
    requires |marks| == |name|
  {
    if name == "" then ""
    else (if marks[0] then ['\\', name[0]] else [name[0]]) + Written(name[1..], marks[1..])
  }

  /** The positions of those backslashes, if the first character of the text has position `base`. */
  function Backslashes(marks: seq<bool>, base: nat): seq<nat> {
    if marks == [] then []
    else if marks[0] then [base] + Backslashes(marks[1..], base + 2)
    else Backslashes(marks[1..], base + 1)
  }

  /** Inside a name, three characters mean something; at its start, a few more. */
  predicate MarksSuffice(name: string, marks: seq<bool>)
    requires |marks| == |name|
  {
    && (forall i :: 0 <= i < |name| && name[i] in {',', '[', '\\'} ==> marks[i])
    && (name != "" && name[0] in {' ', '~', '"'} ==> marks[0])
  }

  lemma {:induction false} BackslashesFrom(marks: seq<bool>, base: nat)
    ensures forall p :: p in Backslashes(marks, base) ==> base <= p
  {
    if marks != [] {
      BackslashesFrom(marks[1..], if marks[0] then base + 2 else base + 1);
    }
  }

  lemma {:induction false} WithoutEarlier(token: string, base: nat, p: nat, positions: seq<nat>)
    requires p < base
    ensures Without(token, base, [p] + positions) == Without(token, base, positions)
  {
    if token != "" {
      WithoutEarlier(token[1..], base + 1, p, positions);
    }
  }

  lemma {:induction false} MarkedStep(c: char, rest: string, base: nat, positions: seq<nat>)
    requires forall p :: p in positions ==> base + 2 <= p
    ensures Without(['\\'] + ([c] + rest), base, [base] + positions) == [c] + Without(rest, base + 2, positions)
  {
    hide Without;
    WithoutEarlier(rest, base + 2, base, positions);
    assert base in [base] + positions && base + 1 !in [base] + positions;
    WithoutCons('\\', [c] + rest, base, [base] + positions);
    WithoutCons(c, rest, base + 1, [base] + positions);
  }

  lemma {:induction false} FirstApart(name: string)
    requires name != ""
    ensures name == [name[0]] + name[1..]
  {
  }

  /** Removing the backslashes gives back the name. */
  lemma {:induction false} WithoutBackslashes(name: string, marks: seq<bool>, base: nat)
    requires |marks| == |name|
    ensures Without(Written(name, marks), base, Backslashes(marks, base)) == name
    decreases name
  {
    if name == "" {
      WithoutNone("", base, []);
    } else {
      hide Without;
      var rest, next := Written(name[1..], marks[1..]), if marks[0] then base + 2 else base + 1;
      FirstApart(name);
      BackslashesFrom(marks[1..], next);
      WithoutBackslashes(name[1..], marks[1..], next);
      if marks[0] {
        MarkedStep(name[0], rest, base, Backslashes(marks[1..], next));
        AssociateChars('\\', name[0], rest);
      } else {
        WithoutCons(name[0], rest, base, Backslashes(marks, base));
      }
    }
  }

  lemma {:induction false} AssociateChars(a: char, b: char, rest: string)
    ensures [a, b] + rest == [a] + ([b] + rest)
  {
  }

  // ---------- Reading a name ----------

  lemma {:induction false} Split(arg: string, pos: nat, a: string, b: string)
    requires pos <= |arg| && arg[pos..] == a + b
    ensures pos + |a| <= |arg| && arg[pos..pos + |a|] == a && arg[pos + |a|..] == b
    ensures forall i :: 0 <= i < |a| ==> arg[pos + i] == a[i]
  {
    assert |arg[pos..]| == |a + b|;
    assert arg[pos..pos + |a|] == arg[pos..][..|a|];
    assert arg[pos + |a|..] == arg[pos..][|a|..];
  }

  lemma {:induction false} RunStep(s: State)
    requires Ok(s) && s.pos < |s.arg|
    ensures Ok(Step(s)) && Run(s) == Run(Step(s))
  {
    StepOk(s);
  }

  lemma {:induction false} ReadMarked(s: State, c: char, rest: string)
    requires Ok(s) && s.mode == Name && s.arg[s.pos..] == ['\\', c] + rest
    ensures var s' := s.(pos := s.pos + 2, escapes := s.escapes + [s.pos]);
            Ok(s') && Run(s) == Run(s') && s.arg[s'.pos..] == rest
  {
    Split(s.arg, s.pos, ['\\', c], rest);
    var s1 := s.(pos := s.pos + 1, mode := EscapedName, escapes := s.escapes + [s.pos]);
    assert Step(s) == s1;
    RunStep(s);
    assert Step(s1) == s1.(pos := s.pos + 2, mode := Name);
    RunStep(s1);
  }

  lemma {:induction false} ReadPlain(s: State, c: char, rest: string)
    requires Ok(s) && s.mode == Name && s.arg[s.pos..] == [c] + rest && c !in {',', '[', '\\'}
    ensures var s' := s.(pos := s.pos + 1);
            Ok(s') && Run(s) == Run(s') && s.arg[s'.pos..] == rest
  {
    Split(s.arg, s.pos, [c], rest);
    assert Step(s) == s.(pos := s.pos + 1);
    RunStep(s);
  }

  lemma {:induction false} Regroup<T>(a: seq<T>, p: seq<T>, b: seq<T>)
    ensures (a + p) + b == a + (p + b)
  {
  }

  /** The parser has read a name that is written with these marks, from where it is now. */
  function BehindName(s: State, name: string, marks: seq<bool>): State
    requires |marks| == |name|
  {
    s.(pos := s.pos + |Written(name, marks)|, escapes := s.escapes + Backslashes(marks, s.pos))
  }

  lemma {:induction false} FirstLetter(name: string, marks: seq<bool>, base: nat)
    requires |marks| == |name| && name != ""
    ensures var first := if marks[0] then ['\\', name[0]] else [name[0]];
            && Written(name, marks) == first + Written(name[1..], marks[1..])
            && Backslashes(marks, base) == (if marks[0] then [base] else []) + Backslashes(marks[1..], base + |first|)
    ensures forall i :: 0 <= i < |name[1..]| ==> name[1..][i] == name[i + 1] && marks[1..][i] == marks[i + 1]
  {
    assert [] + Backslashes(marks[1..], base + 1) == Backslashes(marks[1..], base + 1);
  }

  /** Behind the first character of a name, with its backslash if it is marked. */
  function BehindFirst(s: State, marked: bool): State {
    if marked then s.(pos := s.pos + 2, escapes := s.escapes + [s.pos]) else s.(pos := s.pos + 1)
  }

  lemma {:induction false} BehindRest(s: State, name: string, marks: seq<bool>)
    requires |marks| == |name| && name != ""
    ensures BehindName(BehindFirst(s, marks[0]), name[1..], marks[1..]) == BehindName(s, name, marks)
  {
    FirstLetter(name, marks, s.pos);
    Regroup(s.escapes, if marks[0] then [s.pos] else [], Backslashes(marks[1..], if marks[0] then s.pos + 2 else s.pos + 1));
    assert s.escapes + [] == s.escapes;
  }

  lemma {:induction false} ReadFirst(s: State, name: string, marks: seq<bool>, rest: string)
    requires Ok(s) && s.mode == Name && |marks| == |name| && name != "" && s.arg[s.pos..] == Written(name, marks) + rest
    requires name[0] in {',', '[', '\\'} ==> marks[0]
    ensures var s' := BehindFirst(s, marks[0]);
            Ok(s') && s'.mode == Name && Run(s) == Run(s') && s'.arg[s'.pos..] == Written(name[1..], marks[1..]) + rest
  {
    FirstLetter(name, marks, s.pos);
    hide Written, Run, Backslashes;
    var more := Written(name[1..], marks[1..]);
    Regroup(if marks[0] then ['\\', name[0]] else [name[0]], more, rest);
    if marks[0] {
      ReadMarked(s, name[0], more + rest);
    } else {
      ReadPlain(s, name[0], more + rest);
    }
  }

  /** Reading on inside a name. */
  lemma {:induction false} ReadName(s: State, name: string, marks: seq<bool>, rest: string)
    requires Ok(s) && s.mode == Name && |marks| == |name| && s.arg[s.pos..] == Written(name, marks) + rest
    requires forall i :: 0 <= i < |name| && name[i] in {',', '[', '\\'} ==> marks[i]
    ensures var s' := BehindName(s, name, marks); Ok(s') && Run(s) == Run(s')
    decreases |name|
  {
    if name == "" {
      assert s.escapes + [] == s.escapes;
    } else {
      FirstLetter(name, marks, s.pos);
      ReadFirst(s, name, marks, rest);
      BehindRest(s, name, marks);
      hide Run, Written, Backslashes, BehindName;
      ReadName(BehindFirst(s, marks[0]), name[1..], marks[1..], rest);
    }
  }

  lemma {:induction false} WrittenStarts(name: string, marks: seq<bool>)
    requires name != "" && |marks| == |name|
    ensures Written(name, marks) != "" && Written(name, marks)[0] == if marks[0] then '\\' else name[0]
  {
  }

  /** Starting a name, outside of any pattern, is like being inside one that starts here. */
  lemma {:induction false} StartName(s: State, name: string, marks: seq<bool>, rest: string)
    requires Ok(s) && s.mode == Outside && s.pos < |s.arg| && name != "" && |marks| == |name|
    requires s.arg[s.pos..] == Written(name, marks) + rest && MarksSuffice(name, marks)
    ensures var s1 := s.(mode := Name, start := s.pos); Ok(s1) && Run(s) == Run(s1)
  {
    hide Written;
    WrittenStarts(name, marks);
    var s1 := s.(mode := Name, start := s.pos);
    assert s.arg[s.pos] == s.arg[s.pos..][0] == Written(name, marks)[0];
    assert Step(s) == Step(s1);
    RunStep(s);
    RunStep(s1);
  }

  /** The parser is outside of any pattern, and behind the name once it is inside it. */
  function InName(s: State, name: string, marks: seq<bool>): State
    requires |marks| == |name|
  {
    BehindName(s.(mode := Name, start := s.pos), name, marks)
  }

  /** However many characters are marked, as long as those are that mean something, it is the name that is read. */
  lemma {:induction false} ReadWholeName(s: State, name: string, marks: seq<bool>, rest: string)
    requires Ok(s) && s.mode == Outside && s.pos < |s.arg| && name != "" && |marks| == |name|
    requires s.arg[s.pos..] == Written(name, marks) + rest && MarksSuffice(name, marks)
    ensures var s1 := InName(s, name, marks);
            && Ok(s1) && Run(s) == Run(s1) && s1.arg[s1.pos..] == rest && SubString(s1) == Written(name, marks)
            && Without(SubString(s1), s1.start, s1.escapes) == name
  {
    hide Run, Without, Written;
    Split(s.arg, s.pos, Written(name, marks), rest);
    StartName(s, name, marks, rest);
    ReadName(s.(mode := Name, start := s.pos), name, marks, rest);
    WithoutBackslashes(name, marks, s.pos);
    assert [] + Backslashes(marks, s.pos) == Backslashes(marks, s.pos);
  }
}
