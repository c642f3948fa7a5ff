/** What each argument of a command line is to an option parser. */
module OptionRoles {
  import opened DelimitedLists

  datatype Spec = Spec(delim: char, expectArgs: bool)

  /** The groups of options, and the flags that stand for them. */
  datatype Options = Options(ids: map<string, nat>, specs: seq<Spec>) {
    predicate Valid() {
      forall f :: f in ids ==> ids[f] < |specs|
    }
  }

  /** What has been parsed for a group: argument lists, and the positions of its flags. */
  datatype Group = Group(isSet: bool, args: seq<seq<string>>, parseIndex: seq<nat>)

  predicate IsFlag(o: Options, s: string) {
    s in o.ids
  }

  predicate TakesArg(o: Options, s: string)
    requires o.Valid()
  {
    s in o.ids && o.specs[o.ids[s]].expectArgs
  }

  /** An argument is taken by the flag before it, unless that is itself taken. */
  predicate Taken(o: Options, argv: seq<string>, i: nat)
    requires o.Valid() && i < |argv|
  {
    i > 0 && TakesArg(o, argv[i - 1]) && !Taken(o, argv, i - 1)
  }

  predicate Used(o: Options, argv: seq<string>, i: nat)
    requires o.Valid() && i < |argv|
  {
    Taken(o, argv, i) || IsFlag(o, argv[i])
  }

  /** The last argument is a flag that still waits for its own argument. */
  predicate Incomplete(o: Options, argv: seq<string>)
    requires o.Valid()
  {
    argv != [] && TakesArg(o, argv[|argv| - 1]) && !Taken(o, argv, |argv| - 1)
  }

  function FirstFlag(o: Options, argv: seq<string>): (k: nat)
    ensures k <= |argv| && (k < |argv| ==> IsFlag(o, argv[k]))
    ensures forall i :: 0 <= i < k ==> !IsFlag(o, argv[i])
  {
    if argv == [] || IsFlag(o, argv[0]) then 0 else 1 + FirstFlag(o, argv[1..])
  }

  /** Is there a flag, or an argument of one, behind position i? */
  ghost predicate UsedBehind(o: Options, argv: seq<string>, i: nat)
    requires o.Valid()
  {
    exists j :: i < j < |argv| && Used(o, argv, j)
  }

  datatype Role = FirstArg | FlagOf(id: nat) | ArgOf(id: nat) | UnknownArg | LastArg

  ghost function RoleOf(o: Options, argv: seq<string>, i: nat): Role
    requires o.Valid() && i < |argv|
  {
    var f := FirstFlag(o, argv);
    if f == |argv| then (if i == 0 then FirstArg else LastArg)
    else if i < f then FirstArg
    else if Taken(o, argv, i) then ArgOf(o.ids[argv[i - 1]])
    else if IsFlag(o, argv[i]) then FlagOf(o.ids[argv[i]])
    else if UsedBehind(o, argv, i) then UnknownArg
    else LastArg
  }

  /** The positions before n of the arguments with this role, in order. */
  ghost function Indexes(o: Options, argv: seq<string>, role: Role, n: nat): (r: seq<nat>)
    requires o.Valid() && n <= |argv|
    ensures forall k :: 0 <= k < |r| ==> r[k] < n
  {
    if n == 0 then []
    else Indexes(o, argv, role, n - 1) + if RoleOf(o, argv, n - 1) == role then [n - 1] else []
  }

  function Texts(argv: seq<string>, indexes: seq<nat>): seq<string>
    requires forall k :: 0 <= k < |indexes| ==> indexes[k] < |argv|
  {
    if indexes == [] then []
    else
      var last := |indexes| - 1;
      Texts(argv, indexes[..last]) + [argv[indexes[last]]]
  }

  ghost function Select(o: Options, argv: seq<string>, role: Role): seq<string>
    requires o.Valid()
  {
    Texts(argv, Indexes(o, argv, role, |argv|))
  }

  function Lists(texts: seq<string>, delim: char): seq<seq<string>> {
    if texts == [] then []
    else Lists(texts[..|texts| - 1], delim) + [Split(texts[|texts| - 1], delim)]
  }

  predicate Increasing(indexes: seq<nat>) {
    forall a, b :: 0 <= a < b < |indexes| ==> indexes[a] < indexes[b]
  }

  lemma {:induction false} InOrder(o: Options, argv: seq<string>, role: Role, n: nat)
    requires o.Valid() && n <= |argv|
    ensures Increasing(Indexes(o, argv, role, n))
  {
    hide RoleOf;
    if n > 0 {
      InOrder(o, argv, role, n - 1);
    }
  }

  /** Every argument has one role, and is listed under it once, in order. */
  lemma {:induction false} ListedOnce(o: Options, argv: seq<string>, role: Role, n: nat, i: nat)
    requires o.Valid() && i < n <= |argv|
    ensures i in Indexes(o, argv, role, n) <==> RoleOf(o, argv, i) == role
    ensures Increasing(Indexes(o, argv, role, n))
  {
    InOrder(o, argv, role, n);
    hide RoleOf, Increasing;
    if i < n - 1 {
      ListedOnce(o, argv, role, n - 1, i);
    }
  }

  lemma {:induction false} TextsMore(argv: seq<string>, indexes: seq<nat>, i: nat)
    requires i < |argv| && forall k :: 0 <= k < |indexes| ==> indexes[k] < |argv|
    ensures Texts(argv, indexes + [i]) == Texts(argv, indexes) + [argv[i]]
  {
    assert (indexes + [i])[..|indexes|] == indexes;
  }

  lemma {:induction false} ListsMore(texts: seq<string>, text: string, delim: char)
    ensures Lists(texts + [text], delim) == Lists(texts, delim) + [Split(text, delim)]
  {
    assert (texts + [text])[..|texts|] == texts;
  }

  // ---------- Steps of a scan ----------

  /** Behind a position that is not taken, the scan goes on at the next one that is not taken. */
  lemma {:induction false} ScanGoesOn(o: Options, argv: seq<string>, i: nat)
    requires o.Valid() && i < |argv| && !Taken(o, argv, i)
    ensures i + 1 < |argv| ==> (Taken(o, argv, i + 1) <==> TakesArg(o, argv[i]))
    ensures i + 2 < |argv| && TakesArg(o, argv[i]) ==> !Taken(o, argv, i + 2)
  {
  }

  lemma {:induction false} NothingTakenBefore(o: Options, argv: seq<string>, i: nat)
    requires o.Valid() && i < |argv| && i <= FirstFlag(o, argv)
    ensures !Taken(o, argv, i)
  {
  }

  lemma {:induction false} AtStart(o: Options, argv: seq<string>, role: Role)
    requires o.Valid()
    ensures Indexes(o, argv, role, 0) == [] && Texts(argv, []) == []
  {
  }

  lemma {:induction false} SliceMore(argv: seq<string>, from: nat, n: nat)
    requires from <= n <= |argv|
    ensures from < n ==> argv[from..n] == argv[from..n - 1] + [argv[n - 1]]
    ensures from == n ==> argv[from..n] == []
    ensures argv[0..n] == argv[..n] && (n > 0 ==> argv[0..n - 1] == argv[..n - 1])
  {
  }

  /** One more position is listed under its role only. */
  lemma {:induction false} OneMore(o: Options, argv: seq<string>, role: Role, n: nat)
    requires o.Valid() && n < |argv|
    ensures var before, after := Indexes(o, argv, role, n), Indexes(o, argv, role, n + 1);
            if RoleOf(o, argv, n) == role then after == before + [n] && Texts(argv, after) == Texts(argv, before) + [argv[n]]
            else after == before
  {
    if RoleOf(o, argv, n) == role {
      TextsMore(argv, Indexes(o, argv, role, n), n);
    }
  }

  /** Before the first flag everything is a first argument. */
  lemma {:induction false} AllFirst(o: Options, argv: seq<string>, role: Role, n: nat)
    requires o.Valid() && n <= FirstFlag(o, argv) < |argv|
    ensures Texts(argv, Indexes(o, argv, role, n)) == if role == FirstArg then argv[..n] else []
    ensures role != FirstArg ==> Indexes(o, argv, role, n) == []
  {
    hide Indexes, Texts;
    AtStart(o, argv, role);
    if n > 0 {
      AllFirst(o, argv, role, n - 1);
      OneMore(o, argv, role, n - 1);
      SliceMore(argv, 0, n);
    }
  }

  /** Behind the first flag nothing is a first argument any more. */
  lemma {:induction false} FirstArgs(o: Options, argv: seq<string>, n: nat)
    requires o.Valid() && FirstFlag(o, argv) <= n <= |argv| && FirstFlag(o, argv) < |argv|
    ensures Texts(argv, Indexes(o, argv, FirstArg, n)) == argv[..FirstFlag(o, argv)]
  {
    hide Indexes, Texts, FirstFlag;
    if n == FirstFlag(o, argv) {
      AllFirst(o, argv, FirstArg, n);
    } else {
      FirstArgs(o, argv, n - 1);
      OneMore(o, argv, FirstArg, n - 1);
    }
  }

  /** Without flags, the first argument is all there is before the last ones. */
  lemma {:induction false} NoFlags(o: Options, argv: seq<string>, role: Role, n: nat)
    requires o.Valid() && FirstFlag(o, argv) == |argv| && 1 <= n <= |argv|
    ensures Texts(argv, Indexes(o, argv, role, n)) ==
            if role == FirstArg then [argv[0]] else if role == LastArg then argv[1..n] else []
    ensures role != FirstArg && role != LastArg ==> Indexes(o, argv, role, n) == []
  {
    hide Indexes, Texts;
    AtStart(o, argv, role);
    OneMore(o, argv, role, n - 1);
    SliceMore(argv, 1, n);
    if n > 1 {
      NoFlags(o, argv, role, n - 1);
    }
  }

  lemma {:induction false} RoleBehind(o: Options, argv: seq<string>, last: nat, i: nat)
    requires o.Valid() && last < i < |argv| && FirstFlag(o, argv) <= last
    requires forall j :: last < j < |argv| ==> !Used(o, argv, j)
    ensures RoleOf(o, argv, i) == LastArg
  {
    assert !Used(o, argv, i);
  }

  /** If `last` is the last used position, what comes behind it are the last arguments. */
  lemma {:induction false} LastArgs(o: Options, argv: seq<string>, last: nat, n: nat)
    requires o.Valid() && last < n <= |argv| && FirstFlag(o, argv) <= last && Used(o, argv, last)
    requires forall j :: last < j < |argv| ==> !Used(o, argv, j)
    ensures Texts(argv, Indexes(o, argv, LastArg, n)) == argv[last + 1..n]
    ensures Indexes(o, argv, UnknownArg, n) == Indexes(o, argv, UnknownArg, last + 1)
  {
    hide Indexes, Texts, RoleOf;
    SliceMore(argv, last + 1, n);
    if n > last + 1 {
      LastArgs(o, argv, last, n - 1);
      RoleBehind(o, argv, last, n - 1);
      OneMore(o, argv, LastArg, n - 1);
      OneMore(o, argv, UnknownArg, n - 1);
    } else {
      NoLastBefore(o, argv, last, n);
      AtStart(o, argv, LastArg);
    }
  }

  lemma {:induction false} NoLastBefore(o: Options, argv: seq<string>, last: nat, n: nat)
    requires o.Valid() && n <= last + 1 <= |argv| && FirstFlag(o, argv) <= last && Used(o, argv, last)
    ensures Indexes(o, argv, LastArg, n) == []
  {
    hide Indexes, Texts, RoleOf, Used, FirstFlag;
    AtStart(o, argv, LastArg);
    if n > 0 {
      NoLastBefore(o, argv, last, n - 1);
      RoleBefore(o, argv, last, n - 1);
      OneMore(o, argv, LastArg, n - 1);
    }
  }

  lemma {:induction false} RoleBefore(o: Options, argv: seq<string>, last: nat, i: nat)
    requires o.Valid() && i <= last < |argv| && FirstFlag(o, argv) <= last && Used(o, argv, last)
    ensures RoleOf(o, argv, i) != LastArg
  {
    hide FirstFlag;
    if i < last {
      assert UsedBehind(o, argv, i);
    }
  }
}
