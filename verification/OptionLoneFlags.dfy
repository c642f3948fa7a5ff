/** Arguments in which some flags do not take the argument that follows them. */
module OptionLoneFlags {
  import opened OptionRoles
  import opened OptionExports

  /** Flags and words in turn, between words that are no flags. */
  ghost predicate IsLoose(o: Options, argv: seq<string>, a: nat, pairs: seq<Pair>)
    requires o.Valid()
  {
    && a + 2 * |pairs| <= |argv|
    && (forall i :: 0 <= i < a || a + 2 * |pairs| <= i < |argv| ==> !IsFlag(o, argv[i]))
    && (forall k :: 0 <= k < |pairs| ==> LooseAt(o, argv, a + 2 * k, pairs[k]))
  }

  /** Only an argument that the flag takes may look like a flag itself. */
  predicate LooseAt(o: Options, argv: seq<string>, i: nat, pair: Pair)
    requires o.Valid()
  {
    i + 1 < |argv| && argv[i] == pair.flag && argv[i + 1] == pair.arg && IsLoosePair(o, pair)
  }

  predicate IsLoosePair(o: Options, pair: Pair)
    requires o.Valid()
  {
    IsFlag(o, pair.flag) && (TakesArg(o, pair.flag) || !IsFlag(o, pair.arg))
  }

  predicate IsOf(o: Options, pair: Pair, g: nat) {
    pair.flag in o.ids && o.ids[pair.flag] == g
  }

  predicate NoneOf(o: Options, pairs: seq<Pair>, g: nat) {
    forall p :: p in pairs ==> !IsOf(o, p, g)
  }

  /** Whether its arguments are taken or not, every flag of a pair is read as a flag. */
  lemma {:induction false} LooseTaken(o: Options, argv: seq<string>, a: nat, pairs: seq<Pair>, k: nat)
    requires o.Valid() && IsLoose(o, argv, a, pairs) && k <= |pairs|
    ensures a + 2 * k < |argv| ==> !Taken(o, argv, a + 2 * k)
    ensures k < |pairs| ==> (Taken(o, argv, a + 2 * k + 1) <==> TakesArg(o, pairs[k].flag))
  {
    if k > 0 {
      LooseTaken(o, argv, a, pairs, k - 1);
      assert LooseAt(o, argv, a + 2 * (k - 1), pairs[k - 1]);
    }
    if k < |pairs| {
      assert LooseAt(o, argv, a + 2 * k, pairs[k]);
    }
  }

  lemma {:induction false} LooseFirst(o: Options, argv: seq<string>, a: nat, pairs: seq<Pair>)
    requires o.Valid() && IsLoose(o, argv, a, pairs) && pairs != []
    ensures FirstFlag(o, argv) == a < |argv|
  {
    var f := FirstFlag(o, argv);
    assert LooseAt(o, argv, a + 2 * 0, pairs[0]);
    assert f >= a;
  }

  /** Nothing is read as a flag of a group but the flags of its pairs. */
  lemma {:induction false} LooseFlag(o: Options, argv: seq<string>, a: nat, pairs: seq<Pair>, i: nat, g: nat)
    requires o.Valid() && IsLoose(o, argv, a, pairs) && i < |argv| && RoleOf(o, argv, i) == FlagOf(g)
    ensures !NoneOf(o, pairs, g)
  {
    hide UsedBehind, FirstFlag;
    assert IsFlag(o, argv[i]) && o.ids[argv[i]] == g && !Taken(o, argv, i);
    var k := (i - a) / 2;
    assert 0 <= k < |pairs|;
    LooseTaken(o, argv, a, pairs, k);
    assert LooseAt(o, argv, a + 2 * k, pairs[k]);
    assert i == a + 2 * k;
    assert IsOf(o, pairs[k], g);
  }

  /** A group of which there is no pair is not set. */
  lemma {:induction false} NotSet(o: Options, argv: seq<string>, a: nat, pairs: seq<Pair>, g: nat)
    requires o.Valid() && IsLoose(o, argv, a, pairs) && NoneOf(o, pairs, g)
    ensures Indexes(o, argv, FlagOf(g), |argv|) == []
  {
    hide IsLoose, RoleOf;
    var indexes := Indexes(o, argv, FlagOf(g), |argv|);
    if indexes != [] {
      var i := indexes[0];
      ListedOnce(o, argv, FlagOf(g), |argv|, i);
      LooseFlag(o, argv, a, pairs, i, g);
    }
  }

  /** A flag that takes its word gives its group an argument. */
  lemma {:induction false} WordTaken(o: Options, argv: seq<string>, a: nat, pairs: seq<Pair>, k: nat)
    requires o.Valid() && IsLoose(o, argv, a, pairs) && k < |pairs| && TakesArg(o, pairs[k].flag)
    ensures Indexes(o, argv, ArgOf(o.ids[pairs[k].flag]), |argv|) != []
  {
    hide Indexes, Taken, FirstFlag, UsedBehind, Increasing;
    var i, g := a + 2 * k + 1, o.ids[pairs[k].flag];
    LooseTaken(o, argv, a, pairs, k);
    LooseFirst(o, argv, a, pairs);
    assert LooseAt(o, argv, a + 2 * k, pairs[k]);
    ListedOnce(o, argv, ArgOf(g), |argv|, i);
  }

  /** A flag that does not take its word leaves it among the unknown arguments, or in front of the last ones. */
  lemma {:induction false} WordLeft(o: Options, argv: seq<string>, a: nat, pairs: seq<Pair>, k: nat)
    requires o.Valid() && IsLoose(o, argv, a, pairs) && k < |pairs| && !TakesArg(o, pairs[k].flag)
    ensures Indexes(o, argv, UnknownArg, |argv|) != [] || Select(o, argv, LastArg) == argv[a + 2 * k + 1..]
  {
    hide Indexes, Texts, Taken, FirstFlag, Increasing;
    var i := a + 2 * k + 1;
    LooseTaken(o, argv, a, pairs, k);
    LooseFirst(o, argv, a, pairs);
    assert LooseAt(o, argv, a + 2 * k, pairs[k]);
    if UsedBehind(o, argv, i) {
      ListedOnce(o, argv, UnknownArg, |argv|, i);
    } else {
      assert forall j :: i <= j < |argv| ==> !Used(o, argv, j);
      LastArgs(o, argv, i - 1, |argv|);
      assert argv[i..|argv|] == argv[i..];
    }
  }
}
