/** The maps per type that answer what a level is configured to, built from a list of configurations.

    A map leaves out the levels that agree with the global one, and falls back to the global one. */
module TypedConfigs {
  import opened ConfigValues
  import opened Configs
  import opened Wrappers

  // ---------- One map ----------

  type Typed<V> = seq<(Level, V)>

  /** The entries of one type, with their values converted. */
  function OfType<V>(entries: seq<Entry>, t: ConfigType, conv: string -> V): Typed<V> {
    if entries == [] then []
    else
      (if entries[0].ctype == t then [(entries[0].level, conv(entries[0].value))] else [])
      + OfType(entries[1..], t, conv)
  }

  /** The first value always becomes the global one; later ones are left out if they equal the global one. */
  function SetValue<V(==)>(m: map<Level, V>, l: Level, v: V): map<Level, V> {
    if m == map[] then map[Global := v]
    else if Global in m && m[Global] == v then m
    else m[l := v]
  }

  function BuildFrom<V(==)>(m: map<Level, V>, values: Typed<V>): map<Level, V>
    decreases values
  {
    if values == [] then m else BuildFrom(SetValue(m, values[0].0, values[0].1), values[1..])
  }

  function Build<V(==)>(values: Typed<V>): map<Level, V> {
    BuildFrom(map[], values)
  }

  function Lookup<V>(m: map<Level, V>, l: Level, default: V): V {
    if l in m then m[l] else if Global in m then m[Global] else default
  }

  // ---------- When the map answers what the list says ----------

  predicate UniqueLevels<V>(values: Typed<V>) {
    forall i, j :: 0 <= i < j < |values| ==> values[i].0 != values[j].0
  }

  ghost predicate HasLevel<V>(values: Typed<V>, l: Level) {
    exists i :: 0 <= i < |values| && values[i].0 == l
  }

  /** The map gives every value of the list back. */
  ghost predicate Answers<V>(m: map<Level, V>, values: Typed<V>, default: V) {
    forall i :: 0 <= i < |values| ==> Lookup(m, values[i].0, default) == values[i].1
  }

  /** The first value of the list is the one of the global level, if there is one. */
  predicate FirstIsGlobal<V(==)>(values: Typed<V>) {
    forall i :: 0 <= i < |values| && values[i].0 == Global ==> values[i].1 == values[0].1
  }

  lemma {:induction false} BuildKeeps<V>(m: map<Level, V>, values: Typed<V>, l: Level)
    requires Global in m && !HasLevel(values, l)
    ensures var r := BuildFrom(m, values);
            Global in r && (l in r <==> l in m) && (l in m ==> r[l] == m[l])
    decreases values
  {
    if values != [] {
      var m1 := SetValue(m, values[0].0, values[0].1);
      assert values[0].0 != l;
      RestLevels(values, l);
      BuildKeeps(m1, values[1..], l);
    }
  }

  lemma {:induction false} RestLevels<V>(values: Typed<V>, l: Level)
    requires values != []
    ensures HasLevel(values, l) <==> values[0].0 == l || HasLevel(values[1..], l)
  {
    if i :| 0 <= i < |values| && values[i].0 == l && i > 0 {
      assert values[1..][i - 1].0 == l;
    }
    if i :| 0 <= i < |values[1..]| && values[1..][i].0 == l {
      assert values[i + 1].0 == l;
    }
  }

  /** While no other global value comes, the map keeps answering. */
  lemma {:induction false} BuildAnswers<V>(m: map<Level, V>, values: Typed<V>, default: V)
    requires Global in m && UniqueLevels(values)
    requires forall i :: 0 <= i < |values| ==>
               if values[i].0 == Global then values[i].1 == m[Global] else values[i].0 !in m
    ensures Answers(BuildFrom(m, values), values, default) && Global in BuildFrom(m, values)
    ensures BuildFrom(m, values)[Global] == m[Global]
    decreases values
  {
    if values != [] {
      var (l, v) := values[0];
      var m1, rest := SetValue(m, l, v), values[1..];
      assert forall i :: 0 <= i < |rest| ==> rest[i] == values[i + 1];
      assert m1[Global] == m[Global];
      BuildAnswers(m1, rest, default);
      assert !HasLevel(rest, l);
      BuildKeeps(m1, rest, l);
      var r := BuildFrom(m, values);
      assert Lookup(r, l, default) == v;
      forall i | 0 <= i < |values|
        ensures Lookup(r, values[i].0, default) == values[i].1
      {
        assert i > 0 ==> values[i] == rest[i - 1];
      }
    }
  }

  /** A later global value replaces the one that the first entry has put in its place. */
  lemma {:induction false} BuildReplaces<V>(m: map<Level, V>, values: Typed<V>, k: nat)
    requires Global in m && UniqueLevels(values) && k < |values| && values[k].0 == Global
    ensures var r := BuildFrom(m, values); Global in r && r[Global] == values[k].1
    decreases values
  {
    var m1, rest := SetValue(m, values[0].0, values[0].1), values[1..];
    assert forall i :: 0 <= i < |rest| ==> rest[i] == values[i + 1];
    if k == 0 {
      BuildKeeps(m1, rest, Global);
    } else {
      BuildReplaces(m1, rest, k - 1);
    }
  }

  /** The map answers what the list says exactly if the first value of the list is the global one. */
  lemma {:induction false} BuildCorrect<V>(values: Typed<V>, default: V)
    requires UniqueLevels(values)
    ensures Answers(Build(values), values, default) <==> FirstIsGlobal(values)
  {
    if values != [] {
      var (l, v) := values[0];
      var rest := values[1..];
      var m := map[Global := v];
      assert forall i :: 0 <= i < |rest| ==> rest[i] == values[i + 1];
      assert Build(values) == BuildFrom(m, rest);
      if FirstIsGlobal(values) {
        BuildAnswers(m, rest, default);
        FirstAnswers(values, default);
        assert forall i :: 0 < i < |values| ==> values[i] == rest[i - 1];
      } else {
        var k :| 0 <= k < |values| && values[k].0 == Global && values[k].1 != v;
        BuildReplaces(m, rest, k - 1);
        BuildKeeps(m, rest, l);
        assert Lookup(Build(values), values[0].0, default) != values[0].1;
      }
    }
  }

  /** A later value for the global level that is not the one the map falls back to so far. */
  ghost predicate GlobalChanges<V>(values: Typed<V>, i: int, v: V) {
    exists k :: 0 <= k < |values| && i < k && values[k].0 == Global && values[k].1 != v
  }

  lemma {:induction false} ChangesRest<V>(values: Typed<V>, i: nat, v: V)
    requires values != []
    ensures GlobalChanges(values, i, v) <==> GlobalChanges(values[1..], i - 1, v)
  {
    var rest := values[1..];
    assert forall k :: 0 <= k < |rest| ==> rest[k] == values[k + 1];
    if GlobalChanges(values, i, v) {
      var k :| 0 <= k < |values| && i < k && values[k].0 == Global && values[k].1 != v;
      assert rest[k - 1] == values[k];
    }
  }

  /** A value that was left out is lost if the global value changes later, and only then. */
  lemma {:induction false} LevelAnswer<V>(m: map<Level, V>, values: Typed<V>, i: nat, default: V)
    requires Global in m && UniqueLevels(values) && i < |values|
    requires forall k :: 0 <= k < |values| && values[k].0 != Global ==> values[k].0 !in m
    requires forall k :: 0 <= k < i ==> values[k].0 != Global
    ensures Lookup(BuildFrom(m, values), values[i].0, default) == values[i].1
       <==> values[i].0 == Global || !(values[i].1 == m[Global] && GlobalChanges(values, i, m[Global]))
    decreases values
  {
    var (l, v) := values[0];
    var m1, rest := SetValue(m, l, v), values[1..];
    assert forall k :: 0 <= k < |rest| ==> rest[k] == values[k + 1];
    if i > 0 {
      LevelAnswer(m1, rest, i - 1, default);
      ChangesRest(values, i, m[Global]);
    } else {
      assert !HasLevel(rest, l);
      BuildKeeps(m1, rest, l);
      if GlobalChanges(values, 0, m[Global]) {
        var k :| 0 < k < |values| && values[k].0 == Global && values[k].1 != m[Global];
        BuildReplaces(m1, rest, k - 1);
      } else if HasLevel(rest, Global) {
        var k :| 0 <= k < |rest| && rest[k].0 == Global;
        BuildReplaces(m1, rest, k);
        assert values[k + 1].1 == m[Global];
      } else {
        BuildKeeps(m1, rest, Global);
      }
    }
  }

  /** Which values the map answers wrongly: those equal to the first one, if the global value comes later and is
      another. */
  lemma {:induction false} BuildAnswersLevel<V>(values: Typed<V>, i: nat, default: V)
    requires UniqueLevels(values) && i < |values|
    ensures Lookup(Build(values), values[i].0, default) == values[i].1
       <==> !(values[i].1 == values[0].1 && GlobalChanges(values, i, values[0].1))
  {
    var (l, v) := values[0];
    var m, rest := map[Global := v], values[1..];
    assert forall k :: 0 <= k < |rest| ==> rest[k] == values[k + 1];
    assert Build(values) == BuildFrom(m, rest);
    if FirstIsGlobal(values) {
      BuildCorrect(values, default);
    } else {
      var g :| 0 <= g < |values| && values[g].0 == Global && values[g].1 != v;
      if i == 0 {
        FirstGetsGlobal(values, g, default);
      } else if i <= g {
        LevelAnswer(m, rest, i - 1, default);
        ChangesRest(values, i, v);
      } else {
        AnswersBehind(m, rest, g - 1, i - 1, default);
      }
    }
  }

  /** Behind its global value, the map answers everything that comes. */
  lemma {:induction false} AnswersBehind<V>(m: map<Level, V>, values: Typed<V>, g: nat, i: nat, default: V)
    requires Global in m && UniqueLevels(values) && g < i < |values| && values[g].0 == Global
    requires forall k :: 0 <= k < |values| && values[k].0 != Global ==> values[k].0 !in m
    ensures Lookup(BuildFrom(m, values), values[i].0, default) == values[i].1
    decreases values
  {
    var m1, rest := SetValue(m, values[0].0, values[0].1), values[1..];
    assert forall k :: 0 <= k < |rest| ==> rest[k] == values[k + 1];
    if g > 0 {
      AnswersBehind(m1, rest, g - 1, i - 1, default);
    } else {
      BuildAnswers(m1, rest, default);
      assert Lookup(BuildFrom(m1, rest), rest[i - 1].0, default) == rest[i - 1].1;
    }
  }

  lemma {:induction false} FirstAnswers<V>(values: Typed<V>, default: V)
    requires UniqueLevels(values) && values != [] && FirstIsGlobal(values)
    ensures Lookup(Build(values), values[0].0, default) == values[0].1
  {
    var (l, v) := values[0];
    var rest := values[1..];
    var m := map[Global := v];
    assert forall i :: 0 <= i < |rest| ==> rest[i] == values[i + 1];
    BuildAnswers(m, rest, default);
    assert !HasLevel(rest, l);
    BuildKeeps(m, rest, l);
  }

  // ---------- From settings to answers ----------

  lemma {:induction false} OfTypeConcat<V>(a: seq<Entry>, b: seq<Entry>, t: ConfigType, conv: string -> V)
    ensures OfType(a + b, t, conv) == OfType(a, t, conv) + OfType(b, t, conv)
  {
    if a == [] {
      assert a + b == b;
    } else {
      assert (a + b)[1..] == a[1..] + b && (a + b)[0] == a[0];
      OfTypeConcat(a[1..], b, t, conv);
      var one := if a[0].ctype == t then [(a[0].level, conv(a[0].value))] else [];
      assert OfType(a + b, t, conv) == one + OfType(a[1..] + b, t, conv);
      assert OfType(a, t, conv) == one + OfType(a[1..], t, conv);
    }
  }

  /** Typed values stand for entries of the list, with their levels ... */
  lemma {:induction false} OfTypeOrigin<V>(entries: seq<Entry>, t: ConfigType, conv: string -> V,
                                           i: nat) returns (k: nat)
    requires i < |OfType(entries, t, conv)|
    ensures k < |entries| && entries[k].ctype == t
    ensures OfType(entries, t, conv)[i] == (entries[k].level, conv(entries[k].value))
  {
    if entries[0].ctype == t && i == 0 {
      k := 0;
    } else {
      k := OfTypeOrigin(entries[1..], t, conv, if entries[0].ctype == t then i - 1 else i);
      k := k + 1;
    }
  }

  /** ... and every entry of the type is there. */
  lemma {:induction false} OfTypeHas<V>(entries: seq<Entry>, t: ConfigType, conv: string -> V, k: nat) returns (i: nat)
    requires k < |entries| && entries[k].ctype == t
    ensures i < |OfType(entries, t, conv)|
    ensures OfType(entries, t, conv)[i] == (entries[k].level, conv(entries[k].value))
  {
    if k == 0 {
      i := 0;
    } else {
      i := OfTypeHas(entries[1..], t, conv, k - 1);
      i := if entries[0].ctype == t then i + 1 else i;
    }
  }

  lemma {:induction false} OfTypeUnique<V>(entries: seq<Entry>, t: ConfigType, conv: string -> V)
    requires UniqueKeys(entries)
    ensures UniqueLevels(OfType(entries, t, conv))
  {
    if entries != [] {
      var rest := entries[1..];
      assert forall i :: 0 <= i < |rest| ==> rest[i] == entries[i + 1];
      OfTypeUnique(rest, t, conv);
      if entries[0].ctype == t {
        var values := OfType(rest, t, conv);
        forall i | 0 <= i < |values|
          ensures values[i].0 != entries[0].level
        {
          var k := OfTypeOrigin(rest, t, conv, i);
        }
      }
    }
  }

  lemma {:induction false} OfTypeFirst<V>(entries: seq<Entry>, t: ConfigType, conv: string -> V)
    ensures var values := OfType(entries, t, conv);
            if values == [] then FirstOf(entries, t) == None else FirstOf(entries, t) == Some(values[0].0)
  {
    if entries != [] {
      OfTypeFirst(entries[1..], t, conv);
    }
  }

  /** The map built for a type from a list with unique keys answers every entry of the list, if and only if the
      first entry of the type and the global one have the same converted value. */
  lemma {:induction false} MapAnswersEntries<V>(entries: seq<Entry>, t: ConfigType, conv: string -> V, default: V)
    requires UniqueKeys(entries)
    ensures var values := OfType(entries, t, conv);
            (forall k :: 0 <= k < |entries| && entries[k].ctype == t ==>
               Lookup(Build(values), entries[k].level, default) == conv(entries[k].value))
            <==> FirstIsGlobal(values)
  {
    var values := OfType(entries, t, conv);
    OfTypeUnique(entries, t, conv);
    BuildCorrect(values, default);
    if FirstIsGlobal(values) {
      forall k | 0 <= k < |entries| && entries[k].ctype == t
        ensures Lookup(Build(values), entries[k].level, default) == conv(entries[k].value)
      {
        var i := OfTypeHas(entries, t, conv, k);
      }
    } else {
      var i :| 0 <= i < |values| && Lookup(Build(values), values[i].0, default) != values[i].1;
      var k := OfTypeOrigin(entries, t, conv, i);
    }
  }

  /** The entry has the same value as the first of its type, and the global entry comes later with another. */
  ghost predicate LosesValue<V>(entries: seq<Entry>, t: ConfigType, conv: string -> V, k: nat) {
    && k < |entries| && OfType(entries, t, conv) != []
    && conv(entries[k].value) == OfType(entries, t, conv)[0].1
    && exists j :: k < j < |entries| && entries[j].ctype == t && entries[j].level == Global
                   && conv(entries[j].value) != conv(entries[k].value)
  }

  /** The map built from a list with unique keys answers an entry of the list, if and only if the entry does not
      lose its value. */
  lemma {:induction false} MapAnswersEntry<V>(entries: seq<Entry>, t: ConfigType, conv: string -> V, k: nat, default: V)
    requires UniqueKeys(entries) && k < |entries| && entries[k].ctype == t
    ensures Lookup(Build(OfType(entries, t, conv)), entries[k].level, default) == conv(entries[k].value)
       <==> !LosesValue(entries, t, conv, k)
  {
    hide Build, OfType, UniqueLevels, GlobalChanges;
    var values := OfType(entries, t, conv);
    var before, rest := OfType(entries[..k], t, conv), entries[k + 1..];
    OfTypeAround(entries, t, conv, k);
    OfTypeUnique(entries, t, conv);
    BuildAnswersLevel(values, |before|, default);
    ChangesBehind(before, values[|before|], OfType(rest, t, conv), values[0].1);
    ChangesEntry(rest, t, conv, values[0].1);
    assert forall j :: 0 <= j < |rest| ==> rest[j] == entries[k + 1 + j];
    assert forall j :: k < j < |entries| ==> entries[j] == rest[j - k - 1];
  }

  lemma {:induction false} ChangesBehind<V>(before: Typed<V>, x: (Level, V), behind: Typed<V>, v: V)
    ensures GlobalChanges(before + [x] + behind, |before|, v) <==> GlobalChanges(behind, -1, v)
  {
    var values := before + [x] + behind;
    assert forall k :: 0 <= k < |behind| ==> values[|before| + 1 + k] == behind[k];
    if GlobalChanges(values, |before|, v) {
      var k :| 0 <= k < |values| && |before| < k && values[k].0 == Global && values[k].1 != v;
      assert behind[k - |before| - 1] == values[k];
    }
  }

  lemma {:induction false} ChangesEntry<V>(entries: seq<Entry>, t: ConfigType, conv: string -> V, v: V)
    ensures GlobalChanges(OfType(entries, t, conv), -1, v)
       <==> exists j :: 0 <= j < |entries| && entries[j].ctype == t && entries[j].level == Global
                        && conv(entries[j].value) != v
  {
    var values := OfType(entries, t, conv);
    if GlobalChanges(values, -1, v) {
      var g :| 0 <= g < |values| && values[g].0 == Global && values[g].1 != v;
      var j := OfTypeOrigin(entries, t, conv, g);
    }
    if j :| 0 <= j < |entries| && entries[j].ctype == t && entries[j].level == Global && conv(entries[j].value) != v {
      var g := OfTypeHas(entries, t, conv, j);
    }
  }

  lemma {:induction false} OfTypeAround<V>(entries: seq<Entry>, t: ConfigType, conv: string -> V, k: nat)
    requires k < |entries| && entries[k].ctype == t
    ensures var e := entries[k];
            OfType(entries, t, conv)
            == OfType(entries[..k], t, conv) + [(e.level, conv(e.value))] + OfType(entries[k + 1..], t, conv)
  {
    var e, rest := entries[k], entries[k + 1..];
    assert entries == entries[..k] + ([e] + rest);
    OfTypeConcat(entries[..k], [e] + rest, t, conv);
    assert ([e] + rest)[1..] == rest;
    assert OfType([e] + rest, t, conv) == [(e.level, conv(e.value))] + OfType(rest, t, conv);
  }

  /** After any settings of which the first for a type was global, the map for the type answers, for every level,
      the value of the last setting of that level or of the global one. */
  lemma {:induction false} AnswersLastSetting<V>(settings: seq<Entry>, t: ConfigType, conv: string -> V,
                                                 l: Level, default: V)
    requires FirstOf(settings, t) == Some(Global) && !l.UnknownLevel?
    ensures Last(settings, l, t).Some?
    ensures Lookup(Build(OfType(Replay([], settings), t, conv)), l, default) == conv(Last(settings, l, t).value)
  {
    var entries := Replay([], settings);
    var values := OfType(entries, t, conv);
    ReplayFirst(settings, t);
    OfTypeFirst(entries, t, conv);
    OfTypeUnique(entries, t, conv);
    assert FirstIsGlobal(values);
    LastWriteWins([], settings, l, t);
    GlobalDecides(settings, l, t);
    MapAnswersEntries(entries, t, conv, default);
    var k := Find(entries, l, t);
    assert entries[k].ctype == t;
  }

  lemma {:induction false} GlobalDecides(settings: seq<Entry>, l: Level, t: ConfigType)
    requires FirstOf(settings, t) == Some(Global) && !l.UnknownLevel?
    ensures Last(settings, l, t).Some?
  {
    var n := |settings| - 1;
    if !Decides(settings[n], l, t) {
      FirstOfConcat(settings[..n], [settings[n]], t);
      assert settings[..n] + [settings[n]] == settings;
      GlobalDecides(settings[..n], l, t);
    }
  }

  lemma {:induction false} FirstGetsGlobal<V>(values: Typed<V>, k: nat, default: V)
    requires UniqueLevels(values) && 0 < k < |values| && values[k].0 == Global
    ensures Lookup(Build(values), values[0].0, default) == values[k].1
  {
    var m, rest := map[Global := values[0].1], values[1..];
    assert forall i :: 0 <= i < |rest| ==> rest[i] == values[i + 1];
    assert Build(values) == BuildFrom(m, rest);
    BuildReplaces(m, rest, k - 1);
    assert !HasLevel(rest, values[0].0);
    BuildKeeps(m, rest, values[0].0);
  }

  /** Otherwise the level that was set first always gets the global value, whatever it was set to last. */
  lemma {:induction false} FirstLevelIsForgotten<V>(settings: seq<Entry>, t: ConfigType, conv: string -> V,
                                                    l: Level, default: V)
    requires FirstOf(settings, t) == Some(l) && l != Global && Last(settings, Global, t).Some?
    ensures Lookup(Build(OfType(Replay([], settings), t, conv)), l, default) == conv(Last(settings, Global, t).value)
  {
    var entries := Replay([], settings);
    var values := OfType(entries, t, conv);
    ReplayFirst(settings, t);
    OfTypeFirst(entries, t, conv);
    OfTypeUnique(entries, t, conv);
    LastWriteWins([], settings, Global, t);
    var i := OfTypeHas(entries, t, conv, Find(entries, Global, t));
    FirstGetsGlobal(values, i, default);
  }

  /** For instance: a level is disabled, but the map says it is enabled. */
  lemma {:induction false} DisabledButEnabled()
    ensures var settings := [Entry(Info, Enabled, "true"), Entry(Global, Enabled, "true"), Entry(Info, Enabled, "false")];
            && Last(settings, Info, Enabled) == Some("false") && !GetBool("false")
            && Lookup(Build(OfType(Replay([], settings), Enabled, GetBool)), Info, false) == true
  {
    var settings := [Entry(Info, Enabled, "true"), Entry(Global, Enabled, "true"), Entry(Info, Enabled, "false")];
    hide Replay, Build, OfType, Lookup;
    assert settings[..2] == [settings[0], settings[1]];
    assert Last(settings, Global, Enabled) == Last(settings[..2], Global, Enabled) == Some("true");
    FirstLevelIsForgotten(settings, Enabled, GetBool, Info, false);
  }

  /** Building goes through the list once: one more entry sets at most one more value. */
  ghost predicate Extends<V(!new)>(entries: seq<Entry>, e: Entry, t: ConfigType, conv: string -> V) {
    var m := Build(OfType(entries, t, conv));
    Build(OfType(entries + [e], t, conv)) == if e.ctype == t then SetValue(m, e.level, conv(e.value)) else m
  }

  lemma {:induction false} BuildOneMore<V(!new)>(entries: seq<Entry>, e: Entry, t: ConfigType, conv: string -> V)
    ensures Extends(entries, e, t, conv)
  {
    OfTypeConcat(entries, [e], t, conv);
    var values := OfType(entries, t, conv);
    if e.ctype == t {
      assert OfType([e], t, conv) == [(e.level, conv(e.value))];
      BuildFromOneMore(map[], values, e.level, conv(e.value));
    } else {
      assert OfType([e], t, conv) == [] && values + [] == values;
    }
  }

  lemma {:induction false} BuildFromOneMore<V>(m: map<Level, V>, values: Typed<V>, l: Level, v: V)
    ensures BuildFrom(m, values + [(l, v)]) == SetValue(BuildFrom(m, values), l, v)
    decreases values
  {
    if values == [] {
      assert values + [(l, v)] == [(l, v)];
    } else {
      assert (values + [(l, v)])[1..] == values[1..] + [(l, v)];
      BuildFromOneMore(SetValue(m, values[0].0, values[0].1), values[1..], l, v);
    }
  }
}
