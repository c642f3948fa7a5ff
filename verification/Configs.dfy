/** Logger configurations as values: a list of entries that grows by `set`, and the maps per type that are built
    from it.  The classes in module LogConfigurations are proved to do the same. */
module Configs {
  import opened Wrappers

  datatype Level = Global | Trace | Debug | Fatal | Error | Warning | Verbose | Info | UnknownLevel

  datatype ConfigType =
    | Enabled
    | ToFile
    | ToStandardOutput
    | Format
    | Filename
    | SubsecondPrecision
    | PerformanceTracking
    | MaxLogFileSize
    | LogFlushThreshold
    | UnknownType

  function CastToInt(l: Level): nat {
    match l
    case Global => 1
    case Trace => 2
    case Debug => 4
    case Fatal => 8
    case Error => 16
    case Warning => 32
    case Verbose => 64
    case Info => 128
    case UnknownLevel => 1010
  }

  function CastFromInt(n: nat): Level {
    match n
    case 1 => Global
    case 2 => Trace
    case 4 => Debug
    case 8 => Fatal
    case 16 => Error
    case 32 => Warning
    case 64 => Verbose
    case 128 => Info
    case _ => UnknownLevel
  }

  const MIN_VALID: nat := 2
  const MAX_VALID: nat := 128

  /** A level that setting the global level sets as well. */
  predicate IsOrdinary(l: Level) {
    !l.Global? && !l.UnknownLevel?
  }

  datatype Entry = Entry(level: Level, ctype: ConfigType, value: string)

  /** Position of the first entry for a level and a type, or the number of entries. */
  function Find(entries: seq<Entry>, l: Level, t: ConfigType): (k: nat)
    ensures k <= |entries|
    ensures k < |entries| ==> entries[k].level == l && entries[k].ctype == t
    ensures forall i :: 0 <= i < k ==> entries[i].level != l || entries[i].ctype != t
  {
    if entries == [] || (entries[0].level == l && entries[0].ctype == t) then 0 else 1 + Find(entries[1..], l, t)
  }

  function Value(entries: seq<Entry>, l: Level, t: ConfigType): Option<string> {
    var k := Find(entries, l, t);
    if k < |entries| then Some(entries[k].value) else None
  }

  function SetOne(entries: seq<Entry>, l: Level, t: ConfigType, v: string): seq<Entry> {
    var k := Find(entries, l, t);
    if k < |entries| then entries[k := Entry(l, t, v)] else entries + [Entry(l, t, v)]
  }

  /** Sets every level from `n` on, doubling it from one level to the next. */
  function Broadcast(entries: seq<Entry>, t: ConfigType, v: string, n: nat): seq<Entry>
    requires 0 < n
    decreases MAX_VALID - n
  {
    var set1 := SetOne(entries, CastFromInt(n), t, v);
    if 2 * n <= MAX_VALID then Broadcast(set1, t, v, 2 * n) else set1
  }

  /** The single levels are the powers of two from `MIN_VALID` to `MAX_VALID`. */
  predicate IsBit(n: nat) {
    n in {2, 4, 8, 16, 32, 64, 128}
  }

  function UnsafeSet(entries: seq<Entry>, l: Level, t: ConfigType, v: string): seq<Entry> {
    var set1 := SetOne(entries, l, t, v);
    if l == Global then Broadcast(set1, t, v, MIN_VALID) else set1
  }

  /** Setting the global level broadcasts twice. */
  function Set(entries: seq<Entry>, l: Level, t: ConfigType, v: string): seq<Entry> {
    var set1 := UnsafeSet(entries, l, t, v);
    if l == Global then Broadcast(set1, t, v, MIN_VALID) else set1
  }

  /** Replaying a list of entries, as `setFromBase` does. */
  function Replay(entries: seq<Entry>, base: seq<Entry>): seq<Entry>
    decreases base
  {
    if base == [] then entries
    else Replay(Set(entries, base[0].level, base[0].ctype, base[0].value), base[1..])
  }

  // ---------- The list is a map in which the last write wins ----------

  /** Does setting entry `e` also decide the value for level `l` and type `t`? */
  predicate Decides(e: Entry, l: Level, t: ConfigType) {
    e.ctype == t && (e.level == l || (e.level == Global && IsOrdinary(l)))
  }

  /** The value of the last of these settings that decides, if there is one. */
  function Last(settings: seq<Entry>, l: Level, t: ConfigType): Option<string> {
    if settings == [] then None
    else
      var e := settings[|settings| - 1];
      if Decides(e, l, t) then Some(e.value) else Last(settings[..|settings| - 1], l, t)
  }

  predicate UniqueKeys(entries: seq<Entry>) {
    forall i, j :: 0 <= i < j < |entries| ==> entries[i].level != entries[j].level || entries[i].ctype != entries[j].ctype
  }

  lemma {:induction false} FindIs(entries: seq<Entry>, l: Level, t: ConfigType, k: nat)
    requires k <= |entries|
    requires k < |entries| ==> entries[k].level == l && entries[k].ctype == t
    requires forall i :: 0 <= i < k ==> entries[i].level != l || entries[i].ctype != t
    ensures Find(entries, l, t) == k
  {
  }

  lemma {:induction false} ValueCons(e: Entry, rest: seq<Entry>, l: Level, t: ConfigType)
    ensures Value([e] + rest, l, t) == if e.level == l && e.ctype == t then Some(e.value) else Value(rest, l, t)
  {
    assert ([e] + rest)[1..] == rest;
  }

  lemma {:induction false} SetOneCons(e: Entry, rest: seq<Entry>, l: Level, t: ConfigType, v: string)
    ensures SetOne([e] + rest, l, t, v)
         == if e.level == l && e.ctype == t then [Entry(l, t, v)] + rest else [e] + SetOne(rest, l, t, v)
  {
    assert ([e] + rest)[1..] == rest;
  }

  lemma {:induction false} SetOneValue(entries: seq<Entry>, l: Level, t: ConfigType, v: string, l': Level,
                                       t': ConfigType)
    ensures Value(SetOne(entries, l, t, v), l', t') == if l' == l && t' == t then Some(v) else Value(entries, l', t')
    decreases entries
  {
    if entries == [] {
      assert SetOne(entries, l, t, v) == [Entry(l, t, v)];
    } else {
      hide Find, Value, SetOne;
      var e, rest := entries[0], entries[1..];
      assert entries == [e] + rest;
      SetOneCons(e, rest, l, t, v);
      ValueCons(e, rest, l', t');
      ValueCons(Entry(l, t, v), rest, l', t');
      ValueCons(e, SetOne(rest, l, t, v), l', t');
      SetOneValue(rest, l, t, v, l', t');
    }
  }

  lemma {:induction false} SetOneKeys(entries: seq<Entry>, l: Level, t: ConfigType, v: string)
    requires UniqueKeys(entries)
    ensures UniqueKeys(SetOne(entries, l, t, v))
  {
  }

  lemma {:induction false} BroadcastValue(entries: seq<Entry>, t: ConfigType, v: string, n: nat, l': Level,
                                          t': ConfigType)
    requires IsBit(n)
    ensures Value(Broadcast(entries, t, v, n), l', t')
         == if t' == t && IsOrdinary(l') && n <= CastToInt(l') then Some(v) else Value(entries, l', t')
    decreases MAX_VALID - n
  {
    hide Value, SetOne;
    var set1 := SetOne(entries, CastFromInt(n), t, v);
    SetOneValue(entries, CastFromInt(n), t, v, l', t');
    if 2 * n <= MAX_VALID {
      BroadcastValue(set1, t, v, 2 * n, l', t');
    }
  }

  lemma {:induction false} BroadcastStep(entries: seq<Entry>, t: ConfigType, v: string, n: nat)
    requires IsBit(n)
    ensures var set1 := UnsafeSet(entries, CastFromInt(n), t, v);
            Broadcast(entries, t, v, n) == if 2 * n <= MAX_VALID then Broadcast(set1, t, v, 2 * n) else set1
    ensures CastFromInt(n) != Global && (2 * n <= MAX_VALID ==> IsBit(2 * n))
  {
  }

  /** What one `set` does to every level and every type. */
  lemma {:induction false} SetDecides(entries: seq<Entry>, e: Entry, l: Level, t: ConfigType)
    ensures Value(Set(entries, e.level, e.ctype, e.value), l, t)
         == if Decides(e, l, t) then Some(e.value) else Value(entries, l, t)
  {
    hide Broadcast, Value, SetOne;
    var set1 := SetOne(entries, e.level, e.ctype, e.value);
    SetOneValue(entries, e.level, e.ctype, e.value, l, t);
    if e.level == Global {
      BroadcastValue(set1, e.ctype, e.value, MIN_VALID, l, t);
      BroadcastValue(Broadcast(set1, e.ctype, e.value, MIN_VALID), e.ctype, e.value, MIN_VALID, l, t);
    }
  }

  lemma {:induction false} ReplayLast(entries: seq<Entry>, settings: seq<Entry>)
    ensures settings != [] ==>
            var n := |settings| - 1;
            Replay(entries, settings) ==
            Set(Replay(entries, settings[..n]), settings[n].level, settings[n].ctype, settings[n].value)
    decreases settings
  {
    if |settings| > 1 {
      var n := |settings| - 1;
      ReplayLast(Set(entries, settings[0].level, settings[0].ctype, settings[0].value), settings[1..]);
      assert settings[1..][..n - 1] == settings[..n][1..];
    }
  }

  /** After any settings, every level and type has the value of the last one that decided it. */
  lemma {:induction false} LastWriteWins(entries: seq<Entry>, settings: seq<Entry>, l: Level, t: ConfigType)
    ensures Value(Replay(entries, settings), l, t)
         == if Last(settings, l, t) == None then Value(entries, l, t) else Last(settings, l, t)
  {
    if settings != [] {
      var n := |settings| - 1;
      ReplayLast(entries, settings);
      SetDecides(Replay(entries, settings[..n]), settings[n], l, t);
      LastWriteWins(entries, settings[..n], l, t);
    }
  }

  // ---------- Order and keys of the list ----------

  /** The level of the first entry of a type. */
  function FirstOf(entries: seq<Entry>, t: ConfigType): Option<Level> {
    if entries == [] then None
    else if entries[0].ctype == t then Some(entries[0].level)
    else FirstOf(entries[1..], t)
  }

  lemma {:induction false} FirstOfConcat(a: seq<Entry>, b: seq<Entry>, t: ConfigType)
    ensures FirstOf(a + b, t) == if FirstOf(a, t).Some? then FirstOf(a, t) else FirstOf(b, t)
  {
    if a == [] {
      assert a + b == b;
    } else {
      assert (a + b)[1..] == a[1..] + b;
      FirstOfConcat(a[1..], b, t);
    }
  }

  lemma {:induction false} FirstOfUpdate(entries: seq<Entry>, k: nat, e: Entry, t: ConfigType)
    requires k < |entries| && e.level == entries[k].level && e.ctype == entries[k].ctype
    ensures FirstOf(entries[k := e], t) == FirstOf(entries, t)
  {
    if k > 0 {
      FirstOfUpdate(entries[1..], k - 1, e, t);
      assert entries[k := e][1..] == entries[1..][k - 1 := e];
    } else {
      assert entries[k := e][1..] == entries[1..];
    }
  }

  /** What is first of a type stays first. */
  lemma {:induction false} SetOneFirst(entries: seq<Entry>, l: Level, t: ConfigType, v: string, t': ConfigType)
    ensures FirstOf(SetOne(entries, l, t, v), t')
         == if FirstOf(entries, t').Some? then FirstOf(entries, t') else if t == t' then Some(l) else None
  {
    var k := Find(entries, l, t);
    if k < |entries| {
      FirstOfUpdate(entries, k, Entry(l, t, v), t');
      if t == t' {
        FirstExists(entries, k);
      }
    } else {
      FirstOfConcat(entries, [Entry(l, t, v)], t');
    }
  }

  lemma {:induction false} FirstExists(entries: seq<Entry>, k: nat)
    requires k < |entries|
    ensures FirstOf(entries, entries[k].ctype).Some?
  {
    if k > 0 {
      FirstExists(entries[1..], k - 1);
    }
  }

  lemma {:induction false} BroadcastFirst(entries: seq<Entry>, t: ConfigType, v: string, n: nat, t': ConfigType)
    requires 0 < n && UniqueKeys(entries)
    requires FirstOf(entries, t').Some? || t != t'
    ensures FirstOf(Broadcast(entries, t, v, n), t') == FirstOf(entries, t')
    ensures UniqueKeys(Broadcast(entries, t, v, n))
    decreases MAX_VALID - n
  {
    var set1 := SetOne(entries, CastFromInt(n), t, v);
    SetOneFirst(entries, CastFromInt(n), t, v, t');
    SetOneKeys(entries, CastFromInt(n), t, v);
    if 2 * n <= MAX_VALID {
      BroadcastFirst(set1, t, v, 2 * n, t');
    }
  }

  lemma {:induction false} SetFirst(entries: seq<Entry>, e: Entry, t: ConfigType)
    requires UniqueKeys(entries)
    ensures var after := Set(entries, e.level, e.ctype, e.value);
            && UniqueKeys(after)
            && FirstOf(after, t) == if FirstOf(entries, t).Some? then FirstOf(entries, t)
                                    else if e.ctype == t then Some(e.level) else None
  {
    hide Broadcast, SetOne, UniqueKeys, FirstOf;
    var set1 := SetOne(entries, e.level, e.ctype, e.value);
    SetOneFirst(entries, e.level, e.ctype, e.value, t);
    SetOneKeys(entries, e.level, e.ctype, e.value);
    if e.level == Global {
      BroadcastFirst(set1, e.ctype, e.value, MIN_VALID, t);
      BroadcastFirst(Broadcast(set1, e.ctype, e.value, MIN_VALID), e.ctype, e.value, MIN_VALID, t);
    }
  }

  /** The list never has two entries for a level and a type, and the first level of a type is the one that was
      set first. */
  lemma {:induction false} ReplayFirst(settings: seq<Entry>, t: ConfigType)
    ensures UniqueKeys(Replay([], settings)) && FirstOf(Replay([], settings), t) == FirstOf(settings, t)
    decreases settings
  {
    if settings != [] {
      hide Set, UniqueKeys, FirstOf, Replay;
      var n := |settings| - 1;
      var earlier, last := settings[..n], settings[n];
      assert settings == earlier + [last];
      ReplayLast([], settings);
      ReplayFirst(earlier, t);
      SetFirst(Replay([], earlier), last, t);
      FirstOfConcat(earlier, [last], t);
      FirstOfOne(last, t);
    } else {
      assert Replay([], settings) == [];
    }
  }

  lemma {:induction false} FirstOfOne(e: Entry, t: ConfigType)
    ensures FirstOf([e], t) == if e.ctype == t then Some(e.level) else None
  {
  }

  // ---------- Copying a configuration ----------

  lemma {:induction false} LastIs(settings: seq<Entry>, l: Level, t: ConfigType, k: nat)
    requires k < |settings| && Decides(settings[k], l, t)
    requires forall i :: k < i < |settings| ==> !Decides(settings[i], l, t)
    ensures Last(settings, l, t) == Some(settings[k].value)
  {
    if k < |settings| - 1 {
      LastIs(settings[..|settings| - 1], l, t, k);
    }
  }

  /** Entry j, of the global level, comes after entry i of an ordinary level and the same type. */
  predicate IsLateGlobal(base: seq<Entry>, i: int, j: int) {
    0 <= i < j < |base| && base[j].level == Global && base[j].ctype == base[i].ctype && IsOrdinary(base[i].level)
  }

  ghost predicate GlobalsAgree(base: seq<Entry>) {
    forall i, j :: IsLateGlobal(base, i, j) ==> base[i].value == base[j].value
  }

  predicate Copied(base: seq<Entry>, copy: seq<Entry>) {
    forall i :: 0 <= i < |base| ==> Value(copy, base[i].level, base[i].ctype) == Some(base[i].value)
  }

  lemma {:induction false} CopyOne(target: seq<Entry>, base: seq<Entry>, i: nat)
    requires UniqueKeys(base) && i < |base|
    ensures Value(Replay(target, base), base[i].level, base[i].ctype) == Some(base[i].value)
       <==> forall j :: IsLateGlobal(base, i, j) ==> base[i].value == base[j].value
  {
    var l, t := base[i].level, base[i].ctype;
    LastWriteWins(target, base, l, t);
    if j :| IsLateGlobal(base, i, j) {
      LastIs(base, l, t, j);
    } else {
      assert forall j :: i < j < |base| ==> (Decides(base[j], l, t) <==> IsLateGlobal(base, i, j));
      LastIs(base, l, t, i);
    }
  }

  /** Replaying a base list into any target copies it exactly if no global entry comes late with another value. */
  lemma {:induction false} CopyFaithful(target: seq<Entry>, base: seq<Entry>)
    requires UniqueKeys(base)
    ensures Copied(base, Replay(target, base)) <==> GlobalsAgree(base)
  {
    forall i | 0 <= i < |base|
      ensures Value(Replay(target, base), base[i].level, base[i].ctype) == Some(base[i].value)
         <==> forall j :: IsLateGlobal(base, i, j) ==> base[i].value == base[j].value
    {
      CopyOne(target, base, i);
    }
  }

  /** The position of the first entry of a type. */
  lemma {:induction false} FirstAt(entries: seq<Entry>, t: ConfigType) returns (k: nat)
    requires FirstOf(entries, t).Some?
    ensures k < |entries| && entries[k].ctype == t && FirstOf(entries, t) == Some(entries[k].level)
    ensures forall i :: 0 <= i < k ==> entries[i].ctype != t
  {
    if entries[0].ctype == t {
      k := 0;
    } else {
      k := FirstAt(entries[1..], t);
      k := k + 1;
    }
  }

  /** In particular, a list in which every type starts with its global entry is copied. */
  lemma {:induction false} GlobalFirstCopied(target: seq<Entry>, base: seq<Entry>)
    requires UniqueKeys(base) && forall i :: 0 <= i < |base| ==> FirstOf(base, base[i].ctype) == Some(Global)
    ensures Copied(base, Replay(target, base))
  {
    forall i, j | IsLateGlobal(base, i, j)
      ensures base[i].value == base[j].value
    {
      var k := FirstAt(base, base[i].ctype);
      assert base[k].level == base[j].level && base[k].ctype == base[j].ctype && k <= i;
    }
    CopyFaithful(target, base);
  }

  /** A list that was set up with an ordinary level of a type first is not copied, into any target, if that level
      and the global one were set to different values last. */
  lemma {:induction false} FirstLevelNotCopied(target: seq<Entry>, settings: seq<Entry>, l: Level, t: ConfigType)
    requires IsOrdinary(l) && FirstOf(settings, t) == Some(l) && Last(settings, Global, t).Some?
    requires Last(settings, l, t) != Last(settings, Global, t)
    ensures var base := Replay([], settings); !Copied(base, Replay(target, base))
  {
    var base := Replay([], settings);
    ReplayFirst(settings, t);
    LastWriteWins([], settings, l, t);
    LastWriteWins([], settings, Global, t);
    var i := FirstAt(base, t);
    var j := Find(base, Global, t);
    FindIs(base, l, t, i);
    assert IsLateGlobal(base, i, j) && base[i].value != base[j].value;
    CopyFaithful(target, base);
  }

  /** For instance: a level is disabled, but a copy of the configuration enables it. */
  lemma {:induction false} DisabledIsNotCopied()
    ensures var base := Replay([], [Entry(Info, Enabled, "true"), Entry(Global, Enabled, "true"), Entry(Info, Enabled, "false")]);
            !Copied(base, Replay([], base))
  {
    var settings := [Entry(Info, Enabled, "true"), Entry(Global, Enabled, "true"), Entry(Info, Enabled, "false")];
    hide Replay, Copied;
    assert settings[..2] == [settings[0], settings[1]];
    assert Last(settings, Global, Enabled) == Last(settings[..2], Global, Enabled) == Some("true");
    FirstLevelNotCopied([], settings, Info, Enabled);
  }
}
