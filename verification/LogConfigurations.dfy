/** The configuration registry and the maps built from it, as objects. */
module LogConfigurations {
  import opened ConfigValues
  import opened Configs
  import opened Wrappers
  import T = TypedConfigs

  class Configuration {
    const level: Level
    const ctype: ConfigType
    var value: string

    constructor (level: Level, ctype: ConfigType, value: string)
      ensures this.level == level && this.ctype == ctype && this.value == value
    {
      this.level, this.ctype, this.value := level, ctype, value;
    }

    method SetValue(value: string)
      modifies this
      ensures this.value == value
    {
      this.value := value;
    }
  }

  class Configurations {
    var list: seq<Configuration>
    ghost var view: seq<Entry>

    ghost predicate Valid()
      reads this, list
    {
      && |view| == |list|
      && (forall i :: 0 <= i < |list| ==> Entry(list[i].level, list[i].ctype, list[i].value) == view[i])
      && (forall i, j :: 0 <= i < j < |list| ==> list[i] != list[j])
    }

    /** Entries are only ever added. */
    twostate predicate Grown()
      reads this
    {
      old(list) <= list && forall i :: |old(list)| <= i < |list| ==> fresh(list[i])
    }

    constructor ()
      ensures Valid() && list == [] && view == []
    {
      list, view := [], [];
    }

    method Get(l: Level, t: ConfigType) returns (conf: Configuration?)
      requires Valid()
      ensures var k := Find(view, l, t); if k < |list| then conf == list[k] else conf == null
      ensures |list| == |view| && (conf != null ==> conf.level == l && conf.ctype == t)
    {
      for i := 0 to |list|
        invariant forall j :: 0 <= j < i ==> list[j].level != l || list[j].ctype != t
      {
        if list[i].level == l && list[i].ctype == t {
          FindIs(view, l, t, i);
          return list[i];
        }
      }
      FindIs(view, l, t, |list|);
      return null;
    }

    method RegisterNew(conf: Configuration)
      requires Valid() && conf !in list
      modifies this
      ensures Valid() && list == old(list) + [conf]
      ensures view == old(view) + [Entry(conf.level, conf.ctype, conf.value)]
    {
      list, view := list + [conf], view + [Entry(conf.level, conf.ctype, conf.value)];
    }

    method Overwrite(conf: Configuration, ghost k: nat, v: string)
      requires Valid() && k < |list| && list[k] == conf
      modifies conf, this`view
      ensures Valid() && view == old(view)[k := Entry(conf.level, conf.ctype, v)]
    {
      conf.SetValue(v);
      view := view[k := Entry(conf.level, conf.ctype, v)];
    }

    static lemma {:induction false} SetOneIs(entries: seq<Entry>, l: Level, t: ConfigType, v: string)
      ensures var k := Find(entries, l, t);
              && (k < |entries| ==> SetOne(entries, l, t, v) == entries[k := Entry(l, t, v)])
              && (k == |entries| ==> SetOne(entries, l, t, v) == entries + [Entry(l, t, v)])
    {
    }

    /** The level's own entry is overwritten, or added. */
    method SetOwn(l: Level, t: ConfigType, v: string)
      requires Valid()
      modifies this, list
      ensures Valid() && Grown() && view == SetOne(old(view), l, t, v)
    {
      SetOneIs(view, l, t, v);
      hide Find, Valid, SetOne;
      var conf := Get(l, t);
      if conf == null {
        conf := new Configuration(l, t, v);
        RegisterNew(conf);
      } else {
        Overwrite(conf, Find(view, l, t), v);
      }
    }

    method UnsafeSet(l: Level, t: ConfigType, v: string)
      requires Valid()
      modifies this, list
      ensures Valid() && Grown() && view == Configs.UnsafeSet(old(view), l, t, v)
      decreases if l == Global then 2 else 0
    {
      SetOwn(l, t, v);
      if l == Global {
        UnsafeSetGlobally(t, v);
      }
    }

    /** Sets every ordinary level in turn. */
    method UnsafeSetGlobally(t: ConfigType, v: string)
      requires Valid()
      modifies this, list
      ensures Valid() && Grown() && view == Broadcast(old(view), t, v, MIN_VALID)
      decreases 1
    {
      hide Broadcast, CastFromInt, Configs.UnsafeSet;
      var lIndex: nat := MIN_VALID;
      var more := true;
      while more
        invariant Valid() && Grown()
        invariant more ==> IsBit(lIndex)
        invariant Broadcast(old(view), t, v, MIN_VALID) == if more then Broadcast(view, t, v, lIndex) else view
        decreases more, MAX_VALID - lIndex
      {
        BroadcastStep(view, t, v, lIndex);
        UnsafeSet(CastFromInt(lIndex), t, v);
        lIndex := 2 * lIndex;
        more := lIndex <= MAX_VALID;
      }
    }

    method Set(l: Level, t: ConfigType, v: string)
      requires Valid()
      modifies this, list
      ensures Valid() && Grown() && view == Configs.Set(old(view), l, t, v)
    {
      UnsafeSet(l, t, v);
      if l == Global {
        UnsafeSetGlobally(t, v);
      }
    }

    /** The entries of `base` are objects of its own. */
    method SetFromBase(base: Configurations?)
      requires Valid()
      requires base != null && base != this ==> base.Valid() && forall c :: c in base.list ==> c !in list
      modifies this, list
      ensures Valid() && Grown()
      ensures view == if base == null || base == this then old(view) else Replay(old(view), old(base.view))
    {
      if base == null || base == this {
        return;
      }
      for i := 0 to |base.list|
        invariant Valid() && Grown()
        invariant base.view == old(base.view) && base.list == old(base.list) && |base.list| == |base.view|
        invariant forall k :: 0 <= k < |base.list| ==> base.list[k] !in list
        invariant forall k :: 0 <= k < |base.list| ==>
                    base.view[k] == Entry(base.list[k].level, base.list[k].ctype, base.list[k].value)
        invariant Replay(view, base.view[i..]) == Replay(old(view), old(base.view))
      {
        var conf := base.list[i];
        assert base.view[i..][1..] == base.view[i + 1..];
        Set(conf.level, conf.ctype, conf.value);
      }
    }
  }

  class TypedConfigurations {
    var enabledMap: map<Level, bool>
    var toStandardOutputMap: map<Level, bool>
    var maxLogFileSizeMap: map<Level, nat>
    var logFlushThresholdMap: map<Level, nat>

    constructor (configurations: Configurations)
      requires configurations.Valid()
      ensures Shows(configurations.view)
    {
      enabledMap, toStandardOutputMap, maxLogFileSizeMap, logFlushThresholdMap := map[], map[], map[], map[];
      new;
      Build(configurations);
    }

    ghost predicate Shows(entries: seq<Entry>)
      reads this
    {
      && enabledMap == T.Build(T.OfType(entries, Enabled, GetBool))
      && toStandardOutputMap == T.Build(T.OfType(entries, ToStandardOutput, GetBool))
      && maxLogFileSizeMap == T.Build(T.OfType(entries, MaxLogFileSize, GetULong))
      && logFlushThresholdMap == T.Build(T.OfType(entries, LogFlushThreshold, GetULong))
    }

    method Build(configurations: Configurations)
      requires configurations.Valid()
      requires enabledMap == toStandardOutputMap == map[] && maxLogFileSizeMap == logFlushThresholdMap == map[]
      modifies this
      ensures Shows(configurations.view)
    {
      hide T.Build, T.OfType, T.SetValue, GetBool, GetULong;
      ghost var entries := configurations.view;
      NothingBuilt();
      for i := 0 to |configurations.list|
        invariant Shows(entries[..i])
      {
        var conf := configurations.list[i];
        assert entries[..i + 1] == entries[..i] + [entries[i]];
        Extend(entries[..i], entries[i]);
        if conf.ctype == Enabled {
          enabledMap := T.SetValue(enabledMap, conf.level, GetBool(conf.value));
        } else if conf.ctype == ToStandardOutput {
          toStandardOutputMap := T.SetValue(toStandardOutputMap, conf.level, GetBool(conf.value));
        } else if conf.ctype == MaxLogFileSize {
          maxLogFileSizeMap := T.SetValue(maxLogFileSizeMap, conf.level, GetULong(conf.value));
        } else if conf.ctype == LogFlushThreshold {
          logFlushThresholdMap := T.SetValue(logFlushThresholdMap, conf.level, GetULong(conf.value));
        }
      }
      assert entries[..|entries|] == entries;
    }

    static lemma {:induction false} NothingBuilt()
      ensures T.Build(T.OfType([], Enabled, GetBool)) == T.Build(T.OfType([], ToStandardOutput, GetBool)) == map[]
      ensures T.Build(T.OfType([], MaxLogFileSize, GetULong)) == map[]
      ensures T.Build(T.OfType([], LogFlushThreshold, GetULong)) == map[]
    {
    }

    static lemma {:induction false} Extend(entries: seq<Entry>, e: Entry)
      ensures T.Extends(entries, e, Enabled, GetBool) && T.Extends(entries, e, ToStandardOutput, GetBool)
      ensures T.Extends(entries, e, MaxLogFileSize, GetULong) && T.Extends(entries, e, LogFlushThreshold, GetULong)
    {
      T.BuildOneMore(entries, e, Enabled, GetBool);
      T.BuildOneMore(entries, e, ToStandardOutput, GetBool);
      T.BuildOneMore(entries, e, MaxLogFileSize, GetULong);
      T.BuildOneMore(entries, e, LogFlushThreshold, GetULong);
    }

    function IsEnabled(l: Level): bool
      reads this
    {
      T.Lookup(enabledMap, l, false)
    }

    function IsToStandardOutput(l: Level): bool
      reads this
    {
      T.Lookup(toStandardOutputMap, l, false)
    }

    function MaxFileSize(l: Level): nat
      reads this
    {
      T.Lookup(maxLogFileSizeMap, l, 0)
    }

    function FlushThreshold(l: Level): nat
      reads this
    {
      T.Lookup(logFlushThresholdMap, l, 0)
    }

    /** What the four questions answer once the maps are built from a list that only grew by settings: what the value
        that was set last says, read as a word or as a number. */
    lemma {:induction false} AnswersAreLast(settings: seq<Entry>, l: Level)
      requires Shows(Replay([], settings)) && !l.UnknownLevel?
      ensures FirstOf(settings, Enabled) == Some(Global) ==>
                Last(settings, l, Enabled).Some? && (IsEnabled(l) <==> IsTrue(Last(settings, l, Enabled).value))
      ensures FirstOf(settings, ToStandardOutput) == Some(Global) ==>
                Last(settings, l, ToStandardOutput).Some?
                && (IsToStandardOutput(l) <==> IsTrue(Last(settings, l, ToStandardOutput).value))
      ensures FirstOf(settings, MaxLogFileSize) == Some(Global) ==>
                Last(settings, l, MaxLogFileSize).Some?
                && IsNumber(Last(settings, l, MaxLogFileSize).value, MaxFileSize(l))
      ensures FirstOf(settings, LogFlushThreshold) == Some(Global) ==>
                Last(settings, l, LogFlushThreshold).Some?
                && IsNumber(Last(settings, l, LogFlushThreshold).value, FlushThreshold(l))
    {
      hide T.Build, T.Lookup, T.OfType, Replay, Last, FirstOf, IsTrue, IsNumber, GetBool, GetULong;
      if FirstOf(settings, Enabled) == Some(Global) {
        T.AnswersLastSetting(settings, Enabled, GetBool, l, false);
        TrueIsRead(Last(settings, l, Enabled).value);
      }
      if FirstOf(settings, ToStandardOutput) == Some(Global) {
        T.AnswersLastSetting(settings, ToStandardOutput, GetBool, l, false);
        TrueIsRead(Last(settings, l, ToStandardOutput).value);
      }
      if FirstOf(settings, MaxLogFileSize) == Some(Global) {
        T.AnswersLastSetting(settings, MaxLogFileSize, GetULong, l, 0);
        NumberIsRead(Last(settings, l, MaxLogFileSize).value, MaxFileSize(l));
      }
      if FirstOf(settings, LogFlushThreshold) == Some(Global) {
        T.AnswersLastSetting(settings, LogFlushThreshold, GetULong, l, 0);
        NumberIsRead(Last(settings, l, LogFlushThreshold).value, FlushThreshold(l));
      }
    }
  }
}
