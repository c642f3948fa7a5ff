/** The registry of hit counters as objects: a list that is searched by file and line. */
module HitCounterRegistry {
  import opened HitCounters

  class HitCounter {
    const at: Location
    var hitCounts: nat

    constructor (at: Location)
      ensures this.at == at && hitCounts == 0
    {
      this.at, hitCounts := at, 0;
    }

    /** Starts again before the count gets too high, so that it keeps its remainder. */
    method ValidateHitCounts(n: nat)
      modifies this
      ensures hitCounts == ValidatedHitCounts(old(hitCounts), n)
    {
      if hitCounts >= MAX_LOG_PER_COUNTER {
        hitCounts := if n >= 1 then MAX_LOG_PER_COUNTER % n else 0;
      }
      hitCounts := hitCounts + 1;
    }

    method Increment()
      modifies this
      ensures hitCounts == old(hitCounts) + 1
    {
      hitCounts := hitCounts + 1;
    }
  }

  class RegisteredHitCounters {
    var list: seq<HitCounter>
    /** Every call so far. */
    ghost var calls: seq<Call>

    ghost predicate Valid()
      reads this, list
    {
      && (forall i, j :: 0 <= i < j < |list| ==> list[i].at != list[j].at)
      && (forall i :: 0 <= i < |list| ==> list[i].hitCounts == Hits(calls, list[i].at))
      && (forall at :: Known(at) || Hits(calls, at) == 0)
    }

    ghost predicate Known(at: Location)
      reads this, list
    {
      exists i :: 0 <= i < |list| && list[i].at == at
    }

    constructor ()
      ensures Valid() && calls == [] && list == []
    {
      list, calls := [], [];
    }

    method Get(at: Location) returns (counter: HitCounter?)
      ensures counter == null ==> !Known(at)
      ensures counter != null ==> counter in list && counter.at == at
    {
      for i := 0 to |list|
        invariant forall j :: 0 <= j < i ==> list[j].at != at
      {
        if list[i].at == at {
          return list[i];
        }
      }
      return null;
    }

    /** The counter of a place, which is registered if it is new. */
    method Locate(at: Location) returns (counter: HitCounter)
      requires Valid()
      modifies this`list
      ensures Valid() && counter in list && counter.at == at && counter.hitCounts == Hits(calls, at)
      ensures forall c :: c in list ==> c in old(list) || fresh(c)
    {
      var found := Get(at);
      if found == null {
        counter := new HitCounter(at);
        list := list + [counter];
        assert list[|list| - 1] == counter;
        assert forall i :: 0 <= i < |old(list)| ==> list[i] == old(list)[i];
        assert forall a :: old(Known(a)) ==> Known(a);
      } else {
        counter := found;
      }
    }

    /** Logs a call whose counter has been brought up to date. */
    ghost method Log(c: Call, counter: HitCounter)
      requires counter in list && counter.at == c.at && counter.hitCounts == Counted(Hits(calls, c.at), c)
      requires forall i, j :: 0 <= i < j < |list| ==> list[i].at != list[j].at
      requires forall i :: 0 <= i < |list| && list[i] != counter ==> list[i].hitCounts == Hits(calls, list[i].at)
      requires forall at :: Known(at) || Hits(calls, at) == 0
      modifies this`calls
      ensures Valid() && calls == old(calls) + [c]
    {
      hide Counted;
      ghost var before := calls;
      calls := calls + [c];
      assert calls[..|before|] == before;
    }

    method ValidateEveryN(at: Location, n: nat) returns (result: bool)
      requires Valid()
      modifies this, list
      ensures Valid() && calls == old(calls) + [Call(at, EveryN, n)]
      ensures result <==> Triggers(Hits(old(calls), at), Call(at, EveryN, n))
      ensures SameAt(old(calls), Call(at, EveryN, n)) ==> (result <==> Due(EveryN, n, CallsAt(old(calls), at) + 1))
    {
      ghost var c := Call(at, EveryN, n);
      var counter := Locate(at);
      counter.ValidateHitCounts(n);
      result := n >= 1 && counter.hitCounts != 0 && counter.hitCounts % n == 0;
      if SameAt(calls, c) {
        AnswerIsDue(calls, c);
      }
      Log(c, counter);
    }

    method ValidateAfterN(at: Location, n: nat) returns (result: bool)
      requires Valid()
      modifies this, list
      ensures Valid() && calls == old(calls) + [Call(at, AfterN, n)]
      ensures result <==> Triggers(Hits(old(calls), at), Call(at, AfterN, n))
      ensures SameAt(old(calls), Call(at, AfterN, n)) ==> (result <==> Due(AfterN, n, CallsAt(old(calls), at) + 1))
    {
      ghost var c := Call(at, AfterN, n);
      var counter := Locate(at);
      if SameAt(calls, c) {
        AnswerIsDue(calls, c);
      }
      if counter.hitCounts >= n {
        Log(c, counter);
        return true;
      }
      counter.Increment();
      Log(c, counter);
      return false;
    }

    method ValidateNTimes(at: Location, n: nat) returns (result: bool)
      requires Valid()
      modifies this, list
      ensures Valid() && calls == old(calls) + [Call(at, NTimes, n)]
      ensures result <==> Triggers(Hits(old(calls), at), Call(at, NTimes, n))
      ensures SameAt(old(calls), Call(at, NTimes, n)) ==> (result <==> Due(NTimes, n, CallsAt(old(calls), at) + 1))
    {
      ghost var c := Call(at, NTimes, n);
      var counter := Locate(at);
      counter.Increment();
      if SameAt(calls, c) {
        AnswerIsDue(calls, c);
      }
      result := counter.hitCounts <= n;
      Log(c, counter);
    }
  }
}
