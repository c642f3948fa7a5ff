/** Counters for messages that are logged only occasionally, as values: every call is counted for the place in the
    source it comes from, and the answers follow from how often that place has called. */
module HitCounters {

  datatype Location = Location(filename: string, line: nat)

  datatype Kind = EveryN | AfterN | NTimes

  datatype Call = Call(at: Location, kind: Kind, n: nat)

  const MAX_LOG_PER_COUNTER: nat := 100000

  function ValidatedHitCounts(hits: nat, n: nat): nat {
    (if hits >= MAX_LOG_PER_COUNTER then (if n >= 1 then MAX_LOG_PER_COUNTER % n else 0) else hits) + 1
  }

  /** The count of a place after one more call of it. */
  function Counted(hits: nat, c: Call): nat {
    match c.kind
    case EveryN => ValidatedHitCounts(hits, c.n)
    case AfterN => if hits >= c.n then hits else hits + 1
    case NTimes => hits + 1
  }

  /** Whether the message is logged, given the count before the call. */
  predicate Triggers(hits: nat, c: Call) {
    var after := Counted(hits, c);
    match c.kind
    case EveryN => c.n >= 1 && after != 0 && after % c.n == 0
    case AfterN => hits >= c.n
    case NTimes => after <= c.n
  }

  /** The count of a place after all these calls, of which the others do not matter. */
  function Hits(calls: seq<Call>, at: Location): nat {
    if calls == [] then 0
    else
      var n := |calls| - 1;
      var before := Hits(calls[..n], at);
      if calls[n].at == at then Counted(before, calls[n]) else before
  }

  function CallsAt(calls: seq<Call>, at: Location): nat {
    if calls == [] then 0
    else
      var n := |calls| - 1;
      CallsAt(calls[..n], at) + if calls[n].at == at then 1 else 0
  }

  function TriggersAt(calls: seq<Call>, at: Location): nat {
    if calls == [] then 0
    else
      var n := |calls| - 1;
      TriggersAt(calls[..n], at) + if calls[n].at == at && Triggers(Hits(calls[..n], at), calls[n]) then 1 else 0
  }

  /** Every call from this place asks the same question. */
  ghost predicate SameAt(calls: seq<Call>, c: Call) {
    forall i :: 0 <= i < |calls| && calls[i].at == c.at ==> calls[i] == c
  }

  // ---------- What a place is told ----------

  /** Whether the message of the k-th call of a place is due. */
  predicate Due(kind: Kind, n: nat, k: nat) {
    match kind
    case EveryN => if 1 <= n <= 100000 then k % n == 0 else n == 100001 && k >= n
    case AfterN => k > n
    case NTimes => k <= n
  }

  /** What is known of the count after k calls. */
  ghost predicate CountIs(hits: nat, kind: Kind, n: nat, k: nat) {
    match kind
    case EveryN =>
      if 1 <= n <= 100000 then hits <= 100000 && hits % n == k % n
      else n >= 1 ==> hits == if k <= 100000 then k else 100001
    case AfterN => hits == if k <= n then k else n
    case NTimes => hits == k
  }

  lemma {:induction false} ModSuccessor(a: nat, b: nat, n: nat)
    requires n >= 1 && a % n == b % n
    ensures (a + 1) % n == (b + 1) % n
  {
    var qa, qb, r := a / n, b / n, a % n;
    assert a + 1 == n * qa + (r + 1) && b + 1 == n * qb + (r + 1);
    if r + 1 < n {
      ModIs(a + 1, n, qa, r + 1);
      ModIs(b + 1, n, qb, r + 1);
    } else {
      ModIs(a + 1, n, qa + 1, 0);
      ModIs(b + 1, n, qb + 1, 0);
    }
  }

  lemma {:induction false} ModIs(a: nat, n: nat, q: nat, r: nat)
    requires r < n && a == n * q + r
    ensures a % n == r && a / n == q
  {
    var d := a / n - q;
    assert n * d == r - a % n;
    AtLeastOnce(n, d);
  }

  lemma {:induction false} AtLeastOnce(n: nat, d: int)
    ensures (d >= 1 ==> n * d >= n) && (d <= -1 ==> n * d <= -(n as int))
  {
  }

  lemma {:induction false} ValidatedMod(hits: nat, n: nat, k: nat)
    requires 1 <= n <= 100000 && hits <= 100000 && hits % n == k % n
    ensures var after := ValidatedHitCounts(hits, n);
            1 <= after <= 100000 && after % n == (k + 1) % n
  {
    var reset := if hits >= MAX_LOG_PER_COUNTER then MAX_LOG_PER_COUNTER % n else hits;
    if hits >= MAX_LOG_PER_COUNTER {
      ModIs(MAX_LOG_PER_COUNTER % n, n, 0, MAX_LOG_PER_COUNTER % n);
    }
    ModSuccessor(reset, k, n);
  }

  /** One call more, from the count before it. */
  lemma {:induction false} CountedIs(hits: nat, c: Call, k: nat)
    requires CountIs(hits, c.kind, c.n, k)
    ensures CountIs(Counted(hits, c), c.kind, c.n, k + 1)
    ensures Triggers(hits, c) <==> Due(c.kind, c.n, k + 1)
  {
    if c.kind.EveryN? && 1 <= c.n <= MAX_LOG_PER_COUNTER {
      ValidatedMod(hits, c.n, k);
    } else if c.kind.EveryN? && c.n > MAX_LOG_PER_COUNTER {
      ModIs(MAX_LOG_PER_COUNTER, c.n, 0, MAX_LOG_PER_COUNTER);
      var after := Counted(hits, c);
      if after < c.n {
        ModIs(after, c.n, 0, after);
      } else {
        ModIs(after, c.n, 1, 0);
      }
    }
  }

  lemma {:induction false} HitsAre(calls: seq<Call>, c: Call)
    requires SameAt(calls, c)
    ensures CountIs(Hits(calls, c.at), c.kind, c.n, CallsAt(calls, c.at))
  {
    if calls != [] {
      var n := |calls| - 1;
      HitsAre(calls[..n], c);
      CountedIs(Hits(calls[..n], c.at), c, CallsAt(calls[..n], c.at));
    } else if c.kind.EveryN? && c.n >= 1 {
      ModIs(0, c.n, 0, 0);
    }
  }

  /** Whatever calls from other places come in between, a place that asks one question is answered by the number
      of its own calls. */
  lemma {:induction false} AnswerIsDue(calls: seq<Call>, c: Call)
    requires SameAt(calls, c)
    ensures Triggers(Hits(calls, c.at), c) <==> Due(c.kind, c.n, CallsAt(calls, c.at) + 1)
  {
    HitsAre(calls, c);
    CountedIs(Hits(calls, c.at), c, CallsAt(calls, c.at));
  }

  /** How many of the first k calls of a place are due. */
  function DueUpTo(kind: Kind, n: nat, k: nat): nat {
    if k == 0 then 0 else DueUpTo(kind, n, k - 1) + if Due(kind, n, k) then 1 else 0
  }

  lemma {:induction false} TriggersAre(calls: seq<Call>, c: Call)
    requires SameAt(calls, c)
    ensures TriggersAt(calls, c.at) == DueUpTo(c.kind, c.n, CallsAt(calls, c.at))
  {
    if calls != [] {
      var n := |calls| - 1;
      TriggersAre(calls[..n], c);
      AnswerIsDue(calls[..n], c);
    }
  }

  lemma {:induction false} DivSuccessor(k: nat, n: nat)
    requires n >= 1
    ensures (k + 1) / n == k / n + if (k + 1) % n == 0 then 1 else 0
  {
    var q, r := k / n, k % n;
    if r + 1 < n {
      ModIs(k + 1, n, q, r + 1);
    } else {
      assert n * (q + 1) == n * q + n;
      ModIs(k + 1, n, q + 1, 0);
    }
  }

  lemma {:induction false} DueCount(kind: Kind, n: nat, k: nat)
    requires kind.EveryN? ==> 1 <= n <= 100000
    ensures DueUpTo(kind, n, k) ==
            match kind
            case EveryN => k / n
            case AfterN => if k <= n then 0 else k - n
            case NTimes => if k <= n then k else n
  {
    if k > 0 {
      DueCount(kind, n, k - 1);
      if kind.EveryN? {
        DivSuccessor(k - 1, n);
      }
    } else if kind.EveryN? {
      ModIs(0, n, 0, 0);
    }
  }

  /** Of all calls of a place that wants every n-th message, exactly one n-th are logged, although the counter is
      reset on the way. */
  lemma {:induction false} EveryNthIsLogged(calls: seq<Call>, c: Call)
    requires SameAt(calls, c) && c.kind.EveryN? && 1 <= c.n <= 100000
    ensures TriggersAt(calls, c.at) == CallsAt(calls, c.at) / c.n
  {
    TriggersAre(calls, c);
    DueCount(EveryN, c.n, CallsAt(calls, c.at));
  }

  /** A place that calls k times, and no other does. */
  function Repeated(c: Call, k: nat): (calls: seq<Call>)
    ensures |calls| == k && forall i :: 0 <= i < k ==> calls[i] == c
  {
    seq(k, _ => c)
  }

  lemma {:induction false} RepeatedCalls(c: Call, k: nat)
    ensures CallsAt(Repeated(c, k), c.at) == k
  {
    if k > 0 {
      assert Repeated(c, k)[..k - 1] == Repeated(c, k - 1);
      RepeatedCalls(c, k - 1);
    }
  }

  /** The call after these is answered by whether n divides its number. */
  predicate AnsweredRightly(calls: seq<Call>, c: Call)
    requires c.n >= 1
  {
    Triggers(Hits(calls, c.at), c) <==> (CallsAt(calls, c.at) + 1) % c.n == 0
  }

  /** Beyond the reset, a call is answered wrongly: the n-th is, or the one behind it. */
  lemma {:induction false} SomeAnswerIsWrong(c: Call)
    requires c.kind.EveryN? && c.n > 100000
    ensures !AnsweredRightly(Repeated(c, if c.n == 100001 then c.n else c.n - 1), c)
  {
    var k := if c.n == MAX_LOG_PER_COUNTER + 1 then c.n else c.n - 1;
    RepeatedCalls(c, k);
    AnswerIsDue(Repeated(c, k), c);
    ModIs(k + 1, c.n, 1, k + 1 - c.n);
  }

  /** Every call of a place that wants every n-th message is answered by whether n divides its number, whatever calls
      come in between, if and only if n is not above the count at which the counter starts again. */
  lemma {:induction false} EveryNExactly(c: Call)
    requires c.kind.EveryN? && c.n >= 1
    ensures (forall calls :: SameAt(calls, c) ==> AnsweredRightly(calls, c)) <==> c.n <= 100000
  {
    if c.n <= MAX_LOG_PER_COUNTER {
      forall calls | SameAt(calls, c)
        ensures AnsweredRightly(calls, c)
      {
        AnswerIsDue(calls, c);
      }
    } else {
      SomeAnswerIsWrong(c);
    }
  }
}
