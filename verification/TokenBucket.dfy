/** The continuous-refill token bucket of src/middleware/rateLimiter.ts.

  The running counter (`Level`) is what the program stores. `ReferenceAdmits` is what a
  rate limiter promises: a bound on every window of the request history. The main
  theorem is that the counter decides exactly as the history does. */
module TokenBuckets {
  import opened Common

  /** Fixed at construction: burst capacity and tokens added per millisecond. */
  datatype Limits = Limits(capacity: real, ratePerMs: real)

  /** The two mutable fields of a bucket. */
  datatype Level = Level(tokens: real, lastRefillMs: int)

  datatype Request = Request(at: int, count: real)

  /** Any call the middleware makes on a bucket that may touch its fields. */
  datatype Call = Consume(req: Request) | Remaining(at: int)

  function LimitsOf(capacity: real, requestsPerMinute: real): Limits {
    Limits(capacity, requestsPerMinute / 60000.0)
  }

  function Fresh(l: Limits, now: int): Level {
    Level(l.capacity, now)
  }

  function Credit(l: Limits, start: int, end: int): real {
    (end - start) as real * l.ratePerMs
  }

  function Min(a: real, b: real): real {
    if a <= b then a else b
  }

  function Refilled(l: Limits, b: Level, now: int): Level {
    Level(Min(l.capacity, b.tokens + Credit(l, b.lastRefillMs, now)), now)
  }

  predicate Grants(l: Limits, b: Level, r: Request) {
    Refilled(l, b, r.at).tokens >= r.count
  }

  function Consumed(l: Limits, b: Level, r: Request): Level {
    var full := Refilled(l, b, r.at);
    if Grants(l, b, r) then full.(tokens := full.tokens - r.count) else full
  }

  function Ceil(x: real): int {
    -((-x).Floor)
  }

  /** A number of seconds; without any refill the division gives infinity. */
  datatype Seconds = Finite(value: int) | Infinite

  /** Seconds until one token is available, from the level as it stands. */
  function RetryAfter(l: Limits, b: Level): Seconds {
    if b.tokens >= 1.0 then Finite(0)
    else if l.ratePerMs == 0.0 then Infinite
    else Finite(Ceil((1.0 - b.tokens) / (l.ratePerMs * 1000.0)))
  }

  /** Epoch second at which the bucket is full again, from the level as it stands. */
  function Reset(l: Limits, b: Level, now: int): Seconds {
    if b.tokens >= l.capacity then Finite((now as real / 1000.0).Floor)
    else if l.ratePerMs == 0.0 then Infinite
    else Finite(Ceil(now as real / 1000.0 + (l.capacity - b.tokens) / (l.ratePerMs * 1000.0)))
  }

  /** The stored object. The clock reading is a parameter of every method. */
  class TokenBucket {
    var tokens: real
    var lastRefillMs: int
    const refillRatePerMs: real
    const capacity: real

    function Rules(): Limits { Limits(capacity, refillRatePerMs) }

    function View(): Level
      reads this
    {
      Level(tokens, lastRefillMs)
    }

    constructor (capacity: real, requestsPerMinute: real, now: int)
      ensures Rules() == LimitsOf(capacity, requestsPerMinute)
      ensures View() == Fresh(Rules(), now)
    {
      this.capacity := capacity;
      tokens := capacity;
      lastRefillMs := now;
      refillRatePerMs := requestsPerMinute / 60000.0;
    }

    method Refill(now: int)
      modifies this
      ensures View() == Refilled(Rules(), old(View()), now)
    {
      var elapsed := now - lastRefillMs;
      var added := elapsed as real * refillRatePerMs;
      tokens := Min(capacity, tokens + added);
      lastRefillMs := now;
    }

    method TryConsume(count: real, now: int) returns (allowed: bool)
      modifies this
      ensures allowed == Grants(Rules(), old(View()), Request(now, count))
      ensures View() == Consumed(Rules(), old(View()), Request(now, count))
    {
      Refill(now);
      if tokens >= count {
        tokens := tokens - count;
        return true;
      }
      return false;
    }

    method RemainingTokens(now: int) returns (r: int)
      modifies this
      ensures View() == Refilled(Rules(), old(View()), now)
      ensures r as real <= View().tokens < r as real + 1.0
    {
      Refill(now);
      r := tokens.Floor;
    }

    method ResetEpoch(now: int) returns (second: Seconds)
      ensures second == Reset(Rules(), View(), now)
    {
      if tokens >= capacity {
        return Finite((now as real / 1000.0).Floor);
      }
      if refillRatePerMs == 0.0 {
        return Infinite;
      }
      var secondsToFull := (capacity - tokens) / (refillRatePerMs * 1000.0);
      return Finite(Ceil(now as real / 1000.0 + secondsToFull));
    }

    method RetryAfterSeconds() returns (seconds: Seconds)
      ensures seconds == RetryAfter(Rules(), View())
    {
      if tokens >= 1.0 {
        return Finite(0);
      }
      if refillRatePerMs == 0.0 {
        return Infinite;
      }
      return Finite(Ceil((1.0 - tokens) / (refillRatePerMs * 1000.0)));
    }
  }

  // ---- Runs of a bucket ----

  /** The level after the first n requests. */
  function LevelAfter(l: Limits, b: Level, reqs: seq<Request>, n: nat): Level
    requires n <= |reqs|
  {
    if n == 0 then b else Consumed(l, LevelAfter(l, b, reqs, n - 1), reqs[n - 1])
  }

  predicate Admitted(l: Limits, b: Level, reqs: seq<Request>, j: nat)
    requires j < |reqs|
  {
    Grants(l, LevelAfter(l, b, reqs, j), reqs[j])
  }

  /** Tokens granted by the bucket to requests i..j-1. */
  function Spent(l: Limits, b: Level, reqs: seq<Request>, i: nat, j: nat): real
    requires i <= j <= |reqs|
  {
    if i == j then 0.0
    else Spent(l, b, reqs, i, j - 1) + if Admitted(l, b, reqs, j - 1) then reqs[j - 1].count else 0.0
  }

  /** Requests arrive at non-decreasing times, none before the bucket was last refilled. */
  ghost predicate Chronological(start: int, reqs: seq<Request>) {
    && (forall j :: 0 <= j < |reqs| ==> start <= reqs[j].at)
    && (forall i, j :: 0 <= i <= j < |reqs| ==> reqs[i].at <= reqs[j].at)
  }

  // ---- The history specification: no counter, no state ----

  ghost function ReferenceSpent(l: Limits, reqs: seq<Request>, i: nat, j: nat): real
    requires i <= j <= |reqs|
    decreases j, 0
  {
    if i == j then 0.0
    else ReferenceSpent(l, reqs, i, j - 1) + if ReferenceAdmits(l, reqs, j - 1) then reqs[j - 1].count else 0.0
  }

  /** Request j is admitted iff no window ending at it would exceed burst plus accrued credit. */
  ghost predicate ReferenceAdmits(l: Limits, reqs: seq<Request>, j: nat)
    requires j < |reqs|
    decreases j, 1
  {
    forall i :: 0 <= i <= j ==>
      ReferenceSpent(l, reqs, i, j) + reqs[j].count <= l.capacity + Credit(l, reqs[i].at, reqs[j].at)
  }

  lemma CreditSplits(l: Limits, a: int, b: int, c: int)
    ensures Credit(l, a, c) == Credit(l, a, b) + Credit(l, b, c)
  {
    assert (c - a) as real == (b - a) as real + (c - b) as real;
  }

  lemma CreditNonNegative(l: Limits, a: int, b: int)
    requires l.ratePerMs >= 0.0 && a <= b
    ensures Credit(l, a, b) >= 0.0
  {
  }

  /** What window i still allows request j to take. */
  function Headroom(l: Limits, b: Level, reqs: seq<Request>, i: nat, j: nat): real
    requires i <= j < |reqs|
  {
    l.capacity + Credit(l, reqs[i].at, reqs[j].at) - Spent(l, b, reqs, i, j)
  }

  /** The refilled counter is the least headroom over all windows ending at request j. */
  lemma {:induction false} CounterIsTightestWindow(l: Limits, start: int, reqs: seq<Request>, j: nat)
    requires l.ratePerMs >= 0.0 && j < |reqs| && Chronological(start, reqs)
    ensures var t := Refilled(l, LevelAfter(l, Fresh(l, start), reqs, j), reqs[j].at).tokens;
            && (forall i :: 0 <= i <= j ==> t <= Headroom(l, Fresh(l, start), reqs, i, j))
            && (exists i :: 0 <= i <= j && t == Headroom(l, Fresh(l, start), reqs, i, j))
  {
    var b := Fresh(l, start);
    var before := LevelAfter(l, b, reqs, j);
    var t := Refilled(l, before, reqs[j].at).tokens;
    assert Headroom(l, b, reqs, j, j) == l.capacity;
    if j == 0 {
      CreditNonNegative(l, start, reqs[0].at);
    } else {
      CounterIsTightestWindow(l, start, reqs, j - 1);
      var was := Refilled(l, LevelAfter(l, b, reqs, j - 1), reqs[j - 1].at).tokens;
      assert before.lastRefillMs == reqs[j - 1].at;
      var gain := Credit(l, reqs[j - 1].at, reqs[j].at);
      forall i | 0 <= i < j
        ensures Headroom(l, b, reqs, i, j)
             == Headroom(l, b, reqs, i, j - 1) - was + before.tokens + gain
      {
        CreditSplits(l, reqs[i].at, reqs[j - 1].at, reqs[j].at);
      }
      var w :| 0 <= w <= j - 1 && was == Headroom(l, b, reqs, w, j - 1);
      assert Headroom(l, b, reqs, w, j) == before.tokens + gain;
      assert t == Headroom(l, b, reqs, w, j) || t == Headroom(l, b, reqs, j, j);
    }
  }

  /** Main theorem: a bucket that started full decides exactly as the history does. */
  lemma {:induction false} BucketRefinesHistory(l: Limits, start: int, reqs: seq<Request>, j: nat)
    requires l.ratePerMs >= 0.0 && j < |reqs| && Chronological(start, reqs)
    ensures Admitted(l, Fresh(l, start), reqs, j) <==> ReferenceAdmits(l, reqs, j)
    decreases j, 1
  {
    var b := Fresh(l, start);
    CounterIsTightestWindow(l, start, reqs, j);
    var t := Refilled(l, LevelAfter(l, b, reqs, j), reqs[j].at).tokens;
    var w :| 0 <= w <= j && t == Headroom(l, b, reqs, w, j);
    SpentAgrees(l, start, reqs, w, j);
    if Admitted(l, b, reqs, j) {
      forall i | 0 <= i <= j
        ensures ReferenceSpent(l, reqs, i, j) + reqs[j].count <= l.capacity + Credit(l, reqs[i].at, reqs[j].at)
      {
        SpentAgrees(l, start, reqs, i, j);
        assert t <= Headroom(l, b, reqs, i, j);
      }
    }
  }

  lemma {:induction false} SpentAgrees(l: Limits, start: int, reqs: seq<Request>, i: nat, j: nat)
    requires l.ratePerMs >= 0.0 && i <= j <= |reqs| && Chronological(start, reqs)
    ensures Spent(l, Fresh(l, start), reqs, i, j) == ReferenceSpent(l, reqs, i, j)
    decreases j, 0
  {
    if i < j {
      SpentAgrees(l, start, reqs, i, j - 1);
      BucketRefinesHistory(l, start, reqs, j - 1);
    }
  }

  // ---- `remaining` refills but never changes a decision ----

  function CallTime(c: Call): int {
    match c case Consume(r) => r.at case Remaining(at) => at
  }

  function Called(l: Limits, b: Level, c: Call): Level {
    match c case Consume(r) => Consumed(l, b, r) case Remaining(at) => Refilled(l, b, at)
  }

  function LevelAfterCalls(l: Limits, b: Level, calls: seq<Call>): Level {
    if calls == [] then b
    else Called(l, LevelAfterCalls(l, b, calls[..|calls| - 1]), calls[|calls| - 1])
  }

  /** The consume calls alone, in order. */
  function RequestsIn(calls: seq<Call>): seq<Request> {
    if calls == [] then []
    else
      var rest := RequestsIn(calls[..|calls| - 1]);
      match calls[|calls| - 1] case Consume(r) => rest + [r] case Remaining(_) => rest
  }

  lemma RefillTwice(l: Limits, b: Level, t: int, u: int)
    requires l.ratePerMs >= 0.0 && t <= u
    ensures Refilled(l, Refilled(l, b, t), u) == Refilled(l, b, u)
  {
    CreditSplits(l, b.lastRefillMs, t, u);
    CreditNonNegative(l, t, u);
  }

  lemma LevelAfterPrefix(l: Limits, b: Level, reqs: seq<Request>, r: Request, n: nat)
    requires n <= |reqs|
    ensures LevelAfter(l, b, reqs + [r], n) == LevelAfter(l, b, reqs, n)
  {
  }

  /** Interleaving any number of `remaining` reads leaves every later refill, hence every
      later decision, as if only the consume calls had been made. */
  lemma {:induction false} RemainingChangesNothing(l: Limits, b: Level, calls: seq<Call>, now: int)
    requires l.ratePerMs >= 0.0
    requires forall i, j :: 0 <= i <= j < |calls| ==> CallTime(calls[i]) <= CallTime(calls[j])
    requires forall i :: 0 <= i < |calls| ==> CallTime(calls[i]) <= now
    ensures var reqs := RequestsIn(calls);
            && Refilled(l, LevelAfterCalls(l, b, calls), now) == Refilled(l, LevelAfter(l, b, reqs, |reqs|), now)
            && forall count :: Grants(l, LevelAfterCalls(l, b, calls), Request(now, count))
                          <==> Grants(l, LevelAfter(l, b, reqs, |reqs|), Request(now, count))
  {
    if calls != [] {
      var init, last := calls[..|calls| - 1], calls[|calls| - 1];
      RemainingChangesNothing(l, b, init, CallTime(last));
      var was := LevelAfterCalls(l, b, init);
      match last
      case Remaining(at) =>
        RemainingChangesNothing(l, b, init, now);
        RefillTwice(l, was, at, now);
      case Consume(r) =>
        var reqs := RequestsIn(init);
        LevelAfterPrefix(l, b, reqs, r, |reqs|);
        assert (reqs + [r])[|reqs|] == r;
    }
  }

  // ---- The hints sent with a rejection ----

  lemma CeilBounds(x: real)
    ensures Ceil(x) as real - 1.0 < x <= Ceil(x) as real
  {
  }

  /** The credit reaches what is needed once the time has come that the hint divides out. */
  lemma CreditReaches(l: Limits, start: int, t: int, need: real)
    requires l.ratePerMs > 0.0
    ensures Credit(l, start, t) >= need <==> (t - start) as real >= need / (l.ratePerMs * 1000.0) * 1000.0
    ensures need > 0.0 <==> need / (l.ratePerMs * 1000.0) > 0.0
  {
    Scales(need, l.ratePerMs, (t - start) as real);
  }

  lemma Scales(need: real, rate: real, e: real)
    requires rate > 0.0
    ensures e * rate >= need <==> e >= need / (rate * 1000.0) * 1000.0
    ensures need > 0.0 <==> need / (rate * 1000.0) > 0.0
  {
    var q := need / (rate * 1000.0);
    Quotient(need, rate * 1000.0);
    assert q * (rate * 1000.0) == q * 1000.0 * rate;
    Product(rate, e, q * 1000.0);
    QuotientCompares(need, rate * 1000.0, 0.0);
  }

  lemma GrantsOneIff(l: Limits, b: Level, t: int)
    requires l.capacity >= 1.0
    ensures Grants(l, b, Request(t, 1.0)) <==> Credit(l, b.lastRefillMs, t) >= 1.0 - b.tokens
  {
    hide Credit;
  }

  lemma FullIff(l: Limits, b: Level, t: int)
    ensures Refilled(l, b, t).tokens <= l.capacity
    ensures Refilled(l, b, t).tokens == l.capacity <==> Credit(l, b.lastRefillMs, t) >= l.capacity - b.tokens
  {
    hide Credit;
  }

  /** With no further request on the bucket, a client told to wait s seconds is served from
      s seconds on and is refused at every moment up to s - 1 seconds; one told to wait for ever is
      never served. */
  lemma RetryAfterIsExact(l: Limits, b: Level, t: int)
    requires l.ratePerMs >= 0.0 && l.capacity >= 1.0 && b.tokens < 1.0
    ensures match RetryAfter(l, b)
            case Finite(s) =>
              && s >= 1
              && (t >= b.lastRefillMs + 1000 * s ==> Grants(l, b, Request(t, 1.0)))
              && (t <= b.lastRefillMs + 1000 * (s - 1) ==> !Grants(l, b, Request(t, 1.0)))
            case Infinite => !Grants(l, b, Request(t, 1.0))
  {
    if l.ratePerMs > 0.0 {
      FiniteRetryIsExact(l, b, t);
    }
  }

  lemma FiniteRetryIsExact(l: Limits, b: Level, t: int)
    requires l.ratePerMs > 0.0 && l.capacity >= 1.0 && b.tokens < 1.0
    ensures RetryAfter(l, b).Finite?
    ensures var s := RetryAfter(l, b).value;
            && s >= 1
            && (t >= b.lastRefillMs + 1000 * s ==> Grants(l, b, Request(t, 1.0)))
            && (t <= b.lastRefillMs + 1000 * (s - 1) ==> !Grants(l, b, Request(t, 1.0)))
  {
    var q := (1.0 - b.tokens) / (l.ratePerMs * 1000.0);
    assert RetryAfter(l, b) == Finite(Ceil(q));
    CeilBounds(q);
    CreditReaches(l, b.lastRefillMs, t, 1.0 - b.tokens);
    GrantsOneIff(l, b, t);
    hide Credit, Grants, Ceil, RetryAfter;
  }

  /** The bucket is full from `Reset` on, and if it was not full when asked, it is still not
      full one second earlier; without refill it never is. `b` is a level just refilled at `now`. */
  lemma ResetIsExact(l: Limits, b: Level, now: int, t: int)
    requires l.ratePerMs >= 0.0 && b.lastRefillMs == now <= t && b.tokens <= l.capacity
    ensures match Reset(l, b, now)
            case Finite(s) =>
              && (1000 * s <= t ==> Refilled(l, b, t).tokens == l.capacity)
              && (b.tokens < l.capacity && t <= 1000 * (s - 1) ==> Refilled(l, b, t).tokens < l.capacity)
              && (b.tokens == l.capacity ==> 1000 * s <= now)
            case Infinite => Refilled(l, b, t).tokens < l.capacity
  {
    if l.ratePerMs > 0.0 {
      FiniteResetIsExact(l, b, now, t);
    }
  }

  lemma FiniteResetIsExact(l: Limits, b: Level, now: int, t: int)
    requires l.ratePerMs > 0.0 && b.lastRefillMs == now <= t && b.tokens <= l.capacity
    ensures Reset(l, b, now).Finite?
    ensures 1000 * Reset(l, b, now).value <= t ==> Refilled(l, b, t).tokens == l.capacity
    ensures b.tokens < l.capacity && t <= 1000 * (Reset(l, b, now).value - 1) ==> Refilled(l, b, t).tokens < l.capacity
    ensures b.tokens == l.capacity ==> 1000 * Reset(l, b, now).value <= now
  {
    FullIff(l, b, t);
    if b.tokens < l.capacity {
      var q := (l.capacity - b.tokens) / (l.ratePerMs * 1000.0);
      assert Reset(l, b, now) == Finite(Ceil(now as real / 1000.0 + q));
      CeilBounds(now as real / 1000.0 + q);
      CreditReaches(l, now, t, l.capacity - b.tokens);
      hide Credit, Ceil, Reset, Refilled;
    } else {
      CreditNonNegative(l, now, t);
      hide Credit, Refilled;
    }
  }

  // ---- Steady clients ----

  ghost predicate UnitRequests(reqs: seq<Request>) {
    forall j :: 0 <= j < |reqs| ==> reqs[j].count == 1.0
  }

  /** Requests at least 60000/rpm milliseconds apart are all admitted, for ever. */
  lemma {:induction false} SteadyClientIsServed(l: Limits, start: int, reqs: seq<Request>, j: nat)
    requires l.ratePerMs >= 0.0 && l.capacity >= 1.0 && j < |reqs|
    requires Chronological(start, reqs) && UnitRequests(reqs)
    requires forall i :: 0 < i < |reqs| ==> Credit(l, reqs[i - 1].at, reqs[i].at) >= 1.0
    ensures Admitted(l, Fresh(l, start), reqs, j)
    ensures LevelAfter(l, Fresh(l, start), reqs, j + 1).tokens >= 0.0
  {
    if j == 0 {
      CreditNonNegative(l, start, reqs[0].at);
    } else {
      SteadyClientIsServed(l, start, reqs, j - 1);
    }
  }

  /** The gap is sharp: unit requests that outnumber the burst plus the credit accrued
      between the first and the last of them cannot all be admitted. */
  lemma OverloadedClientIsRefused(l: Limits, start: int, reqs: seq<Request>)
    requires l.ratePerMs >= 0.0 && reqs != [] && Chronological(start, reqs) && UnitRequests(reqs)
    requires |reqs| as real > l.capacity + Credit(l, reqs[0].at, reqs[|reqs| - 1].at)
    ensures exists j :: 0 <= j < |reqs| && !Admitted(l, Fresh(l, start), reqs, j)
  {
    if forall j :: 0 <= j < |reqs| ==> Admitted(l, Fresh(l, start), reqs, j) {
      var n := |reqs| - 1;
      assert Admitted(l, Fresh(l, start), reqs, n);
      SpentWhenAllAdmitted(l, start, reqs, n);
      assert Headroom(l, Fresh(l, start), reqs, 0, n) < 1.0;
      CounterIsTightestWindow(l, start, reqs, n);
      assert false;
    }
  }

  lemma {:induction false} SpentWhenAllAdmitted(l: Limits, start: int, reqs: seq<Request>, j: nat)
    requires j <= |reqs| && UnitRequests(reqs)
    requires forall i :: 0 <= i < |reqs| ==> Admitted(l, Fresh(l, start), reqs, i)
    ensures Spent(l, Fresh(l, start), reqs, 0, j) == j as real
  {
    if j > 0 {
      SpentWhenAllAdmitted(l, start, reqs, j - 1);
    }
  }
}
