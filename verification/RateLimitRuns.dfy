/** Whole runs of the rate limiter: what one client key is granted, with and without
  evictions by other keys. */
module RateLimitRuns {
  import opened Common
  import opened TokenBuckets
  import opened LruStores
  import opened RateLimiting

  /** One request reaching the limiter, with the tier it claims. */
  datatype Arrival = Arrival(key: string, tier: TierConfig, at: int) {
    const limits := ConfigLimits(tier)
  }

  ghost predicate Sane(l: Limits) {
    l.capacity >= 0.0 && l.ratePerMs >= 0.0
  }

  ghost predicate Timely(run: seq<Arrival>) {
    && (forall i :: 0 <= i < |run| ==> Sane(run[i].limits))
    && (forall i, j :: 0 <= i <= j < |run| ==> run[i].at <= run[j].at)
  }

  /** The store after the first n requests, starting empty. */
  function StoreAfter(maxBuckets: int, run: seq<Arrival>, n: nat): Slots<Bucket>
    requires n <= |run|
  {
    if n == 0 then Slots([], map[])
    else Served(StoreAfter(maxBuckets, run, n - 1), maxBuckets, run[n - 1].key, run[n - 1].limits, run[n - 1].at)
  }

  /** What the n-th request is told. */
  function Reply(maxBuckets: int, run: seq<Arrival>, n: nat): RateLimitResult
    requires n < |run|
  {
    var a := run[n];
    Told(Met(StoreAfter(maxBuckets, run, n), a.key, a.limits, a.at), a.tier.requestsPerMinute, a.key, a.at)
  }

  predicate Admits(maxBuckets: int, run: seq<Arrival>, n: nat)
    requires n < |run|
  {
    Reply(maxBuckets, run, n).allowed
  }

  lemma AdmitsIsReply(maxBuckets: int, run: seq<Arrival>, n: nat)
    requires n < |run|
    ensures var b := Met(StoreAfter(maxBuckets, run, n), run[n].key, run[n].limits, run[n].at);
            Reply(maxBuckets, run, n).allowed <==> Grants(b.limits, b.level, Unit(run[n].at))
  {
    hide StoreAfter, Grants, Consumed, Reset, RetryAfter;
  }

  /** Every stored bucket holds between zero and capacity tokens and was refilled no later than `now`. */
  ghost predicate Bounded(s: Slots<Bucket>, now: int) {
    forall k :: k in s.table ==>
      var b := s.table[k];
      Sane(b.limits) && 0.0 <= b.level.tokens <= b.limits.capacity && b.level.lastRefillMs <= now
  }

  lemma {:induction false} StoreInvariant(maxBuckets: int, run: seq<Arrival>, n: nat)
    requires n <= |run| && Timely(run)
    ensures WellFormed(StoreAfter(maxBuckets, run, n))
    ensures n > 0 ==> Bounded(StoreAfter(maxBuckets, run, n), run[n - 1].at)
    ensures n == 0 ==> StoreAfter(maxBuckets, run, n).table == map[]
  {
    if n > 0 {
      StoreInvariant(maxBuckets, run, n - 1);
      var s, a := StoreAfter(maxBuckets, run, n - 1), run[n - 1];
      ServedFacts(s, maxBuckets, a.key, a.limits, a.at);
      var b := Met(s, a.key, a.limits, a.at);
      CreditNonNegative(b.limits, b.level.lastRefillMs, a.at);
    }
  }

  // ---- Requests for other keys ----

  /** A request never changes the bucket of another key; all it can do is evict it. */
  lemma {:induction false} OtherKeysDoNotTouch(maxBuckets: int, run: seq<Arrival>, n: nat, k: string)
    requires n < |run| && Timely(run) && k != run[n].key
    requires k in StoreAfter(maxBuckets, run, n + 1).table
    ensures k in StoreAfter(maxBuckets, run, n).table
    ensures StoreAfter(maxBuckets, run, n + 1).table[k] == StoreAfter(maxBuckets, run, n).table[k]
  {
    StoreInvariant(maxBuckets, run, n);
    ServedFacts(StoreAfter(maxBuckets, run, n), maxBuckets, run[n].key, run[n].limits, run[n].at);
  }

  // ---- The admission bound with evictions ----

  predicate EvictedBy(maxBuckets: int, run: seq<Arrival>, n: nat, k: string)
    requires n < |run|
  {
    k in StoreAfter(maxBuckets, run, n).table && k !in StoreAfter(maxBuckets, run, n + 1).table
  }

  function Evictions(maxBuckets: int, run: seq<Arrival>, k: string, i: nat, j: nat): nat
    requires i <= j <= |run|
  {
    if i == j then 0
    else Evictions(maxBuckets, run, k, i, j - 1) + if EvictedBy(maxBuckets, run, j - 1, k) then 1 else 0
  }

  function AdmitCount(maxBuckets: int, run: seq<Arrival>, k: string, i: nat, j: nat): nat
    requires i <= j <= |run|
  {
    if i == j then 0
    else AdmitCount(maxBuckets, run, k, i, j - 1)
         + if run[j - 1].key == k && Admits(maxBuckets, run, j - 1) then 1 else 0
  }

  /** What k could still take at time t: its refilled tokens, or a fresh bucket's. */
  function Available(s: Slots<Bucket>, k: string, l: Limits, t: int): real {
    if k in s.table then Refilled(s.table[k].limits, s.table[k].level, t).tokens else l.capacity
  }

  predicate Within(l: Limits, most: Limits) {
    l.capacity <= most.capacity && l.ratePerMs <= most.ratePerMs
  }

  /** Whatever tier key k claims, its capacity and rate are at most these. */
  ghost predicate TiersWithin(run: seq<Arrival>, k: string, most: Limits) {
    forall i :: 0 <= i < |run| && run[i].key == k ==> Within(run[i].limits, most)
  }

  lemma CreditWithin(l: Limits, most: Limits, a: int, t: int)
    requires Within(l, most) && a <= t
    ensures Credit(l, a, t) <= Credit(most, a, t)
  {
    TimesOrdered((t - a) as real, l.ratePerMs, most.ratePerMs);
  }

  lemma {:induction false} TierIsKept(maxBuckets: int, run: seq<Arrival>, k: string, l: Limits, n: nat)
    requires n <= |run| && Timely(run) && TiersWithin(run, k, l)
    requires k in StoreAfter(maxBuckets, run, n).table
    ensures Within(StoreAfter(maxBuckets, run, n).table[k].limits, l)
  {
    if n > 0 {
      hide StoreAfter, Timely, Within;
      EntryOrigin(maxBuckets, run, n, k);
      if run[n - 1].key != k || k in StoreAfter(maxBuckets, run, n - 1).table {
        TierIsKept(maxBuckets, run, k, l, n - 1);
      }
    }
  }

  /** A stored entry has the limits it had before the last request, or those that request brought. */
  lemma EntryOrigin(maxBuckets: int, run: seq<Arrival>, n: nat, k: string)
    requires 0 < n <= |run| && Timely(run) && k in StoreAfter(maxBuckets, run, n).table
    ensures var s, t := StoreAfter(maxBuckets, run, n - 1), StoreAfter(maxBuckets, run, n);
            if k in s.table then t.table[k].limits == s.table[k].limits
            else run[n - 1].key == k && t.table[k].limits == run[n - 1].limits
  {
    hide Served, WellFormed, Timely;
    StoreInvariant(maxBuckets, run, n - 1);
    var a := run[n - 1];
    ServedFacts(StoreAfter(maxBuckets, run, n - 1), maxBuckets, a.key, a.limits, a.at);
  }

  /** A bucket asked at time a has, at a later time t, at most what it had plus the credit
      since, minus the token it gave. */
  lemma TokenBalance(l: Limits, b: Level, a: int, t: int)
    requires Sane(l) && b.lastRefillMs <= a <= t
    ensures Refilled(l, b, t).tokens <= Refilled(l, b, a).tokens + Credit(l, a, t)
    ensures (if Grants(l, b, Unit(a)) then 1.0 else 0.0) + Refilled(l, Consumed(l, b, Unit(a)), t).tokens
         <= Refilled(l, b, a).tokens + Credit(l, a, t)
  {
    CreditSplits(l, b.lastRefillMs, a, t);
    CreditNonNegative(l, a, t);
  }

  lemma AvailableBounds(maxBuckets: int, run: seq<Arrival>, k: string, l: Limits, n: nat, t: int)
    requires n <= |run| && Timely(run) && TiersWithin(run, k, l) && Sane(l)
    requires n > 0 ==> run[n - 1].at <= t
    ensures var s := StoreAfter(maxBuckets, run, n);
            && 0.0 <= Available(s, k, l, t) <= l.capacity
            && (k in s.table ==>
                  Within(s.table[k].limits, l) && Sane(s.table[k].limits) && s.table[k].level.lastRefillMs <= t)
  {
    StoreInvariant(maxBuckets, run, n);
    var s := StoreAfter(maxBuckets, run, n);
    if k in s.table {
      TierIsKept(maxBuckets, run, k, l, n);
      CreditNonNegative(s.table[k].limits, s.table[k].level.lastRefillMs, t);
    }
    hide Credit, StoreAfter, TiersWithin, Timely;
  }

  /** One step of the potential argument. */
  lemma AvailableStep(maxBuckets: int, run: seq<Arrival>, k: string, l: Limits, n: nat, t: int)
    requires n < |run| && Timely(run) && TiersWithin(run, k, l) && run[n].at <= t && Sane(l)
    ensures var s, s' := StoreAfter(maxBuckets, run, n), StoreAfter(maxBuckets, run, n + 1);
            var taken := if run[n].key == k && Admits(maxBuckets, run, n) then 1.0 else 0.0;
            var lost := if EvictedBy(maxBuckets, run, n, k) then l.capacity else 0.0;
            taken + Available(s', k, l, t) <= Available(s, k, l, run[n].at) + lost + Credit(l, run[n].at, t)
  {
    hide Served, Credit, Consumed, Refilled, Grants, WellFormed, Reply;
    var s, a := StoreAfter(maxBuckets, run, n), run[n];
    AdmitsIsReply(maxBuckets, run, n);
    StoreInvariant(maxBuckets, run, n);
    AvailableBounds(maxBuckets, run, k, l, n, a.at);
    ServedFacts(s, maxBuckets, a.key, a.limits, a.at);
    CreditNonNegative(l, a.at, t);
    var b := Met(s, k, a.limits, a.at);
    if a.key == k || k in s.table {
      TokenBalance(b.limits, b.level, a.at, t);
      CreditWithin(b.limits, l, a.at, t);
      FreshIsFull(a.limits, a.at);
    }
  }

  lemma FreshIsFull(l: Limits, now: int)
    ensures Refilled(l, Fresh(l, now), now).tokens == l.capacity
  {
    assert 0.0 * l.ratePerMs == 0.0;
  }

  /** Tokens that one initial bucket and e evictions can be worth. */
  function Allowance(e: nat, l: Limits): real {
    if e == 0 then l.capacity else Allowance(e - 1, l) + l.capacity
  }

  lemma {:induction false} AllowanceIsProduct(e: nat, l: Limits)
    ensures Allowance(e, l) == (e + 1) as real * l.capacity
  {
    if e > 0 {
      AllowanceIsProduct(e - 1, l);
    }
  }

  lemma {:induction false} AdmissionPotential(maxBuckets: int, run: seq<Arrival>, k: string, l: Limits, i: nat,
                                              j: nat, t: int)
    requires i < j <= |run| && Timely(run) && TiersWithin(run, k, l) && run[j - 1].at <= t && Sane(l)
    ensures AdmitCount(maxBuckets, run, k, i, j) as real + Available(StoreAfter(maxBuckets, run, j), k, l, t)
         <= Allowance(Evictions(maxBuckets, run, k, i, j), l) + Credit(l, run[i].at, t)
  {
    hide Available, Admits, EvictedBy, StoreAfter, Credit;
    AvailableStep(maxBuckets, run, k, l, j - 1, t);
    CreditSplits(l, run[i].at, run[j - 1].at, t);
    if i == j - 1 {
      AvailableBounds(maxBuckets, run, k, l, i, run[i].at);
    } else {
      AdmissionPotential(maxBuckets, run, k, l, i, j - 1, run[j - 1].at);
    }
  }

  lemma BoundInLimits(maxBuckets: int, run: seq<Arrival>, k: string, l: Limits, i: nat, j: nat)
    requires i < j <= |run| && Timely(run) && TiersWithin(run, k, l) && Sane(l)
    ensures AdmitCount(maxBuckets, run, k, i, j) as real
         <= (Evictions(maxBuckets, run, k, i, j) + 1) as real * l.capacity + Credit(l, run[i].at, run[j - 1].at)
  {
    hide *;
    AdmissionPotential(maxBuckets, run, k, l, i, j, run[j - 1].at);
    AllowanceIsProduct(Evictions(maxBuckets, run, k, i, j), l);
    AvailableBounds(maxBuckets, run, k, l, j, run[j - 1].at);
  }

  /** Main bound: over any stretch of a run, a key that was evicted e times is told it is allowed at most
      (e + 1) * burst + requests per minute * minutes elapsed times, for the largest tier it claims. */
  lemma AdmissionBound(maxBuckets: int, run: seq<Arrival>, k: string, most: TierConfig, i: nat, j: nat)
    requires i < j <= |run| && Timely(run) && most.burstCapacity >= 0.0 && most.requestsPerMinute >= 0.0
    requires ClaimsAtMost(run, k, most)
    ensures AdmitCount(maxBuckets, run, k, i, j) as real
         <= Quota(most, Evictions(maxBuckets, run, k, i, j), run[j - 1].at - run[i].at)
  {
    hide *;
    TierLimits(run, k, most);
    BoundInLimits(maxBuckets, run, k, ConfigLimits(most), i, j);
    QuotaInLimits(most, Evictions(maxBuckets, run, k, i, j), run[i].at, run[j - 1].at);
  }

  /** The burst once and again for every eviction, and the rate for the minutes elapsed. */
  function Quota(c: TierConfig, evictions: nat, elapsedMs: int): real {
    (evictions + 1) as real * c.burstCapacity + c.requestsPerMinute * (elapsedMs as real / 60000.0)
  }

  lemma QuotaInLimits(c: TierConfig, e: nat, a: int, t: int)
    ensures Quota(c, e, t - a) == (e + 1) as real * ConfigLimits(c).capacity + Credit(ConfigLimits(c), a, t)
  {
    PerMinute(c.requestsPerMinute, (t - a) as real);
  }

  lemma TierLimits(run: seq<Arrival>, k: string, most: TierConfig)
    requires most.burstCapacity >= 0.0 && most.requestsPerMinute >= 0.0 && ClaimsAtMost(run, k, most)
    ensures var l := ConfigLimits(most); l.capacity == most.burstCapacity && Sane(l) && TiersWithin(run, k, l)
  {
    forall n | 0 <= n < |run| && run[n].key == k
      ensures Within(run[n].limits, ConfigLimits(most))
    {
      QuotientOrder(run[n].tier.requestsPerMinute, most.requestsPerMinute, 60000.0);
    }
  }

  ghost predicate ClaimsAtMost(run: seq<Arrival>, k: string, most: TierConfig) {
    forall n :: 0 <= n < |run| && run[n].key == k ==>
      run[n].tier.burstCapacity <= most.burstCapacity && run[n].tier.requestsPerMinute <= most.requestsPerMinute
  }

  lemma PerMinute(rate: real, elapsed: real)
    ensures elapsed * (rate / 60000.0) == rate * (elapsed / 60000.0)
  {
  }

  // ---- The hint in a shared store ----

  /** Until its next request a key's bucket is as it was left, or gone. */
  lemma {:induction false} UntouchedOrGone(maxBuckets: int, run: seq<Arrival>, n: nat, m: nat, k: string)
    requires n <= m <= |run| && Timely(run) && forall i :: n <= i < m ==> run[i].key != k
    requires k in StoreAfter(maxBuckets, run, m).table
    ensures k in StoreAfter(maxBuckets, run, n).table
    ensures StoreAfter(maxBuckets, run, m).table[k] == StoreAfter(maxBuckets, run, n).table[k]
  {
    hide StoreAfter, Timely;
    if n < m {
      OtherKeysDoNotTouch(maxBuckets, run, m - 1, k);
      UntouchedOrGone(maxBuckets, run, n, m - 1, k);
    }
  }

  /** Request n was refused and told how long to wait, and m is the key's next request. */
  ghost predicate Waits(maxBuckets: int, run: seq<Arrival>, n: nat, m: nat) {
    && n < m < |run| && run[m].key == run[n].key
    && (forall i :: n < i < m ==> run[i].key != run[n].key)
    && !Admits(maxBuckets, run, n)
  }

  /** With requests of other keys in between, a client that waited as long as it was told is admitted
      whether or not its bucket was evicted. One that did not is admitted iff it was: an eviction brings
      admission forward, and nothing else does. Both tiers hold a token at least. */
  lemma HintHoldsInStore(maxBuckets: int, run: seq<Arrival>, n: nat, m: nat)
    requires Timely(run) && Waits(maxBuckets, run, n, m)
    requires Met(StoreAfter(maxBuckets, run, n), run[n].key, run[n].limits, run[n].at).limits.capacity >= 1.0
    requires run[m].limits.capacity >= 1.0
    ensures var evicted := run[m].key !in StoreAfter(maxBuckets, run, m).table;
            Reply(maxBuckets, run, n).retryAfterSeconds.Some?
            && match Reply(maxBuckets, run, n).retryAfterSeconds.value
            case Finite(s) =>
              && (run[m].at >= run[n].at + 1000 * s ==> Admits(maxBuckets, run, m))
              && (run[m].at <= run[n].at + 1000 * (s - 1) ==> (Admits(maxBuckets, run, m) <==> evicted))
            case Infinite => Admits(maxBuckets, run, m) <==> evicted
  {
    hide Served, Credit, Refilled, WellFormed, RetryAfter, Reset;
    AdmitsIsReply(maxBuckets, run, m);
    var k, s, a, c := run[n].key, StoreAfter(maxBuckets, run, n), run[n], run[m];
    var b := Met(s, k, a.limits, a.at);
    var left := Consumed(b.limits, b.level, Unit(a.at));
    StoreInvariant(maxBuckets, run, n);
    ServedFacts(s, maxBuckets, k, a.limits, a.at);
    RefusedLeaves(b, a.at);
    FreshIsFull(c.limits, c.at);
    if k in StoreAfter(maxBuckets, run, m).table {
      UntouchedOrGone(maxBuckets, run, n + 1, m, k);
      assert StoreAfter(maxBuckets, run, n + 1).table[k] == Bucket(b.limits, left);
      RetryAfterIsExact(b.limits, left, c.at);
    }
  }

  lemma RefusedLeaves(b: Bucket, at: int)
    requires !Grants(b.limits, b.level, Unit(at))
    ensures var left := Consumed(b.limits, b.level, Unit(at)); left.tokens < 1.0 && left.lastRefillMs == at
  {
  }

  // ---- The rest of the reply ----

  /** What is left of the key's bucket after request n, and what the reply says of it. */
  lemma ReplyTellsEntry(maxBuckets: int, run: seq<Arrival>, n: nat)
    requires n < |run| && Timely(run)
    ensures var t, r, k := StoreAfter(maxBuckets, run, n + 1), Reply(maxBuckets, run, n), run[n].key;
            && k in t.table && Sane(t.table[k].limits)
            && t.table[k].level.lastRefillMs == run[n].at
            && 0.0 <= t.table[k].level.tokens <= t.table[k].limits.capacity
            && r.remaining == t.table[k].level.tokens.Floor
            && r.resetEpoch == Reset(t.table[k].limits, t.table[k].level, run[n].at)
  {
    hide Served, WellFormed, Reset, RetryAfter, Grants;
    StoreInvariant(maxBuckets, run, n);
    StoreInvariant(maxBuckets, run, n + 1);
    ServedFacts(StoreAfter(maxBuckets, run, n), maxBuckets, run[n].key, run[n].limits, run[n].at);
  }

  /** From request n to m the same client asks again and again at one instant. */
  ghost predicate Burst(run: seq<Arrival>, n: nat, m: nat) {
    && n <= m < |run|
    && forall i :: n <= i <= m ==> run[i].key == run[n].key && run[i].at == run[n].at
  }

  lemma RepeatedRequest(maxBuckets: int, run: seq<Arrival>, n: nat)
    requires Timely(run) && Burst(run, n, n + 1)
    ensures var r, next := Reply(maxBuckets, run, n), Reply(maxBuckets, run, n + 1);
            && (next.allowed <==> r.remaining >= 1)
            && next.remaining == if r.remaining >= 1 then r.remaining - 1 else r.remaining
  {
    ReplyTellsEntry(maxBuckets, run, n);
    ReplyTellsEntry(maxBuckets, run, n + 1);
    assert run[n + 1].key == run[n].key && run[n + 1].at == run[n].at;
    var b := StoreAfter(maxBuckets, run, n + 1).table[run[n].key];
    NoTimeNoCredit(b.limits, b.level, run[n].at);
    hide StoreAfter, Reset, RetryAfter, Refilled, WellFormed;
  }

  lemma NoTimeNoCredit(l: Limits, b: Level, now: int)
    requires b.lastRefillMs == now && b.tokens <= l.capacity
    ensures Refilled(l, b, now) == b
  {
    assert 0.0 * l.ratePerMs == 0.0;
  }

  /** `remaining` is what it is called: of further requests at the same instant exactly that many are
      allowed, first come first served, whatever the state of the store. */
  lemma {:induction false} RemainingIsExact(maxBuckets: int, run: seq<Arrival>, n: nat, m: nat)
    requires Timely(run) && Burst(run, n, m)
    ensures var left := Reply(maxBuckets, run, n).remaining;
            && left >= 0
            && (m > n ==> (Reply(maxBuckets, run, m).allowed <==> m - n <= left))
            && Reply(maxBuckets, run, m).remaining == if m - n <= left then left - (m - n) else 0
  {
    hide Reply, Timely;
    if m == n {
      ReplyTellsEntry(maxBuckets, run, n);
    } else {
      RemainingIsExact(maxBuckets, run, n, m - 1);
      RepeatedRequest(maxBuckets, run, m - 1);
    }
  }

  /** `resetEpoch` is the second from which the key's bucket, left alone, is full: see `ResetIsExact`. */
  lemma ResetHoldsInStore(maxBuckets: int, run: seq<Arrival>, n: nat, t: int)
    requires Timely(run) && n < |run| && run[n].at <= t
    ensures var s := StoreAfter(maxBuckets, run, n + 1);
            run[n].key in s.table
            && var b := s.table[run[n].key];
               match Reply(maxBuckets, run, n).resetEpoch
               case Finite(e) =>
                 && (1000 * e <= t ==> Refilled(b.limits, b.level, t).tokens == b.limits.capacity)
                 && (b.level.tokens < b.limits.capacity && t <= 1000 * (e - 1) ==>
                       Refilled(b.limits, b.level, t).tokens < b.limits.capacity)
                 && (b.level.tokens == b.limits.capacity ==> 1000 * e <= run[n].at)
               case Infinite => Refilled(b.limits, b.level, t).tokens < b.limits.capacity
  {
    hide StoreAfter, Timely, Reply, Reset, Refilled;
    ReplyTellsEntry(maxBuckets, run, n);
    var b := StoreAfter(maxBuckets, run, n + 1).table[run[n].key];
    ResetIsExact(b.limits, b.level, run[n].at, t);
  }

  // ---- A client that keeps to its rate ----

  /** A stored bucket follows a tier that its key has claimed. */
  lemma {:induction false} EntryHasTier(maxBuckets: int, run: seq<Arrival>, n: nat, k: string) returns (i: nat)
    requires n <= |run| && Timely(run) && k in StoreAfter(maxBuckets, run, n).table
    ensures i < n && run[i].key == k && StoreAfter(maxBuckets, run, n).table[k].limits == run[i].limits
  {
    hide StoreAfter, Timely;
    if n == 0 {
      StoreIsEmptyAtFirst(maxBuckets, run);
      assert false;
    } else {
      EntryOrigin(maxBuckets, run, n, k);
      if k in StoreAfter(maxBuckets, run, n - 1).table {
        i := EntryHasTier(maxBuckets, run, n - 1, k);
      } else {
        i := n - 1;
      }
    }
  }

  lemma StoreIsEmptyAtFirst(maxBuckets: int, run: seq<Arrival>)
    ensures StoreAfter(maxBuckets, run, 0).table == map[]
  {
  }

  /** Every tier key k claims holds a token, and refills one in `gap` milliseconds. */
  ghost predicate RefillsIn(run: seq<Arrival>, k: string, gap: int) {
    forall i :: 0 <= i < |run| && run[i].key == k ==>
      run[i].tier.burstCapacity >= 1.0 && run[i].tier.requestsPerMinute * gap as real >= 60000.0
  }

  lemma GapRefillsOne(c: TierConfig, a: int, t: int)
    requires c.burstCapacity >= 1.0 && c.requestsPerMinute * (t - a) as real >= 60000.0
    ensures ConfigLimits(c).capacity >= 1.0 && Credit(ConfigLimits(c), a, t) >= 1.0
  {
    assert (t - a) as real * (c.requestsPerMinute / 60000.0) == c.requestsPerMinute * (t - a) as real / 60000.0;
  }

  /** A client whose requests are at least 60000 / requestsPerMinute milliseconds apart is never refused,
      whatever other clients do and however small the store is. */
  lemma SpacedClientIsServed(maxBuckets: int, run: seq<Arrival>, p: nat, n: nat)
    requires Timely(run) && p < n < |run| && run[p].key == run[n].key
    requires forall i :: p < i < n ==> run[i].key != run[n].key
    requires RefillsIn(run, run[n].key, run[n].at - run[p].at)
    ensures Reply(maxBuckets, run, n).allowed
  {
    hide StoreAfter, Timely, Reply, Grants, ConfigLimits, RefillsIn;
    var k, s := run[n].key, StoreAfter(maxBuckets, run, n);
    AdmitsIsReply(maxBuckets, run, n);
    if k in s.table {
      UntouchedOrGone(maxBuckets, run, p + 1, n, k);
      ReplyTellsEntry(maxBuckets, run, p);
      var i := EntryHasTier(maxBuckets, run, n, k);
      TierRefillsIn(run, i, k, run[n].at - run[p].at);
      RefilledGrants(run[i].tier, s.table[k].level, run[n].at);
    } else {
      TierRefillsIn(run, n, k, run[n].at - run[p].at);
      FreshGrants(run[n].tier, run[n].at);
    }
  }

  lemma TierRefillsIn(run: seq<Arrival>, i: nat, k: string, gap: int)
    requires RefillsIn(run, k, gap) && i < |run| && run[i].key == k
    ensures run[i].tier.burstCapacity >= 1.0 && run[i].tier.requestsPerMinute * gap as real >= 60000.0
  {
  }

  lemma RefilledGrants(c: TierConfig, b: Level, t: int)
    requires b.tokens >= 0.0 && c.burstCapacity >= 1.0 && c.requestsPerMinute * (t - b.lastRefillMs) as real >= 60000.0
    ensures Grants(ConfigLimits(c), b, Unit(t))
  {
    GapRefillsOne(c, b.lastRefillMs, t);
    GrantsOneIff(ConfigLimits(c), b, t);
    hide Credit, ConfigLimits;
  }

  lemma FreshGrants(c: TierConfig, t: int)
    requires c.burstCapacity >= 1.0
    ensures Grants(ConfigLimits(c), Fresh(ConfigLimits(c), t), Unit(t))
  {
    FreshIsFull(ConfigLimits(c), t);
  }

  // ---- Without evictions every key sees exactly the history specification ----

  function ClientKeys(run: seq<Arrival>): set<string> {
    set i | 0 <= i < |run| :: run[i].key
  }

  /** The requests of key k among the first n arrivals. */
  function RequestsOf(run: seq<Arrival>, n: nat, k: string): seq<Request>
    requires n <= |run|
  {
    if n == 0 then []
    else RequestsOf(run, n - 1, k) + if run[n - 1].key == k then [Unit(run[n - 1].at)] else []
  }

  /** The first arrival of key k, which fixes its limits for good. */
  function Opening(run: seq<Arrival>, n: nat, k: string): (a: Arrival)
    requires n <= |run| && RequestsOf(run, n, k) != []
    ensures a.key == k && a in run[..n]
  {
    assert run[..n] == run[..n - 1] + [run[n - 1]];
    if RequestsOf(run, n - 1, k) == [] then run[n - 1] else Opening(run, n - 1, k)
  }

  predicate HoldsOnly(s: Slots<Bucket>, all: set<string>) {
    s.table.Keys <= all
  }

  /** With no more client keys than the store has room for, nothing is ever evicted. */
  lemma {:induction false} EveryClientStays(maxBuckets: int, run: seq<Arrival>, n: nat, k: string)
    requires n <= |run| && |ClientKeys(run)| <= Room(maxBuckets)
    ensures WellFormed(StoreAfter(maxBuckets, run, n))
    ensures HoldsOnly(StoreAfter(maxBuckets, run, n), ClientKeys(run))
    ensures k in StoreAfter(maxBuckets, run, n).table <==> RequestsOf(run, n, k) != []
  {
    hide StoreAfter, WellFormed, Room, ClientKeys, HoldsOnly;
    if n > 0 {
      EveryClientStays(maxBuckets, run, n - 1, k);
      ClientIsKnown(run, n - 1);
      KeysAfterRequest(maxBuckets, run, n, ClientKeys(run), k);
    } else {
      EmptyStore(maxBuckets, run);
    }
  }

  lemma EmptyStore(maxBuckets: int, run: seq<Arrival>)
    ensures WellFormed(StoreAfter(maxBuckets, run, 0)) && StoreAfter(maxBuckets, run, 0).table == map[]
    ensures HoldsOnly(StoreAfter(maxBuckets, run, 0), ClientKeys(run))
  {
  }

  lemma ClientIsKnown(run: seq<Arrival>, i: nat)
    requires i < |run|
    ensures run[i].key in ClientKeys(run)
  {
  }

  /** A request of a store that has room for all keys adds its own key and loses none. */
  lemma KeysAfterRequest(maxBuckets: int, run: seq<Arrival>, n: nat, all: set<string>, k: string)
    requires 0 < n <= |run| && WellFormed(StoreAfter(maxBuckets, run, n - 1)) && |all| <= Room(maxBuckets)
    requires run[n - 1].key in all && HoldsOnly(StoreAfter(maxBuckets, run, n - 1), all)
    ensures WellFormed(StoreAfter(maxBuckets, run, n)) && HoldsOnly(StoreAfter(maxBuckets, run, n), all)
    ensures k in StoreAfter(maxBuckets, run, n).table
       <==> k in StoreAfter(maxBuckets, run, n - 1).table || k == run[n - 1].key
  {
    hide Accessed, Consumed, Fresh, Room, WellFormed;
    var s, a := StoreAfter(maxBuckets, run, n - 1), run[n - 1];
    ServedFacts(s, maxBuckets, a.key, a.limits, a.at);
    NothingEvicted(s, maxBuckets, a.key, all, Bucket(a.limits, Fresh(a.limits, a.at)));
    hide Served;
  }

  /** So the admission bound then holds with the burst counted once. */
  lemma {:induction false} NoEvictions(maxBuckets: int, run: seq<Arrival>, k: string, i: nat, j: nat)
    requires i <= j <= |run| && |ClientKeys(run)| <= Room(maxBuckets)
    ensures Evictions(maxBuckets, run, k, i, j) == 0
  {
    hide ClientKeys, Room, StoreAfter;
    if i < j {
      NoEvictions(maxBuckets, run, k, i, j - 1);
      ClientIsKept(maxBuckets, run, j, k);
    }
  }

  lemma LevelAfterOneMore(l: Limits, b: Level, reqs: seq<Request>, r: Request)
    ensures LevelAfter(l, b, reqs + [r], |reqs| + 1) == Consumed(l, LevelAfter(l, b, reqs, |reqs|), r)
  {
    LevelAfterPrefix(l, b, reqs, r, |reqs|);
  }

  /** What the n-th request does to the stored entry of k when it was or becomes resident. */
  lemma {:induction false} EntryStep(maxBuckets: int, run: seq<Arrival>, n: nat, k: string)
    requires 0 < n <= |run| && WellFormed(StoreAfter(maxBuckets, run, n - 1))
    ensures var s, t, a := StoreAfter(maxBuckets, run, n - 1), StoreAfter(maxBuckets, run, n), run[n - 1];
      var b := Met(s, k, a.limits, a.at);
      && (k == a.key ==> k in t.table && t.table[k] == Bucket(b.limits, Consumed(b.limits, b.level, Unit(a.at))))
      && (k != a.key && k in t.table ==> k in s.table && t.table[k] == s.table[k])
  {
    var a := run[n - 1];
    ServedFacts(StoreAfter(maxBuckets, run, n - 1), maxBuckets, a.key, a.limits, a.at);
  }

  /** A bucket that belongs to k alone, fed k's requests: its limits are those of k's first arrival. */
  function Solitary(run: seq<Arrival>, n: nat, k: string): Option<Bucket>
    requires n <= |run|
  {
    if n == 0 then None else AskedAlone(Solitary(run, n - 1, k), run[n - 1], k)
  }

  function AskedAlone(b: Option<Bucket>, a: Arrival, k: string): Option<Bucket> {
    if a.key != k then b
    else
      var met := if b.Some? then b.value else Bucket(a.limits, Fresh(a.limits, a.at));
      Some(met.(level := Consumed(met.limits, met.level, Unit(a.at))))
  }

  function EntryOf(s: Slots<Bucket>, k: string): Option<Bucket> {
    if k in s.table then Some(s.table[k]) else None
  }

  lemma EntryAfterRequest(maxBuckets: int, run: seq<Arrival>, n: nat, k: string)
    requires 0 < n <= |run| && WellFormed(StoreAfter(maxBuckets, run, n - 1))
    requires k in StoreAfter(maxBuckets, run, n - 1).table ==> k in StoreAfter(maxBuckets, run, n).table
    ensures EntryOf(StoreAfter(maxBuckets, run, n), k)
         == AskedAlone(EntryOf(StoreAfter(maxBuckets, run, n - 1), k), run[n - 1], k)
  {
    hide StoreAfter, WellFormed, Consumed, Fresh;
    EntryStep(maxBuckets, run, n, k);
  }

  lemma {:induction false} StoredIsSolitary(maxBuckets: int, run: seq<Arrival>, n: nat, k: string)
    requires n <= |run| && |ClientKeys(run)| <= Room(maxBuckets)
    ensures Solitary(run, n, k) == EntryOf(StoreAfter(maxBuckets, run, n), k)
  {
    hide ClientKeys, Room, StoreAfter, WellFormed, EntryOf, AskedAlone, HoldsOnly;
    if n == 0 {
      NoEntryYet(maxBuckets, run, k);
    } else {
      StoredIsSolitary(maxBuckets, run, n - 1, k);
      ClientIsKept(maxBuckets, run, n, k);
      EntryAfterRequest(maxBuckets, run, n, k);
    }
  }

  lemma ClientIsKept(maxBuckets: int, run: seq<Arrival>, n: nat, k: string)
    requires 0 < n <= |run| && |ClientKeys(run)| <= Room(maxBuckets)
    ensures WellFormed(StoreAfter(maxBuckets, run, n - 1))
    ensures k in StoreAfter(maxBuckets, run, n - 1).table ==> k in StoreAfter(maxBuckets, run, n).table
  {
    hide ClientKeys, Room, StoreAfter, WellFormed, HoldsOnly;
    EveryClientStays(maxBuckets, run, n, k);
    EveryClientStays(maxBuckets, run, n - 1, k);
  }

  lemma NoEntryYet(maxBuckets: int, run: seq<Arrival>, k: string)
    ensures EntryOf(StoreAfter(maxBuckets, run, 0), k) == None
  {
  }

  lemma {:induction false} SolitaryIsHistory(run: seq<Arrival>, n: nat, k: string)
    requires n <= |run|
    ensures RequestsOf(run, n, k) == [] ==> Solitary(run, n, k) == None
    ensures RequestsOf(run, n, k) != [] ==>
      var o, reqs := Opening(run, n, k), RequestsOf(run, n, k);
      Solitary(run, n, k) == Some(Bucket(o.limits, LevelAfter(o.limits, Fresh(o.limits, o.at), reqs, |reqs|)))
  {
    hide Consumed, Fresh;
    if n > 0 {
      var reqs, a := RequestsOf(run, n - 1, k), run[n - 1];
      SolitaryIsHistory(run, n - 1, k);
      if a.key == k {
        var o := Opening(run, n, k);
        LevelAfterOneMore(o.limits, Fresh(o.limits, o.at), reqs, Unit(a.at));
      } else {
        assert RequestsOf(run, n, k) == reqs;
      }
    }
  }

  lemma NothingEvicted<B>(s: Slots<B>, maxBuckets: int, key: string, all: set<string>, created: B)
    requires WellFormed(s) && (forall x :: x in s.table ==> x in all) && key in all
    requires |all| <= Room(maxBuckets)
    ensures forall x :: x in s.table ==> x in Accessed(s, maxBuckets, key, created).table
  {
    AccessKeepsWellFormed(s, maxBuckets, key, created);
    AccessOrder(s, maxBuckets, key, created);
    var t := Accessed(s, maxBuckets, key, created);
    if key in s.table {
      WithoutFacts(s.order, key);
      assert forall x :: x in s.table ==> x in t.order;
    } else {
      DistinctCount(s.order);
      assert Keys(s.order) + {key} <= all;
      SubsetCard(Keys(s.order) + {key}, all);
      assert t.order == s.order + [key];
      assert forall x :: x in s.table ==> x in t.order;
    }
  }

  /** Main theorem: when the client keys fit, the limiter's decision on every request is the
      history specification applied to that key's requests alone. */
  lemma {:induction false} LimiterRefinesHistoryPerKey(maxBuckets: int, run: seq<Arrival>, n: nat)
    requires n < |run| && Timely(run) && |ClientKeys(run)| <= Room(maxBuckets)
    ensures var k := run[n].key;
            var reqs := RequestsOf(run, n + 1, k);
            Reply(maxBuckets, run, n).allowed <==> ReferenceAdmits(Opening(run, n + 1, k).limits, reqs, |reqs| - 1)
  {
    var k := run[n].key;
    var before, reqs := RequestsOf(run, n, k), RequestsOf(run, n + 1, k);
    StoredIsSolitary(maxBuckets, run, n, k);
    SolitaryIsHistory(run, n, k);
    RequestsAreTimely(run, n + 1, k);
    var o := Opening(run, n + 1, k);
    AdmitsIsReply(maxBuckets, run, n);
    hide StoreAfter, ClientKeys, Reply;
    LevelAfterPrefix(o.limits, Fresh(o.limits, o.at), before, Unit(run[n].at), |before|);
    BucketRefinesHistory(o.limits, o.at, reqs, |before|);
  }

  ghost predicate NoneAfter(reqs: seq<Request>, t: int) {
    forall i :: 0 <= i < |reqs| ==> reqs[i].at <= t
  }

  lemma {:induction false} RequestsAreTimely(run: seq<Arrival>, n: nat, k: string)
    requires n <= |run| && Timely(run)
    ensures n > 0 ==> NoneAfter(RequestsOf(run, n, k), run[n - 1].at)
    ensures RequestsOf(run, n, k) != [] ==>
      Chronological(Opening(run, n, k).at, RequestsOf(run, n, k)) && Sane(Opening(run, n, k).limits)
  {
    if n > 0 {
      var a, before := run[n - 1], RequestsOf(run, n - 1, k);
      RequestsAreTimely(run, n - 1, k);
      assert n > 1 ==> run[n - 2].at <= a.at;
      hide Chronological, NoneAfter, Sane;
      if RequestsOf(run, n, k) != [] {
        ThenChronological(Opening(run, n, k).at, before, if n > 1 then run[n - 2].at else a.at, a.at);
      } else {
        NoneOfNone(a.at);
      }
    } else {
      NoneOfNone(0);
    }
  }

  lemma NoneOfNone(t: int)
    ensures NoneAfter([], t)
  {
  }

  lemma ThenChronological(start: int, before: seq<Request>, last: int, at: int)
    requires Chronological(start, before) && NoneAfter(before, last) && last <= at
    requires before != [] || start <= at
    ensures Chronological(start, before + [Unit(at)]) && NoneAfter(before + [Unit(at)], at)
    ensures NoneAfter(before, at)
  {
    assert before != [] ==> start <= before[0].at <= last;
  }
}
