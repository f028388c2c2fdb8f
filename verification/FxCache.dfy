/** The two-level exchange-rate cache of scripts/fx.ts: a process-local map in front of the
  fx_rate_cache table, and when the map can be told from the table. */
module FxCache {
  import opened Common

  datatype Provider = OpenExchangeRates | Fixer | ExchangeRateApi | ManualOverride

  /** Times are in milliseconds; the base currency is always USD. */
  datatype FxRate = FxRate(
    target: string, midRate: real, spread: real, effectiveRate: real,
    provider: Provider, fetchedAt: int, expiresAt: int)

  datatype Caches = Caches(memory: map<string, FxRate>, rows: seq<FxRate>)

  /** Rounded half up to six decimals. */
  function Effective(midRate: real, spread: real): real {
    (midRate * (1.0 + spread) * 1000000.0 + 0.5).Floor as real / 1000000.0
  }

  function RateOf(currency: string, midRate: real, spread: real, provider: Provider, now: int, expiresAt: int): FxRate {
    FxRate(currency, midRate, spread, Effective(midRate, spread), provider, now, expiresAt)
  }

  /** The memory lookup: an entry is dropped only strictly after its expiry. */
  function Remembered(m: map<string, FxRate>, currency: string, now: int): (map<string, FxRate>, Option<FxRate>) {
    if currency !in m then (m, None)
    else if now > m[currency].expiresAt then (m - {currency}, None)
    else (m, Some(m[currency]))
  }

  /** The table lookup: a row counts only strictly before its expiry; the latest fetched wins. */
  function LatestValid(rows: seq<FxRate>, currency: string, now: int): Option<FxRate> {
    if rows == [] then None
    else
      var best, r := LatestValid(rows[..|rows| - 1], currency, now), rows[|rows| - 1];
      if r.target == currency && r.expiresAt > now && (best.None? || best.value.fetchedAt <= r.fetchedAt)
        then Some(r) else best
  }

  /** Memory, then table; a table hit is copied into memory. None means a live fetch is needed. */
  function Looked(s: Caches, currency: string, now: int): (Caches, Option<FxRate>) {
    var (m, hit) := Remembered(s.memory, currency, now);
    if hit.Some? then (s.(memory := m), hit)
    else match LatestValid(s.rows, currency, now)
      case None => (s.(memory := m), None)
      case Some(r) => (s.(memory := m[r.target := r]), Some(r))
  }

  /** A new rate goes to memory and to the table. */
  function Stored(s: Caches, r: FxRate): Caches {
    Caches(s.memory[r.target := r], s.rows + [r])
  }

  function Kept(rows: seq<FxRate>, cutoff: int): seq<FxRate> {
    if rows == [] then []
    else Kept(rows[..|rows| - 1], cutoff) + if rows[|rows| - 1].expiresAt < cutoff then [] else [rows[|rows| - 1]]
  }

  /** A provider's answer for one currency; non-positive and missing rates are failures. */
  datatype Live = Answer(provider: Provider, midRate: real) | NoAnswer

  datatype Error = AllProvidersFailed | MidRateNotPositive | ExpiryNotInFuture

  datatype Result = Ok(rate: FxRate) | Err(error: Error)

  class FxService {
    var memoryCache: map<string, FxRate>
    var rateTable: seq<FxRate>
    const ttlMs: nat

    function State(): Caches
      reads this
    {
      Caches(memoryCache, rateTable)
    }

    constructor (rows: seq<FxRate>, ttlMs: nat)
      ensures State() == Caches(map[], rows) && this.ttlMs == ttlMs
    {
      memoryCache, rateTable := map[], rows;
      this.ttlMs := ttlMs;
    }

    method GetCachedRate(currency: string, now: int) returns (r: Option<FxRate>)
      modifies `memoryCache
      ensures (memoryCache, r) == Remembered(old(memoryCache), currency, now)
    {
      if currency !in memoryCache {
        return None;
      }
      var entry := memoryCache[currency];
      if now > entry.expiresAt {
        memoryCache := memoryCache - {currency};
        return None;
      }
      return Some(entry);
    }

    method SetCachedRate(r: FxRate)
      modifies `memoryCache
      ensures memoryCache == old(memoryCache)[r.target := r]
    {
      memoryCache := memoryCache[r.target := r];
    }

    method PersistRateToDb(r: FxRate)
      modifies `rateTable
      ensures rateTable == old(rateTable) + [r]
    {
      rateTable := rateTable + [r];
    }

    /** Asks the providers in order; the first usable answer wins. */
    method FetchLiveRate(currency: string, spread: real, answers: seq<Live>, now: int) returns (r: Result)
      modifies this
      ensures FirstUsable(answers).None? ==> r == Err(AllProvidersFailed) && State() == old(State())
      ensures FirstUsable(answers).Some? ==>
        var a := FirstUsable(answers).value;
        r == Ok(RateOf(currency, a.midRate, spread, a.provider, now, now + ttlMs))
        && State() == Stored(old(State()), r.rate)
      ensures r.Ok? ==>
        r.rate.target == currency && r.rate.spread == spread
        && r.rate.fetchedAt == now && r.rate.expiresAt == now + ttlMs
        && IsFirstUsable(answers, Answer(r.rate.provider, r.rate.midRate))
    {
      FirstUsableIsFirst(answers);
      for i := 0 to |answers|
        invariant State() == old(State())
        invariant FirstUsable(answers) == FirstUsable(answers[i..])
      {
        if Usable(answers[i]) {
          var rate := RateOf(currency, answers[i].midRate, spread, answers[i].provider, now, now + ttlMs);
          SetCachedRate(rate);
          PersistRateToDb(rate);
          return Ok(rate);
        }
        assert answers[i..][1..] == answers[i + 1..];
      }
      return Err(AllProvidersFailed);
    }

    /** `fetchedAt` is the clock once the providers have answered. */
    method GetRate(currency: string, spread: real, now: int, answers: seq<Live>, fetchedAt: int) returns (r: Result)
      modifies this
      ensures var (s, hit) := Looked(old(State()), currency, now);
        if hit.Some? then r == Ok(hit.value) && State() == s
        else if FirstUsable(answers).None? then r == Err(AllProvidersFailed) && State() == s
        else var a := FirstUsable(answers).value;
             r == Ok(RateOf(currency, a.midRate, spread, a.provider, fetchedAt, fetchedAt + ttlMs))
             && State() == Stored(s, r.rate)
      ensures Looked(old(State()), currency, now).1.None? && r.Ok? ==>
        r.rate.target == currency && r.rate.spread == spread
        && r.rate.fetchedAt == fetchedAt && r.rate.expiresAt == fetchedAt + ttlMs
        && IsFirstUsable(answers, Answer(r.rate.provider, r.rate.midRate))
    {
      var memory := GetCachedRate(currency, now);
      if memory.Some? {
        return Ok(memory.value);
      }
      var row := LatestValid(rateTable, currency, now);
      if row.Some? {
        SetCachedRate(row.value);
        return Ok(row.value);
      }
      r := FetchLiveRate(currency, spread, answers, fetchedAt);
    }

    method SetManualRate(currency: string, midRate: real, expiresAt: int, spread: real, now: int) returns (r: Result)
      modifies this
      ensures midRate <= 0.0 ==> r == Err(MidRateNotPositive)
      ensures midRate > 0.0 && expiresAt <= now ==> r == Err(ExpiryNotInFuture)
      ensures r.Err? ==> State() == old(State())
      ensures r.Ok? ==> r.rate == RateOf(currency, midRate, spread, ManualOverride, now, expiresAt)
      ensures r.Ok? ==>
        r.rate.target == currency && r.rate.midRate == midRate && r.rate.spread == spread
        && r.rate.fetchedAt == now && r.rate.expiresAt == expiresAt && r.rate.provider == ManualOverride
      ensures r.Ok? ==> State() == Stored(old(State()), r.rate)
    {
      if midRate <= 0.0 {
        return Err(MidRateNotPositive);
      }
      if expiresAt <= now {
        return Err(ExpiryNotInFuture);
      }
      var rate := RateOf(currency, midRate, spread, ManualOverride, now, expiresAt);
      SetCachedRate(rate);
      PersistRateToDb(rate);
      return Ok(rate);
    }

    method PurgeExpiredRates(olderThanMs: nat, now: int) returns (changes: nat)
      modifies `rateTable
      ensures rateTable == Kept(old(rateTable), now - olderThanMs)
      ensures changes == |old(rateTable)| - |rateTable|
    {
      KeptIsShorter(rateTable, now - olderThanMs);
      var before := |rateTable|;
      rateTable := Kept(rateTable, now - olderThanMs);
      changes := before - |rateTable|;
    }
  }

  predicate Usable(a: Live) {
    a.Answer? && a.midRate > 0.0
  }

  function FirstUsable(answers: seq<Live>): (a: Option<Live>)
    ensures a.Some? ==> Usable(a.value)
  {
    if answers == [] then None
    else if Usable(answers[0]) then Some(answers[0])
    else FirstUsable(answers[1..])
  }

  /** a answers with a positive rate, and nobody asked before it does. */
  ghost predicate IsFirstUsable(answers: seq<Live>, a: Live) {
    exists i :: 0 <= i < |answers| && answers[i] == a && a.Answer? && a.midRate > 0.0
      && forall j :: 0 <= j < i ==> answers[j].NoAnswer? || answers[j].midRate <= 0.0
  }

  lemma {:induction false} FirstUsableIsFirst(answers: seq<Live>)
    ensures FirstUsable(answers).Some? ==> IsFirstUsable(answers, FirstUsable(answers).value)
    ensures FirstUsable(answers).None?
       <==> forall i :: 0 <= i < |answers| ==> answers[i].NoAnswer? || answers[i].midRate <= 0.0
  {
    if answers != [] && !Usable(answers[0]) {
      var rest := answers[1..];
      FirstUsableIsFirst(rest);
      assert forall i :: 1 <= i < |answers| ==> answers[i] == rest[i - 1];
      if FirstUsable(rest).Some? {
        var a := FirstUsable(rest).value;
        var i :| 0 <= i < |rest| && rest[i] == a
          && forall j :: 0 <= j < i ==> rest[j].NoAnswer? || rest[j].midRate <= 0.0;
        assert answers[i + 1] == a;
      }
    }
  }

  /** What a payout is converted at: the mid rate raised by the spread, to the nearest millionth, which is
      above the mid rate as soon as the spread is worth a millionth. `exact` is the raised rate. */
  lemma EffectiveIsNear(midRate: real, spread: real, exact: real)
    requires exact == midRate * (1.0 + spread)
    ensures var e := Effective(midRate, spread);
            && -0.0000005 < e - exact <= 0.0000005
            && (e * 1000000.0).Floor as real == e * 1000000.0
            && (exact - midRate >= 0.000001 ==> e > midRate)
  {
    var units := (exact * 1000000.0 + 0.5).Floor;
    assert midRate * (1.0 + spread) * 1000000.0 == exact * 1000000.0;
    assert Effective(midRate, spread) == units as real / 1000000.0;
    hide Effective;
    assert units as real / 1000000.0 * 1000000.0 == units as real;
  }

  lemma {:induction false} KeptIsShorter(rows: seq<FxRate>, cutoff: int)
    ensures |Kept(rows, cutoff)| <= |rows|
  {
    if rows != [] {
      KeptIsShorter(rows[..|rows| - 1], cutoff);
    }
  }

  // ---- Runs ----

  /** What may happen to the caches. `Store` is a live fetch or a manual override that went through;
      a live fetch may complete long after the query that started it. */
  datatype Step =
    | Query(currency: string, at: int)
    | Store(rate: FxRate)
    | Purge(olderThanMs: nat, at: int)
    | Restart(at: int)

  function TimeOf(step: Step): int {
    match step
    case Query(_, at) => at
    case Store(rate) => rate.fetchedAt
    case Purge(_, at) => at
    case Restart(at) => at
  }

  function Next(s: Caches, step: Step): Caches {
    match step
    case Query(currency, at) => Looked(s, currency, at).0
    case Store(rate) => Stored(s, rate)
    case Purge(olderThanMs, at) => s.(rows := Kept(s.rows, at - olderThanMs))
    case Restart(_) => s.(memory := map[])
  }

  function After(steps: seq<Step>, n: nat): Caches
    requires n <= |steps|
  {
    if n == 0 then Caches(map[], []) else Next(After(steps, n - 1), steps[n - 1])
  }

  /** Clock readings never go back, and no two rates of one currency are fetched at the same instant. */
  ghost predicate Timely(steps: seq<Step>) {
    && (forall i, j :: 0 <= i <= j < |steps| ==> TimeOf(steps[i]) <= TimeOf(steps[j]))
    && (forall i, j :: 0 <= i < j < |steps| && steps[i].Store? && steps[j].Store? ==>
          steps[i].rate.target != steps[j].rate.target || steps[i].rate.fetchedAt != steps[j].rate.fetchedAt)
  }

  ghost predicate FromStores(rows: seq<FxRate>, steps: seq<Step>, n: nat)
    requires n <= |steps|
  {
    forall r :: r in rows ==> exists i :: 0 <= i < n && steps[i] == Store(r)
  }

  /** r is the latest fetched of the currency's rows still valid at `now`, and is itself a row. */
  ghost predicate IsLatest(rows: seq<FxRate>, r: FxRate, now: int) {
    && (r.expiresAt > now ==> r in rows)
    && forall x :: x in rows && x.target == r.target && x.expiresAt > now ==> x.fetchedAt <= r.fetchedAt
  }

  ghost predicate MemoryIsLatest(s: Caches, now: int) {
    forall c :: c in s.memory ==> s.memory[c].target == c && IsLatest(s.rows, s.memory[c], now)
  }

  ghost predicate DistinctFetches(rows: seq<FxRate>) {
    forall r, x :: r in rows && x in rows && r.target == x.target && r.fetchedAt == x.fetchedAt ==> r == x
  }

  /** r was fetched after every row of its currency. */
  ghost predicate NewerThanHeld(rows: seq<FxRate>, r: FxRate) {
    forall x :: x in rows && x.target == r.target ==> x.fetchedAt < r.fetchedAt
  }

  lemma {:induction false} KeptFacts(rows: seq<FxRate>, cutoff: int)
    ensures forall r :: r in Kept(rows, cutoff) <==> r in rows && r.expiresAt >= cutoff
  {
    if rows != [] {
      assert rows == rows[..|rows| - 1] + [rows[|rows| - 1]];
      KeptFacts(rows[..|rows| - 1], cutoff);
    }
  }

  /** The table lookup means what it says. */
  lemma {:induction false} LatestValidFacts(rows: seq<FxRate>, currency: string, now: int)
    ensures var best := LatestValid(rows, currency, now);
            && (best.None? <==> forall x :: x in rows && x.target == currency ==> x.expiresAt <= now)
            && (best.Some? ==> best.value in rows && best.value.target == currency && best.value.expiresAt > now
                               && IsLatest(rows, best.value, now))
  {
    if rows != [] {
      var init, last := rows[..|rows| - 1], rows[|rows| - 1];
      assert rows == init + [last];
      LatestValidFacts(init, currency, now);
      assert forall x :: x in rows <==> x in init || x == last;
      assert last in rows;
    }
  }

  lemma LatestIsUnique(rows: seq<FxRate>, r: FxRate, now: int)
    requires IsLatest(rows, r, now) && DistinctFetches(rows)
    ensures r.expiresAt > now ==> LatestValid(rows, r.target, now) == Some(r)
  {
    LatestValidFacts(rows, r.target, now);
  }

  lemma LaterIsStillLatest(s: Caches, now: int, later: int)
    requires MemoryIsLatest(s, now) && now <= later
    ensures MemoryIsLatest(s, later)
  {
  }

  lemma QueryKeeps(s: Caches, currency: string, now: int)
    requires MemoryIsLatest(s, now)
    ensures MemoryIsLatest(Looked(s, currency, now).0, now)
    ensures Looked(s, currency, now).0.rows == s.rows
  {
    LatestValidFacts(s.rows, currency, now);
    hide IsLatest;
  }

  lemma StoreKeeps(s: Caches, r: FxRate)
    requires MemoryIsLatest(s, r.fetchedAt) && NewerThanHeld(s.rows, r)
    ensures MemoryIsLatest(Stored(s, r), r.fetchedAt)
  {
  }

  lemma PurgeKeeps(s: Caches, olderThanMs: nat, now: int)
    requires MemoryIsLatest(s, now)
    ensures MemoryIsLatest(s.(rows := Kept(s.rows, now - olderThanMs)), now)
  {
    KeptFacts(s.rows, now - olderThanMs);
  }

  lemma {:induction false} RowsComeFromStores(steps: seq<Step>, n: nat)
    requires n <= |steps|
    ensures FromStores(After(steps, n).rows, steps, n)
  {
    if n > 0 {
      RowsComeFromStores(steps, n - 1);
      var s := After(steps, n - 1);
      forall r | r in After(steps, n).rows
        ensures exists i :: 0 <= i < n && steps[i] == Store(r)
      {
        match steps[n - 1]
        case Query(c, at) => LatestValidFacts(s.rows, c, at); assert r in s.rows;
        case Store(rate) =>
          if r == rate {
            assert steps[n - 1] == Store(r);
          } else {
            assert r in s.rows;
          }
        case Purge(o, at) => KeptFacts(s.rows, at - o); assert r in s.rows;
        case Restart(_) => assert r in s.rows;
      }
    }
  }

  lemma StoredRowsAreDistinct(rows: seq<FxRate>, steps: seq<Step>, n: nat)
    requires n <= |steps| && Timely(steps) && FromStores(rows, steps, n)
    ensures DistinctFetches(rows)
  {
    forall r, x | r in rows && x in rows && r.target == x.target && r.fetchedAt == x.fetchedAt
      ensures r == x
    {
      var i :| 0 <= i < n && steps[i] == Store(r);
      var j :| 0 <= j < n && steps[j] == Store(x);
      assert !(i < j) && !(j < i);
    }
  }

  lemma StoredRowsAreOlder(rows: seq<FxRate>, steps: seq<Step>, n: nat)
    requires n < |steps| && Timely(steps) && FromStores(rows, steps, n) && steps[n].Store?
    ensures NewerThanHeld(rows, steps[n].rate)
  {
    forall x | x in rows && x.target == steps[n].rate.target
      ensures x.fetchedAt < steps[n].rate.fetchedAt
    {
      var j :| 0 <= j < n && steps[j] == Store(x);
      assert TimeOf(steps[j]) <= TimeOf(steps[n]);
    }
  }

  lemma RowsAreDistinct(steps: seq<Step>, n: nat)
    requires n <= |steps| && Timely(steps)
    ensures DistinctFetches(After(steps, n).rows)
    ensures n < |steps| && steps[n].Store? ==> NewerThanHeld(After(steps, n).rows, steps[n].rate)
  {
    hide After, Timely, FromStores, DistinctFetches, NewerThanHeld;
    RowsComeFromStores(steps, n);
    StoredRowsAreDistinct(After(steps, n).rows, steps, n);
    if n < |steps| && steps[n].Store? {
      StoredRowsAreOlder(After(steps, n).rows, steps, n);
    }
  }

  /** In every reachable state each remembered rate is the latest of its currency's valid rows. */
  lemma {:induction false} MemoryFollowsTable(steps: seq<Step>, n: nat, now: int)
    requires n <= |steps| && Timely(steps) && (n > 0 ==> TimeOf(steps[n - 1]) <= now)
    ensures MemoryIsLatest(After(steps, n), now)
  {
    if n > 0 {
      var s, at := After(steps, n - 1), TimeOf(steps[n - 1]);
      assert n > 1 ==> TimeOf(steps[n - 2]) <= at;
      hide MemoryIsLatest, Timely, Next, NewerThanHeld;
      MemoryFollowsTable(steps, n - 1, at);
      RowsAreDistinct(steps, n - 1);
      StepKeeps(s, steps[n - 1]);
      LaterIsStillLatest(After(steps, n), at, now);
    } else {
      EmptyMemory(Caches(map[], []), now);
    }
  }

  lemma StepKeeps(s: Caches, step: Step)
    requires MemoryIsLatest(s, TimeOf(step))
    requires step.Store? ==> NewerThanHeld(s.rows, step.rate)
    ensures MemoryIsLatest(Next(s, step), TimeOf(step))
  {
    hide MemoryIsLatest, Looked, Stored;
    match step
    case Query(currency, now) => QueryKeeps(s, currency, now);
    case Store(rate) => StoreKeeps(s, rate);
    case Purge(olderThanMs, now) => PurgeKeeps(s, olderThanMs, now);
    case Restart(now) => EmptyMemory(s, now);
  }

  ghost predicate MemoryFromStores(s: Caches, steps: seq<Step>, n: nat)
    requires n <= |steps|
  {
    forall c :: c in s.memory ==> exists i :: 0 <= i < n && steps[i] == Store(s.memory[c])
  }

  /** Where a remembered rate comes from. */
  lemma MemoryOrigin(s: Caches, step: Step, c: string)
    requires c in Next(s, step).memory
    ensures var r := Next(s, step).memory[c];
            (c in s.memory && r == s.memory[c]) || step == Store(r) || r in s.rows
  {
    if step.Query? {
      LatestValidFacts(s.rows, step.currency, step.at);
    }
  }

  lemma {:induction false} MemoryComesFromStores(steps: seq<Step>, n: nat)
    requires n <= |steps|
    ensures MemoryFromStores(After(steps, n), steps, n)
  {
    if n > 0 {
      MemoryComesFromStores(steps, n - 1);
      RowsComeFromStores(steps, n - 1);
      FromOneMore(After(steps, n - 1), steps, n);
      hide Next, MemoryFromStores, FromStores;
    }
  }

  lemma FromOneMore(s: Caches, steps: seq<Step>, n: nat)
    requires 0 < n <= |steps| && MemoryFromStores(s, steps, n - 1) && FromStores(s.rows, steps, n - 1)
    ensures MemoryFromStores(Next(s, steps[n - 1]), steps, n)
  {
    hide Next;
    var t := Next(s, steps[n - 1]);
    forall c | c in t.memory
      ensures exists i :: 0 <= i < n && steps[i] == Store(t.memory[c])
    {
      MemoryOrigin(s, steps[n - 1], c);
    }
  }

  /** A row outlives every purge until it expires. */
  lemma {:induction false} RowStays(steps: seq<Step>, m: nat, n: nat, rate: FxRate, now: int)
    requires m < n <= |steps| && steps[m] == Store(rate) && now < rate.expiresAt
    requires forall i :: m <= i < n ==> TimeOf(steps[i]) <= now
    ensures rate in After(steps, n).rows
  {
    var s := After(steps, n - 1);
    if n - 1 == m {
      assert After(steps, n).rows == s.rows + [rate];
    } else {
      RowStays(steps, m, n - 1, rate, now);
      match steps[n - 1]
      case Query(currency, at) => LookedKeepsRows(s, currency, at);
      case Store(r) => assert After(steps, n).rows == s.rows + [r];
      case Purge(olderThanMs, at) => KeptFacts(s.rows, at - olderThanMs);
      case Restart(_) =>
    }
  }

  lemma LookedKeepsRows(s: Caches, currency: string, now: int)
    ensures Looked(s, currency, now).0.rows == s.rows
  {
  }

  ghost predicate NoStoreOf(steps: seq<Step>, m: nat, n: nat, currency: string)
    requires n <= |steps|
  {
    forall i :: m < i < n && steps[i].Store? ==> steps[i].rate.target != currency
  }

  /** Main theorem on what a stored rate is good for: every query of its currency is answered with it until
      it expires or a newer one is stored, through purges and restarts. */
  lemma StoredRateIsServed(steps: seq<Step>, m: nat, n: nat, rate: FxRate, now: int)
    requires m < n <= |steps| && Timely(steps) && steps[m] == Store(rate) && NoStoreOf(steps, m, n, rate.target)
    requires TimeOf(steps[n - 1]) <= now < rate.expiresAt
    ensures Looked(After(steps, n), rate.target, now).1 == Some(rate)
  {
    var s := After(steps, n);
    hide After;
    RowStays(steps, m, n, rate, now);
    RowsComeFromStores(steps, n);
    MemoryComesFromStores(steps, n);
    MemoryFollowsTable(steps, n, now);
    RowsAreDistinct(steps, n);
    LatestValidFacts(s.rows, rate.target, now);
    var best := LatestValid(s.rows, rate.target, now).value;
    StoredUpTo(steps, m, n, best);
    assert best == rate;
    if rate.target in s.memory {
      StoredUpTo(steps, m, n, s.memory[rate.target]);
    }
  }

  /** A stored rate of the currency is the m-th step's, or was fetched before it. */
  lemma StoredUpTo(steps: seq<Step>, m: nat, n: nat, r: FxRate)
    requires m < n <= |steps| && Timely(steps) && steps[m].Store? && steps[m].rate.target == r.target
    requires NoStoreOf(steps, m, n, r.target) && exists i :: 0 <= i < n && steps[i] == Store(r)
    ensures r == steps[m].rate || r.fetchedAt < steps[m].rate.fetchedAt
  {
    var i :| 0 <= i < n && steps[i] == Store(r);
    assert TimeOf(steps[i]) == r.fetchedAt;
    assert i < m ==> TimeOf(steps[i]) <= TimeOf(steps[m]);
  }

  lemma EmptyMemory(s: Caches, now: int)
    ensures MemoryIsLatest(s.(memory := map[]), now)
  {
  }

  /** Checkable before a query: the remembered rate expires at this very instant. */
  predicate OnExpiryInstant(s: Caches, currency: string, now: int) {
    currency in s.memory && s.memory[currency].expiresAt == now
  }

  /** Main theorem: after any run, a query is answered exactly as the table alone would answer it,
      and never with an expired rate, iff it does not fall on the expiry instant of the remembered
      rate. (Memory still serves a rate at that instant; the table no longer does.) */
  lemma MemoryIsTransparentIff(steps: seq<Step>, n: nat, currency: string, now: int)
    requires n <= |steps| && Timely(steps) && (n > 0 ==> TimeOf(steps[n - 1]) <= now)
    ensures var s := After(steps, n);
            var answer := Looked(s, currency, now).1;
            && (answer == LatestValid(s.rows, currency, now) <==> !OnExpiryInstant(s, currency, now))
            && (answer.Some? ==> answer.value.target == currency
                                 && (answer.value.expiresAt > now <==> !OnExpiryInstant(s, currency, now)))
            && answer.Some? == (LatestValid(s.rows, currency, now).Some? || OnExpiryInstant(s, currency, now))
  {
    var s := After(steps, n);
    MemoryFollowsTable(steps, n, now);
    RowsAreDistinct(steps, n);
    LatestValidFacts(s.rows, currency, now);
    hide After;
    if currency in s.memory {
      LatestIsUnique(s.rows, s.memory[currency], now);
    }
  }
}
