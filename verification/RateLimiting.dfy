/** `BucketStore` and `evaluateRateLimit` of src/middleware/rateLimiter.ts: token buckets
  held in the LRU store, and what a client key experiences over a whole run. */
module RateLimiting {
  import opened Common
  import opened TokenBuckets
  import opened LruStores

  /** A stored bucket as a value. */
  datatype Bucket = Bucket(limits: Limits, level: Level)

  datatype TierConfig = TierConfig(requestsPerMinute: real, burstCapacity: real)

  datatype RateLimitResult = RateLimitResult(
    allowed: bool, limit: real, remaining: int, resetEpoch: Seconds,
    retryAfterSeconds: Option<Seconds>, bucketKey: string, invalidTier: bool)

  function ConfigLimits(c: TierConfig): Limits {
    LimitsOf(c.burstCapacity, c.requestsPerMinute)
  }

  function Unit(now: int): Request {
    Request(now, 1.0)
  }

  /** Serving one request: access the store, then take one token from the bucket found. */
  function Served(s: Slots<Bucket>, maxBuckets: int, key: string, l: Limits, now: int): Slots<Bucket> {
    var a := Accessed(s, maxBuckets, key, Bucket(l, Fresh(l, now)));
    if key !in a.table then a
    else var b := a.table[key]; a.(table := a.table[key := b.(level := Consumed(b.limits, b.level, Unit(now)))])
  }

  /** The bucket a request meets. */
  function Met(s: Slots<Bucket>, key: string, l: Limits, now: int): Bucket {
    if key in s.table then s.table[key] else Bucket(l, Fresh(l, now))
  }

  lemma ServedFacts(s: Slots<Bucket>, maxBuckets: int, key: string, l: Limits, now: int)
    requires WellFormed(s)
    ensures var t := Served(s, maxBuckets, key, l, now);
            var b := Met(s, key, l, now);
            && WellFormed(t)
            && t.table.Keys == Accessed(s, maxBuckets, key, Bucket(l, Fresh(l, now))).table.Keys
            && key in t.table
            && t.table[key] == Bucket(b.limits, Consumed(b.limits, b.level, Unit(now)))
            && (forall k :: k in t.table && k != key ==> k in s.table && t.table[k] == s.table[k])
  {
    AccessKeepsWellFormed(s, maxBuckets, key, Bucket(l, Fresh(l, now)));
  }

  /** v is s with every entry read through f. */
  ghost predicate Mirrors<A, B>(s: Slots<A>, v: Slots<B>, f: map<A, B>) {
    && s.order == v.order
    && s.table.Keys == v.table.Keys
    && forall k :: k in s.table ==> s.table[k] in f && v.table[k] == f[s.table[k]]
  }

  lemma AccessMirrors<A, B>(s: Slots<A>, v: Slots<B>, f: map<A, B>, maxBuckets: int, key: string, a: A, b: B)
    requires WellFormed(s) && WellFormed(v) && Mirrors(s, v, f)
    requires key !in s.table ==> a in f && f[a] == b
    ensures Mirrors(Accessed(s, maxBuckets, key, a), Accessed(v, maxBuckets, key, b), f)
  {
    hide Accessed, Touched;
    AccessKeepsWellFormed(s, maxBuckets, key, a);
    AccessKeepsWellFormed(v, maxBuckets, key, b);
    AccessOrder(s, maxBuckets, key, a);
    AccessOrder(v, maxBuckets, key, b);
    var s', v' := Accessed(s, maxBuckets, key, a), Accessed(v, maxBuckets, key, b);
    assert forall k :: k in s'.table <==> k in s'.order;
    assert forall k :: k in v'.table <==> k in v'.order;
  }

  lemma MirrorsMore<A, B>(s: Slots<A>, v: Slots<B>, f: map<A, B>, a: A, b: B)
    requires Mirrors(s, v, f) && a !in f
    ensures Mirrors(s, v, f[a := b])
  {
  }

  // ---- The mutable store ----

  class BucketStore {
    var store: Slots<TokenBucket>
    const maxBuckets: int

    ghost predicate Valid()
      reads this
    {
      && WellFormed(store)
      && forall k, k' :: k in store.table && k' in store.table && k != k' ==> store.table[k] != store.table[k']
    }

    /** The buckets held, as values. */
    ghost function View(): Slots<Bucket>
      reads this, store.table.Values
    {
      Slots(store.order, map k | k in store.table :: Bucket(store.table[k].Rules(), store.table[k].View()))
    }

    /** The view is the one that f gives, for f what every bucket reads now. */
    lemma ViewIs(v: Slots<Bucket>, f: map<TokenBucket, Bucket>)
      requires Mirrors(store, v, f) && forall o :: o in f ==> f[o] == Bucket(o.Rules(), o.View())
      ensures View() == v
    {
    }

    constructor (maxBuckets: int)
      ensures Valid() && this.maxBuckets == maxBuckets && store == Slots([], map[])
    {
      this.maxBuckets := maxBuckets;
      store := Slots([], map[]);
    }

    method Get(key: string) returns (bucket: TokenBucket?)
      requires Valid()
      modifies this
      ensures Valid() && store == Looked(old(store), key)
      ensures bucket == if key in old(store).table then old(store).table[key] else null
    {
      bucket := null;
      if key in store.table {
        DeleteKeepsWellFormed(store, key);
        hide Delete;
        bucket := store.table[key];
        store := Delete(store, key);
        store := Put(store, key, bucket);
      }
    }

    /** An eviction comes first even when the key is stored already; then the bucket replaces the one
        stored, in its place, or is appended. */
    method SetBucket(key: string, bucket: TokenBucket)
      requires WellFormed(store)
      modifies this
      ensures WellFormed(store) && store == Inserted(old(store), maxBuckets, key, bucket)
      ensures old(Valid()) && bucket !in old(store).table.Values ==> Valid()
    {
      InsertKeepsWellFormed(store, maxBuckets, key, bucket);
      if |store.order| >= maxBuckets && store.order != [] {
        var oldest := store.order[0];
        store := Delete(store, oldest);
      }
      store := Put(store, key, bucket);
    }

    method GetOrCreate(key: string, capacity: real, requestsPerMinute: real, now: int) returns (bucket: TokenBucket)
      requires Valid()
      modifies this
      ensures Valid() && store == Accessed(old(store), maxBuckets, key, bucket)
      ensures key in old(store).table ==> bucket == old(store).table[key]
      ensures key !in old(store).table ==> fresh(bucket) && bucket.Rules() == LimitsOf(capacity, requestsPerMinute)
                                           && bucket.View() == Fresh(bucket.Rules(), now)
      ensures var l := LimitsOf(capacity, requestsPerMinute);
              View() == Accessed(old(View()), maxBuckets, key, Bucket(l, Fresh(l, now)))
    {
      ghost var l := LimitsOf(capacity, requestsPerMinute);
      ghost var was, created := View(), Bucket(l, Fresh(l, now));
      ghost var f := map o: TokenBucket | o in store.table.Values :: Bucket(o.Rules(), o.View());
      assert Mirrors(store, was, f);
      hide Mirrors, View;
      var found := Get(key);
      if found != null {
        bucket := found;
      } else {
        bucket := new TokenBucket(capacity, requestsPerMinute, now);
        MirrorsMore(old(store), was, f, bucket, created);
        f := f[bucket := created];
        SetBucket(key, bucket);
      }
      AccessMirrors(old(store), was, f, maxBuckets, key, bucket, created);
      hide Accessed, Inserted, Looked;
      ViewIs(Accessed(was, maxBuckets, key, created), f);
    }

    method Size() returns (n: nat)
      requires Valid()
      ensures n == |store.table|
    {
      n := |store.order|;
      DistinctCount(store.order);
      assert Keys(store.order) == store.table.Keys;
    }

    method Clear()
      modifies this
      ensures Valid() && store == Slots([], map[])
    {
      store := Slots([], map[]);
    }
  }

  /** What the caller is told, read off the bucket right after it was asked. */
  function Told(b: Bucket, requestsPerMinute: real, key: string, now: int): RateLimitResult {
    var allowed := Grants(b.limits, b.level, Unit(now));
    var after := Consumed(b.limits, b.level, Unit(now));
    RateLimitResult(allowed, requestsPerMinute, after.tokens.Floor, Reset(b.limits, after, now),
      if allowed then None else Some(RetryAfter(b.limits, after)), key, false)
  }

  method AskBucket(bucket: TokenBucket, requestsPerMinute: real, key: string, now: int) returns (r: RateLimitResult)
    modifies bucket
    ensures bucket.View() == Consumed(bucket.Rules(), old(bucket.View()), Unit(now))
    ensures r == Told(Bucket(bucket.Rules(), old(bucket.View())), requestsPerMinute, key, now)
  {
    var allowed := bucket.TryConsume(1.0, now);
    var remaining := bucket.RemainingTokens(now);
    var reset := bucket.ResetEpoch(now);
    var retry := None;
    if !allowed {
      var s := bucket.RetryAfterSeconds();
      retry := Some(s);
    }
    r := RateLimitResult(allowed, requestsPerMinute, remaining, reset, retry, key, false);
  }

  /** Asking one stored bucket changes that entry of the view and no other. */
  method AskStored(store: BucketStore, key: string, requestsPerMinute: real, now: int) returns (r: RateLimitResult)
    requires store.Valid() && key in store.store.table
    modifies store.store.table[key]
    ensures var b := old(store.View()).table[key];
      && r == Told(b, requestsPerMinute, key, now)
      && store.View()
         == old(store.View()).(table :=
            old(store.View()).table[key := b.(level := Consumed(b.limits, b.level, Unit(now)))])
  {
    ghost var was := store.View();
    var bucket := store.store.table[key];
    r := AskBucket(bucket, requestsPerMinute, key, now);
    ghost var b := was.table[key];
    assert store.View().table.Keys == was.table.Keys;
    assert store.View().table == was.table[key := b.(level := Consumed(b.limits, b.level, Unit(now)))];
  }

  lemma FirstReply(c: TierConfig, key: string, now: int)
    ensures var r := Told(Bucket(ConfigLimits(c), Fresh(ConfigLimits(c), now)), c.requestsPerMinute, key, now);
            && (r.allowed <==> c.burstCapacity >= 1.0)
            && r.remaining == (if r.allowed then c.burstCapacity - 1.0 else c.burstCapacity).Floor
  {
    assert 0.0 * ConfigLimits(c).ratePerMs == 0.0;
  }

  /** The whole decision for one request, at one clock reading. `tier` is None when the tier
      header is absent or unknown and such requests are rejected. */
  method EvaluateRateLimit(store: BucketStore, tier: Option<TierConfig>, key: string, now: int)
      returns (r: RateLimitResult)
    requires store.Valid()
    modifies store, store.store.table.Values
    ensures store.Valid()
    ensures tier.None? ==> store.View() == old(store.View())
    ensures tier.None? ==>
      r == RateLimitResult(false, 0.0, 0, Finite((now as real / 1000.0).Floor), None, "invalid", true)
    ensures tier.Some? ==>
      var l := ConfigLimits(tier.value);
      r == Told(Met(old(store.View()), key, l, now), tier.value.requestsPerMinute, key, now)
    ensures tier.Some? ==>
      r.limit == tier.value.requestsPerMinute && r.bucketKey == key && !r.invalidTier
      && (r.retryAfterSeconds.Some? <==> !r.allowed)
    ensures tier.Some? && key !in old(store.store.table) ==>
      (r.allowed <==> tier.value.burstCapacity >= 1.0)
      && r.remaining == (if r.allowed then tier.value.burstCapacity - 1.0 else tier.value.burstCapacity).Floor
    ensures tier.Some? ==>
      store.View() == Served(old(store.View()), store.maxBuckets, key, ConfigLimits(tier.value), now)
  {
    if tier.None? {
      return RateLimitResult(false, 0.0, 0, Finite((now as real / 1000.0).Floor), None, "invalid", true);
    }
    var config := tier.value;
    ghost var was, l := store.View(), ConfigLimits(config);
    var bucket := store.GetOrCreate(key, config.burstCapacity, config.requestsPerMinute, now);
    AccessKeepsWellFormed(old(store.store), store.maxBuckets, key, bucket);
    AccessKeepsWellFormed(was, store.maxBuckets, key, Bucket(l, Fresh(l, now)));
    r := AskStored(store, key, config.requestsPerMinute, now);
    FirstReply(config, key, now);
  }
}
