/** The insertion-ordered map of src/middleware/rateLimiter.ts used as an LRU stack, and
  what makes it one: residency is decided by the distinct keys accessed since. */
module LruStores {
  import opened Common

  /** A JavaScript Map: `order` is its iteration order. */
  datatype Slots<B> = Slots(order: seq<string>, table: map<string, B>)

  ghost predicate Distinct(order: seq<string>) {
    forall i, j :: 0 <= i < j < |order| ==> order[i] != order[j]
  }

  ghost predicate WellFormed<B>(s: Slots<B>) {
    && Distinct(s.order)
    && (forall k :: k in s.order <==> k in s.table)
  }

  function Without(order: seq<string>, k: string): seq<string> {
    if order == [] then []
    else if order[0] == k then Without(order[1..], k)
    else [order[0]] + Without(order[1..], k)
  }

  function Delete<B>(s: Slots<B>, k: string): Slots<B> {
    Slots(Without(s.order, k), s.table - {k})
  }

  function Put<B>(s: Slots<B>, k: string, v: B): Slots<B> {
    Slots(if k in s.table then s.order else s.order + [k], s.table[k := v])
  }

  /** A lookup moves the key to the end. */
  function Looked<B>(s: Slots<B>, k: string): Slots<B> {
    if k in s.table then Put(Delete(s, k), k, s.table[k]) else s
  }

  /** An insertion first drops the oldest key of a full store. */
  function Inserted<B>(s: Slots<B>, maxBuckets: int, k: string, v: B): Slots<B> {
    var room := if |s.order| >= maxBuckets && s.order != [] then Delete(s, s.order[0]) else s;
    Put(room, k, v)
  }

  /** One access: lookup, and on a miss an insertion of `created`. */
  function Accessed<B>(s: Slots<B>, maxBuckets: int, k: string, created: B): Slots<B> {
    if k in s.table then Looked(s, k) else Inserted(s, maxBuckets, k, created)
  }

  /** How many keys the store really holds: a limit below one still keeps the newest key. */
  function Room(maxBuckets: int): nat {
    if maxBuckets < 1 then 1 else maxBuckets
  }

  lemma {:induction false} WithoutFacts(order: seq<string>, k: string)
    requires Distinct(order)
    ensures forall x :: x in Without(order, k) <==> x in order && x != k
    ensures Distinct(Without(order, k))
    ensures |Without(order, k)| == if k in order then |order| - 1 else |order|
  {
    if order != [] {
      assert order == [order[0]] + order[1..];
      WithoutFacts(order[1..], k);
      forall i, j | 0 <= i < j < |Without(order, k)|
        ensures Without(order, k)[i] != Without(order, k)[j]
      {
        if order[0] != k {
          assert Without(order, k)[j] in Without(order[1..], k);
        }
      }
    }
  }

  lemma {:induction false} WithoutAbsent(order: seq<string>, k: string)
    requires k !in order
    ensures Without(order, k) == order
  {
    if order != [] {
      WithoutAbsent(order[1..], k);
    }
  }

  lemma {:induction false} WithoutConcat(a: seq<string>, b: seq<string>, k: string)
    ensures Without(a + b, k) == Without(a, k) + Without(b, k)
  {
    if a == [] {
      assert a + b == b;
    } else {
      assert (a + b)[0] == a[0] && (a + b)[1..] == a[1..] + b;
      WithoutConcat(a[1..], b, k);
    }
  }

  lemma WithoutFirst(order: seq<string>)
    requires order != [] && Distinct(order)
    ensures Without(order, order[0]) == order[1..]
  {
    WithoutAbsent(order[1..], order[0]);
  }

  lemma InsertKeepsWellFormed<B>(s: Slots<B>, maxBuckets: int, k: string, v: B)
    requires WellFormed(s)
    ensures var t := Inserted(s, maxBuckets, k, v);
            && WellFormed(t)
            && forall x :: x in t.table && x != k ==> x in s.table && t.table[x] == s.table[x]
  {
    if s.order != [] {
      DeleteKeepsWellFormed(s, s.order[0]);
    }
    hide Delete;
  }

  lemma DeleteKeepsWellFormed<B>(s: Slots<B>, k: string)
    requires WellFormed(s)
    ensures WellFormed(Delete(s, k)) && Delete(s, k).table == s.table - {k}
  {
    WithoutFacts(s.order, k);
  }

  lemma AccessKeepsWellFormed<B>(s: Slots<B>, maxBuckets: int, k: string, created: B)
    requires WellFormed(s)
    ensures WellFormed(Accessed(s, maxBuckets, k, created))
    ensures |s.order| <= Room(maxBuckets) ==> |Accessed(s, maxBuckets, k, created).order| <= Room(maxBuckets)
    ensures k in Accessed(s, maxBuckets, k, created).table
    ensures forall x :: x in Accessed(s, maxBuckets, k, created).table && x != k
              ==> x in s.table && Accessed(s, maxBuckets, k, created).table[x] == s.table[x]
    ensures Accessed(s, maxBuckets, k, created).table[k] == if k in s.table then s.table[k] else created
  {
    WithoutFacts(s.order, k);
    if s.order != [] {
      WithoutFacts(s.order, s.order[0]);
    }
  }

  /** What one access does to the order: the key ends up last; only a miss on a full store
      loses a key, and that key is the first. */
  function Touched(order: seq<string>, maxBuckets: int, k: string): seq<string> {
    (if k in order then Without(order, k)
     else if |order| >= maxBuckets && order != [] then order[1..]
     else order) + [k]
  }

  lemma AccessOrder<B>(s: Slots<B>, maxBuckets: int, k: string, created: B)
    requires WellFormed(s)
    ensures Accessed(s, maxBuckets, k, created).order == Touched(s.order, maxBuckets, k)
  {
    if s.order != [] {
      WithoutFirst(s.order);
    }
  }

  // ---- Runs ----

  /** The store after the first n accesses; a created bucket is identified by its access. */
  function After(maxBuckets: int, trace: seq<string>, n: nat): Slots<nat>
    requires n <= |trace|
  {
    if n == 0 then Slots([], map[])
    else Accessed(After(maxBuckets, trace, n - 1), maxBuckets, trace[n - 1], n - 1)
  }

  function Keys(trace: seq<string>): set<string> {
    set k | k in trace
  }

  lemma {:induction false} AfterIsWellFormed(maxBuckets: int, trace: seq<string>, n: nat)
    requires n <= |trace|
    ensures WellFormed(After(maxBuckets, trace, n))
    ensures |After(maxBuckets, trace, n).order| <= Room(maxBuckets)
  {
    if n > 0 {
      AfterIsWellFormed(maxBuckets, trace, n - 1);
      AccessKeepsWellFormed(After(maxBuckets, trace, n - 1), maxBuckets, trace[n - 1], n - 1);
    }
  }

  lemma {:induction false} AfterHolds(maxBuckets: int, trace: seq<string>, n: nat, k: string)
    requires n <= |trace| && k in After(maxBuckets, trace, n).table
    ensures After(maxBuckets, trace, n).table[k] < n && k in trace[..n]
  {
    hide Accessed, WellFormed, Room;
    if n > 0 {
      AfterIsWellFormed(maxBuckets, trace, n - 1);
      AccessKeepsWellFormed(After(maxBuckets, trace, n - 1), maxBuckets, trace[n - 1], n - 1);
      assert trace[..n] == trace[..n - 1] + [trace[n - 1]];
      if k in After(maxBuckets, trace, n - 1).table {
        AfterHolds(maxBuckets, trace, n - 1, k);
      }
    }
  }

  /** k sits at position p and exactly the keys of `since` come after it. */
  ghost predicate SitsBelow(order: seq<string>, p: nat, k: string, since: set<string>) {
    && p < |order| && order[p] == k
    && Keys(order[p + 1..]) == since
  }

  lemma {:induction false} DistinctCount(order: seq<string>)
    requires Distinct(order)
    ensures |Keys(order)| == |order|
  {
    if order != [] {
      DistinctCount(order[1..]);
      assert Keys(order) == {order[0]} + Keys(order[1..]);
    }
  }

  /** Keys above position p of a duplicate-free order. */
  lemma SuffixCount(order: seq<string>, p: nat)
    requires Distinct(order) && p < |order|
    ensures |Keys(order[p + 1..])| == |order| - p - 1
    ensures order[p] !in Keys(order[p + 1..])
  {
    DistinctCount(order[p + 1..]);
  }

  lemma WithoutAround(below: seq<string>, k: string, above: seq<string>, x: string)
    requires x != k
    ensures Without(below + ([k] + above), x) == Without(below, x) + ([k] + Without(above, x))
  {
    WithoutConcat(below, [k] + above, x);
    WithoutConcat([k], above, x);
  }

  lemma KeysOfAppend(a: seq<string>, x: string)
    ensures Keys(a + [x]) == Keys(a) + {x}
  {
  }

  /** The stack property for a hit on another key x. */
  lemma StackHit(order: seq<string>, p: nat, x: string) returns (q: nat)
    requires Distinct(order) && p < |order| && x in order && x != order[p]
    ensures SitsBelow(Without(order, x) + [x], q, order[p], Keys(order[p + 1..]) + {x})
  {
    var k, below, above := order[p], order[..p], order[p + 1..];
    assert order == below + ([k] + above);
    WithoutAround(below, k, above, x);
    q := |Without(below, x)|;
    var after := Without(above, x);
    assert Without(order, x) + [x] == Without(below, x) + ([k] + (after + [x]));
    assert (Without(order, x) + [x])[q + 1..] == after + [x];
    WithoutFacts(above, x);
    assert Keys(above) + {x} == Keys(after + [x]);
  }

  /** A hit never pushes the distinct count up to the size of the store. */
  lemma HitCount(order: seq<string>, p: nat, x: string)
    requires Distinct(order) && p < |order| && x in order && x != order[p]
    ensures |Keys(order[p + 1..]) + {x}| < |order|
  {
    SuffixCount(order, p);
    var since := Keys(order[p + 1..]);
    if x in since {
      assert since + {x} == since;
    } else {
      assert x in order[..p] by {
        assert order == order[..p] + [order[p]] + order[p + 1..];
      }
    }
  }

  /** Appending a new key leaves every position in place, with one more key above it. */
  lemma StackPush(order: seq<string>, p: nat, x: string)
    requires p < |order|
    ensures SitsBelow(order + [x], p, order[p], Keys(order[p + 1..]) + {x})
    ensures order[p] in order + [x]
  {
    SuffixOfAppend(order, p, x);
    KeysOfAppend(order[p + 1..], x);
  }

  /** Dropping the first key moves every other key down by one. */
  lemma StackDrop(order: seq<string>, p: nat)
    requires 0 < p < |order|
    ensures order[1..][p - 1] == order[p] && order[1..][p - 1 + 1..] == order[p + 1..]
  {
  }

  /** The stack property for a miss: the first key is lost iff the store is full. */
  lemma StackMiss(order: seq<string>, maxBuckets: int, p: nat, x: string) returns (q: nat)
    requires Distinct(order) && p < |order| <= Room(maxBuckets) && x !in order
    ensures var since := Keys(order[p + 1..]) + {x};
            && |since| == |order| - p
            && (order[p] in Touched(order, maxBuckets, x) <==> |since| < Room(maxBuckets))
            && (order[p] in Touched(order, maxBuckets, x) ==>
                  SitsBelow(Touched(order, maxBuckets, x), q, order[p], since))
  {
    hide Distinct, SitsBelow;
    SuffixCount(order, p);
    assert x !in Keys(order[p + 1..]);
    assert order[p] !in order[p + 1..];
    hide Keys;
    if |order| < maxBuckets {
      q := p;
      StackPush(order, p, x);
    } else if p > 0 {
      q := p - 1;
      StackDrop(order, p);
      StackPush(order[1..], q, x);
    } else {
      q := 0;
      assert Touched(order, maxBuckets, x) == order[1..] + [x];
    }
  }

  lemma SuffixOfAppend(order: seq<string>, p: nat, x: string)
    requires p < |order|
    ensures (order + [x])[p] == order[p]
    ensures (order + [x])[p + 1..] == order[p + 1..] + [x]
  {
  }

  /** One access by another key. */
  lemma StackStep<B>(s: Slots<B>, maxBuckets: int, k: string, p: nat, since: set<string>, x: string, created: B)
      returns (q: nat)
    requires WellFormed(s) && |s.order| <= Room(maxBuckets)
    requires SitsBelow(s.order, p, k, since) && x != k
    ensures var t := Accessed(s, maxBuckets, x, created);
            && (k in t.table <==> |since + {x}| < Room(maxBuckets))
            && (k in t.table ==> SitsBelow(t.order, q, k, since + {x}))
  {
    AccessKeepsWellFormed(s, maxBuckets, x, created);
    AccessOrder(s, maxBuckets, x, created);
    if x in s.order {
      WithoutFacts(s.order, x);
      q := StackHit(s.order, p, x);
      HitCount(s.order, p, x);
      assert k in Accessed(s, maxBuckets, x, created).order;
    } else {
      q := StackMiss(s.order, maxBuckets, p, x);
    }
  }

  /** The distinct keys accessed strictly between i and j. */
  function Since(trace: seq<string>, i: nat, j: nat): set<string>
    requires i < j <= |trace|
  {
    Keys(trace[i + 1..j])
  }

  lemma SinceGrows(trace: seq<string>, i: nat, j: nat)
    requires i + 1 < j <= |trace|
    ensures trace[i + 1..j] == trace[i + 1..j - 1] + [trace[j - 1]]
    ensures Since(trace, i, j) == Since(trace, i, j - 1) + {trace[j - 1]}
    ensures |Since(trace, i, j - 1)| <= |Since(trace, i, j)|
  {
    assert trace[i + 1..j] == trace[i + 1..j - 1] + [trace[j - 1]];
    KeysOfAppend(trace[i + 1..j - 1], trace[j - 1]);
    SubsetCard(Since(trace, i, j - 1), Since(trace, i, j));
  }

  /** Right after its own access a key is on top. */
  lemma StackTop(maxBuckets: int, trace: seq<string>, i: nat)
    requires i < |trace|
    ensures var s := After(maxBuckets, trace, i + 1);
            trace[i] in s.table && s.order != [] && SitsBelow(s.order, |s.order| - 1, trace[i], {})
  {
    AfterIsWellFormed(maxBuckets, trace, i);
    AccessKeepsWellFormed(After(maxBuckets, trace, i), maxBuckets, trace[i], i);
    AccessOrder(After(maxBuckets, trace, i), maxBuckets, trace[i], i);
  }

  lemma {:induction false} StackRun(maxBuckets: int, trace: seq<string>, i: nat, j: nat) returns (q: nat)
    requires i < j <= |trace| && trace[i] !in trace[i + 1..j]
    ensures var k, s := trace[i], After(maxBuckets, trace, j);
            && (k in s.table <==> |Since(trace, i, j)| < Room(maxBuckets))
            && (k in s.table ==> SitsBelow(s.order, q, k, Since(trace, i, j)))
  {
    hide Accessed, SitsBelow, WellFormed;
    var k, s, t := trace[i], After(maxBuckets, trace, j - 1), After(maxBuckets, trace, j);
    if j == i + 1 {
      assert Since(trace, i, j) == {};
      StackTop(maxBuckets, trace, i);
      q := |t.order| - 1;
    } else {
      SinceGrows(trace, i, j);
      var p := StackRun(maxBuckets, trace, i, j - 1);
      AfterIsWellFormed(maxBuckets, trace, j - 1);
      if k in s.table {
        q := StackStep(s, maxBuckets, k, p, Since(trace, i, j - 1), trace[j - 1], j - 1);
      } else {
        q := 0;
        AccessKeepsWellFormed(s, maxBuckets, trace[j - 1], j - 1);
      }
    }
  }

  lemma {:induction false} BucketKept(maxBuckets: int, trace: seq<string>, i: nat, j: nat)
    requires i < j <= |trace| && trace[i] !in trace[i + 1..j]
    requires trace[i] in After(maxBuckets, trace, j).table
    ensures trace[i] in After(maxBuckets, trace, i + 1).table
    ensures After(maxBuckets, trace, j).table[trace[i]] == After(maxBuckets, trace, i + 1).table[trace[i]]
  {
    hide Accessed, Since, WellFormed, Room;
    if j > i + 1 {
      SinceGrows(trace, i, j);
      AfterIsWellFormed(maxBuckets, trace, j - 1);
      AccessKeepsWellFormed(After(maxBuckets, trace, j - 1), maxBuckets, trace[j - 1], j - 1);
      BucketKept(maxBuckets, trace, i, j - 1);
    }
  }

  /** Main theorem: the bucket k had at access i is the one it has after j accesses iff fewer
      than `Room` distinct other keys were accessed since k was last accessed at i. */
  lemma LruStackProperty(maxBuckets: int, trace: seq<string>, i: nat, j: nat)
    requires i < j <= |trace| && trace[i] !in trace[i + 1..j]
    ensures var k, s := trace[i], After(maxBuckets, trace, j);
            && (k in s.table <==> |Since(trace, i, j)| < Room(maxBuckets))
            && (k in s.table ==> k in After(maxBuckets, trace, i + 1).table
                                 && s.table[k] == After(maxBuckets, trace, i + 1).table[k])
  {
    var _ := StackRun(maxBuckets, trace, i, j);
    if trace[i] in After(maxBuckets, trace, j).table {
      BucketKept(maxBuckets, trace, i, j);
    }
  }

  /** The bucket used by access i. */
  function Used(maxBuckets: int, trace: seq<string>, i: nat): nat
    requires i < |trace|
  {
    var s := After(maxBuckets, trace, i);
    if trace[i] in s.table then s.table[trace[i]] else i
  }

  /** Two consecutive accesses of one key find the same bucket object under the same condition. */
  lemma SameObjectIff(maxBuckets: int, trace: seq<string>, i: nat, j: nat)
    requires i < j < |trace| && trace[i] == trace[j] && trace[i] !in trace[i + 1..j]
    ensures Used(maxBuckets, trace, j) == Used(maxBuckets, trace, i)
       <==> |Since(trace, i, j)| < Room(maxBuckets)
  {
    LruStackProperty(maxBuckets, trace, i, j);
    AfterIsWellFormed(maxBuckets, trace, i);
    AccessKeepsWellFormed(After(maxBuckets, trace, i), maxBuckets, trace[i], i);
    if trace[i] in After(maxBuckets, trace, i).table {
      AfterHolds(maxBuckets, trace, i, trace[i]);
    }
  }

  /** The index of the last access of k among the first n. */
  function LastAccess(trace: seq<string>, n: nat, k: string): nat
    requires n <= |trace| && k in trace[..n]
    ensures LastAccess(trace, n, k) < n && trace[LastAccess(trace, n, k)] == k
    ensures k !in trace[LastAccess(trace, n, k) + 1..n]
  {
    if trace[n - 1] == k then n - 1
    else
      assert trace[..n] == trace[..n - 1] + [trace[n - 1]];
      var i := LastAccess(trace, n - 1, k);
      assert trace[i + 1..n] == trace[i + 1..n - 1] + [trace[n - 1]];
      i
  }

  /** Iteration order is last-access order, and the store never outgrows its room. */
  lemma {:induction false} OrderIsLastAccessOrder(maxBuckets: int, trace: seq<string>, n: nat)
    requires n <= |trace|
    ensures var s := After(maxBuckets, trace, n);
            && |s.order| <= Room(maxBuckets)
            && (forall a :: 0 <= a < |s.order| ==> s.order[a] in trace[..n])
            && (forall a, b :: 0 <= a < b < |s.order|
                  ==> LastAccess(trace, n, s.order[a]) < LastAccess(trace, n, s.order[b]))
  {
    var s := After(maxBuckets, trace, n);
    AfterIsWellFormed(maxBuckets, trace, n);
    forall a | 0 <= a < |s.order|
      ensures s.order[a] in trace[..n]
    {
      assert s.order[a] in s.table;
      AfterHolds(maxBuckets, trace, n, s.order[a]);
    }
    forall a, b | 0 <= a < b < |s.order|
      ensures LastAccess(trace, n, s.order[a]) < LastAccess(trace, n, s.order[b])
    {
      LastAccessFollowsOrder(maxBuckets, trace, n, a, b);
    }
  }

  lemma LastAccessFollowsOrder(maxBuckets: int, trace: seq<string>, n: nat, a: nat, b: nat)
    requires n <= |trace| && a < b < |After(maxBuckets, trace, n).order|
    requires forall c :: 0 <= c < |After(maxBuckets, trace, n).order|
               ==> After(maxBuckets, trace, n).order[c] in trace[..n]
    ensures LastAccess(trace, n, After(maxBuckets, trace, n).order[a])
          < LastAccess(trace, n, After(maxBuckets, trace, n).order[b])
  {
    var s := After(maxBuckets, trace, n);
    AfterIsWellFormed(maxBuckets, trace, n);
    var k := s.order[a];
    var i := LastAccess(trace, n, k);
    var q := StackRun(maxBuckets, trace, i, n);
    assert k in s.table;
    assert q == a;
    assert s.order[b] == s.order[a + 1..][b - a - 1];
    assert s.order[b] in Since(trace, i, n);
  }
}
