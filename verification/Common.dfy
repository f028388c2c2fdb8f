/** What several of the models share. */
module Common {

  datatype Option<+T> = None | Some(value: T)

  function Pow(x: real, n: nat): real {
    if n == 0 then 1.0 else x * Pow(x, n - 1)
  }

  function Mapped<A, B>(xs: seq<A>, f: A -> B): (ys: seq<B>)
    ensures |ys| == |xs| && forall i :: 0 <= i < |xs| ==> ys[i] == f(xs[i])
  {
    seq(|xs|, i requires 0 <= i < |xs| => f(xs[i]))
  }

  lemma {:induction false} SubsetCard<T>(a: set<T>, b: set<T>)
    requires a <= b
    ensures |a| <= |b|
  {
    if a != {} {
      var x :| x in a;
      SubsetCard(a - {x}, b - {x});
    }
  }

  // ---- Products and quotients of reals, one step at a time ----

  lemma TimesNonNegative(a: real, b: real)
    requires a >= 0.0 && b >= 0.0
    ensures a * b >= 0.0
  {
  }

  lemma TimesPositive(a: real, b: real)
    requires a > 0.0 && b > 0.0
    ensures a * b > 0.0
  {
  }

  lemma TimesOrdered(a: real, b: real, c: real)
    requires a >= 0.0 && b <= c
    ensures a * b <= a * c
  {
    TimesNonNegative(a, c - b);
    assert a * (c - b) == a * c - a * b;
  }

  /** A positive factor keeps the order both ways. */
  lemma Product(c: real, x: real, y: real)
    requires c > 0.0
    ensures x > y <==> x * c > y * c
    ensures x >= y <==> x * c >= y * c
    ensures x * c - y * c == (x - y) * c
  {
    assert x * c - y * c == (x - y) * c;
    if x > y {
      TimesPositive(x - y, c);
    } else {
      TimesNonNegative(y - x, c);
      assert (y - x) * c == y * c - x * c;
      if x < y {
        TimesPositive(y - x, c);
      }
    }
  }

  lemma SquaresOrdered(a: real, b: real)
    requires a >= 0.0 && b >= 0.0
    ensures a * a < b * b <==> a < b
  {
    assert (b - a) * (b + a) == b * b - a * a;
    if a < b {
      TimesPositive(b - a, b + a);
    } else {
      TimesNonNegative(a - b, a + b);
      assert (a - b) * (a + b) == a * a - b * b;
    }
  }

  lemma Quotient(a: real, p: real)
    requires p != 0.0
    ensures a / p * p == a
  {
  }

  lemma SelfQuotient(w: real)
    requires w != 0.0
    ensures w / w == 1.0
  {
  }

  /** Dividing by a positive number is comparing with a product. */
  lemma QuotientCompares(a: real, p: real, b: real)
    requires p > 0.0
    ensures a / p >= b <==> a >= b * p
    ensures a / p > b <==> a > b * p
  {
    Quotient(a, p);
    Product(p, a / p, b);
  }

  lemma QuotientOrder(a: real, b: real, p: real)
    requires p > 0.0
    ensures a <= b ==> a / p <= b / p
    ensures a < b ==> a / p < b / p
  {
    Quotient(a, p);
    Quotient(b, p);
    Product(p, b / p, a / p);
  }
}
