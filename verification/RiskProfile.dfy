/** The exponentially weighted risk profile of src/lib/risk-profile.ts over exact reals: weights filled
  and normalised in place, weighted sums in loops, against a one-pass form that keeps no weights. */
module RiskProfiles {
  import opened Common

  datatype Day = Day(date: string, events: real, severity: real, anomalies: real, drift: bool)

  datatype Config = Config(decay: real, sparse: real, rising: real, volatile: real)

  datatype Pattern = Stable | Rising | Volatile | Sparse

  datatype Profile = Profile(
    totalEvents: real, totalAnomalies: real, driftDays: nat, seriesDays: nat,
    eventsPerDay: real, severityPerEvent: real, anomalyRate: real,
    trajectoryEvents: real, trajectorySeverity: real, trajectoryAnomalies: real,
    pattern: Pattern, from: string, to: string)

  datatype Error = EmptySeries | NegativeValues(index: nat)

  datatype Result<+T> = Ok(value: T) | Err(error: Error)

  // ---- Columns of the series ----

  function Events(series: seq<Day>): (r: seq<real>)
    ensures |r| == |series| && forall i :: 0 <= i < |r| ==> r[i] == series[i].events
  {
    seq(|series|, i requires 0 <= i < |series| => series[i].events)
  }

  function Severities(series: seq<Day>): (r: seq<real>)
    ensures |r| == |series| && forall i :: 0 <= i < |r| ==> r[i] == series[i].severity
  {
    seq(|series|, i requires 0 <= i < |series| => series[i].severity)
  }

  function Anomalies(series: seq<Day>): (r: seq<real>)
    ensures |r| == |series| && forall i :: 0 <= i < |r| ==> r[i] == series[i].anomalies
  {
    seq(|series|, i requires 0 <= i < |series| => series[i].anomalies)
  }

  function Ones(n: nat): (r: seq<real>)
    ensures |r| == n && forall i :: 0 <= i < n ==> r[i] == 1.0
  {
    seq(n, _ => 1.0)
  }

  predicate Negative(d: Day) {
    d.events < 0.0 || d.severity < 0.0 || d.anomalies < 0.0
  }

  ghost predicate NonNegative(xs: seq<real>) {
    forall i :: 0 <= i < |xs| ==> xs[i] >= 0.0
  }

  // ---- The one-pass form ----

  /** A running value that is decayed once a day and then takes the day in. */
  function Decayed(d: real, xs: seq<real>): real {
    if xs == [] then 0.0 else d * Decayed(d, xs[..|xs| - 1]) + xs[|xs| - 1]
  }

  /** The running value of the series over the running value of a series of ones. */
  function Ewma(d: real, xs: seq<real>): real
    requires Averages(d, |xs|)
  {
    WeightSumIsZeroIff(d, |xs|);
    Decayed(d, xs) / Decayed(d, Ones(|xs|))
  }

  /** The weights of n days do not cancel out. */
  predicate Averages(d: real, n: nat) {
    n > 0 && !(d == -1.0 && n % 2 == 0)
  }

  /** What the sum of n weights can be. */
  ghost predicate WeightSumRange(d: real, n: nat, sum: real) {
    if d >= 0.0 then sum >= 1.0
    else if d > -1.0 then 0.0 < sum <= 1.0
    else if d == -1.0 then sum == if n % 2 == 1 then 1.0 else 0.0
    else if n % 2 == 1 then sum >= 1.0
    else sum < 0.0
  }

  lemma {:induction false} WeightSumInRange(d: real, n: nat)
    requires n > 0
    ensures WeightSumRange(d, n, Decayed(d, Ones(n)))
  {
    OnesArePositiveFrom(d, n);
    assert Ones(n)[..n - 1] == Ones(n - 1);
    if n == 1 {
      assert Ones(0) == [] && Decayed(d, Ones(0)) == 0.0;
      assert Decayed(d, Ones(1)) == d * 0.0 + 1.0;
    } else if d < 0.0 {
      WeightSumInRange(d, n - 1);
      RangeStep(d, n, Decayed(d, Ones(n - 1)), Decayed(d, Ones(n)));
    }
  }

  lemma RangeStep(d: real, n: nat, v: real, sum: real)
    requires n > 1 && d < 0.0 && WeightSumRange(d, n - 1, v) && sum == d * v + 1.0
    ensures WeightSumRange(d, n, sum)
  {
    var e := -d;
    var p := e * v;
    assert sum == 1.0 - p;
    if v >= 1.0 {
      TimesOrdered(e, 1.0, v);
    } else if v < 0.0 {
      TimesPositive(e, -v);
    } else {
      TimesOrdered(e, v, 1.0);
      TimesNonNegative(e, v);
    }
    if 0.0 < v <= 1.0 && d > -1.0 {
      TimesPositive(e, v);
      TimesOrdered(e, v, 1.0);
    }
  }

  /** The sum the weights are divided by is zero only for a decay of -1 over an even number of days. */
  lemma WeightSumIsZeroIff(d: real, n: nat)
    ensures n > 0 ==> (Decayed(d, Ones(n)) == 0.0 <==> !Averages(d, n))
  {
    hide Decayed;
    if n > 0 {
      WeightSumInRange(d, n);
    }
  }

  lemma OnesArePositiveFrom(d: real, n: nat)
    ensures d >= 0.0 && n > 0 ==> Decayed(d, Ones(n)) >= 1.0
  {
    if d >= 0.0 {
      OnesArePositive(d, n);
    }
  }

  lemma {:induction false} OnesArePositive(d: real, n: nat)
    requires d >= 0.0
    ensures Decayed(d, Ones(n)) >= 0.0 && (n > 0 ==> Decayed(d, Ones(n)) >= 1.0)
  {
    if n > 0 {
      OnesArePositive(d, n - 1);
      assert Ones(n)[..n - 1] == Ones(n - 1);
      TimesNonNegative(d, Decayed(d, Ones(n - 1)));
    }
  }

  // ---- Sums, means and trajectories ----

  function Sum(xs: seq<real>): real {
    if xs == [] then 0.0 else Sum(xs[..|xs| - 1]) + xs[|xs| - 1]
  }

  function Mean(xs: seq<real>): real {
    if xs == [] then 0.0 else Sum(xs) / |xs| as real
  }

  /** Change of the recent half's mean against the older half's. */
  function Trajectory(xs: seq<real>): real {
    var older, recent := Mean(xs[..|xs| / 2]), Mean(xs[|xs| / 2..]);
    if older > 0.0 then (recent - older) / older else if recent > 0.0 then 1.0 else 0.0
  }

  function SquaredDeviations(xs: seq<real>, mean: real): real {
    if xs == [] then 0.0
    else SquaredDeviations(xs[..|xs| - 1], mean) + (xs[|xs| - 1] - mean) * (xs[|xs| - 1] - mean)
  }

  function Variance(xs: seq<real>): real {
    if xs == [] then 0.0 else SquaredDeviations(xs, Mean(xs)) / |xs| as real
  }

  /** The pattern, with the comparison of the standard deviation squared so that no root is taken. */
  function PatternOf(series: seq<Day>, c: Config): Pattern {
    var mean := Mean(Events(series));
    if mean < c.sparse then Sparse
    else if Trajectory(Events(series)) > c.rising || Trajectory(Anomalies(series)) > c.rising then Rising
    else if Exceeds(Variance(Events(series)), mean, c.volatile) then Volatile
    else Stable
  }

  /** sqrt(variance) / mean > t, or 0 > t when the mean is not positive. */
  predicate Exceeds(variance: real, mean: real, t: real) {
    if mean <= 0.0 then t < 0.0
    else t < 0.0 || variance > (t * mean) * (t * mean)
  }

  ghost predicate IsSqrt(sqrt: real -> real) {
    forall x :: x >= 0.0 ==> sqrt(x) >= 0.0 && sqrt(x) * sqrt(x) == x
  }

  lemma SqrtTest(sqrt: real -> real, variance: real, mean: real, t: real)
    requires IsSqrt(sqrt) && variance >= 0.0
    ensures ((if mean > 0.0 then sqrt(variance) / mean else 0.0) > t) == Exceeds(variance, mean, t)
  {
    if mean > 0.0 {
      var s := sqrt(variance);
      assert s >= 0.0 && s * s == variance;
      QuotientCompares(s, mean, t);
      if t >= 0.0 {
        TimesNonNegative(t, mean);
        SquaresOrdered(t * mean, s);
      } else {
        TimesPositive(-t, mean);
        assert -t * mean == -(t * mean);
      }
    }
  }

  // ---- Rounding ----

  function Scale(places: nat): (p: real)
    ensures p >= 1.0 && p == Pow(10.0, places)
  {
    if places == 0 then 1.0 else 10.0 * Scale(places - 1)
  }

  /** Math.round(x * p) / p, ties upwards. */
  function RoundBy(x: real, p: real): real
    requires p >= 1.0
  {
    (x * p + 0.5).Floor as real / p
  }

  function Round(x: real, places: nat): real {
    RoundBy(x, Scale(places))
  }

  /** Rounding keeps the order, gives a whole number of units in the last place, and moves a value by at most
      half of one, upwards when in doubt. */
  lemma RoundKeepsOrder(x: real, y: real, places: nat)
    requires x <= y
    ensures Round(x, places) <= Round(y, places)
    ensures var units := Units(Round(x, places), Scale(places));
            -0.5 < units - Units(x, Scale(places)) <= 0.5 && units.Floor as real == units
  {
    hide RoundBy, Scale, Pow, Units;
    FloorOrder(x, y, Scale(places));
    FloorIsNear(x, Scale(places), Round(x, places));
  }

  lemma FloorIsNear(x: real, p: real, r: real)
    requires p >= 1.0 && r == RoundBy(x, p)
    ensures -0.5 < Units(r, p) - Units(x, p) <= 0.5 && Units(r, p).Floor as real == Units(r, p)
  {
    var units := (x * p + 0.5).Floor;
    Quotient(units as real, p);
    assert Units(r, p) == units as real;
    assert (units as real).Floor == units;
  }

  /** x in units of the last place. */
  function Units(x: real, p: real): real {
    x * p
  }

  lemma FloorOrder(x: real, y: real, p: real)
    requires x <= y && p >= 1.0
    ensures RoundBy(x, p) <= RoundBy(y, p)
  {
    var a, b := (x * p + 0.5).Floor, (y * p + 0.5).Floor;
    TimesOrdered(p, x, y);
    assert a <= b;
    QuotientOrder(a as real, b as real, p);
  }

  // ---- Weights and weighted sums ----

  /** The part of a weighted sum that the days xs contribute when e more days follow. */
  function Share(d: real, xs: seq<real>, e: nat, weightSum: real): real
    requires weightSum != 0.0
  {
    Pow(d, e) * Decayed(d, xs) / weightSum
  }

  function Weight(d: real, n: nat, i: nat): real
    requires Averages(d, n) && i < n
  {
    WeightSumIsZeroIff(d, n);
    Pow(d, n - 1 - i) / Decayed(d, Ones(n))
  }

  lemma SharesOfOnes(d: real, n: nat)
    ensures Share(d, Ones(0), n, 1.0) == 0.0
    ensures Share(d, Ones(n), 0, 1.0) == Decayed(d, Ones(n))
  {
  }

  lemma OnesShareStep(d: real, i: nat, n: nat)
    requires i < n
    ensures Share(d, Ones(i + 1), n - i - 1, 1.0) == Share(d, Ones(i), n - i, 1.0) + Pow(d, n - 1 - i)
  {
    assert Ones(i + 1)[..i] == Ones(i) && Ones(i + 1)[..i + 1] == Ones(i + 1);
    ShareStep(d, Ones(i + 1), i, n, 1.0);
  }

  /** The weights of the days, or None when they cancel out: `buildRiskProfile` then divides by zero and
      goes on with infinite ones. */
  method Weights(n: nat, decay: real) returns (normed: Option<array<real>>)
    requires n > 0
    ensures normed.Some? <==> Averages(decay, n)
    ensures normed.Some? ==> fresh(normed.value) && normed.value.Length == n
    ensures normed.Some? ==> forall j :: 0 <= j < n ==> normed.value[j] == Weight(decay, n, j)
  {
    hide Share, Pow, Decayed, Ones;
    SharesOfOnes(decay, n);
    var weights := new real[n];
    var weightSum := 0.0;
    for i := 0 to n
      invariant forall j :: 0 <= j < i ==> weights[j] == Pow(decay, n - 1 - j)
      invariant weightSum == Share(decay, Ones(i), n - i, 1.0)
    {
      var w := Pow(decay, n - 1 - i);
      weights[i] := w;
      weightSum := weightSum + w;
      OnesShareStep(decay, i, n);
    }
    WeightSumIsZeroIff(decay, n);
    if weightSum == 0.0 {
      return None;
    }
    for i := 0 to n
      invariant forall j :: 0 <= j < i ==> weights[j] == Weight(decay, n, j)
      invariant forall j :: i <= j < n ==> weights[j] == Pow(decay, n - 1 - j)
    {
      weights[i] := weights[i] / weightSum;
    }
    return Some(weights);
  }

  /** What the first i days contribute to the weighted sum of a series of n days. */
  function Part(d: real, n: nat, xs: seq<real>, i: nat): real
    requires Averages(d, n) && i <= n && i <= |xs|
  {
    WeightSumIsZeroIff(d, n);
    Share(d, xs[..i], n - i, Decayed(d, Ones(n)))
  }

  lemma PartEnds(d: real, n: nat, xs: seq<real>)
    requires Averages(d, n) && n == |xs|
    ensures Part(d, n, xs, 0) == 0.0
    ensures Part(d, n, xs, n) == Ewma(d, xs)
  {
    WeightSumIsZeroIff(d, n);
    assert xs[..n] == xs;
  }

  lemma PartStep(d: real, n: nat, xs: seq<real>, i: nat, weight: real, x: real)
    requires Averages(d, n) && i < n && i < |xs|
    requires weight == Weight(d, n, i) && x == xs[i]
    ensures Part(d, n, xs, i + 1) == Part(d, n, xs, i) + weight * x
  {
    WeightSumIsZeroIff(d, n);
    ShareStep(d, xs, i, n, Decayed(d, Ones(n)));
  }

  datatype Sums = Sums(events: real, severity: real, anomalies: real)

  /** The three weighted sums, which without weights are not numbers. */
  method WeightedSums(series: seq<Day>, decay: real) returns (sums: Option<Sums>)
    requires series != []
    ensures sums.Some? <==> Averages(decay, |series|)
    ensures sums.Some? ==> sums.value.events == Ewma(decay, Events(series))
    ensures sums.Some? ==> sums.value.severity == Ewma(decay, Severities(series))
    ensures sums.Some? ==> sums.value.anomalies == Ewma(decay, Anomalies(series))
  {
    hide Part, Weight, Ewma;
    var n := |series|;
    var normed := Weights(n, decay);
    if normed.None? {
      return None;
    }
    var weights := normed.value;
    ghost var es, ss, xs := Events(series), Severities(series), Anomalies(series);
    var events, severity, anomalies := 0.0, 0.0, 0.0;
    PartEnds(decay, n, es);
    PartEnds(decay, n, ss);
    PartEnds(decay, n, xs);
    for i := 0 to n
      invariant forall j :: 0 <= j < n ==> weights[j] == Weight(decay, n, j)
      invariant events == Part(decay, n, es, i)
      invariant severity == Part(decay, n, ss, i)
      invariant anomalies == Part(decay, n, xs, i)
    {
      events := events + weights[i] * series[i].events;
      severity := severity + weights[i] * series[i].severity;
      anomalies := anomalies + weights[i] * series[i].anomalies;
      PartStep(decay, n, es, i, weights[i], series[i].events);
      PartStep(decay, n, ss, i, weights[i], series[i].severity);
      PartStep(decay, n, xs, i, weights[i], series[i].anomalies);
    }
    return Some(Sums(events, severity, anomalies));
  }

  lemma ShareStep(d: real, xs: seq<real>, i: nat, n: nat, weightSum: real)
    requires i < |xs| && i < n && weightSum != 0.0
    ensures Share(d, xs[..i + 1], n - i - 1, weightSum)
         == Share(d, xs[..i], n - i, weightSum) + Pow(d, n - 1 - i) / weightSum * xs[i]
  {
    hide Pow;
    assert xs[..i + 1][..i] == xs[..i];
    PowStep(d, n - i);
    Distribute(Pow(d, n - 1 - i), Pow(d, n - i), d, Decayed(d, xs[..i]), Decayed(d, xs[..i + 1]), xs[i], weightSum);
  }

  lemma Distribute(p: real, q: real, d: real, v: real, w: real, x: real, sum: real)
    requires sum != 0.0 && q == d * p && w == d * v + x
    ensures p * w / sum == q * v / sum + p / sum * x
  {
    assert p * w == (d * p) * v + p * x;
    assert (p * x) / sum == p / sum * x;
  }

  // ---- The whole profile ----

  function DriftDays(series: seq<Day>): nat {
    if series == [] then 0
    else DriftDays(series[..|series| - 1]) + if series[|series| - 1].drift then 1 else 0
  }

  function Ratio(part: real, whole: real): real {
    if whole > 0.0 then part / whole else 0.0
  }

  function ProfileOf(series: seq<Day>, c: Config): Profile
    requires Averages(c.decay, |series|)
  {
    var events := Ewma(c.decay, Events(series));
    Profile(
      Sum(Events(series)), Sum(Anomalies(series)), DriftDays(series), |series|,
      Round(events, 3),
      Round(Ratio(Ewma(c.decay, Severities(series)), events), 3),
      Round(Ratio(Ewma(c.decay, Anomalies(series)), events), 4),
      Round(Trajectory(Events(series)), 3), Round(Trajectory(Severities(series)), 3),
      Round(Trajectory(Anomalies(series)), 3),
      PatternOf(series, c), series[0].date, series[|series| - 1].date)
  }

  /** `buildRiskProfile`: its two errors in order, and otherwise the profile of the one-pass form. The
      square root is a parameter. A decay of -1 over an even number of days, where `buildRiskProfile`
      divides by zero and reports averages that are not numbers, has no profile here. */
  method BuildRiskProfile(series: seq<Day>, c: Config, sqrt: real -> real) returns (r: Result<Option<Profile>>)
    requires IsSqrt(sqrt)
    ensures r == Err(EmptySeries) <==> series == []
    ensures forall i: nat :: r == Err(NegativeValues(i)) <==>
      i < |series| && (series[i].events < 0.0 || series[i].severity < 0.0 || series[i].anomalies < 0.0)
      && forall j :: 0 <= j < i ==>
           series[j].events >= 0.0 && series[j].severity >= 0.0 && series[j].anomalies >= 0.0
    ensures r.Ok? ==> series != [] && (r.value.Some? <==> Averages(c.decay, |series|))
    ensures r.Ok? && r.value.Some? ==> r.value.value == ProfileOf(series, c)
  {
    hide Ewma, Trajectory, Round, Sum, DriftDays, Mean, Exceeds, Variance;
    if series == [] {
      return Err(EmptySeries);
    }
    for i := 0 to |series|
      invariant forall j :: 0 <= j < i ==> !Negative(series[j])
    {
      if Negative(series[i]) {
        return Err(NegativeValues(i));
      }
    }
    var sums := WeightedSums(series, c.decay);
    var trajectoryEvents := Trajectory(Events(series));
    var trajectoryAnomalies := Trajectory(Anomalies(series));
    var mean := Mean(Events(series));
    var variance := Variance(Events(series));
    VarianceIsNonNegative(Events(series));
    SqrtTest(sqrt, variance, mean, c.volatile);
    var cv := if mean > 0.0 then sqrt(variance) / mean else 0.0;
    var pattern;
    if mean < c.sparse {
      pattern := Sparse;
    } else if trajectoryEvents > c.rising || trajectoryAnomalies > c.rising {
      pattern := Rising;
    } else if cv > c.volatile {
      pattern := Volatile;
    } else {
      pattern := Stable;
    }
    if sums.None? {
      return Ok(None);
    }
    var events, severity, anomalies := sums.value.events, sums.value.severity, sums.value.anomalies;
    r := Ok(Some(Profile(
      Sum(Events(series)), Sum(Anomalies(series)), DriftDays(series), |series|,
      Round(events, 3), Round(Ratio(severity, events), 3), Round(Ratio(anomalies, events), 4),
      Round(trajectoryEvents, 3), Round(Trajectory(Severities(series)), 3), Round(trajectoryAnomalies, 3),
      pattern, series[0].date, series[|series| - 1].date)));
  }

  lemma {:induction false} DeviationsAreNonNegative(xs: seq<real>, mean: real)
    ensures SquaredDeviations(xs, mean) >= 0.0
  {
    if xs != [] {
      DeviationsAreNonNegative(xs[..|xs| - 1], mean);
      var x := xs[|xs| - 1] - mean;
      if x >= 0.0 {
        TimesNonNegative(x, x);
      } else {
        TimesNonNegative(-x, -x);
      }
    }
  }

  lemma VarianceIsNonNegative(xs: seq<real>)
    ensures Variance(xs) >= 0.0
  {
    DeviationsAreNonNegative(xs, Mean(xs));
  }

  // ---- The weights ----

  function WeightList(d: real, n: nat): seq<real>
    requires Averages(d, n)
  {
    seq(n, i requires 0 <= i < n => Weight(d, n, i))
  }

  function Dot(ws: seq<real>, xs: seq<real>): real
    requires |ws| == |xs|
  {
    if ws == [] then 0.0 else Dot(ws[..|ws| - 1], xs[..|xs| - 1]) + ws[|ws| - 1] * xs[|xs| - 1]
  }

  lemma {:induction false} DotIsPart(d: real, xs: seq<real>, i: nat)
    requires Averages(d, |xs|) && i <= |xs|
    ensures Dot(WeightList(d, |xs|)[..i], xs[..i]) == Part(d, |xs|, xs, i)
  {
    hide Part, Weight;
    PartEnds(d, |xs|, xs);
    if i > 0 {
      DotIsPart(d, xs, i - 1);
      var ws := WeightList(d, |xs|);
      assert ws[..i][..i - 1] == ws[..i - 1] && xs[..i][..i - 1] == xs[..i - 1];
      PartStep(d, |xs|, xs, i - 1, ws[i - 1], xs[i - 1]);
    }
  }

  lemma EwmaOfOnes(d: real, n: nat)
    requires Averages(d, n)
    ensures Ewma(d, Ones(n)) == 1.0
  {
    WeightSumIsZeroIff(d, n);
    assert |Ones(n)| == n;
    SelfQuotient(Decayed(d, Ones(n)));
    hide Decayed, Ones;
  }

  /** The normalised weights give the one-pass form, and they sum to 1. */
  lemma WeightsGiveOnePassForm(d: real, xs: seq<real>)
    requires Averages(d, |xs|)
    ensures Dot(WeightList(d, |xs|), xs) == Ewma(d, xs)
    ensures Dot(WeightList(d, |xs|), Ones(|xs|)) == 1.0
  {
    hide Part, Weight, Ewma, Dot;
    var ws := WeightList(d, |xs|);
    assert ws[..|xs|] == ws && xs[..|xs|] == xs && Ones(|xs|)[..|xs|] == Ones(|xs|);
    DotIsPart(d, xs, |xs|);
    PartEnds(d, |xs|, xs);
    DotIsPart(d, Ones(|xs|), |xs|);
    PartEnds(d, |xs|, Ones(|xs|));
    EwmaOfOnes(d, |xs|);
  }

  // ---- Bounds ----

  lemma {:induction false} DecayedIsLinear(d: real, xs: seq<real>, ys: seq<real>, c: real)
    requires |xs| == |ys|
    requires forall i :: 0 <= i < |xs| ==> ys[i] == c * xs[i]
    ensures Decayed(d, ys) == c * Decayed(d, xs)
  {
    if xs != [] {
      DecayedIsLinear(d, xs[..|xs| - 1], ys[..|ys| - 1], c);
      var v := Decayed(d, xs[..|xs| - 1]);
      assert d * (c * v) == c * (d * v);
    }
  }

  lemma {:induction false} DecayedIsMonotone(d: real, xs: seq<real>, ys: seq<real>)
    requires d >= 0.0 && |xs| == |ys|
    requires forall i :: 0 <= i < |xs| ==> xs[i] <= ys[i]
    ensures Decayed(d, xs) <= Decayed(d, ys)
  {
    if xs != [] {
      var last := |xs| - 1;
      var a, b := xs[..last], ys[..last];
      DecayedIsMonotone(d, a, b);
      HornerOrder(d, Decayed(d, a), Decayed(d, b), xs[last], ys[last]);
    }
  }

  lemma HornerOrder(d: real, a: real, b: real, x: real, y: real)
    requires d >= 0.0 && a <= b && x <= y
    ensures d * a + x <= d * b + y
  {
    TimesOrdered(d, a, b);
    var p, q := d * a, d * b;
    assert p <= q;
    assert p + x <= q + y;
  }

  function Scaled(c: real, xs: seq<real>): (ys: seq<real>)
    ensures |ys| == |xs| && forall i :: 0 <= i < |xs| ==> ys[i] == c * xs[i]
  {
    seq(|xs|, i requires 0 <= i < |xs| => c * xs[i])
  }

  ghost predicate Between(lo: real, hi: real, xs: seq<real>, ys: seq<real>)
    requires |xs| == |ys|
  {
    forall i :: 0 <= i < |xs| ==> lo * xs[i] <= ys[i] <= hi * xs[i]
  }

  /** Bounds that hold day by day hold between the decayed sums. */
  lemma DailyBoundsLift(d: real, xs: seq<real>, ys: seq<real>, lo: real, hi: real)
    requires d >= 0.0 && |xs| == |ys| && Between(lo, hi, xs, ys)
    ensures lo * Decayed(d, xs) <= Decayed(d, ys) <= hi * Decayed(d, xs)
  {
    DecayedIsLinear(d, xs, Scaled(lo, xs), lo);
    DecayedIsLinear(d, xs, Scaled(hi, xs), hi);
    DecayedIsMonotone(d, Scaled(lo, xs), ys);
    DecayedIsMonotone(d, ys, Scaled(hi, xs));
  }

  lemma QuotientBetween(a: real, b: real, lo: real, hi: real)
    requires b > 0.0 && lo * b <= a <= hi * b
    ensures lo <= a / b <= hi
  {
    Quotient(a, b);
    var q := a / b;
    if q < lo {
      TimesPositive(lo - q, b);
    }
    if q > hi {
      TimesPositive(q - hi, b);
    }
  }

  /** The average lies between the smallest and the largest day. */
  lemma EwmaIsBetween(d: real, xs: seq<real>, lo: real, hi: real)
    requires d >= 0.0 && xs != []
    requires forall i :: 0 <= i < |xs| ==> lo <= xs[i] <= hi
    ensures lo <= Ewma(d, xs) <= hi
  {
    hide Decayed;
    assert Between(lo, hi, Ones(|xs|), xs);
    OnesArePositive(d, |xs|);
    DailyBoundsLift(d, Ones(|xs|), xs, lo, hi);
    QuotientBetween(Decayed(d, xs), Decayed(d, Ones(|xs|)), lo, hi);
  }

  /** A ratio of averages lies within the per-day ratio bounds. */
  lemma RatioIsBetween(d: real, xs: seq<real>, ys: seq<real>, lo: real, hi: real)
    requires d >= 0.0 && xs != [] && |xs| == |ys|
    requires Between(lo, hi, xs, ys) && Ewma(d, xs) > 0.0
    ensures lo <= Ratio(Ewma(d, ys), Ewma(d, xs)) <= hi
  {
    var n, whole := |xs|, Decayed(d, Ones(|xs|));
    OnesArePositive(d, n);
    DailyBoundsLift(d, xs, ys, lo, hi);
    var a, b := Decayed(d, ys), Decayed(d, xs);
    if b <= 0.0 {
      QuotientOrder(b, 0.0, whole);
      assert false;
    }
    QuotientOfQuotients(a, b, whole);
    QuotientBetween(a, b, lo, hi);
  }

  lemma QuotientOfQuotients(a: real, b: real, c: real)
    requires b > 0.0 && c > 0.0
    ensures b / c > 0.0 && (a / c) / (b / c) == a / b
  {
    Quotient(a, c);
    Quotient(b, c);
    var x, y := a / c, b / c;
    assert y > 0.0 by {
      if y <= 0.0 {
        TimesNonNegative(-y, c);
      }
    }
    Quotient(x, y);
    var q := x / y;
    assert a == q * b by {
      assert a == (q * y) * c == q * (y * c);
    }
    Quotient(a, b);
    if q != a / b {
      Product(b, q, a / b);
      Product(b, a / b, q);
    }
  }

  /** The reported severity per event and anomaly rate stay within the rounded per-day bounds. */
  lemma ReportedRatiosAreBetween(series: seq<Day>, c: Config, lo: real, hi: real)
    requires series != [] && c.decay >= 0.0 && Ewma(c.decay, Events(series)) > 0.0
    ensures Between(lo, hi, Events(series), Severities(series)) ==>
      Round(lo, 3) <= ProfileOf(series, c).severityPerEvent <= Round(hi, 3)
    ensures Between(lo, hi, Events(series), Anomalies(series)) ==>
      Round(lo, 4) <= ProfileOf(series, c).anomalyRate <= Round(hi, 4)
  {
    hide Ewma, Round, Trajectory, Sum, DriftDays, PatternOf, Ratio;
    var d, es := c.decay, Events(series);
    if Between(lo, hi, es, Severities(series)) {
      RatioIsBetween(d, es, Severities(series), lo, hi);
      var r := Ratio(Ewma(d, Severities(series)), Ewma(d, es));
      RoundKeepsOrder(lo, r, 3);
      RoundKeepsOrder(r, hi, 3);
    }
    if Between(lo, hi, es, Anomalies(series)) {
      RatioIsBetween(d, es, Anomalies(series), lo, hi);
      var r := Ratio(Ewma(d, Anomalies(series)), Ewma(d, es));
      RoundKeepsOrder(lo, r, 4);
      RoundKeepsOrder(r, hi, 4);
    }
  }

  /** With a positive decay the average of a non-negative series is zero only for a series of zeros. */
  lemma {:induction false} DecayedIsPositiveIff(d: real, xs: seq<real>)
    requires d > 0.0 && NonNegative(xs)
    ensures Decayed(d, xs) >= 0.0
    ensures Decayed(d, xs) > 0.0 <==> exists i :: 0 <= i < |xs| && xs[i] > 0.0
  {
    if xs != [] {
      var init := xs[..|xs| - 1];
      DecayedIsPositiveIff(d, init);
      TimesNonNegative(d, Decayed(d, init));
      if i :| 0 <= i < |xs| && xs[i] > 0.0 {
        if i < |init| {
          assert init[i] > 0.0;
          TimesPositive(d, Decayed(d, init));
        }
      } else {
        assert forall i :: 0 <= i < |init| ==> init[i] == xs[i];
        assert Decayed(d, init) == 0.0;
      }
    }
  }

  // ---- Moving events ----

  /** One more unit on day i counts with the weight of that day. */
  lemma {:induction false} OneDayCounts(d: real, xs: seq<real>, i: nat, x: real)
    requires i < |xs|
    ensures Decayed(d, xs[i := xs[i] + x]) == Decayed(d, xs) + x * Pow(d, |xs| - 1 - i)
  {
    var last := |xs| - 1;
    var ys := xs[i := xs[i] + x];
    if i == last {
      assert ys[..last] == xs[..last];
    } else {
      OneDayCounts(d, xs[..last], i, x);
      assert ys[..last] == xs[..last][i := xs[i] + x];
      Carries(d, Decayed(d, xs[..last]), Decayed(d, ys[..last]), x, Pow(d, last - 1 - i), Pow(d, last - i));
    }
  }

  lemma Carries(d: real, before: real, after: real, x: real, p: real, q: real)
    requires after == before + x * p && q == d * p
    ensures d * after == d * before + x * q
  {
    assert d * (x * p) == x * (d * p);
    assert d * (before + x * p) == d * before + d * (x * p);
  }

  lemma {:induction false} PowIsPositive(d: real, b: nat)
    requires d >= 0.0
    ensures Pow(d, b) >= 0.0 && (d > 0.0 ==> Pow(d, b) > 0.0)
  {
    if b > 0 {
      PowIsPositive(d, b - 1);
      TimesNonNegative(d, Pow(d, b - 1));
      if d > 0.0 {
        TimesPositive(d, Pow(d, b - 1));
      }
    }
  }

  lemma Shrinks(d: real, p: real, r: real)
    requires 0.0 <= d <= 1.0 && p >= 0.0 && r == d * p
    ensures r <= p
    ensures d < 1.0 && p > 0.0 ==> r < p
  {
    assert p - r == (1.0 - d) * p;
    TimesNonNegative(1.0 - d, p);
    if d < 1.0 && p > 0.0 {
      TimesPositive(1.0 - d, p);
    }
  }

  /** One day further back weighs no more, and less when 0 < d < 1. */
  lemma OneDayShrinks(d: real, b: nat)
    requires 0.0 <= d <= 1.0 && b > 0
    ensures Pow(d, b) <= Pow(d, b - 1)
    ensures 0.0 < d < 1.0 ==> Pow(d, b) < Pow(d, b - 1)
  {
    hide Pow;
    PowIsPositive(d, b - 1);
    PowStep(d, b);
    Shrinks(d, Pow(d, b - 1), Pow(d, b));
  }

  lemma PowStep(d: real, b: nat)
    requires b > 0
    ensures Pow(d, b) == d * Pow(d, b - 1)
  {
  }

  lemma {:induction false} LaterWeighsMore(d: real, a: nat, b: nat)
    requires 0.0 <= d <= 1.0 && a <= b
    ensures Pow(d, b) <= Pow(d, a)
    ensures 0.0 < d < 1.0 && a < b ==> Pow(d, b) < Pow(d, a)
  {
    hide Pow;
    if a < b {
      LaterWeighsMore(d, a, b - 1);
      OneDayShrinks(d, b);
    }
  }

  /** Moving x from day i to a later day j never lowers the average, and raises it when 0 < d < 1. */
  lemma MovingLaterNeverLowers(d: real, xs: seq<real>, i: nat, j: nat, x: real)
    requires 0.0 <= d <= 1.0 && i < j < |xs| && x >= 0.0
    ensures var moved := xs[i := xs[i] - x][j := xs[j] + x];
            Ewma(d, xs) <= Ewma(d, moved) && (0.0 < d < 1.0 && x > 0.0 ==> Ewma(d, xs) < Ewma(d, moved))
  {
    hide Decayed, Pow;
    var n := |xs|;
    var taken := xs[i := xs[i] + -x];
    var moved := taken[j := taken[j] + x];
    assert moved == xs[i := xs[i] - x][j := xs[j] + x];
    OneDayCounts(d, xs, i, -x);
    OneDayCounts(d, taken, j, x);
    LaterWeighsMore(d, n - 1 - j, n - 1 - i);
    OnesArePositive(d, n);
    var before, after, whole := Decayed(d, xs), Decayed(d, moved), Decayed(d, Ones(n));
    var gain := Pow(d, n - 1 - j) - Pow(d, n - 1 - i);
    assert after - before == x * gain;
    TimesNonNegative(x, gain);
    QuotientOrder(before, after, whole);
    if 0.0 < d < 1.0 && x > 0.0 {
      TimesPositive(x, gain);
      QuotientOrder(before, after, whole);
    }
  }

  // ---- A steady series ----

  predicate Steady(series: seq<Day>, e: real, s: real, a: real) {
    forall i :: 0 <= i < |series| ==> series[i].events == e && series[i].severity == s && series[i].anomalies == a
  }

  lemma {:induction false} SteadySums(xs: seq<real>, x: real)
    requires forall i :: 0 <= i < |xs| ==> xs[i] == x
    ensures Sum(xs) == x * |xs| as real
    ensures SquaredDeviations(xs, x) == 0.0
  {
    if xs != [] {
      SteadySums(xs[..|xs| - 1], x);
    }
  }

  lemma SteadyMean(xs: seq<real>, x: real)
    requires xs != [] && forall i :: 0 <= i < |xs| ==> xs[i] == x
    ensures Mean(xs) == x && Variance(xs) == 0.0
  {
    SteadySums(xs, x);
    var n := |xs| as real;
    assert x * n / n == x;
  }

  lemma SteadyTrajectory(xs: seq<real>, x: real)
    requires xs != [] && x >= 0.0 && forall i :: 0 <= i < |xs| ==> xs[i] == x
    ensures Trajectory(xs) == if |xs| == 1 && x > 0.0 then 1.0 else 0.0
  {
    hide Mean, Variance;
    SteadyMean(xs[|xs| / 2..], x);
    if |xs| >= 2 {
      SteadyMean(xs[..|xs| / 2], x);
    } else {
      NoMean();
      assert xs[..|xs| / 2] == [];
    }
  }

  lemma NoMean()
    ensures Mean([]) == 0.0
  {
  }

  /** Equal days give exactly those signals; the pattern is stable if and only if there are two days
    or more, because a single day has an empty older half and counts as a rise. */
  lemma SteadySeriesIsStableIff(series: seq<Day>, c: Config, e: real, s: real, a: real)
    requires series != [] && c.decay >= 0.0 && Steady(series, e, s, a) && e > 0.0 && s >= 0.0 && a >= 0.0
    requires c.sparse <= e && 0.0 <= c.rising < 1.0 && c.volatile >= 0.0
    ensures PatternOf(series, c) == Stable <==> |series| >= 2
    ensures PatternOf(series, c) == Rising <==> |series| == 1
    ensures ProfileOf(series, c).eventsPerDay == Round(e, 3)
    ensures ProfileOf(series, c).severityPerEvent == Round(s / e, 3)
  {
    hide Mean, Variance, Ewma, Round, Sum, DriftDays, Trajectory;
    SteadyMean(Events(series), e);
    SteadyTrajectory(Events(series), e);
    SteadyTrajectory(Anomalies(series), a);
    TimesNonNegative(c.volatile, e);
    TimesNonNegative(c.volatile * e, c.volatile * e);
    EwmaIsBetween(c.decay, Events(series), e, e);
    EwmaIsBetween(c.decay, Severities(series), s, s);
  }

  /** For non-negative series the trajectory is positive, zero or negative exactly as the recent half's
    mean is above, at or below the older half's, and it never falls under -1. */
  lemma TrajectorySign(xs: seq<real>)
    requires NonNegative(xs)
    ensures var older, recent := Mean(xs[..|xs| / 2]), Mean(xs[|xs| / 2..]);
            (Trajectory(xs) > 0.0 <==> recent > older) && (Trajectory(xs) < 0.0 <==> recent < older)
    ensures Trajectory(xs) >= -1.0
  {
    hide Mean;
    var older, recent := Mean(xs[..|xs| / 2]), Mean(xs[|xs| / 2..]);
    MeanIsNonNegative(xs[..|xs| / 2]);
    MeanIsNonNegative(xs[|xs| / 2..]);
    if older > 0.0 {
      var t := Trajectory(xs);
      Quotient(recent - older, older);
      if t > 0.0 {
        TimesPositive(t, older);
      } else if t < 0.0 {
        TimesPositive(-t, older);
      }
      if t < -1.0 {
        Product(older, -1.0, t);
      }
    }
  }

  lemma {:induction false} SumIsNonNegative(xs: seq<real>)
    requires NonNegative(xs)
    ensures Sum(xs) >= 0.0
  {
    if xs != [] {
      SumIsNonNegative(xs[..|xs| - 1]);
    }
  }

  lemma MeanIsNonNegative(xs: seq<real>)
    requires NonNegative(xs)
    ensures Mean(xs) >= 0.0
  {
    SumIsNonNegative(xs);
  }

  // ---- The figures in plain sums ----

  lemma {:induction false} SumOfParts(xs: seq<real>, ys: seq<real>)
    ensures Sum(xs + ys) == Sum(xs) + Sum(ys)
    ensures forall x: real :: Sum([x]) == x
  {
    if ys == [] {
      assert xs + ys == xs;
    } else {
      assert (xs + ys)[..|xs + ys| - 1] == xs + ys[..|ys| - 1];
      SumOfParts(xs, ys[..|ys| - 1]);
    }
    forall x: real
      ensures Sum([x]) == x
    {
      assert [x][..0] == [];
    }
  }

  lemma MeanTimesLength(xs: seq<real>)
    ensures Mean(xs) * |xs| as real == Sum(xs)
  {
    if xs != [] {
      Quotient(Sum(xs), |xs| as real);
    }
  }

  /** How far the series moved: for an older half with sum o over k days and a recent one with sum r over l
      days, the trajectory is (r / l) / (o / k) - 1, and where the older half is empty or zero it is one for
      any rise. */
  lemma TrajectoryInSums(xs: seq<real>, t: real, o: real, r: real, k: real, l: real)
    requires NonNegative(xs) && xs != [] && t == Trajectory(xs)
    requires k == (|xs| / 2) as real && l == (|xs| - |xs| / 2) as real
    requires o == Sum(xs[..|xs| / 2]) && r == Sum(xs[|xs| / 2..])
    ensures o > 0.0 ==> (t + 1.0) * (o * l) == r * k
    ensures o == 0.0 ==> t == if r > 0.0 then 1.0 else 0.0
    ensures o >= 0.0
  {
    var older, recent := xs[..|xs| / 2], xs[|xs| / 2..];
    MeanTimesLength(older);
    MeanTimesLength(recent);
    SumIsNonNegative(older);
    SumIsNonNegative(recent);
    MeanIsNonNegative(older);
    MeanIsNonNegative(recent);
    var a, b := Mean(older), Mean(recent);
    hide Mean, Sum;
    MeanSigns(a, k, o);
    MeanSigns(b, l, r);
    if o > 0.0 {
      Quotient(b - a, a);
      GrowthInSums(t, a, b, k, l, o, r);
    }
  }

  lemma MeanSigns(mean: real, n: real, sum: real)
    requires mean * n == sum && mean >= 0.0 && n >= 0.0
    ensures n > 0.0 ==> (mean > 0.0 <==> sum > 0.0)
    ensures n == 0.0 ==> sum == 0.0
  {
    if n > 0.0 && mean > 0.0 {
      TimesPositive(mean, n);
    }
  }

  lemma GrowthInSums(t: real, a: real, b: real, k: real, l: real, o: real, r: real)
    requires t * a == b - a && a * k == o && b * l == r
    ensures (t + 1.0) * (o * l) == r * k
  {
    assert (t + 1.0) * a == b;
    assert (t + 1.0) * (o * l) == ((t + 1.0) * a) * (k * l);
    assert b * (k * l) == (b * l) * k;
  }

  function Squares(xs: seq<real>): (ys: seq<real>)
    ensures |ys| == |xs| && forall i :: 0 <= i < |xs| ==> ys[i] == xs[i] * xs[i]
  {
    Mapped(xs, (x: real) => x * x)
  }

  /** The sum of squared deviations, multiplied out. */
  function FromSums(q: real, s: real, n: real, mean: real): real {
    q - 2.0 * mean * s + n * (mean * mean)
  }

  lemma {:induction false} DeviationsInSums(xs: seq<real>, mean: real)
    ensures SquaredDeviations(xs, mean) == FromSums(Sum(Squares(xs)), Sum(xs), |xs| as real, mean)
  {
    hide FromSums;
    if xs == [] {
      NoDeviations(mean);
    } else {
      var init, x := xs[..|xs| - 1], xs[|xs| - 1];
      DeviationsInSums(init, mean);
      var square, deviation := x * x, (x - mean) * (x - mean);
      assert Squares(xs)[..|init|] == Squares(init) && Squares(xs)[|init|] == square;
      assert Sum(Squares(xs)) == Sum(Squares(init)) + square;
      assert |xs| as real == |init| as real + 1.0;
      assert SquaredDeviations(xs, mean) == SquaredDeviations(init, mean) + deviation;
      OneDeviation(x, mean, Sum(Squares(init)), Sum(init), |init| as real, square, deviation);
    }
  }

  lemma NoDeviations(mean: real)
    ensures FromSums(0.0, 0.0, 0.0, mean) == 0.0
  {
  }

  lemma OneDeviation(x: real, mean: real, q: real, s: real, n: real, square: real, deviation: real)
    requires square == x * x && deviation == (x - mean) * (x - mean)
    ensures FromSums(q + square, s + x, n + 1.0, mean) == FromSums(q, s, n, mean) + deviation
  {
    assert deviation == square - 2.0 * mean * x + mean * mean;
    assert 2.0 * mean * (s + x) == 2.0 * mean * s + 2.0 * mean * x;
    assert (n + 1.0) * (mean * mean) == n * (mean * mean) + mean * mean;
  }

  /** The variance without a mean: n^2 times it is n times the sum of squares less the square of the sum. */
  lemma VarianceInSums(xs: seq<real>, n: real, s: real, q: real)
    requires xs != [] && n == |xs| as real && s == Sum(xs) && q == Sum(Squares(xs))
    ensures n * n * Variance(xs) == n * q - s * s
  {
    hide Mean, Variance, Sum, SquaredDeviations, Squares, FromSums;
    var mean := Mean(xs);
    MeanTimesLength(xs);
    VarianceTimesLength(xs);
    DeviationsInSums(xs, mean);
    CombineSums(n, s, q, mean, SquaredDeviations(xs, mean), Variance(xs));
  }

  lemma VarianceTimesLength(xs: seq<real>)
    requires xs != []
    ensures Variance(xs) * |xs| as real == SquaredDeviations(xs, Mean(xs))
  {
    hide Mean, SquaredDeviations;
    Quotient(SquaredDeviations(xs, Mean(xs)), |xs| as real);
  }

  lemma CombineSums(n: real, s: real, q: real, mean: real, d: real, v: real)
    requires mean * n == s && v * n == d && d == FromSums(q, s, n, mean)
    ensures n * n * v == n * q - s * s
  {
    assert n * n * v == n * d;
    assert n * (2.0 * mean * s) == 2.0 * s * s by {
      assert n * (2.0 * mean * s) == 2.0 * (mean * n) * s;
    }
    assert n * (n * (mean * mean)) == s * s by {
      assert n * (n * (mean * mean)) == (mean * n) * (mean * n);
    }
    assert n * d == n * q - n * (2.0 * mean * s) + n * (n * (mean * mean));
  }

  /** The days on which drift was flagged, by position. */
  function Drifting(series: seq<Day>): set<nat> {
    set i: nat | i < |series| && series[i].drift
  }

  lemma {:induction false} DriftDaysAreCounted(series: seq<Day>)
    ensures DriftDays(series) == |Drifting(series)|
  {
    if series == [] {
      assert Drifting(series) == {};
    } else {
      var last := |series| - 1;
      DriftDaysAreCounted(series[..last]);
      var more := if series[last].drift then {last} else {};
      assert Drifting(series) == Drifting(series[..last]) + more;
    }
  }

  /** The plain figures of a profile: days, drift days, totals, the three trajectories to three places, each in
      its own field, and the window from the first to the last date. */
  lemma ProfileShowsWindow(series: seq<Day>, c: Config)
    requires Averages(c.decay, |series|)
    ensures var p := ProfileOf(series, c);
            && p.seriesDays == |series| && p.driftDays == |Drifting(series)|
            && p.from == series[0].date && p.to == series[|series| - 1].date
            && p.totalEvents == Sum(Events(series)) && p.totalAnomalies == Sum(Anomalies(series))
            && p.trajectoryEvents == Round(Trajectory(Events(series)), 3)
            && p.trajectorySeverity == Round(Trajectory(Severities(series)), 3)
            && p.trajectoryAnomalies == Round(Trajectory(Anomalies(series)), 3)
  {
    DriftDaysAreCounted(series);
    hide DriftDays, Sum, Ewma, Round, Trajectory, PatternOf;
  }

  /** The pattern in plain sums, without a mean, a quotient or a root: with s events over n days and q the sum
      of their squares, sparse below the threshold, else rising if events or anomalies moved up enough, else
      volatile if n q - s^2 exceeds the square of the threshold times s. */
  lemma PatternInSums(series: seq<Day>, c: Config, n: real, s: real, q: real)
    requires series != [] && n == |series| as real && c.volatile >= 0.0
    requires s == Sum(Events(series)) >= 0.0 && q == Sum(Squares(Events(series)))
    ensures var p := PatternOf(series, c);
            var rises := Trajectory(Events(series)) > c.rising || Trajectory(Anomalies(series)) > c.rising;
            && (p == Sparse <==> FewerPerDay(s, n, c.sparse))
            && (p == Rising <==> !FewerPerDay(s, n, c.sparse) && rises)
            && (p == Volatile <==> !FewerPerDay(s, n, c.sparse) && !rises && s > 0.0 && Varies(n, s, q, c.volatile))
  {
    hide Mean, Variance, Sum, Trajectory, Squares, Exceeds, FewerPerDay, Varies;
    EventsInSums(Events(series), n, s, q, c.sparse, c.volatile);
  }

  lemma EventsInSums(es: seq<real>, n: real, s: real, q: real, perDay: real, t: real)
    requires es != [] && n == |es| as real && s == Sum(es) >= 0.0 && q == Sum(Squares(es)) && t >= 0.0
    ensures Mean(es) < perDay <==> FewerPerDay(s, n, perDay)
    ensures Exceeds(Variance(es), Mean(es), t) <==> s > 0.0 && Varies(n, s, q, t)
  {
    hide Mean, Variance, Sum, Squares, Exceeds, FewerPerDay, Varies;
    MeanTimesLength(es);
    VarianceInSums(es, n, s, q);
    SparseInSums(Mean(es), n, s, perDay);
    ExceedsInSums(Mean(es), Variance(es), n, s, q, t);
  }

  predicate FewerPerDay(s: real, n: real, perDay: real) {
    s < perDay * n
  }

  predicate Varies(n: real, s: real, q: real, t: real) {
    n * q - s * s > (t * s) * (t * s)
  }

  lemma SparseInSums(mean: real, n: real, s: real, perDay: real)
    requires n > 0.0 && mean * n == s
    ensures mean < perDay <==> FewerPerDay(s, n, perDay)
  {
    Product(n, perDay, mean);
  }

  lemma ExceedsInSums(mean: real, v: real, n: real, s: real, q: real, t: real)
    requires n > 0.0 && t >= 0.0 && s >= 0.0 && mean * n == s && n * n * v == n * q - s * s
    ensures Exceeds(v, mean, t) <==> s > 0.0 && Varies(n, s, q, t)
  {
    Product(n, mean, 0.0);
    if s > 0.0 {
      var x := t * mean;
      TimesPositive(n, n);
      Scaling(n, t, mean, s, x);
      Product(n * n, v, x * x);
      assert v * (n * n) == n * n * v;
    }
  }

  lemma Scaling(n: real, t: real, mean: real, s: real, x: real)
    requires mean * n == s && x == t * mean
    ensures x * x * (n * n) == (t * s) * (t * s)
  {
    assert x * n == t * s by {
      assert x * n == t * (mean * n);
    }
    assert x * x * (n * n) == (x * n) * (x * n);
  }
}
