/** The premium of src/lib/premium-pricing.ts and the plausibility check of src/calibration/fitter.ts
  that decides which configurations may price, over exact reals; log1p is a parameter. */
module PremiumPricing {
  import opened Common
  import opened RiskProfiles

  datatype VesselClassConfig = VesselClassConfig(
    baseRate: real, exposure: real, coverageDays: real,
    kFreq: real, freqAnchor: real, kSev: real, sevAnchor: real, kAnom: real,
    multipliers: seq<(string, real)>)

  datatype Signals = Signals(events: real, severity: real, anomalyRate: real, pattern: string)

  datatype Quote = Quote(base: real, frequency: real, severity: real, multiplier: real, anomalyLoad: real, total: real)

  // ---- Pricing ----

  const FLOOR := 0.5

  const TINY := 0.000000001

  function Max(a: real, b: real): real {
    if a >= b then a else b
  }

  /** The multiplier stored for a pattern, 1 when there is none. */
  function Multiplier(entries: seq<(string, real)>, pattern: string): real {
    if entries == [] then 1.0
    else if entries[0].0 == pattern then entries[0].1
    else Multiplier(entries[1..], pattern)
  }

  function BasePremium(c: VesselClassConfig): real {
    c.baseRate * c.exposure * c.coverageDays
  }

  /** A signal in units of its anchor, which is kept away from zero. */
  function Relative(x: real, anchor: real): real {
    x / Max(anchor, TINY)
  }

  function Linear(k: real, r: real): real {
    1.0 + k * (r - 1.0)
  }

  function Frequency(c: VesselClassConfig, events: real, log1p: real -> real): real {
    1.0 + c.kFreq * log1p(Relative(events, c.freqAnchor))
  }

  function Severity(c: VesselClassConfig, severity: real): real {
    Linear(c.kSev, Relative(severity, c.sevAnchor))
  }

  function Load(c: VesselClassConfig, rate: real): real {
    c.kAnom * rate
  }

  function Combined(c: VesselClassConfig, s: Signals, log1p: real -> real): real {
    Times(
      Frequency(c, s.events, log1p), Severity(c, s.severity), Multiplier(c.multipliers, s.pattern),
      1.0 + Load(c, s.anomalyRate))
  }

  function Times(frequency: real, severity: real, multiplier: real, load: real): real {
    frequency * severity * multiplier * load
  }

  /** The premium before rounding. */
  function Premium(c: VesselClassConfig, s: Signals, log1p: real -> real): real {
    Charged(BasePremium(c), Combined(c, s, log1p))
  }

  function Charged(base: real, combined: real): real {
    Max(base * combined, base * FLOOR)
  }

  function PriceFromProfile(c: VesselClassConfig, s: Signals, log1p: real -> real): Quote {
    Quote(
      Round(BasePremium(c), 2), Round(Frequency(c, s.events, log1p), 4), Round(Severity(c, s.severity), 4),
      Round(Multiplier(c.multipliers, s.pattern), 4), Round(Load(c, s.anomalyRate), 4),
      Round(Premium(c, s, log1p), 2))
  }

  // ---- Validation ----

  datatype Field = BaseRate | KFreq | FreqAnchor | KSev | SevAnchor | KAnom | Exposure | CoverageDays
    | VesselYears | PatternMultiplier(pattern: string)

  datatype Level = Error | Warning

  datatype Problem = Problem(field: Field, level: Level)

  function PushIf(problems: seq<Problem>, failed: bool, field: Field, level: Level): (r: seq<Problem>)
    ensures forall p :: p in r <==> p in problems || (failed && p == Problem(field, level))
  {
    if failed then problems + [Problem(field, level)] else problems
  }

  /** The checks before the loop over the multipliers. */
  function RateProblems(c: VesselClassConfig): (r: seq<Problem>)
    ensures forall p :: p in r <==> FaultyRate(c, p)
  {
    hide PushIf;
    var r := PushIf([], c.baseRate <= 0.0, BaseRate, Error);
    var r := PushIf(r, 0.0 < c.baseRate && (c.baseRate < 0.01 || c.baseRate > 100.0), BaseRate, Warning);
    var r := PushIf(r, c.kFreq < 0.0, KFreq, Error);
    var r := PushIf(r, c.kFreq > 2.0, KFreq, Warning);
    var r := PushIf(r, c.freqAnchor <= 0.0, FreqAnchor, Error);
    var r := PushIf(r, c.kSev < 0.0, KSev, Error);
    var r := PushIf(r, c.kSev > 3.0, KSev, Warning);
    PushIf(r, c.sevAnchor <= 0.0, SevAnchor, Error)
  }

  /** The checks after it. */
  function OtherProblems(c: VesselClassConfig, vesselYears: int): (r: seq<Problem>)
    ensures forall p :: p in r <==> FaultyOther(c, vesselYears, p)
  {
    hide PushIf;
    var r := PushIf([], c.kAnom < 0.0, KAnom, Error);
    var r := PushIf(r, c.kAnom > 50.0, KAnom, Warning);
    var r := PushIf(r, c.exposure <= 0.0, Exposure, Error);
    var r := PushIf(r, c.coverageDays <= 0.0, CoverageDays, Error);
    PushIf(r, vesselYears < 50, VesselYears, Warning)
  }

  method ValidateCalibratedConfig(c: VesselClassConfig, vesselYears: int) returns (problems: seq<Problem>)
    ensures forall p :: p in problems <==> Faulty(c, vesselYears, p)
  {
    hide PushIf, FaultyMultiplier, FaultyRate, FaultyOther, RateProblems, OtherProblems;
    problems := RateProblems(c);
    OnlyMultipliers([]);
    assert c.multipliers[..0] == [];
    for i := 0 to |c.multipliers|
      invariant forall p :: p in problems <==> FaultyRate(c, p) || FaultyMultiplier(c.multipliers[..i], p)
    {
      var (pattern, mult) := c.multipliers[i];
      problems := PushIf(problems, mult <= 0.0, PatternMultiplier(pattern), Error);
      problems := PushIf(problems, 0.0 < mult && (mult < 0.5 || mult > 5.0), PatternMultiplier(pattern), Warning);
      FaultyMultiplierStep(c.multipliers, i);
    }
    assert c.multipliers[..|c.multipliers|] == c.multipliers;
    problems := problems + OtherProblems(c, vesselYears);
  }

  lemma OnlyMultipliers(entries: seq<(string, real)>)
    ensures forall p :: FaultyMultiplier(entries, p) ==> p.field.PatternMultiplier? && entries != []
  {
  }

  /** p is what entry e fails. */
  predicate FailedBy(e: (string, real), p: Problem) {
    p.field == PatternMultiplier(e.0) && MultiplierLevel(e.1, p.level)
  }

  lemma FaultyMultiplierStep(entries: seq<(string, real)>, i: nat)
    requires i < |entries|
    ensures forall p ::
      FaultyMultiplier(entries[..i + 1], p) <==> FaultyMultiplier(entries[..i], p) || FailedBy(entries[i], p)
  {
    forall p: Problem
      ensures FaultyMultiplier(entries[..i + 1], p) <==> FaultyMultiplier(entries[..i], p) || FailedBy(entries[i], p)
    {
      var before, after := entries[..i], entries[..i + 1];
      if k :| 0 <= k < |before| && FailedBy(before[k], p) {
        assert FailedBy(after[k], p);
      }
      if FailedBy(entries[i], p) {
        assert FailedBy(after[i], p);
      }
      if k :| 0 <= k < |after| && FailedBy(after[k], p) {
        assert k < i ==> FailedBy(before[k], p);
      }
    }
  }

  ghost predicate FaultyMultiplier(entries: seq<(string, real)>, p: Problem) {
    exists i :: 0 <= i < |entries| && FailedBy(entries[i], p)
  }

  predicate MultiplierLevel(mult: real, level: Level) {
    match level
    case Error => mult <= 0.0
    case Warning => 0.0 < mult < 0.5 || mult > 5.0
  }

  ghost predicate FaultyRate(c: VesselClassConfig, p: Problem) {
    match p.field
    case BaseRate => if p.level == Error then c.baseRate <= 0.0 else 0.0 < c.baseRate < 0.01 || c.baseRate > 100.0
    case KFreq => if p.level == Error then c.kFreq < 0.0 else c.kFreq > 2.0
    case KSev => if p.level == Error then c.kSev < 0.0 else c.kSev > 3.0
    case FreqAnchor => p.level == Error && c.freqAnchor <= 0.0
    case SevAnchor => p.level == Error && c.sevAnchor <= 0.0
    case _ => false
  }

  ghost predicate FaultyOther(c: VesselClassConfig, vesselYears: int, p: Problem) {
    match p.field
    case KAnom => if p.level == Error then c.kAnom < 0.0 else c.kAnom > 50.0
    case Exposure => p.level == Error && c.exposure <= 0.0
    case CoverageDays => p.level == Error && c.coverageDays <= 0.0
    case VesselYears => p.level == Warning && vesselYears < 50
    case _ => false
  }

  /** Which problems a configuration has, field by field. */
  ghost predicate Faulty(c: VesselClassConfig, vesselYears: int, p: Problem) {
    FaultyRate(c, p) || FaultyMultiplier(c.multipliers, p) || FaultyOther(c, vesselYears, p)
  }

  function Only(problems: seq<Problem>, level: Level): seq<Problem> {
    if problems == [] then []
    else (if problems[0].level == level then [problems[0]] else []) + Only(problems[1..], level)
  }

  lemma {:induction false} OnlyKeeps(problems: seq<Problem>, level: Level)
    ensures forall p :: p in Only(problems, level) <==> p in problems && p.level == level
  {
    if problems != [] {
      OnlyKeeps(problems[1..], level);
      assert problems == [problems[0]] + problems[1..];
    }
  }

  /** The split loses nothing, invents nothing and puts each problem on its own side. */
  lemma {:induction false} PartitionIsExact(problems: seq<Problem>)
    ensures multiset(Only(problems, Error)) + multiset(Only(problems, Warning)) == multiset(problems)
    ensures forall level, p :: p in Only(problems, level) <==> p in problems && p.level == level
  {
    forall level
      ensures forall p :: p in Only(problems, level) <==> p in problems && p.level == level
    {
      OnlyKeeps(problems, level);
    }
    SplitKeepsAll(problems);
  }

  lemma {:induction false} SplitKeepsAll(problems: seq<Problem>)
    ensures multiset(Only(problems, Error)) + multiset(Only(problems, Warning)) == multiset(problems)
  {
    hide Only;
    NothingToSplit();
    if problems != [] {
      var p, rest := problems[0], problems[1..];
      SplitKeepsAll(rest);
      assert problems == [p] + rest;
      OnlyFirst(problems, Error);
      OnlyFirst(problems, Warning);
    }
  }

  lemma NothingToSplit()
    ensures Only([], Error) == [] && Only([], Warning) == []
  {
  }

  lemma OnlyFirst(problems: seq<Problem>, level: Level)
    requires problems != []
    ensures var first := if problems[0].level == level then multiset{problems[0]} else multiset{};
            multiset(Only(problems, level)) == multiset(Only(problems[1..], level)) + first
  {
  }

  /** What a configuration without errors guarantees. */
  ghost predicate Sane(c: VesselClassConfig) {
    && c.baseRate > 0.0 && c.exposure > 0.0 && c.coverageDays > 0.0
    && c.kFreq >= 0.0 && c.freqAnchor > 0.0 && c.kSev >= 0.0 && c.sevAnchor > 0.0 && c.kAnom >= 0.0
    && forall i :: 0 <= i < |c.multipliers| ==> c.multipliers[i].1 > 0.0
  }

  lemma NoErrorsIffSane(c: VesselClassConfig, vesselYears: int, problems: seq<Problem>)
    requires forall p :: p in problems <==> Faulty(c, vesselYears, p)
    ensures Only(problems, Error) == [] <==> Sane(c)
  {
    OnlyKeeps(problems, Error);
    ErrorFreeIffSane(c, vesselYears);
    var errors := Only(problems, Error);
    if errors == [] {
      forall field: Field
        ensures !Faulty(c, vesselYears, Problem(field, Error))
      {
        assert Problem(field, Error) !in errors;
      }
    } else {
      assert errors[0] in errors;
      assert Faulty(c, vesselYears, Problem(errors[0].field, Error));
    }
  }

  lemma ErrorFreeIffSane(c: VesselClassConfig, vesselYears: int)
    ensures Sane(c) <==> forall field :: !Faulty(c, vesselYears, Problem(field, Error))
  {
    if forall field :: !Faulty(c, vesselYears, Problem(field, Error)) {
      assert !Faulty(c, vesselYears, Problem(BaseRate, Error)) && !Faulty(c, vesselYears, Problem(Exposure, Error));
      assert !Faulty(c, vesselYears, Problem(CoverageDays, Error)) && !Faulty(c, vesselYears, Problem(KFreq, Error));
      assert !Faulty(c, vesselYears, Problem(FreqAnchor, Error)) && !Faulty(c, vesselYears, Problem(KSev, Error));
      assert !Faulty(c, vesselYears, Problem(SevAnchor, Error)) && !Faulty(c, vesselYears, Problem(KAnom, Error));
      forall i | 0 <= i < |c.multipliers|
        ensures c.multipliers[i].1 > 0.0
      {
        var p := Problem(PatternMultiplier(c.multipliers[i].0), Error);
        assert !Faulty(c, vesselYears, p) && (FailedBy(c.multipliers[i], p) <==> c.multipliers[i].1 <= 0.0);
      }
    }
  }

  // ---- What a sane configuration charges ----

  ghost predicate IsLog1p(log1p: real -> real) {
    && log1p(0.0) == 0.0
    && forall x, y :: 0.0 <= x <= y ==> log1p(x) <= log1p(y)
  }

  ghost predicate Observed(s: Signals) {
    s.events >= 0.0 && s.severity >= 0.0 && s.anomalyRate >= 0.0
  }

  lemma BaseIsPositive(c: VesselClassConfig)
    requires Sane(c)
    ensures BasePremium(c) > 0.0
  {
    TimesPositive(c.baseRate, c.exposure);
    TimesPositive(c.baseRate * c.exposure, c.coverageDays);
  }

  lemma {:induction false} MultiplierIsPositive(entries: seq<(string, real)>, pattern: string)
    requires forall i :: 0 <= i < |entries| ==> entries[i].1 > 0.0
    ensures Multiplier(entries, pattern) > 0.0
  {
    if entries != [] {
      MultiplierIsPositive(entries[1..], pattern);
    }
  }

  lemma FrequencyGrows(c: VesselClassConfig, e: real, f: real, log1p: real -> real)
    requires Sane(c) && IsLog1p(log1p) && 0.0 <= e <= f
    ensures 1.0 <= Frequency(c, e, log1p) <= Frequency(c, f, log1p)
  {
    var anchor := Max(c.freqAnchor, TINY);
    QuotientOrder(0.0, e, anchor);
    QuotientOrder(e, f, anchor);
    TimesNonNegative(c.kFreq, log1p(e / anchor));
    TimesOrdered(c.kFreq, log1p(e / anchor), log1p(f / anchor));
  }

  lemma SeverityGrows(c: VesselClassConfig, e: real, f: real)
    requires Sane(c) && e <= f
    ensures Severity(c, e) <= Severity(c, f)
  {
    var anchor := Max(c.sevAnchor, TINY);
    QuotientOrder(e, f, anchor);
    TimesOrdered(c.kSev, e / anchor - 1.0, f / anchor - 1.0);
  }

  lemma LoadGrows(c: VesselClassConfig, e: real, f: real)
    requires Sane(c) && 0.0 <= e <= f
    ensures 0.0 <= Load(c, e) <= Load(c, f)
  {
    TimesNonNegative(c.kAnom, e);
    TimesOrdered(c.kAnom, e, f);
  }

  /** A product f * s * m * a of a factor of either sign with non-negative ones: larger factors never
    lower it once it is cut off at a non-negative floor. */
  lemma CutProductGrows(f: real, s: real, m: real, a: real, f': real, s': real, a': real, floor: real)
    requires 0.0 <= f <= f' && s <= s' && 0.0 <= m && 0.0 <= a <= a' && floor >= 0.0
    ensures Max(Times(f, s, m, a), floor) <= Max(Times(f', s', m, a'), floor)
  {
    if s <= 0.0 {
      StaysNonPositive(s, f);
      StaysNonPositive(f * s, m);
      StaysNonPositive(f * s * m, a);
    } else {
      ProductGrows(f, f', s, s');
      ProductGrows(f * s, f' * s', m, m);
      ProductGrows(f * s * m, f' * s' * m, a, a');
    }
  }

  lemma StaysNonPositive(x: real, factor: real)
    requires x <= 0.0 && factor >= 0.0
    ensures x * factor <= 0.0
    ensures factor * x <= 0.0
  {
    TimesNonNegative(-x, factor);
  }

  lemma ProductGrows(x: real, y: real, u: real, v: real)
    requires 0.0 <= x <= y && 0.0 <= u <= v
    ensures 0.0 <= x * u <= y * v
  {
    TimesNonNegative(x, u);
    TimesOrdered(x, u, v);
    TimesOrdered(v, x, y);
  }

  lemma CombinedGrows(c: VesselClassConfig, s: Signals, t: Signals, log1p: real -> real)
    requires Sane(c) && IsLog1p(log1p) && Observed(s) && s.pattern == t.pattern
    requires s.events <= t.events && s.severity <= t.severity && s.anomalyRate <= t.anomalyRate
    ensures Max(Combined(c, s, log1p), FLOOR) <= Max(Combined(c, t, log1p), FLOOR)
  {
    hide Frequency, Severity, Load, Multiplier, Times;
    MultiplierIsPositive(c.multipliers, s.pattern);
    FrequencyGrows(c, s.events, t.events, log1p);
    SeverityGrows(c, s.severity, t.severity);
    LoadGrows(c, s.anomalyRate, t.anomalyRate);
    CutProductGrows(
      Frequency(c, s.events, log1p), Severity(c, s.severity), Multiplier(c.multipliers, s.pattern),
      1.0 + Load(c, s.anomalyRate), Frequency(c, t.events, log1p), Severity(c, t.severity),
      1.0 + Load(c, t.anomalyRate), FLOOR);
  }

  /** The premium never falls below half the base, and more events, more severity per event and a
    higher anomaly rate, alone or together, never lower it, rounded or not. The severity factor may be
    negative. */
  lemma PremiumIsMonotone(c: VesselClassConfig, s: Signals, t: Signals, log1p: real -> real)
    requires Sane(c) && IsLog1p(log1p) && Observed(s) && s.pattern == t.pattern
    requires s.events <= t.events && s.severity <= t.severity && s.anomalyRate <= t.anomalyRate
    ensures 0.0 < BasePremium(c) / 2.0 <= Premium(c, s, log1p) <= Premium(c, t, log1p)
    ensures PriceFromProfile(c, s, log1p).total <= PriceFromProfile(c, t, log1p).total
  {
    hide Combined, BasePremium, Round, Charged;
    BaseIsPositive(c);
    TimesPositive(BasePremium(c), FLOOR);
    CombinedGrows(c, s, t, log1p);
    ChargedGrows(BasePremium(c), Combined(c, s, log1p), Combined(c, t, log1p));
    RoundKeepsOrder(Premium(c, s, log1p), Premium(c, t, log1p), 2);
  }

  lemma ChargedGrows(base: real, x: real, y: real)
    requires base > 0.0 && Max(x, FLOOR) <= Max(y, FLOOR)
    ensures base * FLOOR <= Charged(base, x) <= Charged(base, y)
  {
    CutScales(base, x);
    CutScales(base, y);
    TimesOrdered(base, Max(x, FLOOR), Max(y, FLOOR));
  }

  lemma CutScales(base: real, x: real)
    requires base > 0.0
    ensures Charged(base, x) == base * Max(x, FLOOR)
  {
    if x >= FLOOR {
      TimesOrdered(base, FLOOR, x);
    } else {
      TimesOrdered(base, x, FLOOR);
    }
  }

  // ---- What each signal is worth ----

  /** The stored multiplier of a pattern, and 1 for a pattern that is not stored. */
  lemma {:induction false} MultiplierIsStored(entries: seq<(string, real)>, pattern: string)
    requires forall i, j :: 0 <= i < j < |entries| ==> entries[i].0 != entries[j].0
    ensures forall i :: 0 <= i < |entries| && entries[i].0 == pattern ==> Multiplier(entries, pattern) == entries[i].1
    ensures (forall i :: 0 <= i < |entries| ==> entries[i].0 != pattern) ==> Multiplier(entries, pattern) == 1.0
  {
    if entries != [] {
      MultiplierIsStored(entries[1..], pattern);
      assert forall i :: 1 <= i < |entries| ==> entries[i] == entries[1..][i - 1];
    }
  }

  /** The signals that change nothing: no event, severity at its anchor, no anomaly. */
  function Neutral(c: VesselClassConfig, pattern: string): Signals {
    Signals(0.0, c.sevAnchor, 0.0, pattern)
  }

  /** The base times a factor, and at least half of the base. */
  function AtLeastHalf(base: real, factor: real): real {
    if base * factor >= base / 2.0 then base * factor else base / 2.0
  }

  // The laws of the three signals and of the base.

  predicate IsBase(c: VesselClassConfig, base: real) {
    base == c.baseRate * c.exposure * c.coverageDays
  }

  predicate FrequencyLaw(c: VesselClassConfig, events: real, log1p: real -> real, factor: real)
    requires c.freqAnchor >= 0.000000001
  {
    factor == 1.0 + c.kFreq * log1p(events / c.freqAnchor)
  }

  predicate SeverityLaw(c: VesselClassConfig, severity: real, factor: real)
    requires c.sevAnchor >= 0.000000001
  {
    factor == 1.0 + c.kSev * (severity / c.sevAnchor - 1.0)
  }

  predicate AnomalyLaw(c: VesselClassConfig, rate: real, factor: real) {
    factor == 1.0 + c.kAnom * rate
  }

  /** Main result on the price itself, one signal at a time, the others neutral: each scales the base by its
      own law, down to half the base and no lower. */
  lemma OneSignalPrices(c: VesselClassConfig, pattern: string, x: real, log1p: real -> real,
                        base: real, f: real, v: real, a: real)
    requires IsLog1p(log1p) && c.freqAnchor >= 0.000000001 && c.sevAnchor >= 0.000000001
    requires IsBase(c, base) && FrequencyLaw(c, x, log1p, f) && SeverityLaw(c, x, v) && AnomalyLaw(c, x, a)
    ensures var m, n := Multiplier(c.multipliers, pattern), Neutral(c, pattern);
            && Premium(c, n, log1p) == AtLeastHalf(base, m)
            && (m == 1.0 ==>
                  && Premium(c, n.(events := x), log1p) == AtLeastHalf(base, f)
                  && Premium(c, n.(severity := x), log1p) == AtLeastHalf(base, v)
                  && Premium(c, n.(anomalyRate := x), log1p) == AtLeastHalf(base, a))
  {
    hide Frequency, Severity, Load, Times, Multiplier, Charged, BasePremium, AtLeastHalf;
    hide IsBase, FrequencyLaw, SeverityLaw, AnomalyLaw, IsLog1p;
    var m := Multiplier(c.multipliers, pattern);
    BaseIs(c, base);
    FrequencyIs(c, x, log1p, f);
    SeverityIs(c, x, v);
    LoadIs(c, x, a);
    NeutralFactors(c, log1p);
    OneFactor(m);
    OneFactor(f);
    OneFactor(v);
    OneFactor(a);
    ChargedIs(base, m);
    ChargedIs(base, f);
    ChargedIs(base, v);
    ChargedIs(base, a);
  }

  lemma ChargedIs(base: real, x: real)
    ensures Charged(base, x) == AtLeastHalf(base, x)
  {
  }

  lemma BaseIs(c: VesselClassConfig, base: real)
    requires IsBase(c, base)
    ensures BasePremium(c) == base
  {
  }

  lemma FrequencyIs(c: VesselClassConfig, x: real, log1p: real -> real, f: real)
    requires c.freqAnchor >= 0.000000001 && FrequencyLaw(c, x, log1p, f)
    ensures Frequency(c, x, log1p) == f
  {
  }

  lemma SeverityIs(c: VesselClassConfig, x: real, v: real)
    requires c.sevAnchor >= 0.000000001 && SeverityLaw(c, x, v)
    ensures Severity(c, x) == v
  {
  }

  lemma LoadIs(c: VesselClassConfig, x: real, a: real)
    requires AnomalyLaw(c, x, a)
    ensures 1.0 + Load(c, x) == a
  {
  }

  lemma NeutralFactors(c: VesselClassConfig, log1p: real -> real)
    requires IsLog1p(log1p) && c.freqAnchor >= 0.000000001 && c.sevAnchor >= 0.000000001
    ensures Frequency(c, 0.0, log1p) == 1.0 && Severity(c, c.sevAnchor) == 1.0 && Load(c, 0.0) == 0.0
  {
    NeutralSeverity(c);
    hide Severity;
    NeutralEvents(c, log1p);
    LoadIs(c, 0.0, 1.0);
    hide Frequency, Load;
  }

  lemma NeutralEvents(c: VesselClassConfig, log1p: real -> real)
    requires IsLog1p(log1p) && c.freqAnchor >= 0.000000001
    ensures Frequency(c, 0.0, log1p) == 1.0
  {
  }

  lemma NeutralSeverity(c: VesselClassConfig)
    requires c.sevAnchor >= 0.000000001
    ensures Severity(c, c.sevAnchor) == 1.0
  {
    SelfQuotient(c.sevAnchor);
    assert Relative(c.sevAnchor, c.sevAnchor) == 1.0;
    LinearAtOne(c.kSev);
    hide Linear, Relative;
  }

  lemma LinearAtOne(k: real)
    ensures Linear(k, 1.0) == 1.0
  {
  }

  lemma OneFactor(x: real)
    ensures Times(x, 1.0, 1.0, 1.0) == Times(1.0, x, 1.0, 1.0) == x
    ensures Times(1.0, 1.0, x, 1.0) == Times(1.0, 1.0, 1.0, x) == x
  {
  }

  /** Together the signals multiply: in units of the base, the price of all of them is the product of the
      prices of each alone, as long as the floor is not reached. */
  lemma SignalsMultiply(c: VesselClassConfig, s: Signals, plain: string, log1p: real -> real)
    requires IsLog1p(log1p) && c.freqAnchor >= 0.000000001 && c.sevAnchor >= 0.000000001
    requires BasePremium(c) > 0.0 && Multiplier(c.multipliers, plain) == 1.0
    ensures var n, base := Neutral(c, plain), BasePremium(c);
            var all, e := Premium(c, s, log1p), Premium(c, n.(events := s.events), log1p);
            var v, a := Premium(c, n.(severity := s.severity), log1p),
              Premium(c, n.(anomalyRate := s.anomalyRate), log1p);
            var p := Premium(c, n.(pattern := s.pattern), log1p);
            Unfloored(base, all) && Unfloored(base, e) && Unfloored(base, v) && Unfloored(base, p) && Unfloored(base, a)
            ==> InUnits(base, all) == Times(InUnits(base, e), InUnits(base, v), InUnits(base, p), InUnits(base, a))
  {
    hide Frequency, Severity, Load, Multiplier, BasePremium, Times, Charged, InUnits, Unfloored;
    NeutralFactors(c, log1p);
    var f, v, m, a := Frequency(c, s.events, log1p), Severity(c, s.severity), Multiplier(c.multipliers, s.pattern),
      1.0 + Load(c, s.anomalyRate);
    OneFactor(f);
    OneFactor(v);
    OneFactor(m);
    OneFactor(a);
    ChargedInUnits(BasePremium(c), Times(f, v, m, a));
    ChargedInUnits(BasePremium(c), f);
    ChargedInUnits(BasePremium(c), v);
    ChargedInUnits(BasePremium(c), m);
    ChargedInUnits(BasePremium(c), a);
  }

  predicate Unfloored(base: real, premium: real) {
    premium > base / 2.0
  }

  function InUnits(base: real, premium: real): real
    requires base > 0.0
  {
    premium / base
  }

  lemma ChargedInUnits(base: real, x: real)
    requires base > 0.0
    ensures Unfloored(base, Charged(base, x)) ==> InUnits(base, Charged(base, x)) == x
  {
    if Unfloored(base, Charged(base, x)) {
      assert Charged(base, x) == x * base;
      Quotient(x * base, base);
      Product(base, x * base / base, x);
      Product(base, x, x * base / base);
    }
  }

  /** The breakdown of a quote shows the factors of its total, each rounded to its own places. */
  lemma QuoteShowsFactors(c: VesselClassConfig, s: Signals, log1p: real -> real, base: real, f: real, v: real, a: real)
    requires c.freqAnchor >= 0.000000001 && c.sevAnchor >= 0.000000001
    requires IsBase(c, base) && FrequencyLaw(c, s.events, log1p, f)
    requires SeverityLaw(c, s.severity, v) && AnomalyLaw(c, s.anomalyRate, a)
    ensures var m, q := Multiplier(c.multipliers, s.pattern), PriceFromProfile(c, s, log1p);
            && q.base == Round(base, 2) && q.frequency == Round(f, 4) && q.severity == Round(v, 4)
            && q.multiplier == Round(m, 4) && q.anomalyLoad == Round(a - 1.0, 4)
            && q.total == Round(AtLeastHalf(base, Times(f, v, m, a)), 2)
  {
    hide Frequency, Severity, Load, Times, Multiplier, Charged, BasePremium, AtLeastHalf, Round;
    hide IsBase, FrequencyLaw, SeverityLaw, AnomalyLaw;
    BaseIs(c, base);
    FrequencyIs(c, s.events, log1p, f);
    SeverityIs(c, s.severity, v);
    LoadIs(c, s.anomalyRate, a);
    ChargedIs(base, Times(f, v, Multiplier(c.multipliers, s.pattern), a));
  }

  // ---- From the daily series to the premium ----

  function PatternName(p: Pattern): string {
    match p
    case Stable => "stable"
    case Rising => "rising"
    case Volatile => "volatile"
    case Sparse => "sparse"
  }

  function SignalsOf(p: Profile): Signals {
    Signals(p.eventsPerDay, p.severityPerEvent, p.anomalyRate, PatternName(p.pattern))
  }

  lemma EwmaIsMonotone(d: real, xs: seq<real>, ys: seq<real>)
    requires d >= 0.0 && xs != [] && |xs| == |ys|
    requires forall i :: 0 <= i < |xs| ==> xs[i] <= ys[i]
    ensures Ewma(d, xs) <= Ewma(d, ys)
  {
    hide Decayed;
    OnesArePositive(d, |xs|);
    DecayedIsMonotone(d, xs, ys);
    QuotientOrder(Decayed(d, xs), Decayed(d, ys), Decayed(d, Ones(|xs|)));
  }

  lemma EwmaIsNonNegative(d: real, xs: seq<real>)
    requires d >= 0.0 && xs != [] && NonNegative(xs)
    ensures Ewma(d, xs) >= 0.0
  {
    hide Decayed;
    OnesArePositive(d, |xs|);
    DailyBoundsLift(d, Ones(|xs|), Zeros(|xs|), 0.0, 0.0);
    DecayedIsMonotone(d, Zeros(|xs|), xs);
    QuotientOrder(0.0, Decayed(d, xs), Decayed(d, Ones(|xs|)));
  }

  function Zeros(n: nat): (r: seq<real>)
    ensures |r| == n && forall i :: 0 <= i < n ==> r[i] == 0.0
  {
    seq(n, _ => 0.0)
  }

  lemma RatioIsMonotone(a: real, b: real, whole: real)
    requires 0.0 <= a <= b
    ensures 0.0 <= Ratio(a, whole) <= Ratio(b, whole)
  {
    if whole > 0.0 {
      QuotientOrder(0.0, a, whole);
      QuotientOrder(a, b, whole);
    }
  }

  lemma RoundOfNonNegative(x: real, places: nat)
    requires x >= 0.0
    ensures Round(x, places) >= 0.0
  {
    RoundKeepsOrder(0.0, x, places);
    assert 0.0 * Scale(places) == 0.0;
  }

  ghost predicate ValidSeries(series: seq<Day>) {
    series != [] && forall i :: 0 <= i < |series| ==> !Negative(series[i])
  }

  /** A series the profile accepts gives signals that pricing may assume. */
  lemma ProfileIsObserved(series: seq<Day>, risk: Config)
    requires ValidSeries(series) && risk.decay >= 0.0
    ensures Observed(SignalsOf(ProfileOf(series, risk)))
  {
    hide Ewma, Round, Trajectory, Sum, DriftDays, PatternOf, Ratio;
    var d := risk.decay;
    EwmaIsNonNegative(d, Events(series));
    EwmaIsNonNegative(d, Severities(series));
    EwmaIsNonNegative(d, Anomalies(series));
    var e, s, a := Ewma(d, Events(series)), Ewma(d, Severities(series)), Ewma(d, Anomalies(series));
    RatioIsMonotone(s, s, e);
    RatioIsMonotone(a, a, e);
    RoundOfNonNegative(e, 3);
    RoundOfNonNegative(Ratio(s, e), 3);
    RoundOfNonNegative(Ratio(a, e), 4);
  }

  /** Days with the same events and anomalies but more severity. */
  ghost predicate MoreSevere(s: seq<Day>, t: seq<Day>) {
    && |s| == |t|
    && forall i :: 0 <= i < |s| ==>
         t[i].events == s[i].events && t[i].anomalies == s[i].anomalies && s[i].severity <= t[i].severity
  }

  lemma MoreSevereProfile(s: seq<Day>, t: seq<Day>, risk: Config)
    requires ValidSeries(s) && MoreSevere(s, t) && risk.decay >= 0.0
    ensures var p, q := ProfileOf(s, risk), ProfileOf(t, risk);
            p.eventsPerDay == q.eventsPerDay && p.anomalyRate == q.anomalyRate
            && p.pattern == q.pattern && p.severityPerEvent <= q.severityPerEvent
  {
    hide Ewma, Round, Trajectory, Sum, DriftDays, Ratio, Mean, Variance, Exceeds;
    var d := risk.decay;
    assert Events(s) == Events(t) && Anomalies(s) == Anomalies(t);
    EwmaIsNonNegative(d, Severities(s));
    EwmaIsMonotone(d, Severities(s), Severities(t));
    var x, y, e := Ewma(d, Severities(s)), Ewma(d, Severities(t)), Ewma(d, Events(s));
    RatioIsMonotone(x, y, e);
    RoundKeepsOrder(Ratio(x, e), Ratio(y, e), 3);
  }

  /** Main result from the raw days to the quoted total: more severity on any days, everything else
    equal, never lowers the premium, for any risk settings and any configuration that passed the
    check; and the quote is positive whenever half the base does not round to zero. */
  lemma MoreSeverityNeverLowersPremium(s: seq<Day>, t: seq<Day>, risk: Config, c: VesselClassConfig,
                                       log1p: real -> real)
    requires ValidSeries(s) && MoreSevere(s, t) && risk.decay >= 0.0
    requires Sane(c) && IsLog1p(log1p)
    ensures PriceFromProfile(c, SignalsOf(ProfileOf(s, risk)), log1p).total
         <= PriceFromProfile(c, SignalsOf(ProfileOf(t, risk)), log1p).total
    ensures Round(BasePremium(c) / 2.0, 2) <= PriceFromProfile(c, SignalsOf(ProfileOf(s, risk)), log1p).total
  {
    hide ProfileOf, Premium, Round, BasePremium, Combined;
    ProfileIsObserved(s, risk);
    MoreSevereProfile(s, t, risk);
    var x, y := SignalsOf(ProfileOf(s, risk)), SignalsOf(ProfileOf(t, risk));
    PremiumIsMonotone(c, x, y, log1p);
    RoundKeepsOrder(BasePremium(c) / 2.0, Premium(c, x, log1p), 2);
  }
}
