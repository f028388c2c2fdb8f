/** Trust badges: the state decision and the only writer of the registry and its history
  (src/lib/badge-sync.ts), the signing secrets (src/lib/badge-secrets.ts) and boot-time
  secret rotation (src/lib/badge-rotation.ts). */
module BadgeRegistry {
  import opened Common

  datatype PolicyState = ACTIVE | VOID_BY_COMPLIANCE_DRIFT | VOID_BY_ANOMALY_RATIO

  datatype BadgeState = Green | Amber | Red

  /** The evidence fields a badge may depend on; each may be absent. */
  datatype Evidence = Evidence(anomalyRatio: Option<real>, threshold: Option<real>, boundaryCrossings: Option<int>)

  /** A reason text, by its template and the numbers printed in it. Ratios are printed as a
      percentage with one decimal, so they are carried in tenths of a percent. */
  datatype Reason =
    | NoReason
    | Approaching(ratioTenths: int, thresholdTenths: int)
    | RatioVoid(ratioTenths': Option<int>)
    | DriftVoid(crossings: Option<int>)

  datatype Inputs = Inputs(policy: Option<PolicyState>, evidence: Evidence)

  datatype Badge = Badge(state: BadgeState, reason: Reason)

  const AMBER_THRESHOLD_RATIO := 0.75

  const NO_EVIDENCE := Evidence(None, None, None)

  function Tenths(ratio: real): int {
    (ratio * 1000.0 + 0.5).Floor
  }

  function ComputeBadgeState(inputs: Inputs): Badge {
    var e := inputs.evidence;
    if inputs.policy == None || inputs.policy == Some(ACTIVE) then
      if e.anomalyRatio.Some? && e.threshold.Some? && e.threshold.value > 0.0
         && e.anomalyRatio.value >= e.threshold.value * AMBER_THRESHOLD_RATIO
         && e.anomalyRatio.value < e.threshold.value
      then Badge(Amber, Approaching(Tenths(e.anomalyRatio.value), Tenths(e.threshold.value)))
      else Badge(Green, NoReason)
    else if inputs.policy == Some(VOID_BY_ANOMALY_RATIO) then
      Badge(Red, RatioVoid(if e.anomalyRatio.Some? then Some(Tenths(e.anomalyRatio.value)) else None))
    else
      Badge(Red, DriftVoid(e.boundaryCrossings))
  }

  /** t is the ratio in tenths of a percent, rounded half up. */
  predicate IsTenths(t: int, ratio: real) {
    -0.5 < t as real - ratio * 1000.0 <= 0.5
  }

  /** The badge of any inputs. No policy counts as an active one; amber runs from three quarters of a positive
      threshold up to it; only a void is red, with its own reason. */
  lemma BadgeStates(policy: Option<PolicyState>, e: Evidence)
    ensures var b, near := ComputeBadgeState(Inputs(policy, e)),
              e.anomalyRatio.Some? && e.threshold.Some? && e.threshold.value > 0.0
              && 0.75 * e.threshold.value <= e.anomalyRatio.value < e.threshold.value;
            match policy
            case Some(VOID_BY_ANOMALY_RATIO) =>
              && b.state == Red && b.reason.RatioVoid?
              && (b.reason.ratioTenths'.Some? <==> e.anomalyRatio.Some?)
              && (e.anomalyRatio.Some? ==> IsTenths(b.reason.ratioTenths'.value, e.anomalyRatio.value))
            case Some(VOID_BY_COMPLIANCE_DRIFT) => b == Badge(Red, DriftVoid(e.boundaryCrossings))
            case _ =>
              if near then
                && b.state == Amber && b.reason.Approaching?
                && IsTenths(b.reason.ratioTenths, e.anomalyRatio.value)
                && IsTenths(b.reason.thresholdTenths, e.threshold.value)
              else b == Badge(Green, NoReason)
  {
  }

  // ---- Secrets ----

  /** HMAC and SHA-256 as free constructors: equal outputs mean equal inputs. */
  datatype Mac = Hmac(secret: string, tenant: string, state: BadgeState, changedAt: int)

  datatype Fingerprint = Sha256(secret: string)

  datatype Env = Env(current: Option<string>, previous: Option<string>, legacy: Option<string>)

  datatype Secrets = Secrets(current: string, previous: Option<string>, isDevFallback: bool)

  const DEV_FALLBACK_SECRET := "dev-only-badge-secret-do-not-ship"

  predicate Given(v: Option<string>) {
    v.Some? && |v.value| > 0
  }

  function Resolved(env: Env): Secrets {
    if Given(env.current) then Secrets(env.current.value, if Given(env.previous) then env.previous else None, false)
    else if Given(env.legacy) then Secrets(env.legacy.value, None, false)
    else Secrets(DEV_FALLBACK_SECRET, None, true)
  }

  datatype SignatureMatch = Current | Previous | Invalid

  function VerifyBadgeSignature(s: Secrets, presented: Mac, tenant: string, state: BadgeState,
                                changedAt: int): SignatureMatch
  {
    if presented == Hmac(s.current, tenant, state, changedAt) then Current
    else if s.previous.Some? && presented == Hmac(s.previous.value, tenant, state, changedAt) then Previous
    else Invalid
  }

  /** Which signatures a process started under `env` accepts: those of the current secret, else of the legacy
      one, else of the fallback; and, only beside a current one, those of the previous secret as previous. */
  lemma EnvAccepts(env: Env, secret: string, tenant: string, state: BadgeState, changedAt: int)
    ensures var given := (v: Option<string>) => v.Some? && v.value != "";
            var v := VerifyBadgeSignature(Resolved(env), Hmac(secret, tenant, state, changedAt),
              tenant, state, changedAt);
            var signing := if given(env.current) then env.current.value
              else if given(env.legacy) then env.legacy.value else "dev-only-badge-secret-do-not-ship";
            && (v == Current <==> secret == signing)
            && (v == Previous <==> given(env.current) && given(env.previous) && secret == env.previous.value != signing)
            && Resolved(env).current == signing
            && (Resolved(env).isDevFallback <==> !given(env.current) && !given(env.legacy))
  {
  }

  /** So a rotation needs no re-signing to be seamless, and one without the previous secret rejects. */
  lemma RotationAcceptsPrevious(before: string, after: string, legacy: Option<string>,
                                tenant: string, state: BadgeState,
                                changedAt: int)
    requires before != after && before != "" && after != ""
    ensures var badge := Hmac(before, tenant, state, changedAt);
            var answer := (previous: Option<string>) =>
              VerifyBadgeSignature(Resolved(Env(Some(after), previous, legacy)), badge, tenant, state, changedAt);
            answer(Some(before)) == Previous && answer(None) == Invalid
  {
    EnvAccepts(Env(Some(after), Some(before), legacy), before, tenant, state, changedAt);
    EnvAccepts(Env(Some(after), None, legacy), before, tenant, state, changedAt);
    hide Resolved;
  }

  /** Resolution happens once per process; later calls answer from the cache. */
  class BadgeSecrets {
    var cached: Option<Secrets>

    constructor ()
      ensures cached == None
    {
      cached := None;
    }

    method GetBadgeSecrets(env: Env) returns (s: Secrets)
      modifies this
      ensures s == if old(cached).Some? then old(cached).value else Resolved(env)
      ensures cached == Some(s)
    {
      if cached.Some? {
        return cached.value;
      }
      var previous: Option<string>, isDevFallback := None, false;
      var current;
      if Given(env.current) {
        current := env.current.value;
        previous := if Given(env.previous) then env.previous else None;
      } else if Given(env.legacy) {
        current := env.legacy.value;
      } else {
        current := DEV_FALLBACK_SECRET;
        isDevFallback := true;
      }
      s := Secrets(current, previous, isDevFallback);
      cached := Some(s);
    }

    method InvalidateCache()
      modifies this
      ensures cached == None
    {
      cached := None;
    }
  }

  // ---- Tables ----

  datatype BadgeRow =
    BadgeRow(account: string, badge: Badge, signature: Mac,
             changedAt: int, createdAt: int, updatedAt: int)

  datatype HistoryRow =
    HistoryRow(tenant: string, account: string, before: Option<BadgeState>, badge: Badge,
               changedAt: int)

  /** `fingerprint` is the secret_state row; `audit` lists the tenants of secret_rotation rows. */
  datatype Registry = Registry(
    badges: map<string, BadgeRow>, history: seq<HistoryRow>,
    fingerprint: Option<Fingerprint>, audit: seq<string>)

  datatype SyncResult = SyncResult(badge: Badge, changed: bool, signature: Mac)

  /** State and reason both as computed already: nothing to write. */
  predicate UpToDate(r: Registry, tenant: string, badge: Badge) {
    tenant in r.badges && r.badges[tenant].badge == badge
  }

  function Synced(r: Registry, secret: string, tenant: string, account: string, inputs: Inputs,
                  now: int): (Registry, SyncResult)
  {
    var badge := ComputeBadgeState(inputs);
    if UpToDate(r, tenant, badge) then (r, SyncResult(badge, false, r.badges[tenant].signature))
    else
      var signature := Hmac(secret, tenant, badge.state, now);
      var row := if tenant in r.badges
        then r.badges[tenant].(badge := badge, signature := signature, changedAt := now, updatedAt := now)
        else BadgeRow(account, badge, signature, now, now, now);
      var before := if tenant in r.badges then Some(r.badges[tenant].badge.state) else None;
      (r.(badges := r.badges[tenant := row],
          history := r.history + [HistoryRow(tenant, account, before, badge, now)]),
       SyncResult(badge, true, signature))
  }

  function Resigned(row: BadgeRow, secret: string, tenant: string, now: int): BadgeRow {
    row.(signature := Hmac(secret, tenant, row.badge.state, row.changedAt), updatedAt := now)
  }

  function AllResigned(badges: map<string, BadgeRow>, secret: string, now: int): map<string, BadgeRow> {
    map t | t in badges :: Resigned(badges[t], secret, t, now)
  }

  /** Every row but those of `todo` has been re-signed. */
  predicate PartlyResigned(was: map<string, BadgeRow>, badges: map<string, BadgeRow>, todo: set<string>,
                           secret: string, now: int)
  {
    && badges.Keys == was.Keys
    && forall t :: t in badges ==> badges[t] == if t in todo then was[t] else Resigned(was[t], secret, t, now)
  }

  lemma NoneResigned(was: map<string, BadgeRow>, secret: string, now: int)
    ensures PartlyResigned(was, was, was.Keys, secret, now)
  {
  }

  lemma ResignedOneMore(was: map<string, BadgeRow>, badges: map<string, BadgeRow>, todo: set<string>, t: string,
                        secret: string, now: int)
    requires PartlyResigned(was, badges, todo, secret, now) && t in todo && t in badges
    ensures PartlyResigned(was, badges[t := Resigned(badges[t], secret, t, now)], todo - {t}, secret, now)
  {
    hide Resigned;
  }

  lemma EveryRowResigned(was: map<string, BadgeRow>, badges: map<string, BadgeRow>, secret: string, now: int)
    requires PartlyResigned(was, badges, {}, secret, now)
    ensures badges == AllResigned(was, secret, now)
  {
    hide Resigned;
  }

  class RegistryDb {
    var badges: map<string, BadgeRow>
    var history: seq<HistoryRow>
    var fingerprint: Option<Fingerprint>
    var audit: seq<string>

    function Tables(): Registry
      reads this
    {
      Registry(badges, history, fingerprint, audit)
    }

    constructor ()
      ensures Tables() == Registry(map[], [], None, [])
    {
      badges, history, fingerprint, audit := map[], [], None, [];
    }

    method SyncBadge(secrets: Secrets, tenant: string, account: string, inputs: Inputs,
                     now: int) returns (r: SyncResult)
      modifies this
      ensures (Tables(), r) == Synced(old(Tables()), secrets.current, tenant, account, inputs, now)
    {
      var badge := ComputeBadgeState(inputs);
      var before := None;
      if tenant in badges {
        var existing := badges[tenant];
        if existing.badge.state == badge.state && existing.badge.reason == badge.reason {
          return SyncResult(existing.badge, false, existing.signature);
        }
        before := Some(existing.badge.state);
      }
      var signature := Hmac(secrets.current, tenant, badge.state, now);
      if tenant in badges {
        badges := badges[tenant :=
          badges[tenant].(badge := badge, signature := signature,
                           changedAt := now, updatedAt := now)];
      } else {
        badges := badges[tenant := BadgeRow(account, badge, signature, now, now, now)];
      }
      history := history + [HistoryRow(tenant, account, before, badge, now)];
      return SyncResult(badge, true, signature);
    }

    /** Re-signs every row in one transaction, whatever order the rows are read in. */
    method ResignAllBadges(secrets: Secrets, now: int) returns (count: nat)
      modifies `badges, `audit
      ensures badges == AllResigned(old(badges), secrets.current, now)
      ensures count == |old(badges)|
      ensures |audit| == |old(audit)| + count && audit[..|old(audit)|] == old(audit)
      ensures forall t :: t in audit[|old(audit)|..] <==> t in old(badges)
    {
      hide Resigned, PartlyResigned;
      count := 0;
      ghost var before := audit;
      var todo := badges.Keys;
      NoneResigned(badges, secrets.current, now);
      while todo != {}
        invariant todo <= old(badges).Keys == badges.Keys
        invariant PartlyResigned(old(badges), badges, todo, secrets.current, now)
        invariant count + |todo| == |old(badges)|
        invariant |audit| == |before| + count && audit[..|before|] == before
        invariant forall t :: t in audit[|before|..] <==> t in old(badges) && t !in todo
      {
        var t :| t in todo;
        ghost var was := audit;
        ResignedOneMore(old(badges), badges, todo, t, secrets.current, now);
        badges := badges[t := Resigned(badges[t], secrets.current, t, now)];
        audit := audit + [t];
        assert audit[|before|..] == was[|before|..] + [t];
        count := count + 1;
        todo := todo - {t};
      }
      EveryRowResigned(old(badges), badges, secrets.current, now);
      assert |old(badges)| == |old(badges).Keys|;
    }

    method DetectAndApplyRotation(secrets: Secrets, now: int) returns (outcome: RotationOutcome)
      modifies this
      ensures history == old(history)
      ensures outcome == OutcomeOf(old(Tables()), secrets.current)
      ensures badges == (if outcome.Rotated? then AllResigned(old(badges), secrets.current, now) else old(badges))
      ensures fingerprint == Some(Sha256(secrets.current))
      ensures !outcome.Rotated? ==> audit == old(audit)
      ensures outcome.Rotated? ==>
        |audit| == |old(audit)| + outcome.badgesResigned && audit[..|old(audit)|] == old(audit)
      ensures outcome.Rotated? ==> forall t :: t in audit[|old(audit)|..] <==> t in old(badges)
    {
      if fingerprint.None? {
        fingerprint := Some(Sha256(secrets.current));
        return Established;
      }
      if fingerprint.value == Sha256(secrets.current) {
        return Unchanged;
      }
      var resigned := ResignAllBadges(secrets, now);
      fingerprint := Some(Sha256(secrets.current));
      return Rotated(resigned);
    }
  }

  datatype RotationOutcome = Established | Unchanged | Rotated(badgesResigned: nat)

  function OutcomeOf(r: Registry, secret: string): RotationOutcome {
    if r.fingerprint.None? then Established
    else if r.fingerprint.value == Sha256(secret) then Unchanged
    else Rotated(|r.badges|)
  }

  // ---- Runs ----

  /** `Boot` is a start whose rotation check completed. The two interrupted starts die before the
      check wrote anything, or after re-signing and before the fingerprint was stored. */
  datatype Step =
    | Boot(env: Env, now: int)
    | BootInterrupted(env: Env, now: int, afterResign: bool)
    | Sync(tenant: string, account: string, inputs: Inputs, now: int)

  /** The tables and the secrets of the running process, if one is running. */
  datatype World = World(registry: Registry, running: Option<Secrets>)

  function Booted(r: Registry, secret: string, now: int): Registry {
    r.(badges := if OutcomeOf(r, secret).Rotated? then AllResigned(r.badges, secret, now) else r.badges,
       fingerprint := Some(Sha256(secret)))
  }

  function Next(w: World, step: Step): World {
    match step
    case Boot(env, now) => World(Booted(w.registry, Resolved(env).current, now), Some(Resolved(env)))
    case BootInterrupted(env, now, afterResign) =>
      var r := w.registry;
      World(if afterResign && OutcomeOf(r, Resolved(env).current).Rotated?
            then r.(badges := AllResigned(r.badges, Resolved(env).current, now)) else r, None)
    case Sync(tenant, account, inputs, now) =>
      if w.running.None? then w
      else w.(registry := Synced(w.registry, w.running.value.current, tenant, account, inputs, now).0)
  }

  /** The world after the first n steps on a database found as `start`: empty when the service is new,
      or holding badges already when it is upgraded. */
  function After(start: Registry, steps: seq<Step>, n: nat): World
    requires n <= |steps|
  {
    if n == 0 then World(start, None) else Next(After(start, steps, n - 1), steps[n - 1])
  }

  // ---- The history is a chain that ends at the registry ----

  /** The history rows of one tenant, oldest first. */
  function HistoryOf(history: seq<HistoryRow>, tenant: string): seq<HistoryRow> {
    if history == [] then []
    else HistoryOf(history[..|history| - 1], tenant)
         + if history[|history| - 1].tenant == tenant then [history[|history| - 1]] else []
  }

  /** Row i starts from where the row before it ended; the first starts from nothing. */
  predicate Follows(rows: seq<HistoryRow>, i: nat)
    requires i < |rows|
  {
    if i == 0 then rows[i].before == None else rows[i].before == Some(rows[i - 1].badge.state)
  }

  ghost predicate Chain(rows: seq<HistoryRow>) {
    forall i :: 0 <= i < |rows| ==> Follows(rows, i)
  }

  /** The tenant has a badge iff it has history, and the last entry is what the badge shows. */
  ghost predicate ChainMatches(r: Registry, tenant: string) {
    var rows := HistoryOf(r.history, tenant);
    && Chain(rows)
    && (tenant in r.badges <==> rows != [])
    && (rows != [] ==>
          var last := rows[|rows| - 1];
          last.badge == r.badges[tenant].badge && last.changedAt == r.badges[tenant].changedAt)
  }

  lemma HistoryOfAppend(history: seq<HistoryRow>, row: HistoryRow, tenant: string)
    ensures HistoryOf(history + [row], tenant)
         == HistoryOf(history, tenant) + if row.tenant == tenant then [row] else []
  {
    assert (history + [row])[..|history|] == history;
  }

  lemma ChainExtends(rows: seq<HistoryRow>, row: HistoryRow)
    requires Chain(rows)
    requires if |rows| == 0 then row.before == None else row.before == Some(rows[|rows| - 1].badge.state)
    ensures Chain(rows + [row])
  {
    var more := rows + [row];
    forall i | 0 <= i < |more|
      ensures Follows(more, i)
    {
      if i < |rows| {
        assert Follows(rows, i);
      }
    }
  }

  /** A row appended for the tenant, and shown by its badge, extends its history. */
  lemma OwnRowExtends(r: Registry, after: Registry, row: HistoryRow, t: string)
    requires ChainMatches(r, t) && row.tenant == t && after.history == r.history + [row]
    requires row.before == if t in r.badges then Some(r.badges[t].badge.state) else None
    requires t in after.badges && after.badges[t].badge == row.badge && after.badges[t].changedAt == row.changedAt
    ensures ChainMatches(after, t)
  {
    HistoryOfAppend(r.history, row, t);
    ChainExtends(HistoryOf(r.history, t), row);
    hide Chain, HistoryOf;
  }

  /** A row appended for another tenant leaves the history as it is. */
  lemma OtherRowKeeps(r: Registry, after: Registry, row: HistoryRow, t: string)
    requires ChainMatches(r, t) && row.tenant != t && after.history == r.history + [row]
    requires t in after.badges <==> t in r.badges
    requires t in r.badges ==> after.badges[t] == r.badges[t]
    ensures ChainMatches(after, t)
  {
    HistoryOfAppend(r.history, row, t);
    assert HistoryOf(r.history, t) + [] == HistoryOf(r.history, t);
    hide Chain, HistoryOf;
  }

  lemma SyncKeepsChain(
      r: Registry, secret: string, tenant: string, account: string, inputs: Inputs, now: int, t: string)
    requires ChainMatches(r, t)
    ensures ChainMatches(Synced(r, secret, tenant, account, inputs, now).0, t)
  {
    hide ComputeBadgeState, ChainMatches;
    var badge := ComputeBadgeState(inputs);
    if !UpToDate(r, tenant, badge) {
      var before := if tenant in r.badges then Some(r.badges[tenant].badge.state) else None;
      var row := HistoryRow(tenant, account, before, badge, now);
      var after := Synced(r, secret, tenant, account, inputs, now).0;
      if t == tenant {
        OwnRowExtends(r, after, row, t);
      } else {
        OtherRowKeeps(r, after, row, t);
      }
    }
  }

  lemma ResignKeepsChain(r: Registry, secret: string, now: int, fingerprint: Option<Fingerprint>, tenant: string)
    requires ChainMatches(r, tenant)
    ensures ChainMatches(r.(badges := AllResigned(r.badges, secret, now), fingerprint := fingerprint), tenant)
    ensures ChainMatches(r.(fingerprint := fingerprint), tenant)
  {
    hide Chain, HistoryOf;
  }

  lemma StepKeepsChain(w: World, step: Step, tenant: string)
    requires ChainMatches(w.registry, tenant)
    ensures ChainMatches(Next(w, step).registry, tenant)
  {
    hide ChainMatches, Synced, AllResigned, OutcomeOf, Resolved;
    match step
    case Boot(env, now) =>
      var secret := Resolved(env).current;
      ResignKeepsChain(w.registry, secret, now, Some(Sha256(secret)), tenant);
    case BootInterrupted(env, now, _) =>
      ResignKeepsChain(w.registry, Resolved(env).current, now, w.registry.fingerprint, tenant);
    case Sync(t, account, inputs, now) =>
      if w.running.Some? {
        SyncKeepsChain(w.registry, w.running.value.current, t, account, inputs, now, tenant);
      }
  }

  /** Main theorem on history, over every run whatever was interrupted. */
  lemma {:induction false} HistoryIsChain(start: Registry, steps: seq<Step>, n: nat, tenant: string)
    requires n <= |steps| && ChainMatches(start, tenant)
    ensures ChainMatches(After(start, steps, n).registry, tenant)
  {
    if n > 0 {
      HistoryIsChain(start, steps, n - 1, tenant);
      StepKeepsChain(After(start, steps, n - 1), steps[n - 1], tenant);
      hide ChainMatches, Next;
    }
  }

  /** In particular from an empty database on. */
  lemma NewHistoryIsChain(steps: seq<Step>, n: nat, tenant: string)
    requires n <= |steps|
    ensures ChainMatches(After(Registry(map[], [], None, []), steps, n).registry, tenant)
  {
    HistoryIsChain(Registry(map[], [], None, []), steps, n, tenant);
  }

  /** A history row is appended iff the state or the reason differs from what is shown, so an entry
      may go from a state to the same state. */
  lemma SyncAppendsIff(r: Registry, secret: string, tenant: string, account: string, inputs: Inputs, now: int)
    ensures var (r', result) := Synced(r, secret, tenant, account, inputs, now);
            var badge := ComputeBadgeState(inputs);
            && result.badge == badge
            && (result.changed <==>
                  tenant in r.badges ==>
                    r.badges[tenant].badge.state != badge.state || r.badges[tenant].badge.reason != badge.reason)
            && (result.changed ==> |r'.history| == |r.history| + 1)
            && (!result.changed ==> r' == r)
            && Synced(r', secret, tenant, account, inputs, now + 1) == (r', SyncResult(badge, false, result.signature))
            && forall t :: t in r'.badges && t != tenant ==> t in r.badges && r'.badges[t] == r.badges[t]
  {
    hide ComputeBadgeState;
  }

  /** The ratio moving from 1.6 % to 1.7 % under a 2 % threshold records amber to amber. */
  lemma AmberToAmberIsRecorded(r: Registry, secret: string, tenant: string, account: string)
    ensures var at := (ratio: real) => Inputs(Some(ACTIVE), Evidence(Some(ratio), Some(0.02), None));
            var first := Synced(r, secret, tenant, account, at(0.016), 1).0;
            var second := Synced(first, secret, tenant, account, at(0.017), 2).0;
            && second.history
               == first.history + [HistoryRow(tenant, account, Some(Amber), Badge(Amber, Approaching(17, 20)), 2)]
  {
  }

  /** What a sync answers is what the registry then holds: the badge of its inputs, signed when something
      changed and as it was signed before when not. The account is that of the first sync. */
  lemma SyncAnswers(r: Registry, secret: string, tenant: string, account: string, inputs: Inputs, now: int)
    ensures var (after, result) := Synced(r, secret, tenant, account, inputs, now);
            && tenant in after.badges
            && var row := after.badges[tenant];
               && row.badge == result.badge == ComputeBadgeState(inputs) && row.signature == result.signature
               && (result.changed ==> row.signature == Hmac(secret, tenant, row.badge.state, now)
                                      && row.changedAt == now == row.updatedAt)
               && (!result.changed ==> after == r)
               && (tenant in r.badges ==>
                     row.account == r.badges[tenant].account && row.createdAt == r.badges[tenant].createdAt)
               && (tenant !in r.badges ==> row.account == account && row.createdAt == now)
               && (forall t :: t != tenant ==> (t in after.badges <==> t in r.badges))
               && (forall t :: t != tenant && t in r.badges ==> after.badges[t] == r.badges[t])
  {
    hide ComputeBadgeState;
  }

  // ---- Signatures ----

  /** Every stored signature is the HMAC of its row under the secret. */
  ghost predicate AllSigned(r: Registry, secret: string) {
    forall t :: t in r.badges ==>
      r.badges[t].signature == Hmac(secret, t, r.badges[t].badge.state, r.badges[t].changedAt)
  }

  /** The secret of the last boot that completed, or that re-signed before it died; before any of
      them, the one the badges were found signed with. */
  function Signer(start: Registry, found: string, steps: seq<Step>, n: nat): string
    requires n <= |steps|
  {
    if n == 0 then found
    else
      var before := Signer(start, found, steps, n - 1);
      match steps[n - 1]
      case Boot(env, _) => Resolved(env).current
      case BootInterrupted(env, _, afterResign) =>
        if afterResign && OutcomeOf(After(start, steps, n - 1).registry, Resolved(env).current).Rotated?
        then Resolved(env).current else before
      case Sync(_, _, _, _) => before
  }

  /** A boot that re-signs, finds no badge, or comes with the secret that signed last. */
  predicate SafeBoot(r: Registry, signer: string, step: Step) {
    step.Boot? ==>
      OutcomeOf(r, Resolved(step.env).current).Rotated? || r.badges == map[] || signer == Resolved(step.env).current
  }

  lemma SyncKeepsSigned(r: Registry, secret: string, tenant: string, account: string, inputs: Inputs, now: int)
    requires AllSigned(r, secret)
    ensures AllSigned(Synced(r, secret, tenant, account, inputs, now).0, secret)
    ensures Synced(r, secret, tenant, account, inputs, now).0.fingerprint == r.fingerprint
  {
    hide ComputeBadgeState;
  }

  /** What verification answers, exactly. */
  lemma VerifyClassifies(s: Secrets, secret: string, tenant: string, state: BadgeState, changedAt: int)
    ensures var v := VerifyBadgeSignature(s, Hmac(secret, tenant, state, changedAt), tenant, state, changedAt);
            && (v == Current <==> secret == s.current)
            && (v == Previous <==> secret != s.current && s.previous == Some(secret))
  {
  }

  ghost predicate AllVerifyAsCurrent(r: Registry, secrets: Secrets) {
    forall t :: t in r.badges ==>
      var row := r.badges[t];
      VerifyBadgeSignature(secrets, row.signature, t, row.badge.state, row.changedAt) == Current
  }

  /** One secret signed every badge, and it is that of the running process if there is one. */
  ghost predicate SignedBy(w: World, signer: string) {
    AllSigned(w.registry, signer) && (w.running.Some? ==> w.running.value.current == signer)
  }

  lemma ResignSigns(r: Registry, secret: string, now: int, fingerprint: Option<Fingerprint>)
    ensures AllSigned(r.(badges := AllResigned(r.badges, secret, now), fingerprint := fingerprint), secret)
  {
  }

  lemma StepKeepsSigned(start: Registry, found: string, steps: seq<Step>, n: nat)
    requires 0 < n <= |steps|
    requires SignedBy(After(start, steps, n - 1), Signer(start, found, steps, n - 1))
    requires SafeBoot(After(start, steps, n - 1).registry, Signer(start, found, steps, n - 1), steps[n - 1])
    ensures SignedBy(After(start, steps, n), Signer(start, found, steps, n))
  {
    var w := After(start, steps, n - 1);
    match steps[n - 1]
    case Boot(env, now) =>
      ResignSigns(w.registry, Resolved(env).current, now, Some(Sha256(Resolved(env).current)));
      hide AllResigned, Resolved;
    case BootInterrupted(env, now, _) =>
      ResignSigns(w.registry, Resolved(env).current, now, w.registry.fingerprint);
      hide AllResigned, Resolved, AllSigned;
    case Sync(t, account, inputs, now) =>
      if w.running.Some? {
        SyncKeepsSigned(w.registry, w.running.value.current, t, account, inputs, now);
        hide AllSigned, Synced;
      }
  }

  /** Boots were safe during the first n steps. */
  ghost predicate SafeSoFar(start: Registry, found: string, steps: seq<Step>, n: nat)
    requires n <= |steps|
  {
    forall m :: 0 <= m < n ==> SafeBoot(After(start, steps, m).registry, Signer(start, found, steps, m), steps[m])
  }

  /** Main theorem on signatures, part one: on a database whose badges were found signed with one
      secret, as long as boots are safe every badge of a running process verifies as current. */
  lemma {:induction false} BadgesVerify(start: Registry, found: string, steps: seq<Step>, n: nat)
    requires AllSigned(start, found) && n <= |steps| && SafeSoFar(start, found, steps, n)
    ensures SignedBy(After(start, steps, n), Signer(start, found, steps, n))
    ensures var w := After(start, steps, n);
            w.running.Some? ==> AllVerifyAsCurrent(w.registry, w.running.value)
  {
    hide Next, SafeBoot, AllSigned, AllVerifyAsCurrent, SignedBy;
    if n > 0 {
      BadgesVerify(start, found, steps, n - 1);
      StepKeepsSigned(start, found, steps, n);
    } else {
      FoundSigned(start, found);
    }
    SignedVerifies(After(start, steps, n), Signer(start, found, steps, n));
  }

  lemma FoundSigned(start: Registry, found: string)
    requires AllSigned(start, found)
    ensures SignedBy(World(start, None), found)
  {
  }

  lemma SignedVerifies(w: World, signer: string)
    requires SignedBy(w, signer)
    ensures w.running.Some? ==> AllVerifyAsCurrent(w.registry, w.running.value)
  {
    if w.running.Some? {
      forall t | t in w.registry.badges
        ensures var row := w.registry.badges[t];
                VerifyBadgeSignature(w.running.value, row.signature, t, row.badge.state, row.changedAt) == Current
      {
        VerifyClassifies(w.running.value, signer, t, w.registry.badges[t].badge.state, w.registry.badges[t].changedAt);
      }
    }
  }

  /** Part two: the condition is exact. While boots were safe, the next boot leaves a badge that does
      not verify iff it does not re-sign, badges exist, and another secret signed last. */
  lemma NextBootIsStaleIff(start: Registry, found: string, steps: seq<Step>, n: nat, env: Env, now: int)
    requires AllSigned(start, found) && n <= |steps| && SafeSoFar(start, found, steps, n)
    ensures var w, secrets := After(start, steps, n), Resolved(env);
            !AllVerifyAsCurrent(Next(w, Boot(env, now)).registry, secrets)
            <==>
               !OutcomeOf(w.registry, secrets.current).Rotated?
               && w.registry.badges != map[]
               && Signer(start, found, steps, n) != secrets.current
  {
    BadgesVerify(start, found, steps, n);
    BootOutcome(After(start, steps, n).registry, Signer(start, found, steps, n), Resolved(env), now);
    hide After, Signer, AllVerifyAsCurrent, AllSigned, Booted, Resolved, OutcomeOf;
  }

  lemma BootOutcome(r: Registry, signer: string, secrets: Secrets, now: int)
    requires AllSigned(r, signer)
    ensures AllVerifyAsCurrent(Booted(r, secrets.current, now), secrets)
       <==> OutcomeOf(r, secrets.current).Rotated? || r.badges == map[] || signer == secrets.current
  {
    if OutcomeOf(r, secrets.current).Rotated? {
      ResignSigns(r, secrets.current, now, Some(Sha256(secrets.current)));
    } else if r.badges != map[] {
      var t :| t in r.badges;
      VerifyClassifies(secrets, signer, t, r.badges[t].badge.state, r.badges[t].changedAt);
      assert t in Booted(r, secrets.current, now).badges;
    }
  }

  /** No boot completed among the first n steps. */
  predicate NoBootYet(steps: seq<Step>, n: nat)
    requires n <= |steps|
  {
    forall m :: 0 <= m < n ==> !steps[m].Boot?
  }

  ghost predicate NeverCutAfterResign(steps: seq<Step>) {
    forall m :: 0 <= m < |steps| && steps[m].BootInterrupted? ==> !steps[m].afterResign
  }

  /** Until a boot completes nothing changes; afterwards the fingerprint is that of the signer. */
  lemma {:induction false} FingerprintFollows(start: Registry, found: string, steps: seq<Step>, n: nat)
    requires NeverCutAfterResign(steps) && n <= |steps|
    ensures NoBootYet(steps, n) ==>
      After(start, steps, n) == World(start, None) && Signer(start, found, steps, n) == found
    ensures !NoBootYet(steps, n) ==>
      After(start, steps, n).registry.fingerprint == Some(Sha256(Signer(start, found, steps, n)))
  {
    hide Resolved, AllResigned, ComputeBadgeState;
    if n > 0 {
      FingerprintFollows(start, found, steps, n - 1);
    }
  }

  /** Part three, in terms of events: when no boot is cut between re-signing and storing the
      fingerprint, all boots are safe iff the first that completes is, on the database as it was found. */
  lemma UncutRunsAreSafeIff(start: Registry, found: string, steps: seq<Step>)
    requires NeverCutAfterResign(steps)
    ensures SafeSoFar(start, found, steps, |steps|)
       <==> forall n :: 0 <= n < |steps| && NoBootYet(steps, n) ==> SafeBoot(start, found, steps[n])
  {
    forall n | 0 <= n < |steps|
      ensures NoBootYet(steps, n) ==>
        After(start, steps, n).registry == start && Signer(start, found, steps, n) == found
      ensures !NoBootYet(steps, n) ==>
        SafeBoot(After(start, steps, n).registry, Signer(start, found, steps, n), steps[n])
    {
      FingerprintFollows(start, found, steps, n);
      hide After, Signer, Resolved;
    }
    hide After, Signer, Resolved, NoBootYet, SafeBoot;
  }

  /** On a database without badges, or with the fingerprint of the secret its badges carry, uncut runs
      are safe throughout. So there are two ways to a stale badge: such a cut, and a database found with
      badges and no such fingerprint. Both happen. */
  lemma FreshDatabaseIsSafe(start: Registry, found: string, steps: seq<Step>, n: nat)
    requires NeverCutAfterResign(steps) && n <= |steps| && AllSigned(start, found)
    requires start.badges == map[] || start.fingerprint == Some(Sha256(found))
    ensures SafeSoFar(start, found, steps, n)
    ensures var w := After(start, steps, n);
            w.running.Some? ==> AllVerifyAsCurrent(w.registry, w.running.value)
  {
    UncutRunsAreSafeIff(start, found, steps);
    hide After, Signer, AllSigned, AllVerifyAsCurrent;
    BadgesVerify(start, found, steps, n);
  }

  /** Badges came before fingerprints, so an upgraded database has the one and not the other. If the
      secret changed over the upgrade the first boot only records the new fingerprint, and no badge
      verifies, though nothing was interrupted. */
  lemma UpgradeWithChangedSecret(start: Registry, found: string, env: Env, now: int)
    requires AllSigned(start, found) && start.badges != map[] && start.fingerprint.None?
    requires Resolved(env).current != found
    ensures var w := Next(World(start, None), Boot(env, now));
            && w.registry.badges == start.badges && w.registry.fingerprint == Some(Sha256(Resolved(env).current))
            && !AllVerifyAsCurrent(w.registry, Resolved(env))
            && OutcomeOf(w.registry, Resolved(env).current) == Unchanged
  {
    BootOutcome(start, found, Resolved(env), now);
    hide Resolved, AllVerifyAsCurrent, AllSigned;
  }

  /** The first way: rotate from A to B, die before the fingerprint is stored, roll back to A.
      The boot sees an unchanged secret while every badge carries B's signature. */
  lemma RollbackAfterInterruptedRotation(a: string, b: string, tenant: string)
    requires a != b && a != "" && b != ""
    ensures var envA, envB := Env(Some(a), None, None), Env(Some(b), None, None);
            var steps := [Boot(envA, 0), Sync(tenant, "acct", Inputs(None, NO_EVIDENCE), 1),
                         BootInterrupted(envB, 2, true), Boot(envA, 3)];
            !AllSigned(After(Registry(map[], [], None, []), steps, 4).registry, a)
  {
    var envA, envB := Env(Some(a), None, None), Env(Some(b), None, None);
    var steps := [Boot(envA, 0), Sync(tenant, "acct", Inputs(None, NO_EVIDENCE), 1),
                 BootInterrupted(envB, 2, true), Boot(envA, 3)];
    var start := Registry(map[], [], None, []);
    var w1 := After(start, steps, 1);
    assert w1 == Next(After(start, steps, 0), steps[0]);
    var w2 := After(start, steps, 2);
    assert w2 == Next(w1, steps[1]);
    var w3 := After(start, steps, 3);
    assert w3 == Next(w2, steps[2]);
    assert w3.registry.badges[tenant].signature == Hmac(b, tenant, Green, 1);
    assert After(start, steps, 4) == Next(w3, steps[3]);
    assert After(start, steps, 4).registry.badges == w3.registry.badges;
  }
}
