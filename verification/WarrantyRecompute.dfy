/** Warranty policies: evaluation, transitions and the bind and recompute handlers of
  src/routes/insurance.ts, and the periodic scan of src/lib/recompute-scheduler.ts. */
module WarrantyRecompute {
  import opened Common
  import opened BadgeRegistry

  // ---- Evaluation ----

  const ANOMALY_RATIO_THRESHOLD := 0.02
  const DRIFT_BOUNDARY_THRESHOLD := 10
  const ANOMALY_WINDOW_MS := 7 * 86_400_000
  const DRIFT_WINDOW_MS := 30 * 86_400_000

  /** A row of role_access_metrics. */
  datatype Metric = Metric(tenant: string, evaluatedAt: int, granted: bool, crossing: bool)

  predicate InWindow(m: Metric, tenant: string, since: int) {
    m.tenant == tenant && m.evaluatedAt > since
  }

  /** What one of the three COUNTs counts. */
  datatype Kind = Requests | Denials | BoundaryCrossings

  predicate Counted(m: Metric, kind: Kind, tenant: string, since: int) {
    && InWindow(m, tenant, since)
    && match kind
       case Requests => true
       case Denials => !m.granted
       case BoundaryCrossings => m.crossing
  }

  function Count(metrics: seq<Metric>, kind: Kind, tenant: string, since: int): nat {
    if metrics == [] then 0
    else
      var last := metrics[|metrics| - 1];
      Count(metrics[..|metrics| - 1], kind, tenant, since) + if Counted(last, kind, tenant, since) then 1 else 0
  }

  datatype Evaluation = Evaluation(state: PolicyState, evidence: Evidence)

  /** The verdict on raw counts. */
  function Verdict(total: nat, denied: nat, crossings: nat): Evaluation {
    var ratio := if total > 0 then denied as real / total as real else 0.0;
    if total > 0 && ratio > ANOMALY_RATIO_THRESHOLD then
      Evaluation(VOID_BY_ANOMALY_RATIO, Evidence(Some(ratio), Some(ANOMALY_RATIO_THRESHOLD), None))
    else if crossings >= DRIFT_BOUNDARY_THRESHOLD then
      Evaluation(VOID_BY_COMPLIANCE_DRIFT, Evidence(None, Some(DRIFT_BOUNDARY_THRESHOLD as real), Some(crossings)))
    else
      Evaluation(ACTIVE, Evidence(Some(ratio), Some(ANOMALY_RATIO_THRESHOLD), Some(crossings)))
  }

  function EvaluatePolicyState(metrics: seq<Metric>, tenant: string, now: int): Evaluation {
    Verdict(Count(metrics, Requests, tenant, now - ANOMALY_WINDOW_MS),
            Count(metrics, Denials, tenant, now - ANOMALY_WINDOW_MS),
            Count(metrics, BoundaryCrossings, tenant, now - DRIFT_WINDOW_MS))
  }

  function BadgeOf(e: Evaluation): Badge {
    ComputeBadgeState(Inputs(Some(e.state), e.evidence))
  }

  /** The rows of a kind in the window, by position: the tenant's, later than its start, and of denials those
      not granted, of crossings those flagged. */
  function RowsOf(metrics: seq<Metric>, kind: Kind, tenant: string, since: int): set<nat> {
    set i: nat | i < |metrics| && metrics[i].tenant == tenant && since < metrics[i].evaluatedAt
      && (kind == Denials ==> !metrics[i].granted) && (kind == BoundaryCrossings ==> metrics[i].crossing)
  }

  lemma {:induction false} CountIsRows(metrics: seq<Metric>, kind: Kind, tenant: string, since: int)
    ensures Count(metrics, kind, tenant, since) == |RowsOf(metrics, kind, tenant, since)|
  {
    if metrics == [] {
      assert RowsOf(metrics, kind, tenant, since) == {};
    } else {
      var last := |metrics| - 1;
      hide Counted;
      CountIsRows(metrics[..last], kind, tenant, since);
      var before := RowsOf(metrics[..last], kind, tenant, since);
      var now := if Counted(metrics[last], kind, tenant, since) then {last} else {};
      RowsGrow(metrics, kind, tenant, since);
      assert |before + now| == |before| + |now|;
    }
  }

  lemma RowsGrow(metrics: seq<Metric>, kind: Kind, tenant: string, since: int)
    requires metrics != []
    ensures var last := |metrics| - 1;
            RowsOf(metrics, kind, tenant, since)
              == RowsOf(metrics[..last], kind, tenant, since)
                 + if Counted(metrics[last], kind, tenant, since) then {last} else {}
  {
  }

  /** The policy state and badge of a tenant from its metric rows: with the requests and denials of the
      last seven days and the crossings of the last thirty, void above one denial in fifty, a ratio
      exactly there still active and green; amber from three in two hundred up to but excluding one in
      fifty. */
  lemma VerdictOnMetrics(metrics: seq<Metric>, tenant: string, now: int)
    ensures var week, month := now - 7 * 86_400_000, now - 30 * 86_400_000;
            var total, denied := |RowsOf(metrics, Requests, tenant, week)|, |RowsOf(metrics, Denials, tenant, week)|;
            var crossings := |RowsOf(metrics, BoundaryCrossings, tenant, month)|;
            var e := EvaluatePolicyState(metrics, tenant, now);
            && denied <= total
            && (e.state == VOID_BY_ANOMALY_RATIO <==> 50 * denied > total)
            && (e.state == VOID_BY_COMPLIANCE_DRIFT <==> 50 * denied <= total && crossings >= 10)
            && (BadgeOf(e).state == Red <==> e.state != ACTIVE)
            && (BadgeOf(e).state == Amber <==>
                  e.state == ACTIVE && total > 0 && 200 * denied >= 3 * total && 50 * denied < total)
            && (50 * denied == total && crossings < 10 ==> e.state == ACTIVE && BadgeOf(e) == Badge(Green, NoReason))
  {
    var week, month := now - ANOMALY_WINDOW_MS, now - DRIFT_WINDOW_MS;
    CountIsRows(metrics, Requests, tenant, week);
    CountIsRows(metrics, Denials, tenant, week);
    CountIsRows(metrics, BoundaryCrossings, tenant, month);
    SubsetCard(RowsOf(metrics, Denials, tenant, week), RowsOf(metrics, Requests, tenant, week));
    hide Count, RowsOf, Verdict, BadgeOf;
    VerdictInCounts(Count(metrics, Requests, tenant, week),
                    Count(metrics, Denials, tenant, week),
                    Count(metrics, BoundaryCrossings, tenant, month));
  }

  lemma VerdictInCounts(total: nat, denied: nat, crossings: nat)
    requires denied <= total
    ensures var e := Verdict(total, denied, crossings);
            && (e.state == VOID_BY_ANOMALY_RATIO <==> 50 * denied > total)
            && (e.state == VOID_BY_COMPLIANCE_DRIFT <==> 50 * denied <= total && crossings >= 10)
            && (BadgeOf(e).state == Red <==> e.state != ACTIVE)
            && (BadgeOf(e).state == Amber <==>
                  e.state == ACTIVE && total > 0 && 200 * denied >= 3 * total && 50 * denied < total)
            && (50 * denied == total && crossings < 10 ==> e.state == ACTIVE && BadgeOf(e) == Badge(Green, NoReason))
  {
    if total > 0 {
      RatioOrder(denied, total, 1, 50);
      RatioOrder(denied, total, 3, 200);
    }
  }

  lemma RatioOrder(a: nat, b: nat, c: nat, d: nat)
    requires b > 0 && d > 0
    ensures a as real / b as real > c as real / d as real <==> a * d > c * b
    ensures a as real / b as real >= c as real / d as real <==> a * d >= c * b
  {
    var x, y := a as real / b as real, c as real / d as real;
    assert x * b as real == a as real && y * d as real == c as real;
    var p := b as real * d as real;
    assert x * p == (a * d) as real by {
      assert x * p == (x * b as real) * d as real;
    }
    assert y * p == (c * b) as real by {
      assert y * p == (y * d as real) * b as real;
    }
    assert p > 0.0;
    Product(p, x, y);
  }

  // ---- Warranties ----

  datatype Warranty =
    Warranty(tenant: string, account: string, state: PolicyState, evidence: Evidence,
             changedAt: int, createdAt: int)

  datatype AuditRow =
    | Bound(warranty: string, tenant: string, actor: Option<string>)
    | StateChange(warranty: string, tenant: string, actor: Option<string>,
                  before: PolicyState, state: PolicyState, evidence: Evidence)

  datatype Db = Db(warranties: map<string, Warranty>, registry: Registry, audit: seq<AuditRow>)

  /** Writes nothing when the warranty read already has the new state. */
  function Transitioned(db: Db, id: string, read: Warranty, e: Evaluation, actor: Option<string>, now: int): Db {
    if read.state == e.state then db
    else
      var updated := if id in db.warranties && db.warranties[id].tenant == read.tenant
        then db.warranties[id := db.warranties[id].(state := e.state, evidence := e.evidence, changedAt := now)]
        else db.warranties;
      db.(warranties := updated,
          audit := db.audit + [StateChange(id, read.tenant, actor, read.state, e.state, e.evidence)])
  }

  function WithBadge(db: Db, secret: string, tenant: string, account: string, inputs: Inputs, now: int): (Db, bool) {
    var (registry, r) := Synced(db.registry, secret, tenant, account, inputs, now);
    (db.(registry := registry), r.changed)
  }

  /** Binding a policy to an account: a fresh id, an active warranty, the badge, one audit row. */
  function BoundPolicy(db: Db, secret: string, id: string, tenant: string, account: string,
                       actor: Option<string>, now: int): Db
  {
    var inserted := db.(warranties := db.warranties[id := Warranty(tenant, account, ACTIVE, NO_EVIDENCE, now, now)]);
    var synced := WithBadge(inserted, secret, tenant, account, Inputs(Some(ACTIVE), NO_EVIDENCE), now).0;
    synced.(audit := synced.audit + [Bound(id, tenant, actor)])
  }

  /** Evaluate, transition and sync the badge of one warranty as read, in one transaction. */
  function Recomputed(db: Db, secret: string, id: string, read: Warranty, e: Evaluation, actor: Option<string>,
                      now: int): (Db, bool)
  {
    WithBadge(Transitioned(db, id, read, e, actor, now), secret, read.tenant, read.account,
              Inputs(Some(e.state), e.evidence), now)
  }

  // ---- The scan ----

  /** Where the transaction of one row throws, if it does. */
  datatype Fault = NoFault | AtEvaluate | AtTransition | AtSync | AtCommit

  datatype Counts = Counts(scanned: nat, stateChanges: nat, badgeChanges: nat, errors: nat)

  /** A scan as it reads the world: the evidence and the clock, fixed for the scan, and the faults. */
  datatype Scan = Scan(metrics: seq<Metric>, faults: map<string, Fault>, secret: string, now: int)

  function VerdictOf(scan: Scan, tenant: string): Evaluation {
    EvaluatePolicyState(scan.metrics, tenant, scan.now)
  }

  function FaultOf(scan: Scan, id: string): Fault {
    if id in scan.faults then scan.faults[id] else NoFault
  }

  /** One row: a fault rolls the tables back but not the counters already incremented. */
  function RowScanned(db: Db, c: Counts, scan: Scan, id: string, read: Warranty): (Db, Counts)
  {
    var e, fault := VerdictOf(scan, read.tenant), FaultOf(scan, id);
    var (after, badgeChanged) := Recomputed(db, scan.secret, id, read, e, None, scan.now);
    var transitioned := fault.NoFault? || fault.AtSync? || fault.AtCommit?;
    var synced := fault.NoFault? || fault.AtCommit?;
    (if fault.NoFault? then after else db,
     Counts(c.scanned + 1,
            c.stateChanges + (if transitioned && read.state != e.state then 1 else 0),
            c.badgeChanges + (if synced && badgeChanged then 1 else 0),
            c.errors + if fault.NoFault? then 0 else 1))
  }

  predicate AllListed(db: Db, ids: seq<string>) {
    forall i :: 0 <= i < |ids| ==> ids[i] in db.warranties
  }

  /** After the first n rows of the list read at the start of the scan. */
  function Scanned(db: Db, scan: Scan, ids: seq<string>, n: nat): (Db, Counts)
    requires n <= |ids| && AllListed(db, ids)
  {
    if n == 0 then (db, Counts(0, 0, 0, 0))
    else
      var (before, c) := Scanned(db, scan, ids, n - 1);
      RowScanned(before, c, scan, ids[n - 1], db.warranties[ids[n - 1]])
  }

  lemma ScannedStep(db: Db, scan: Scan, ids: seq<string>, n: nat)
    requires 0 < n <= |ids| && AllListed(db, ids)
    ensures var (before, c) := Scanned(db, scan, ids, n - 1);
            Scanned(db, scan, ids, n) == RowScanned(before, c, scan, ids[n - 1], db.warranties[ids[n - 1]])
    ensures Scanned(db, scan, ids, 0).0 == db
  {
    hide RowScanned;
  }

  /** Exactly the active warranties, each once, in any order. */
  ghost predicate ListsActive(db: Db, ids: seq<string>) {
    && (forall i, j :: 0 <= i < j < |ids| ==> ids[i] != ids[j])
    && (forall id :: id in ids <==> id in db.warranties && db.warranties[id].state == ACTIVE)
  }

  class WarrantyDb {
    const metrics: seq<Metric>
    var warranties: map<string, Warranty>
    var registry: Registry
    var audit: seq<AuditRow>

    function Tables(): Db
      reads this
    {
      Db(warranties, registry, audit)
    }

    constructor (metrics: seq<Metric>)
      ensures this.metrics == metrics && Tables() == Db(map[], Registry(map[], [], None, []), [])
    {
      this.metrics := metrics;
      warranties, registry, audit := map[], Registry(map[], [], None, []), [];
    }

    method SyncBadgeRow(secret: string, tenant: string, account: string, inputs: Inputs,
                        now: int) returns (changed: bool)
      modifies `registry
      ensures (Tables(), changed) == WithBadge(old(Tables()), secret, tenant, account, inputs, now)
    {
      var (after, r) := Synced(registry, secret, tenant, account, inputs, now);
      registry := after;
      changed := r.changed;
    }

    method ApplyStateTransition(id: string, read: Warranty, e: Evaluation, actor: Option<string>,
                                now: int) returns (changed: bool)
      modifies `warranties, `audit
      ensures Tables() == Transitioned(old(Tables()), id, read, e, actor, now)
      ensures changed <==> read.state != e.state
    {
      if read.state == e.state {
        return false;
      }
      if id in warranties && warranties[id].tenant == read.tenant {
        warranties := warranties[id := warranties[id].(state := e.state, evidence := e.evidence, changedAt := now)];
      }
      audit := audit + [StateChange(id, read.tenant, actor, read.state, e.state, e.evidence)];
      return true;
    }

    method BindPolicy(secret: string, id: string, tenant: string, account: string, actor: Option<string>, now: int)
      requires id !in warranties
      modifies this
      ensures Tables() == BoundPolicy(old(Tables()), secret, id, tenant, account, actor, now)
    {
      warranties := warranties[id := Warranty(tenant, account, ACTIVE, NO_EVIDENCE, now, now)];
      var _ := SyncBadgeRow(secret, tenant, account, Inputs(Some(ACTIVE), NO_EVIDENCE), now);
      audit := audit + [Bound(id, tenant, actor)];
    }

    /** There is no guard on the state: a void policy is evaluated like any other. */
    method RecomputePolicy(secret: string, id: string, actor: Option<string>, now: int) returns (found: bool)
      modifies this
      ensures found <==> id in old(warranties)
      ensures !found ==> Tables() == old(Tables())
      ensures found ==>
        var read := old(warranties)[id];
        Tables()
          == Recomputed(old(Tables()), secret, id, read, EvaluatePolicyState(metrics, read.tenant, now), actor, now).0
    {
      if id !in warranties {
        return false;
      }
      var read := warranties[id];
      var e := EvaluatePolicyState(metrics, read.tenant, now);
      var _ := ApplyStateTransition(id, read, e, actor, now);
      var _ := SyncBadgeRow(secret, read.tenant, read.account, Inputs(Some(e.state), e.evidence), now);
      return true;
    }

    method SelectActive() returns (ids: seq<string>)
      ensures ListsActive(Tables(), ids)
    {
      ids := [];
      var todo := warranties.Keys;
      while todo != {}
        invariant todo <= warranties.Keys
        invariant forall i, j :: 0 <= i < j < |ids| ==> ids[i] != ids[j]
        invariant forall id :: id in ids <==> id in warranties && id !in todo && warranties[id].state == ACTIVE
      {
        var id :| id in todo;
        if warranties[id].state == ACTIVE {
          ids := ids + [id];
        }
        todo := todo - {id};
      }
    }

    /** One transaction; a fault restores the tables as they were when it began. */
    method RecomputeRow(scan: Scan, id: string, read: Warranty, c: Counts) returns (c': Counts)
      requires scan.metrics == metrics
      modifies this
      ensures (Tables(), c') == RowScanned(old(Tables()), c, scan, id, read)
    {
      var savedWarranties, savedRegistry, savedAudit := warranties, registry, audit;
      c' := c.(scanned := c.scanned + 1);
      var fault := FaultOf(scan, id);
      if fault != AtEvaluate {
        var e := EvaluatePolicyState(metrics, read.tenant, scan.now);
        var changed := ApplyStateTransition(id, read, e, None, scan.now);
        if fault != AtTransition {
          if changed {
            c' := c'.(stateChanges := c'.stateChanges + 1);
          }
          var badgeChanged :=
            SyncBadgeRow(scan.secret, read.tenant, read.account, Inputs(Some(e.state), e.evidence), scan.now);
          if fault != AtSync && badgeChanged {
            c' := c'.(badgeChanges := c'.badgeChanges + 1);
          }
        }
      }
      if fault != NoFault {
        warranties, registry, audit := savedWarranties, savedRegistry, savedAudit;
        c' := c'.(errors := c'.errors + 1);
      }
    }

    method RecomputeAllWarranties(faults: map<string, Fault>, secret: string,
                                  now: int) returns (c: Counts, ghost ids: seq<string>)
      modifies this
      ensures ListsActive(old(Tables()), ids)
      ensures (Tables(), c) == Scanned(old(Tables()), Scan(metrics, faults, secret, now), ids, |ids|)
    {
      var scan := Scan(metrics, faults, secret, now);
      var list := SelectActive();
      ids := list;
      var read := warranties;
      c := Counts(0, 0, 0, 0);
      for n := 0 to |list|
        invariant (Tables(), c) == Scanned(old(Tables()), scan, list, n)
      {
        c := RecomputeRow(scan, list[n], read[list[n]], c);
      }
    }
  }

  // ---- What a scan leaves behind ----

  /** A warranty after the scan: evaluated if it was listed without fault, else as it was. */
  function Settled(w: Warranty, scan: Scan, reached: bool): Warranty
  {
    var e := VerdictOf(scan, w.tenant);
    if reached && w.state != e.state then w.(state := e.state, evidence := e.evidence, changedAt := scan.now) else w
  }

  predicate Reached(scan: Scan, ids: seq<string>, n: nat, id: string)
    requires n <= |ids|
  {
    id in ids[..n] && FaultOf(scan, id) == NoFault
  }

  /** Did a row of this tenant go through? */
  predicate TenantReached(db: Db, scan: Scan, ids: seq<string>, n: nat, tenant: string)
    requires n <= |ids| && AllListed(db, ids)
  {
    exists i :: 0 <= i < n && db.warranties[ids[i]].tenant == tenant && FaultOf(scan, ids[i]) == NoFault
  }

  ghost predicate AllSettled(db: Db, scan: Scan, ids: seq<string>, n: nat, ws: map<string, Warranty>)
    requires n <= |ids|
  {
    && ws.Keys == db.warranties.Keys
    && forall id :: id in db.warranties ==> ws[id] == Settled(db.warranties[id], scan, Reached(scan, ids, n, id))
  }

  lemma RowWarranty(db: Db, c: Counts, scan: Scan, id: string, read: Warranty)
    requires id in db.warranties && db.warranties[id] == read
    ensures RowScanned(db, c, scan, id, read).0.warranties
         == db.warranties[id := Settled(read, scan, FaultOf(scan, id) == NoFault)]
  {
    hide Synced;
  }

  lemma ReachedGrows(scan: Scan, ids: seq<string>, n: nat, id: string)
    requires 0 < n <= |ids| && forall i, j :: 0 <= i < j < |ids| ==> ids[i] != ids[j]
    ensures id != ids[n - 1] ==> (Reached(scan, ids, n, id) <==> Reached(scan, ids, n - 1, id))
    ensures Reached(scan, ids, n, ids[n - 1]) <==> FaultOf(scan, ids[n - 1]) == NoFault
    ensures !Reached(scan, ids, n - 1, ids[n - 1])
  {
    assert ids[..n] == ids[..n - 1] + [ids[n - 1]];
    assert ids[n - 1] !in ids[..n - 1];
  }

  /** Main theorem, warranties: the final table row by row. Void rows are never listed, so a scan
      never moves them; a failing row keeps its warranty; every other listed row gets the verdict. */
  lemma {:induction false} ScanWarranties(db: Db, scan: Scan, ids: seq<string>, n: nat)
    requires n <= |ids| && ListsActive(db, ids)
    ensures AllSettled(db, scan, ids, n, Scanned(db, scan, ids, n).0.warranties)
  {
    hide RowScanned, AllSettled, Scanned, EvaluatePolicyState;
    if n == 0 {
      NothingSettledYet(db, scan, ids);
    } else {
      ScanWarranties(db, scan, ids, n - 1);
      var (before, c) := Scanned(db, scan, ids, n - 1);
      ScannedStep(db, scan, ids, n);
      ScannedWarranties(db, before, c, scan, ids, n);
    }
  }

  lemma NothingSettledYet(db: Db, scan: Scan, ids: seq<string>)
    requires AllListed(db, ids)
    ensures AllSettled(db, scan, ids, 0, Scanned(db, scan, ids, 0).0.warranties)
  {
  }

  lemma ScannedWarranties(db: Db, before: Db, c: Counts, scan: Scan, ids: seq<string>, n: nat)
    requires 0 < n <= |ids| && ListsActive(db, ids) && AllSettled(db, scan, ids, n - 1, before.warranties)
    ensures ids[n - 1] in db.warranties
    ensures AllSettled(db, scan, ids, n,
              RowScanned(before, c, scan, ids[n - 1], db.warranties[ids[n - 1]]).0.warranties)
  {
    hide RowScanned, AllSettled;
    SettledGrows(db, scan, ids, n, before.warranties);
    RowWarranty(before, c, scan, ids[n - 1], db.warranties[ids[n - 1]]);
  }

  lemma SettledGrows(db: Db, scan: Scan, ids: seq<string>, n: nat, ws: map<string, Warranty>)
    requires 0 < n <= |ids| && ListsActive(db, ids)
    requires AllSettled(db, scan, ids, n - 1, ws)
    ensures var id := ids[n - 1];
            && id in ws && id in db.warranties && ws[id] == db.warranties[id]
            && AllSettled(db, scan, ids, n, ws[id := Settled(db.warranties[id], scan, FaultOf(scan, id) == NoFault)])
  {
    var id := ids[n - 1];
    assert id in ids;
    ReachedGrows(scan, ids, n, id);
    forall x | x in db.warranties && x != id
      ensures Reached(scan, ids, n, x) <==> Reached(scan, ids, n - 1, x)
    {
      ReachedGrows(scan, ids, n, x);
    }
    hide Reached, FaultOf;
  }

  /** A tenant's badge shows the verdict if a row of it went through, and is as it was otherwise. */
  ghost predicate BadgeSettled(before: map<string, BadgeRow>, scan: Scan, reached: bool, tenant: string,
                               after: map<string, BadgeRow>)
  {
    if reached then tenant in after && after[tenant].badge == BadgeOf(VerdictOf(scan, tenant))
    else (tenant in after <==> tenant in before) && (tenant in before ==> after[tenant] == before[tenant])
  }

  /** Main theorem, badges: the final state and reason of every tenant. */
  lemma {:induction false} ScanBadges(db: Db, scan: Scan, ids: seq<string>, n: nat, tenant: string)
    requires n <= |ids| && ListsActive(db, ids)
    ensures BadgeSettled(
      db.registry.badges, scan, TenantReached(db, scan, ids, n, tenant), tenant,
      Scanned(db, scan, ids, n).0.registry.badges)
  {
    ListedExist(db, ids);
    hide RowScanned, TenantReached, BadgeSettled, Scanned, ListsActive;
    if n == 0 {
      NoBadgeYet(db, scan, ids, tenant);
    } else {
      ScanBadges(db, scan, ids, n - 1, tenant);
      var (before, c) := Scanned(db, scan, ids, n - 1);
      var id := ids[n - 1];
      ScannedStep(db, scan, ids, n);
      RowBadge(before, c, scan, id, db.warranties[id], tenant);
      TenantReachedGrows(db, scan, ids, n, tenant);
      SettledStep(db.registry.badges, before.registry.badges, scan, TenantReached(db, scan, ids, n - 1, tenant),
        db.warranties[id].tenant == tenant && FaultOf(scan, id) == NoFault, tenant,
        Scanned(db, scan, ids, n).0.registry.badges);
    }
  }

  lemma NoBadgeYet(db: Db, scan: Scan, ids: seq<string>, tenant: string)
    requires AllListed(db, ids)
    ensures BadgeSettled(db.registry.badges, scan, TenantReached(db, scan, ids, 0, tenant), tenant,
              Scanned(db, scan, ids, 0).0.registry.badges)
  {
  }

  lemma SettledStep(
      start: map<string, BadgeRow>, before: map<string, BadgeRow>, scan: Scan, reached: bool, hit: bool,
      tenant: string, after: map<string, BadgeRow>)
    requires BadgeSettled(start, scan, reached, tenant, before) && BadgeSettled(before, scan, hit, tenant, after)
    ensures BadgeSettled(start, scan, reached || hit, tenant, after)
  {
    hide BadgeOf, VerdictOf;
  }

  lemma ListedExist(db: Db, ids: seq<string>)
    requires ListsActive(db, ids)
    ensures AllListed(db, ids)
  {
  }

  lemma RowBadge(db: Db, c: Counts, scan: Scan, id: string, read: Warranty, tenant: string)
    ensures BadgeSettled(
      db.registry.badges, scan, read.tenant == tenant && FaultOf(scan, id) == NoFault, tenant,
      RowScanned(db, c, scan, id, read).0.registry.badges)
  {
    hide ComputeBadgeState, EvaluatePolicyState;
  }

  lemma TenantReachedGrows(db: Db, scan: Scan, ids: seq<string>, n: nat, tenant: string)
    requires 0 < n <= |ids| && AllListed(db, ids)
    ensures TenantReached(db, scan, ids, n, tenant)
       <==> TenantReached(db, scan, ids, n - 1, tenant)
            || (db.warranties[ids[n - 1]].tenant == tenant && FaultOf(scan, ids[n - 1]) == NoFault)
  {
  }

  /** Row order does not matter: any two listings give the same warranties and the same badges. */
  lemma ScanOrderIrrelevant(db: Db, scan: Scan, ids: seq<string>, ids': seq<string>, tenant: string)
    requires ListsActive(db, ids) && ListsActive(db, ids')
    ensures var a, b := Scanned(db, scan, ids, |ids|).0, Scanned(db, scan, ids', |ids'|).0;
            && a.warranties == b.warranties
            && (tenant in a.registry.badges <==> tenant in b.registry.badges)
            && (tenant in a.registry.badges ==> a.registry.badges[tenant].badge == b.registry.badges[tenant].badge)
  {
    SameWarranties(db, scan, ids, ids');
    ScanBadges(db, scan, ids, |ids|, tenant);
    ScanBadges(db, scan, ids', |ids'|, tenant);
    hide Scanned, TenantReached, Reached, Settled, BadgeOf;
    if TenantReached(db, scan, ids, |ids|, tenant) {
      SameTenantsReached(db, scan, ids, ids', tenant);
    } else if TenantReached(db, scan, ids', |ids'|, tenant) {
      SameTenantsReached(db, scan, ids', ids, tenant);
    }
  }

  lemma SameWarranties(db: Db, scan: Scan, ids: seq<string>, ids': seq<string>)
    requires ListsActive(db, ids) && ListsActive(db, ids')
    ensures Scanned(db, scan, ids, |ids|).0.warranties == Scanned(db, scan, ids', |ids'|).0.warranties
  {
    hide Scanned;
    ScanWarranties(db, scan, ids, |ids|);
    ScanWarranties(db, scan, ids', |ids'|);
    SettledAlike(db, scan, ids, ids',
                 Scanned(db, scan, ids, |ids|).0.warranties,
                 Scanned(db, scan, ids', |ids'|).0.warranties);
  }

  lemma SettledAlike(db: Db, scan: Scan, ids: seq<string>, ids': seq<string>, ws: map<string, Warranty>,
                     ws': map<string, Warranty>)
    requires ListsActive(db, ids) && ListsActive(db, ids')
    requires AllSettled(db, scan, ids, |ids|, ws) && AllSettled(db, scan, ids', |ids'|, ws')
    ensures ws == ws'
  {
    assert ids[..|ids|] == ids && ids'[..|ids'|] == ids';
    forall id | id in db.warranties
      ensures ws[id] == ws'[id]
    {
      assert id in ids <==> id in ids';
    }
  }

  lemma SameTenantsReached(db: Db, scan: Scan, ids: seq<string>, ids': seq<string>, tenant: string)
    requires ListsActive(db, ids) && ListsActive(db, ids')
    requires TenantReached(db, scan, ids, |ids|, tenant)
    ensures TenantReached(db, scan, ids', |ids'|, tenant)
  {
    var i :| 0 <= i < |ids| && db.warranties[ids[i]].tenant == tenant && FaultOf(scan, ids[i]) == NoFault;
    assert ids[i] in ids;
    var j :| 0 <= j < |ids'| && ids'[j] == ids[i];
  }

  ghost predicate AgreesWithVerdict(db: Db, scan: Scan, id: string)
    requires id in db.warranties
  {
    var w := db.warranties[id];
    w.state == VerdictOf(scan, w.tenant).state && UpToDate(db.registry, w.tenant, BadgeOf(VerdictOf(scan, w.tenant)))
  }

  /** A scan changes nothing iff every row it gets through agrees with its verdict already. */
  lemma {:induction false} ScanIsNoOpIff(db: Db, scan: Scan, ids: seq<string>, n: nat)
    requires n <= |ids| && ListsActive(db, ids)
    ensures Scanned(db, scan, ids, n).0 == db
       <==> forall i :: 0 <= i < n && FaultOf(scan, ids[i]) == NoFault ==> AgreesWithVerdict(db, scan, ids[i])
  {
    hide RowScanned, AgreesWithVerdict;
    if n > 0 {
      ScanIsNoOpIff(db, scan, ids, n - 1);
      var (before, c) := Scanned(db, scan, ids, n - 1);
      var id := ids[n - 1];
      assert id in ids;
      RowTraces(before, c, scan, id, db.warranties[id]);
      if before == db {
        RowNoOpIff(db, c, scan, id);
      } else {
        ScanTraces(db, scan, ids, n - 1);
      }
    }
  }

  /** How many audit and history rows there are: they are never removed. */
  function Traces(db: Db): nat {
    |db.audit| + |db.registry.history|
  }

  /** A row that changes anything leaves a trace. */
  lemma RowTraces(db: Db, c: Counts, scan: Scan, id: string, read: Warranty)
    ensures var after := RowScanned(db, c, scan, id, read).0;
            after == db || Traces(after) > Traces(db)
  {
    hide ComputeBadgeState, EvaluatePolicyState;
  }

  lemma {:induction false} ScanTraces(db: Db, scan: Scan, ids: seq<string>, n: nat)
    requires n <= |ids| && AllListed(db, ids)
    ensures var after := Scanned(db, scan, ids, n).0;
            after == db || Traces(after) > Traces(db)
  {
    hide RowScanned, Traces;
    if n > 0 {
      ScanTraces(db, scan, ids, n - 1);
      var (before, c) := Scanned(db, scan, ids, n - 1);
      RowTraces(before, c, scan, ids[n - 1], db.warranties[ids[n - 1]]);
    }
  }

  lemma RowNoOpIff(db: Db, c: Counts, scan: Scan, id: string)
    requires id in db.warranties
    ensures RowScanned(db, c, scan, id, db.warranties[id]).0 == db <==>
      FaultOf(scan, id) != NoFault || AgreesWithVerdict(db, scan, id)
  {
    hide ComputeBadgeState, EvaluatePolicyState;
  }

  /** Both scans find the same verdicts, be it on the same metrics or later ones. */
  ghost predicate SameVerdicts(first: Scan, second: Scan) {
    forall tenant :: VerdictOf(first, tenant) == VerdictOf(second, tenant)
  }

  /** Main theorem on repetition: after any scan, failing rows and all, a second scan at the same
      evidence writes nothing, whatever it trips over, provided the rows that failed in the first fail
      again: warranties, registry with its signatures, history and audit stay. */
  lemma SecondScanIsNoOp(db: Db, first: Scan, second: Scan, ids: seq<string>, ids2: seq<string>, n: nat)
    requires ListsActive(db, ids) && SameVerdicts(first, second)
    requires forall id :: FaultOf(first, id) != NoFault ==> FaultOf(second, id) != NoFault
    requires ListsActive(Scanned(db, first, ids, |ids|).0, ids2) && n <= |ids2|
    ensures Scanned(Scanned(db, first, ids, |ids|).0, second, ids2, n).0 == Scanned(db, first, ids, |ids|).0
  {
    var once := Scanned(db, first, ids, |ids|).0;
    forall i | 0 <= i < n && FaultOf(second, ids2[i]) == NoFault
      ensures ids2[i] in once.warranties && AgreesWithVerdict(once, second, ids2[i])
    {
      assert ids2[i] in ids2;
      RowIsSettled(db, first, ids, ids2[i], ids2);
      SameVerdictsAgree(once, first, second, ids2[i]);
      hide Scanned, AgreesWithVerdict, SameVerdicts;
    }
    hide AgreesWithVerdict, Scanned, SameVerdicts;
    ScanIsNoOpIff(once, second, ids2, n);
  }

  lemma SameVerdictsAgree(db: Db, first: Scan, second: Scan, id: string)
    requires SameVerdicts(first, second) && id in db.warranties && AgreesWithVerdict(db, first, id)
    ensures AgreesWithVerdict(db, second, id)
  {
    hide VerdictOf;
  }

  /** A scan of rows that all agree with their verdicts counts no change, faults or not. */
  lemma {:induction false} AgreedRowsCountNothing(db: Db, scan: Scan, ids: seq<string>, n: nat)
    requires n <= |ids| && AllListed(db, ids)
    requires forall i :: 0 <= i < |ids| ==> AgreesWithVerdict(db, scan, ids[i])
    ensures Scanned(db, scan, ids, n).0 == db
    ensures Scanned(db, scan, ids, n).1.stateChanges == 0 == Scanned(db, scan, ids, n).1.badgeChanges
  {
    if n > 0 {
      hide RowScanned, AgreesWithVerdict;
      AgreedRowsCountNothing(db, scan, ids, n - 1);
      assert AgreesWithVerdict(db, scan, ids[n - 1]);
      RowNoOp(db, Scanned(db, scan, ids, n - 1).1, scan, ids[n - 1]);
    }
  }

  /** After a faultless first scan the second does not even count a change. */
  lemma SecondScanCountsNothing(db: Db, first: Scan, second: Scan, ids: seq<string>, ids2: seq<string>, n: nat)
    requires ListsActive(db, ids) && SameVerdicts(first, second) && (forall id :: FaultOf(first, id) == NoFault)
    requires ListsActive(Scanned(db, first, ids, |ids|).0, ids2) && n <= |ids2|
    ensures var c := Scanned(Scanned(db, first, ids, |ids|).0, second, ids2, n).1;
            c.stateChanges == 0 && c.badgeChanges == 0
  {
    var once := Scanned(db, first, ids, |ids|).0;
    ListedExist(once, ids2);
    forall i | 0 <= i < |ids2|
      ensures AgreesWithVerdict(once, second, ids2[i])
    {
      assert ids2[i] in ids2;
      RowIsSettled(db, first, ids, ids2[i], ids2);
      SameVerdictsAgree(once, first, second, ids2[i]);
      hide Scanned, AgreesWithVerdict, SameVerdicts;
    }
    hide AgreesWithVerdict, Scanned, SameVerdicts, ListsActive;
    AgreedRowsCountNothing(once, second, ids2, n);
  }

  /** After a scan an active warranty whose row did not fail agrees with the verdict, badge and all. */
  lemma RowIsSettled(db: Db, scan: Scan, ids: seq<string>, id: string, ids2: seq<string>)
    requires ListsActive(db, ids) && FaultOf(scan, id) == NoFault
    requires ListsActive(Scanned(db, scan, ids, |ids|).0, ids2) && id in ids2
    ensures var once := Scanned(db, scan, ids, |ids|).0;
            id in once.warranties && AgreesWithVerdict(once, scan, id)
  {
    hide Scanned, BadgeOf, VerdictOf;
    ScanWarranties(db, scan, ids, |ids|);
    assert ids[..|ids|] == ids;
    assert id in ids;
    ReachedTenant(db, scan, ids, id);
    ScanBadges(db, scan, ids, |ids|, db.warranties[id].tenant);
  }

  lemma RowNoOp(db: Db, c: Counts, scan: Scan, id: string)
    requires id in db.warranties && AgreesWithVerdict(db, scan, id)
    ensures var (after, c') := RowScanned(db, c, scan, id, db.warranties[id]);
            after == db && c'.stateChanges == c.stateChanges && c'.badgeChanges == c.badgeChanges
  {
    hide ComputeBadgeState;
  }

  lemma ReachedTenant(db: Db, scan: Scan, ids: seq<string>, id: string)
    requires ListsActive(db, ids) && id in ids && FaultOf(scan, id) == NoFault
    ensures TenantReached(db, scan, ids, |ids|, db.warranties[id].tenant)
  {
    var i :| 0 <= i < |ids| && ids[i] == id;
  }

  /** The counters against the rows committed since. */
  ghost predicate Bracketed(db: Db, after: Db, c: Counts) {
    && |db.audit| + c.stateChanges - c.errors <= |after.audit| <= |db.audit| + c.stateChanges
    && |after.registry.history| <= |db.registry.history| + c.badgeChanges <= |after.registry.history| + c.errors
  }

  lemma RowBracketed(start: Db, db: Db, c: Counts, scan: Scan, id: string, read: Warranty)
    requires Bracketed(start, db, c)
    ensures var (after, c') := RowScanned(db, c, scan, id, read);
            Bracketed(start, after, c') && c'.scanned == c.scanned + 1
  {
    hide ComputeBadgeState, EvaluatePolicyState;
  }

  lemma NothingCounted(db: Db, scan: Scan, ids: seq<string>)
    requires AllListed(db, ids)
    ensures var (after, c) := Scanned(db, scan, ids, 0); c.scanned == 0 && Bracketed(db, after, c)
  {
  }

  /** The reported state_changes lies between the audit rows committed and those plus the errors, and
      badge_changes likewise against the history; both are exact when nothing failed. */
  lemma {:induction false} ScanCounts(db: Db, scan: Scan, ids: seq<string>, n: nat)
    requires n <= |ids| && AllListed(db, ids)
    ensures var (after, c) := Scanned(db, scan, ids, n); c.scanned == n && Bracketed(db, after, c)
  {
    hide RowScanned, Bracketed, Scanned;
    if n == 0 {
      NothingCounted(db, scan, ids);
    } else {
      ScanCounts(db, scan, ids, n - 1);
      var (before, c) := Scanned(db, scan, ids, n - 1);
      ScannedStep(db, scan, ids, n);
      RowBracketed(db, before, c, scan, ids[n - 1], db.warranties[ids[n - 1]]);
    }
  }

  // ---- Who can reinstate a void policy ----

  /** Recompute moves any policy, void or not, to the current verdict, so under it a void is not
      terminal: the policy is reinstated exactly when the verdict is ACTIVE. */
  lemma RecomputeReachesVerdict(db: Db, secret: string, id: string, e: Evaluation, actor: Option<string>, now: int)
    requires id in db.warranties
    ensures var after := Recomputed(db, secret, id, db.warranties[id], e, actor, now).0;
            && id in after.warranties && after.warranties[id].state == e.state
            && after.registry.badges.Keys == db.registry.badges.Keys + {db.warranties[id].tenant}
            && after.registry.badges[db.warranties[id].tenant].badge == BadgeOf(e)
            && (db.warranties[id].state != ACTIVE ==> (after.warranties[id].state == ACTIVE <==> e.state == ACTIVE))
            && after.warranties
               == (if db.warranties[id].state == e.state then db.warranties
                   else db.warranties[id :=
                     db.warranties[id].(state := e.state, evidence := e.evidence, changedAt := now)])
  {
    hide ComputeBadgeState;
  }

  /** Bind and recompute touch the registry only through one badge sync, so the registry theorems
      cover them. */
  lemma HandlersOnlySync(db: Db, secrets: Secrets, id: string, tenant: string, account: string, e: Evaluation,
                         actor: Option<string>, now: int)
    ensures var w := World(db.registry, Some(secrets));
            && World(BoundPolicy(db, secrets.current, id, tenant, account, actor, now).registry, Some(secrets))
               == Next(w, Sync(tenant, account, Inputs(Some(ACTIVE), NO_EVIDENCE), now))
            && (id in db.warranties ==>
                  World(Recomputed(db, secrets.current, id, db.warranties[id], e, actor, now).0.registry, Some(secrets))
                  == Next(w, Sync(db.warranties[id].tenant, db.warranties[id].account,
                          Inputs(Some(e.state), e.evidence), now)))
  {
    hide Synced;
  }

  /** A scan is a series of such syncs: one for each row that went through. */
  function SyncsOf(db: Db, scan: Scan, ids: seq<string>, n: nat): seq<Step>
    requires n <= |ids| && AllListed(db, ids)
  {
    if n == 0 then []
    else
      var rest := SyncsOf(db, scan, ids, n - 1);
      if FaultOf(scan, ids[n - 1]) == NoFault then rest + [SyncOf(scan, db.warranties[ids[n - 1]])] else rest
  }

  function SyncOf(scan: Scan, w: Warranty): Step
  {
    var e := VerdictOf(scan, w.tenant);
    Sync(w.tenant, w.account, Inputs(Some(e.state), e.evidence), scan.now)
  }

  function Run(w: World, steps: seq<Step>): World {
    if steps == [] then w else Next(Run(w, steps[..|steps| - 1]), steps[|steps| - 1])
  }

  /** On the registry the first n rows of a scan are their syncs. */
  ghost predicate ActsAsSyncs(db: Db, scan: Scan, ids: seq<string>, n: nat, secrets: Secrets)
    requires n <= |ids| && AllListed(db, ids)
  {
    World(Scanned(db, scan, ids, n).0.registry, Some(secrets))
      == Run(World(db.registry, Some(secrets)), SyncsOf(db, scan, ids, n))
  }

  lemma {:induction false} ScanOnlySyncs(db: Db, scan: Scan, ids: seq<string>, n: nat, secrets: Secrets)
    requires n <= |ids| && AllListed(db, ids) && scan.secret == secrets.current
    ensures ActsAsSyncs(db, scan, ids, n, secrets)
  {
    if n > 0 {
      hide ActsAsSyncs;
      ScanOnlySyncs(db, scan, ids, n - 1, secrets);
      OneMoreSync(db, scan, ids, n, secrets);
    }
  }

  lemma OneMoreSync(db: Db, scan: Scan, ids: seq<string>, n: nat, secrets: Secrets)
    requires 0 < n <= |ids| && AllListed(db, ids) && scan.secret == secrets.current
    requires ActsAsSyncs(db, scan, ids, n - 1, secrets)
    ensures ActsAsSyncs(db, scan, ids, n, secrets)
  {
    hide RowScanned, Next, SyncOf, Run, SyncsOf, Scanned, FaultOf;
    var (before, c) := Scanned(db, scan, ids, n - 1);
    assert ids[n - 1] in db.warranties;
    var w := db.warranties[ids[n - 1]];
    ScannedStep(db, scan, ids, n);
    SyncsStep(db, scan, ids, n);
    RowSync(before, c, scan, ids[n - 1], w, secrets);
    RunOneMore(World(db.registry, Some(secrets)), SyncsOf(db, scan, ids, n - 1), SyncOf(scan, w));
  }

  lemma SyncsStep(db: Db, scan: Scan, ids: seq<string>, n: nat)
    requires 0 < n <= |ids| && AllListed(db, ids)
    ensures var rest := SyncsOf(db, scan, ids, n - 1);
            SyncsOf(db, scan, ids, n) ==
              if FaultOf(scan, ids[n - 1]) == NoFault then rest + [SyncOf(scan, db.warranties[ids[n - 1]])]
              else rest
  {
    hide SyncOf;
  }

  lemma RunOneMore(w: World, steps: seq<Step>, step: Step)
    ensures Run(w, steps + [step]) == Next(Run(w, steps), step)
  {
    assert (steps + [step])[..|steps|] == steps;
  }

  lemma RowSync(db: Db, c: Counts, scan: Scan, id: string, read: Warranty, secrets: Secrets)
    requires scan.secret == secrets.current
    ensures var after := RowScanned(db, c, scan, id, read).0.registry;
            if FaultOf(scan, id) == NoFault
            then World(after, Some(secrets)) == Next(World(db.registry, Some(secrets)), SyncOf(scan, read))
            else after == db.registry
  {
    hide Synced;
  }
}
