/** Runs of the bind, recompute and scan entry points: the audit trail of each warranty, what a bound policy
  can count on, and what a scan reports. */
module WarrantyHistory {
  import opened Common
  import opened BadgeRegistry
  import opened WarrantyRecompute

  // ---- The audit trail is a chain that ends at the warranty ----

  /** The audit rows of one warranty, oldest first. */
  function AuditOf(audit: seq<AuditRow>, id: string): seq<AuditRow> {
    if audit == [] then []
    else
      var last := audit[|audit| - 1];
      AuditOf(audit[..|audit| - 1], id) + if last.warranty == id then [last] else []
  }

  /** The state a warranty is in once the row is written. */
  function Leaves(row: AuditRow): PolicyState {
    match row
    case Bound(_, _, _) => ACTIVE
    case StateChange(_, _, _, _, state, _) => state
  }

  /** Row i starts where the row before it ended, and leads elsewhere; the first is the binding. */
  predicate Continues(rows: seq<AuditRow>, i: nat)
    requires i < |rows|
  {
    if i == 0 then rows[i].Bound?
    else rows[i].StateChange? && rows[i].before == Leaves(rows[i - 1]) && rows[i].before != rows[i].state
  }

  /** The trail of a warranty: it continues row by row, names the tenant throughout and ends in the state the
      warranty shows, with the evidence it shows. */
  ghost predicate Trails(rows: seq<AuditRow>, w: Warranty) {
    && rows != []
    && (forall i :: 0 <= i < |rows| ==> Continues(rows, i) && rows[i].tenant == w.tenant)
    && Leaves(rows[|rows| - 1]) == w.state
    && w.evidence == if |rows| == 1 then NO_EVIDENCE else rows[|rows| - 1].evidence
  }

  ghost predicate Trailed(db: Db, id: string) {
    if id in db.warranties then Trails(AuditOf(db.audit, id), db.warranties[id]) else AuditOf(db.audit, id) == []
  }

  lemma AuditOfAppend(audit: seq<AuditRow>, row: AuditRow, id: string)
    ensures AuditOf(audit + [row], id) == AuditOf(audit, id) + if row.warranty == id then [row] else []
  {
    assert (audit + [row])[..|audit|] == audit;
  }

  lemma TrailGrows(rows: seq<AuditRow>, w: Warranty, row: AuditRow, after: Warranty)
    requires Trails(rows, w) && row.StateChange? && row.before == w.state != row.state
    requires row.tenant == w.tenant == after.tenant && after.state == row.state && after.evidence == row.evidence
    ensures Trails(rows + [row], after)
  {
    var more := rows + [row];
    forall i | 0 <= i < |more|
      ensures Continues(more, i) && more[i].tenant == after.tenant
    {
      if i < |rows| {
        assert Continues(rows, i) && more[i] == rows[i];
        assert i > 0 ==> more[i - 1] == rows[i - 1];
      }
    }
  }

  lemma TransitionKeepsTrail(db: Db, id: string, e: Evaluation, actor: Option<string>, now: int, x: string)
    requires id in db.warranties && Trailed(db, id) && Trailed(db, x)
    ensures Trailed(Transitioned(db, id, db.warranties[id], e, actor, now), x)
  {
    hide AuditOf, Trails;
    var read := db.warranties[id];
    if read.state != e.state {
      var row := StateChange(id, read.tenant, actor, read.state, e.state, e.evidence);
      AuditOfAppend(db.audit, row, x);
      assert AuditOf(db.audit, x) + [] == AuditOf(db.audit, x);
      if x == id {
        TrailGrows(AuditOf(db.audit, id), read, row, read.(state := e.state, evidence := e.evidence, changedAt := now));
      }
    }
  }

  lemma BindKeepsTrail(db: Db, secret: string, id: string, tenant: string, account: string, actor: Option<string>,
                       now: int, x: string)
    requires id !in db.warranties && Trailed(db, id) && Trailed(db, x)
    ensures Trailed(BoundPolicy(db, secret, id, tenant, account, actor, now), x)
  {
    AuditOfAppend(db.audit, Bound(id, tenant, actor), x);
    hide Synced, AuditOf;
  }

  // ---- Runs ----

  datatype Call =
    | Bind(secret: string, id: string, tenant: string, account: string, actor: Option<string>, now: int)
    | Recompute(metrics: seq<Metric>, secret: string, id: string, actor: Option<string>, now: int)
    | ScanAll(scan: Scan, ids: seq<string>)

  /** Ids are fresh, and a scan visits the warranties that are active when it begins. */
  ghost predicate Enabled(db: Db, call: Call) {
    match call
    case Bind(_, id, _, _, _, _) => id !in db.warranties
    case Recompute(_, _, _, _, _) => true
    case ScanAll(_, ids) => ListsActive(db, ids)
  }

  ghost function Handled(db: Db, call: Call): Db
    requires Enabled(db, call)
  {
    match call
    case Bind(secret, id, tenant, account, actor, now) => BoundPolicy(db, secret, id, tenant, account, actor, now)
    case Recompute(metrics, secret, id, actor, now) =>
      if id !in db.warranties then db
      else
        var read := db.warranties[id];
        Recomputed(db, secret, id, read, EvaluatePolicyState(metrics, read.tenant, now), actor, now).0
    case ScanAll(scan, ids) => Scanned(db, scan, ids, |ids|).0
  }

  ghost predicate IsRun(dbs: seq<Db>, calls: seq<Call>) {
    && |dbs| == |calls| + 1
    && forall n :: 0 <= n < |calls| ==> Enabled(dbs[n], calls[n]) && dbs[n + 1] == Handled(dbs[n], calls[n])
  }

  lemma RowKeepsTrail(db: Db, c: Counts, scan: Scan, id: string, read: Warranty, x: string)
    requires id in db.warranties && db.warranties[id] == read && Trailed(db, id) && Trailed(db, x)
    ensures Trailed(RowScanned(db, c, scan, id, read).0, x)
  {
    TransitionKeepsTrail(db, id, VerdictOf(scan, read.tenant), None, scan.now, x);
    hide Synced, Transitioned, VerdictOf, AuditOf, Trails;
  }

  /** What a scan has not come to yet is as it was read. */
  lemma StillAsRead(db: Db, scan: Scan, ids: seq<string>, n: nat)
    requires n < |ids| && ListsActive(db, ids)
    ensures var ws := Scanned(db, scan, ids, n).0.warranties;
            ids[n] in db.warranties && ids[n] in ws && ws[ids[n]] == db.warranties[ids[n]]
  {
    hide Scanned, AllSettled;
    ScanWarranties(db, scan, ids, n);
    SettledGrows(db, scan, ids, n + 1, Scanned(db, scan, ids, n).0.warranties);
  }

  lemma {:induction false} ScanKeepsTrails(db: Db, scan: Scan, ids: seq<string>, n: nat)
    requires n <= |ids| && ListsActive(db, ids) && forall x :: Trailed(db, x)
    ensures forall x :: Trailed(Scanned(db, scan, ids, n).0, x)
  {
    hide RowScanned, Trailed, Scanned, ListsActive;
    ListedExist(db, ids);
    if n == 0 {
      NothingScanned(db, scan, ids);
    } else {
      ScanKeepsTrails(db, scan, ids, n - 1);
      ScannedStep(db, scan, ids, n);
      StillAsRead(db, scan, ids, n - 1);
      var (before, c) := Scanned(db, scan, ids, n - 1);
      forall x
        ensures Trailed(Scanned(db, scan, ids, n).0, x)
      {
        RowKeepsTrail(before, c, scan, ids[n - 1], db.warranties[ids[n - 1]], x);
      }
    }
  }

  lemma NothingScanned(db: Db, scan: Scan, ids: seq<string>)
    requires AllListed(db, ids)
    ensures Scanned(db, scan, ids, 0) == (db, Counts(0, 0, 0, 0))
  {
  }

  lemma CallKeepsTrails(db: Db, call: Call)
    requires Enabled(db, call) && forall x :: Trailed(db, x)
    ensures forall x :: Trailed(Handled(db, call), x)
  {
    hide Trailed;
    match call
    case Bind(secret, id, tenant, account, actor, now) =>
      forall x
        ensures Trailed(Handled(db, call), x)
      {
        BindKeepsTrail(db, secret, id, tenant, account, actor, now, x);
      }
    case Recompute(metrics, secret, id, actor, now) =>
      if id in db.warranties {
        var e := EvaluatePolicyState(metrics, db.warranties[id].tenant, now);
        forall x
          ensures Trailed(Handled(db, call), x)
        {
          TransitionKeepsTrail(db, id, e, actor, now, x);
          BadgeKeepsTrail(Transitioned(db, id, db.warranties[id], e, actor, now), secret, db.warranties[id].tenant,
                          db.warranties[id].account, Inputs(Some(e.state), e.evidence), now, x);
        }
      }
    case ScanAll(scan, ids) => ScanKeepsTrails(db, scan, ids, |ids|);
  }

  lemma BadgeKeepsTrail(db: Db, secret: string, tenant: string, account: string, inputs: Inputs, now: int, x: string)
    requires Trailed(db, x)
    ensures Trailed(WithBadge(db, secret, tenant, account, inputs, now).0, x)
  {
    hide Synced, AuditOf;
  }

  /** Main theorem on the trail: over any run of bindings, recomputes and scans, faults and all, every
      warranty has an audit trail that starts with its binding, changes state in each later row, breaks
      nowhere and ends in the state and the evidence the warranty shows. */
  lemma {:induction false} AuditIsChain(dbs: seq<Db>, calls: seq<Call>, n: nat)
    requires IsRun(dbs, calls) && n <= |calls| && dbs[0].warranties == map[] && dbs[0].audit == []
    ensures forall x :: Trailed(dbs[n], x)
  {
    if n > 0 {
      AuditIsChain(dbs, calls, n - 1);
      CallKeepsTrails(dbs[n - 1], calls[n - 1]);
      hide Trailed, Handled, Enabled;
    }
  }

  // ---- What a bound policy can count on ----

  /** A bound policy is active from now on, under its tenant and account, without evidence; it is on the list
      of the next scan, and no other policy is touched. Its tenant's badge is green. */
  lemma BoundIsListed(db: Db, secret: string, id: string, tenant: string, account: string, actor: Option<string>,
                      now: int, ids: seq<string>)
    requires id !in db.warranties
    requires ListsActive(BoundPolicy(db, secret, id, tenant, account, actor, now), ids)
    ensures id in ids
    ensures var after := BoundPolicy(db, secret, id, tenant, account, actor, now);
            && after.warranties
               == db.warranties[id := Warranty(tenant, account, ACTIVE, Evidence(None, None, None), now, now)]
            && tenant in after.registry.badges && after.registry.badges[tenant].badge == Badge(Green, NoReason)
  {
    assert id in BoundPolicy(db, secret, id, tenant, account, actor, now).warranties;
  }

  /** What is kept as evidence, and what the badge says about a void and about an approach to one, in the counts
      of metric rows: the ratio to the nearest tenth of a percent, the threshold as two percent, the number of
      crossings. */
  lemma BadgeTellsWhy(metrics: seq<Metric>, tenant: string, now: int)
    ensures var week, month := now - 7 * 86_400_000, now - 30 * 86_400_000;
            var total, denied := |RowsOf(metrics, Requests, tenant, week)|, |RowsOf(metrics, Denials, tenant, week)|;
            var e := EvaluatePolicyState(metrics, tenant, now);
            var reason := BadgeOf(e).reason;
            && (e.state == VOID_BY_ANOMALY_RATIO ==>
                  reason.RatioVoid? && reason.ratioTenths'.Some?
                  && NearestTenth(reason.ratioTenths'.value, denied, total))
            && (e.state == VOID_BY_COMPLIANCE_DRIFT ==>
                  reason == DriftVoid(Some(|RowsOf(metrics, BoundaryCrossings, tenant, month)|)))
            && (BadgeOf(e).state == Amber ==>
                  reason.Approaching? && reason.thresholdTenths == 20
                  && NearestTenth(reason.ratioTenths, denied, total))
            && (BadgeOf(e).state == Green ==> reason == NoReason)
            && EvidenceOf(e, denied, total, |RowsOf(metrics, BoundaryCrossings, tenant, month)|)
  {
    var week, month := now - ANOMALY_WINDOW_MS, now - DRIFT_WINDOW_MS;
    CountIsRows(metrics, Requests, tenant, week);
    CountIsRows(metrics, Denials, tenant, week);
    CountIsRows(metrics, BoundaryCrossings, tenant, month);
    hide Count, RowsOf;
    var total, denied := Count(metrics, Requests, tenant, week), Count(metrics, Denials, tenant, week);
    if total > 0 {
      TenthsOfRatio(denied, total);
    }
    hide NearestTenth, Tenths;
    assert Tenths(0.02) == 20 by {
      TwoPercent();
    }
  }

  /** The evidence kept with a verdict: the ratio of denials, zero without requests, the threshold and the
      crossings, as far as the verdict rests on them. */
  predicate EvidenceOf(e: Evaluation, denied: nat, total: nat, crossings: nat) {
    var ratio := if total == 0 then 0.0 else denied as real / total as real;
    e.evidence == match e.state
      case ACTIVE => Evidence(Some(ratio), Some(0.02), Some(crossings))
      case VOID_BY_ANOMALY_RATIO => Evidence(Some(ratio), Some(0.02), None)
      case VOID_BY_COMPLIANCE_DRIFT => Evidence(None, Some(10.0), Some(crossings))
  }

  /** t tenths of a percent is what part out of whole comes nearest to, halves up. */
  predicate NearestTenth(t: int, part: nat, whole: nat) {
    var tenths := t * whole;
    2 * tenths - whole <= 2000 * part < 2 * tenths + whole
  }

  lemma TwoPercent()
    ensures Tenths(0.02) == 20
  {
  }

  lemma TenthsOfRatio(part: nat, whole: nat)
    requires whole > 0
    ensures NearestTenth(Tenths(part as real / whole as real), part, whole)
  {
    var r, n, p := part as real / whole as real, whole as real, part as real;
    var t := Tenths(r);
    Quotient(p, n);
    HalfAround(t as real, r, n, p);
    WholeProduct(t, whole);
    hide Tenths;
  }

  lemma HalfAround(t: real, r: real, n: real, p: real)
    requires n > 0.0 && r * n == p && t <= r * 1000.0 + 0.5 < t + 1.0
    ensures t * n - 0.5 * n <= 1000.0 * p < t * n + 0.5 * n
  {
    Thousandfold(r, n, p, r * 1000.0);
    Shifted(t, -0.5, n, t - 0.5);
    Shifted(t, 0.5, n, t + 0.5);
    OrderKept(n, r * 1000.0, t - 0.5, t + 0.5, 1000.0 * p, t * n - 0.5 * n, t * n + 0.5 * n);
  }

  lemma Thousandfold(r: real, n: real, p: real, x: real)
    requires r * n == p && x == r * 1000.0
    ensures x * n == 1000.0 * p
  {
    assert x * n == 1000.0 * (r * n);
  }

  lemma Shifted(t: real, d: real, n: real, x: real)
    requires x == t + d
    ensures x * n == t * n + d * n
  {
  }

  lemma OrderKept(n: real, x: real, low: real, high: real, xn: real, lown: real, highn: real)
    requires n > 0.0 && low <= x < high && x * n == xn && low * n == lown && high * n == highn
    ensures lown <= xn < highn
  {
    Product(n, x, low);
    Product(n, high, x);
  }

  lemma WholeProduct(t: int, whole: nat)
    ensures (t * whole) as real == t as real * whole as real
  {
  }

  // ---- What a scan reports ----

  /** The listed rows, by position, that failed, and those that had come past their transition and changed. */
  function FailedRows(scan: Scan, ids: seq<string>, n: nat): set<nat>
    requires n <= |ids|
  {
    set i: nat | i < n && FaultOf(scan, ids[i]) != NoFault
  }

  function ChangedRows(db: Db, scan: Scan, ids: seq<string>, n: nat): set<nat>
    requires n <= |ids| && AllListed(db, ids)
  {
    set i: nat | i < n && Changes(scan, ids[i], db.warranties[ids[i]])
  }

  lemma FailedGrows(scan: Scan, ids: seq<string>, n: nat)
    requires 0 < n <= |ids|
    ensures |FailedRows(scan, ids, n)|
         == |FailedRows(scan, ids, n - 1)| + if FaultOf(scan, ids[n - 1]) != NoFault then 1 else 0
  {
    hide FaultOf;
    var more := if FaultOf(scan, ids[n - 1]) != NoFault then {n - 1} else {};
    assert FailedRows(scan, ids, n) == FailedRows(scan, ids, n - 1) + more;
  }

  predicate Changes(scan: Scan, id: string, w: Warranty) {
    FaultOf(scan, id) !in {AtEvaluate, AtTransition} && VerdictOf(scan, w.tenant).state != ACTIVE
  }

  lemma ChangedGrows(db: Db, scan: Scan, ids: seq<string>, n: nat)
    requires 0 < n <= |ids| && AllListed(db, ids)
    ensures |ChangedRows(db, scan, ids, n)|
         == |ChangedRows(db, scan, ids, n - 1)| + if Changes(scan, ids[n - 1], db.warranties[ids[n - 1]]) then 1 else 0
  {
    hide Changes;
    var more := if Changes(scan, ids[n - 1], db.warranties[ids[n - 1]]) then {n - 1} else {};
    assert ChangedRows(db, scan, ids, n) == ChangedRows(db, scan, ids, n - 1) + more;
  }

  lemma RowReports(db: Db, c: Counts, scan: Scan, id: string, read: Warranty)
    requires read.state == ACTIVE
    ensures var c', fault := RowScanned(db, c, scan, id, read).1, FaultOf(scan, id);
            && c'.scanned == c.scanned + 1
            && c'.errors == c.errors + (if fault != NoFault then 1 else 0)
            && c'.stateChanges == c.stateChanges + (if Changes(scan, id, read) then 1 else 0)
  {
    hide Recomputed, VerdictOf;
  }

  /** Exactly: every listed row is counted as scanned, `errors` counts the rows whose transaction failed, and
      `state_changes` those whose verdict is void, unless they failed before the transition; a row that fails
      after it is counted there although it was rolled back. */
  lemma {:induction false} ScanReports(db: Db, scan: Scan, ids: seq<string>, n: nat)
    requires n <= |ids| && ListsActive(db, ids)
    ensures AllListed(db, ids)
    ensures var c := Scanned(db, scan, ids, n).1;
            && c.scanned == n && c.errors == |FailedRows(scan, ids, n)|
            && c.stateChanges == |ChangedRows(db, scan, ids, n)|
  {
    hide RowScanned, Scanned, FailedRows, ChangedRows, Changes, FaultOf;
    ListedExist(db, ids);
    if n == 0 {
      NothingScanned(db, scan, ids);
      NothingReported(db, scan, ids);
    } else {
      ScanReports(db, scan, ids, n - 1);
      ScannedStep(db, scan, ids, n);
      var (before, c) := Scanned(db, scan, ids, n - 1);
      assert ids[n - 1] in ids;
      RowReports(before, c, scan, ids[n - 1], db.warranties[ids[n - 1]]);
      FailedGrows(scan, ids, n);
      ChangedGrows(db, scan, ids, n);
    }
  }

  lemma NothingReported(db: Db, scan: Scan, ids: seq<string>)
    requires AllListed(db, ids)
    ensures |FailedRows(scan, ids, 0)| == 0 == |ChangedRows(db, scan, ids, 0)|
  {
    assert FailedRows(scan, ids, 0) == {} && ChangedRows(db, scan, ids, 0) == {};
  }
}
