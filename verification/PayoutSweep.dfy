/** `processAgentPayout`, `runPayoutSweep` and `settlePayout` of scripts/payout.ts on the
  money tables, the reserve they leave behind, and what a second sweep on the same day does. */
module PayoutSweep {
  import opened Common
  import opened PayoutLedger

  const SWEEP_HARD_CAP := 5_000_000

  /** 85 % of the balance, rounded half up to a cent. */
  function Disbursable(balance: nat): nat {
    (85 * balance + 50) / 100
  }

  /** An agent as the sweep read it. */
  datatype AgentRecord = AgentRecord(id: string, balance: nat, payoutMethod: Method, country: string)

  /** Outcomes of the checks and calls outside the money tables. `identity` covers country, KYC
      tier and method; `conversion` covers the exchange rate and the country's amount limits. */
  datatype Gates = Gates(identity: bool, conversion: bool)

  datatype Outcome = Exception | Answered(status: Status)

  datatype ResultStatus = Initiated | Duplicate | Refused

  datatype Result = Result(agent: string, status: ResultStatus, amount: int)

  /** What the world outside answers for one agent. */
  datatype World = World(gates: Gates, outcome: Outcome)

  function KeyOf(rec: AgentRecord, day: int): Key {
    Key(rec.id, Disbursable(rec.balance), rec.payoutMethod, rec.country, day)
  }

  /** The amount is one a sweep may send and every gate before the lock is passed. */
  predicate Payable(rec: AgentRecord, gates: Gates) {
    gates.identity && 0 < Disbursable(rec.balance) <= SWEEP_HARD_CAP && gates.conversion
  }

  predicate Sent(outcome: Outcome) {
    outcome == Answered(Success) || outcome == Answered(Processing)
  }

  function Dispatched(db: Db, key: Key, outcome: Outcome): Db {
    match outcome
    case Exception => Marked(Restored(db, key.agent, key.amount), key, Failed)
    case Answered(status) => Marked(db, key, status)
  }

  function Processed(db: Db, rec: AgentRecord, w: World, day: int): (Db, Result) {
    var amount, key := Disbursable(rec.balance), KeyOf(rec, day);
    if !Payable(rec, w.gates) then
      (db, Result(rec.id, Refused, if w.gates.identity && amount > 0 then amount else 0))
    else if HasLog(db.logs, key) then (db, Result(rec.id, Duplicate, amount))
    else match Locked(db, key)
      case None => (db, Result(rec.id, Refused, amount))
      case Some(locked) =>
        (Dispatched(locked, key, w.outcome), Result(rec.id, if Sent(w.outcome) then Initiated else Refused, amount))
  }

  // ---- The mutable tables ----

  datatype Summary =
    Summary(evaluated: int, initiated: int, duplicates: int, failed: int, amount: int, results: seq<Result>)

  predicate Eligible(a: Agent, tenant: string) {
    a.tenant == tenant && !a.locked && a.balance >= a.threshold && a.payoutMethod.Some? && a.country.Some?
  }

  function Tally(results: seq<Result>, status: ResultStatus): nat {
    if results == [] then 0
    else Tally(results[..|results| - 1], status) + if results[|results| - 1].status == status then 1 else 0
  }

  function AmountSent(results: seq<Result>): int {
    if results == [] then 0
    else AmountSent(results[..|results| - 1])
         + if results[|results| - 1].status == Initiated then results[|results| - 1].amount else 0
  }

  /** The tables and results after the first n agents of a sweep. */
  function Swept(db: Db, recs: seq<AgentRecord>, world: map<string, World>, day: int, n: nat): (Db, seq<Result>)
    requires n <= |recs| && forall i :: 0 <= i < |recs| ==> recs[i].id in world
  {
    if n == 0 then (db, [])
    else
      var (before, results) := Swept(db, recs, world, day, n - 1);
      var (after, r) := Processed(before, recs[n - 1], world[recs[n - 1].id], day);
      (after, results + [r])
  }

  ghost predicate ReadFrom(rec: AgentRecord, a: Agent) {
    rec.balance == a.balance && a.payoutMethod == Some(rec.payoutMethod) && a.country == Some(rec.country)
  }

  ghost predicate Snapshot(db: Db, tenant: string, recs: seq<AgentRecord>) {
    && (forall i, j :: 0 <= i < j < |recs| ==> recs[i].id != recs[j].id)
    && (forall i :: 0 <= i < |recs| ==>
          && recs[i].id in db.agents
          && Eligible(db.agents[recs[i].id], tenant)
          && ReadFrom(recs[i], db.agents[recs[i].id]))
    && (forall id :: id in db.agents && Eligible(db.agents[id], tenant) ==>
          exists i :: 0 <= i < |recs| && recs[i].id == id)
  }

  ghost predicate NonNegative(db: Db) {
    forall a :: a in db.agents ==> db.agents[a].balance >= 0
  }

  class PayoutTables {
    var agents: map<string, Agent>
    var logs: seq<LogRow>

    function Tables(): Db
      reads this
    {
      Db(agents, logs)
    }

    constructor (agents: map<string, Agent>)
      ensures Tables() == Db(agents, [])
    {
      this.agents, this.logs := agents, [];
    }

    method DebitAgentBalance(agent: string, amount: int) returns (changes: nat)
      modifies this
      ensures changes == 1 <==> Debited(old(Tables()), agent, amount).Some?
      ensures changes == 0 ==> Tables() == old(Tables())
      ensures changes == 1 ==> Debited(old(Tables()), agent, amount) == Some(Tables())
      ensures changes <= 1
    {
      changes := 0;
      if agent in agents && agents[agent].balance >= amount {
        agents := agents[agent := agents[agent].(balance := agents[agent].balance - amount)];
        changes := 1;
      }
    }

    method RestoreAgentBalance(agent: string, amount: int)
      modifies this
      ensures Tables() == Restored(old(Tables()), agent, amount)
    {
      if agent in agents {
        agents := agents[agent := agents[agent].(balance := agents[agent].balance + amount)];
      }
    }

    method UpdateLogStatus(key: Key, status: Status)
      modifies this
      ensures Tables() == Marked(old(Tables()), key, status)
    {
      logs := MarkedRows(logs, key, status);
    }

    /** Insert and debit as one transaction: a failure of either leaves both tables as they were. */
    method LockFunds(key: Key) returns (ok: bool)
      modifies this
      ensures ok <==> Locked(old(Tables()), key).Some?
      ensures Tables() == if ok then Locked(old(Tables()), key).value else old(Tables())
    {
      if FindLog(logs, key).Some? {
        FindLogIsHasLog(logs, key);
        return false;
      }
      FindLogIsHasLog(logs, key);
      var saved := logs;
      logs := logs + [LogRow(key, key.agent, key.amount, Pending)];
      var changes := DebitAgentBalance(key.agent, key.amount);
      if changes == 0 {
        logs := saved;
        return false;
      }
      return true;
    }

    method ProcessAgentPayout(rec: AgentRecord, w: World, day: int) returns (r: Result)
      modifies this
      ensures (Tables(), r) == Processed(old(Tables()), rec, w, day)
    {
      if !w.gates.identity {
        return Result(rec.id, Refused, 0);
      }
      var disbursable := Disbursable(rec.balance);
      if disbursable <= 0 {
        return Result(rec.id, Refused, 0);
      }
      if disbursable > SWEEP_HARD_CAP || !w.gates.conversion {
        return Result(rec.id, Refused, disbursable);
      }
      var key := KeyOf(rec, day);
      var existing := FindLog(logs, key);
      FindLogIsHasLog(logs, key);
      if existing.Some? {
        return Result(rec.id, Duplicate, disbursable);
      }
      var ok := LockFunds(key);
      if !ok {
        return Result(rec.id, Refused, disbursable);
      }
      match w.outcome {
        case Exception =>
          RestoreAgentBalance(rec.id, disbursable);
          UpdateLogStatus(key, Failed);
        case Answered(status) =>
          UpdateLogStatus(key, status);
      }
      r := Result(rec.id, if Sent(w.outcome) then Initiated else Refused, disbursable);
    }

    /** The agents a sweep will visit, each with the balance it had when the sweep began. */
    method FindEligibleAgents(tenant: string) returns (recs: seq<AgentRecord>)
      requires NonNegative(Tables())
      ensures Snapshot(Tables(), tenant, recs)
    {
      recs := [];
      var todo := agents.Keys;
      while todo != {}
        invariant todo <= agents.Keys
        invariant forall i, j :: 0 <= i < j < |recs| ==> recs[i].id != recs[j].id
        invariant forall i :: 0 <= i < |recs| ==>
          && recs[i].id in agents && recs[i].id !in todo
          && Eligible(agents[recs[i].id], tenant) && ReadFrom(recs[i], agents[recs[i].id])
        invariant forall id :: id in agents && id !in todo && Eligible(agents[id], tenant) ==>
          exists i :: 0 <= i < |recs| && recs[i].id == id
      {
        var id :| id in todo;
        var a := agents[id];
        ghost var was := recs;
        if Eligible(a, tenant) {
          recs := recs + [AgentRecord(id, a.balance, a.payoutMethod.value, a.country.value)];
          assert recs[|was|].id == id;
        }
        assert forall i :: 0 <= i < |was| ==> recs[i] == was[i];
        todo := todo - {id};
      }
    }

    /** One sweep with no other handler in between; `world` answers for every agent visited. */
    method RunPayoutSweep(tenant: string, world: map<string, World>, day: int)
        returns (summary: Summary, ghost recs: seq<AgentRecord>)
      requires NonNegative(Tables()) && forall id :: id in agents ==> id in world
      modifies this
      ensures Snapshot(old(Tables()), tenant, recs)
      ensures (Tables(), summary.results) == Swept(old(Tables()), recs, world, day, |recs|)
      ensures summary.evaluated == |recs| == summary.initiated + summary.duplicates + summary.failed
      ensures summary.initiated == Tally(summary.results, Initiated)
      ensures summary.duplicates == Tally(summary.results, Duplicate)
      ensures summary.failed == Tally(summary.results, Refused)
      ensures summary.amount == AmountSent(summary.results)
    {
      hide Snapshot, NonNegative, Processed;
      var agents := FindEligibleAgents(tenant);
      recs := agents;
      var results: seq<Result> := [];
      var initiated, duplicates, failed, amount := 0, 0, 0, 0;
      for n := 0 to |agents|
        invariant (Tables(), results) == Swept(old(Tables()), agents, world, day, n)
        invariant initiated == Tally(results, Initiated) && duplicates == Tally(results, Duplicate)
        invariant failed == Tally(results, Refused) && amount == AmountSent(results)
        invariant initiated + duplicates + failed == n
      {
        var r := ProcessAgentPayout(agents[n], world[agents[n].id], day);
        assert (results + [r])[..|results|] == results;
        results := results + [r];
        if r.status == Initiated {
          initiated := initiated + 1;
          amount := amount + r.amount;
        } else if r.status == Duplicate {
          duplicates := duplicates + 1;
        } else {
          failed := failed + 1;
        }
      }
      summary := Summary(|agents|, initiated, duplicates, failed, amount, results);
    }

    method SettlePayout(key: Key, success: bool)
      modifies this
      ensures Tables() == Settled(old(Tables()), key, success)
    {
      UpdateLogStatus(key, if success then Success else Failed);
      if !success {
        var log := FindLog(logs, key);
        if log.Some? {
          RestoreAgentBalance(log.value.agent, log.value.amount);
        }
      }
    }
  }

  // ---- A payout is a run of ledger steps ----

  /** The atomic steps one call performs. */
  function StepsOf(db: Db, rec: AgentRecord, w: World, day: int): seq<Step> {
    var key := KeyOf(rec, day);
    if !Payable(rec, w.gates) || Locked(db, key).None? then []
    else match w.outcome
      case Exception => [Lock(key), Throw(key), Mark(key, Failed)]
      case Answered(status) => [Lock(key), Mark(key, status)]
  }

  /** Every call is such a run. */
  lemma PayoutIsLedgerRun(s: Ledger, rec: AgentRecord, w: World, day: int)
    requires w.outcome != Answered(Pending)
    ensures var steps := StepsOf(s.db, rec, w, day);
            ValidRun(s, steps) && After(s, steps, |steps|).db == Processed(s.db, rec, w, day).0
  {
    var steps, key := StepsOf(s.db, rec, w, day), KeyOf(rec, day);
    hide Debited, Restored, Marked, HasLog, Disbursable;
    assert After(s, steps, 0) == s;
    if steps != [] {
      assert After(s, steps, 1) == Next(s, steps[0]);
      assert After(s, steps, 2) == Next(After(s, steps, 1), steps[1]);
      if w.outcome == Exception {
        assert After(s, steps, 3) == Next(After(s, steps, 2), steps[2]);
      }
    }
  }

  /** The entry points that write the money tables: one payout, a whole sweep, a webhook. */
  datatype Call =
    | PayoutCall(rec: AgentRecord, w: World, day: int)
    | SweepCall(recs: seq<AgentRecord>, world: map<string, World>, day: int)
    | WebhookCall(key: Key, success: bool)

  /** A provider never answers pending, and the world answers for everyone a sweep visits. */
  ghost predicate Answers(call: Call) {
    match call
    case PayoutCall(_, w, _) => w.outcome != Answered(Pending)
    case SweepCall(recs, world, _) =>
      forall i :: 0 <= i < |recs| ==> recs[i].id in world && world[recs[i].id].outcome != Answered(Pending)
    case WebhookCall(_, _) => true
  }

  ghost function TablesAfter(db: Db, calls: seq<Call>, n: nat): Db
    requires n <= |calls| && forall i :: 0 <= i < |calls| ==> Answers(calls[i])
  {
    if n == 0 then db
    else
      var before := TablesAfter(db, calls, n - 1);
      match calls[n - 1]
      case PayoutCall(rec, w, day) => Processed(before, rec, w, day).0
      case SweepCall(recs, world, day) => Swept(before, recs, world, day, |recs|).0
      case WebhookCall(key, success) => Settled(before, key, success)
  }

  /** The ledger, with its history of debits and refunds, after one payout and after n of a sweep. */
  function Paid(s: Ledger, rec: AgentRecord, w: World, day: int): Ledger {
    var steps := StepsOf(s.db, rec, w, day);
    After(s, steps, |steps|)
  }

  function SweptLedger(s: Ledger, recs: seq<AgentRecord>, world: map<string, World>, day: int, n: nat): Ledger
    requires n <= |recs| && forall i :: 0 <= i < |recs| ==> recs[i].id in world
  {
    if n == 0 then s
    else Paid(SweptLedger(s, recs, world, day, n - 1), recs[n - 1], world[recs[n - 1].id], day)
  }

  ghost function LedgerAfter(s: Ledger, calls: seq<Call>, n: nat): Ledger
    requires n <= |calls| && forall i :: 0 <= i < |calls| ==> Answers(calls[i])
  {
    if n == 0 then s
    else
      var before := LedgerAfter(s, calls, n - 1);
      match calls[n - 1]
      case PayoutCall(rec, w, day) => Paid(before, rec, w, day)
      case SweepCall(recs, world, day) => SweptLedger(before, recs, world, day, |recs|)
      case WebhookCall(key, success) => Next(before, Settle(key, success))
  }

  lemma PaidConserves(s: Ledger, start: Db, rec: AgentRecord, w: World, day: int)
    requires Invariant(s, start) && w.outcome != Answered(Pending)
    ensures Invariant(Paid(s, rec, w, day), start)
    ensures Paid(s, rec, w, day).db == Processed(s.db, rec, w, day).0
  {
    hide Invariant, Processed, StepsOf, ValidRun;
    PayoutIsLedgerRun(s, rec, w, day);
    var steps := StepsOf(s.db, rec, w, day);
    RunKeepsInvariant(s, start, steps, |steps|);
  }

  lemma {:induction false} SweepConserves(s: Ledger, start: Db, recs: seq<AgentRecord>,
                                          world: map<string, World>, day: int, n: nat)
    requires Invariant(s, start) && n <= |recs| && Answers(SweepCall(recs, world, day))
    ensures Invariant(SweptLedger(s, recs, world, day, n), start)
    ensures SweptLedger(s, recs, world, day, n).db == Swept(s.db, recs, world, day, n).0
  {
    hide Invariant, Processed, Paid;
    if n > 0 {
      SweepConserves(s, start, recs, world, day, n - 1);
      PaidConserves(SweptLedger(s, recs, world, day, n - 1), start, recs[n - 1], world[recs[n - 1].id], day);
    }
  }

  /** Conservation over calls: from an opening ledger any sequence of payouts, sweeps and webhooks
      leaves tables whose history satisfies the ledger's invariant. Calls that overlap are runs of the
      finer steps of the ledger. */
  lemma {:induction false} CallsConserve(s: Ledger, calls: seq<Call>, n: nat)
    requires Opening(s) && n <= |calls| && forall i :: 0 <= i < |calls| ==> Answers(calls[i])
    ensures Invariant(LedgerAfter(s, calls, n), s.db)
    ensures LedgerAfter(s, calls, n).db == TablesAfter(s.db, calls, n)
  {
    hide Invariant, Processed, Paid, SweptLedger, Swept, Opening, Settled;
    if n == 0 {
      OpeningInvariant(s);
    } else {
      CallsConserve(s, calls, n - 1);
      var before := LedgerAfter(s, calls, n - 1);
      assert Answers(calls[n - 1]);
      match calls[n - 1]
      case PayoutCall(rec, w, day) => PaidConserves(before, s.db, rec, w, day);
      case SweepCall(recs, world, day) => SweepConserves(before, s.db, recs, world, day, |recs|);
      case WebhookCall(key, success) => SettleStep(before, s.db, key, success);
    }
  }

  // ---- Where the money of a sweep went ----

  /** What one call keeps debited: the amount if it locked and the provider answered anything. */
  function Kept(db: Db, rec: AgentRecord, w: World, day: int): int {
    if Payable(rec, w.gates) && Locked(db, KeyOf(rec, day)).Some? && w.outcome != Exception
    then Disbursable(rec.balance) else 0
  }

  function BalanceOf(db: Db, a: string): int {
    if a in db.agents then db.agents[a].balance else 0
  }

  lemma OneCallMoves(db: Db, rec: AgentRecord, w: World, day: int, a: string)
    ensures BalanceOf(Processed(db, rec, w, day).0, a)
         == BalanceOf(db, a) - if a == rec.id then Kept(db, rec, w, day) else 0
    ensures Processed(db, rec, w, day).1.agent == rec.id
  {
    var key := KeyOf(rec, day);
    if Payable(rec, w.gates) && Locked(db, key).Some? {
      LockedFacts(db, key);
    }
  }

  /** Amounts a provider answered FAILED: kept debited, yet reported only as failed. */
  function FailedButKept(db: Db, recs: seq<AgentRecord>, world: map<string, World>, day: int, n: nat, a: string): int
    requires n <= |recs| && forall i :: 0 <= i < |recs| ==> recs[i].id in world
  {
    if n == 0 then 0
    else
      var rec := recs[n - 1];
      var before := Swept(db, recs, world, day, n - 1).0;
      FailedButKept(db, recs, world, day, n - 1, a)
      + if rec.id == a && !Sent(world[rec.id].outcome) then Kept(before, rec, world[rec.id], day) else 0
  }

  function AmountSentTo(results: seq<Result>, a: string): int {
    if results == [] then 0
    else AmountSentTo(results[..|results| - 1], a)
         + if results[|results| - 1].status == Initiated && results[|results| - 1].agent == a
           then results[|results| - 1].amount else 0
  }

  /** Main result on reporting: an agent's balance drops by what the summary reports as sent to it
      plus what a provider refused without a refund. */
  lemma {:induction false} SweepOutflow(db: Db, recs: seq<AgentRecord>, world: map<string, World>, day: int,
                                        n: nat, a: string)
    requires n <= |recs| && forall i :: 0 <= i < |recs| ==> recs[i].id in world
    ensures var (after, results) := Swept(db, recs, world, day, n);
            BalanceOf(db, a) - BalanceOf(after, a)
              == AmountSentTo(results, a) + FailedButKept(db, recs, world, day, n, a)
  {
    if n > 0 {
      SweepOutflow(db, recs, world, day, n - 1, a);
      var (before, results) := Swept(db, recs, world, day, n - 1);
      var rec, w := recs[n - 1], world[recs[n - 1].id];
      var r := Processed(before, rec, w, day).1;
      OneCallMoves(before, rec, w, day, a);
      SentIsKept(before, rec, w, day);
      assert (results + [r])[..|results|] == results;
      hide Processed, Kept, BalanceOf;
    }
  }

  lemma SentIsKept(db: Db, rec: AgentRecord, w: World, day: int)
    ensures Processed(db, rec, w, day).1.status == Initiated ==>
      Processed(db, rec, w, day).1.amount == Kept(db, rec, w, day)
    ensures Processed(db, rec, w, day).1.status != Initiated && Sent(w.outcome) ==> Kept(db, rec, w, day) == 0
    ensures Processed(db, rec, w, day).1.status == Initiated ==> Sent(w.outcome)
  {
  }

  // ---- The reserve ----

  /** The balance after n payouts none of which was refunded. */
  function BalanceAfter(balance: nat, n: nat): (r: nat)
    ensures r <= balance
  {
    if n == 0 then balance
    else
      var b := BalanceAfter(balance, n - 1);
      DisbursableBounds(b);
      b - Disbursable(b)
  }

  /** One payout leaves 15 % of the balance to within half a cent, and pays something iff there
      is anything to pay. */
  lemma DisbursableBounds(b: nat)
    ensures Disbursable(b) <= b
    ensures -50 <= 100 * (b - Disbursable(b)) - 15 * b <= 50
    ensures Disbursable(b) > 0 <==> b > 0
    ensures b > 0 ==> b - Disbursable(b) < Disbursable(b)
  {
  }

  function Abs(x: real): real {
    if x < 0.0 then -x else x
  }

  /** The start with 15 % kept n times, unrounded. */
  function Ideal(b: real, n: nat): real {
    Pow(0.15, n) * b
  }

  lemma IdealStep(b: real, n: nat)
    requires n > 0
    ensures Ideal(b, n) == 0.15 * Ideal(b, n - 1)
    ensures Ideal(b, 0) == b
  {
    var p := Pow(0.15, n - 1);
    assert 0.15 * (p * b) == (0.15 * p) * b;
  }

  /** Bound on the recurrence: n payouts leave 0.15^n of the start, off by less than 0.5 / (1 - 0.15)
      of a cent. */
  lemma {:induction false} GeometricReserve(b: nat, n: nat)
    ensures Abs(BalanceAfter(b, n) as real - Ideal(b as real, n)) < 0.5 / (1.0 - 0.15)
  {
    if n > 0 {
      GeometricReserve(b, n - 1);
      var was, now := BalanceAfter(b, n - 1), BalanceAfter(b, n);
      IdealStep(b as real, n);
      DisbursableBounds(was);
      ReserveInReals(was, now);
      hide Ideal, Pow, Disbursable;
    }
  }

  lemma ReserveInReals(was: int, now: int)
    requires -50 <= 100 * now - 15 * was <= 50
    ensures Abs(now as real - 0.15 * was as real) <= 0.5
  {
    assert (100 * now - 15 * was) as real == 100.0 * now as real - 15.0 * was as real;
  }

  lemma ReserveCap(b: nat, n: nat, cap: nat)
    requires BalanceAfter(b, n) <= cap
    ensures BalanceAfter(b, n + 1) <= cap - Disbursable(cap)
  {
  }

  /** On the recurrence every payout strictly lowers a positive balance, and from any balance a sweep
      may pay at all, nine leave nothing. */
  lemma DrainedAfterNine(b: nat, n: nat)
    requires Disbursable(b) <= SWEEP_HARD_CAP
    ensures BalanceAfter(b, 9) == 0
    ensures BalanceAfter(b, n) > 0 ==> BalanceAfter(b, n + 1) < BalanceAfter(b, n)
  {
    DisbursableBounds(BalanceAfter(b, n));
    ReserveCap(b, 0, 5_882_353);
    ReserveCap(b, 1, 882_353);
    ReserveCap(b, 2, 132_353);
    ReserveCap(b, 3, 19_853);
    ReserveCap(b, 4, 2_978);
    ReserveCap(b, 5, 447);
    ReserveCap(b, 6, 67);
    ReserveCap(b, 7, 10);
    ReserveCap(b, 8, 1);
  }

  // ---- Overlapping sweeps ----

  /** No step from m up to n refunds a key of agent a. */
  ghost predicate NoRefundOf(s: Ledger, steps: seq<Step>, m: nat, n: nat, a: string)
    requires n <= |steps|
  {
    forall i, key: Key :: m <= i < n && key.agent == a ==> !RefundsAt(s, steps, i, key)
  }

  /** A step that refunds no key of agent a never raises its balance. */
  lemma StepNeverRaises(s: Ledger, start: Db, step: Step, a: string)
    requires Invariant(s, start) && forall key: Key :: key.agent == a ==> !Refunds(s, step, key)
    requires step.Lock? ==> step.key.amount > 0
    ensures BalanceOf(Next(s, step).db, a) <= BalanceOf(s.db, a)
  {
    match step
    case Lock(key) =>
      if Locked(s.db, key).Some? {
        LockedFacts(s.db, key);
      }
      hide Locked, HasLog, Invariant;
    case Throw(key) =>
      assert key.agent != a;
      hide HasLog, Invariant;
    case Mark(_, _) =>
      hide HasLog, Invariant;
    case Settle(key, success) =>
      SettleIsMarkThenRefund(s, key, success);
      SettlesItsAgent(s, start, key, success);
      hide Next, Invariant, Marked, FindLog, HasLog;
  }

  /** A webhook returns money to the agent of its key. */
  lemma SettlesItsAgent(s: Ledger, start: Db, key: Key, success: bool)
    requires Invariant(s, start)
    ensures var row := FindLog(Marked(s.db, key, if success then Success else Failed).logs, key);
            (row.Some? <==> HasLog(s.db.logs, key)) && (row.Some? ==> row.value.agent == key.agent)
  {
    var status := if success then Success else Failed;
    MarkKeepsMoney(s.db, key, status, s.refunds);
    FindLogIsHasLog(Marked(s.db, key, status).logs, key);
    hide UniqueKeys, Conserved, HistoryAgrees, NetPaid, Marked, FindLog;
  }

  lemma {:induction false} BalanceNeverRises(s: Ledger, steps: seq<Step>, m: nat, n: nat, a: string)
    requires Opening(s) && ValidRun(s, steps) && m <= n <= |steps| && NoRefundOf(s, steps, m, n, a)
    ensures BalanceOf(After(s, steps, n).db, a) <= BalanceOf(After(s, steps, m).db, a)
  {
    hide Opening, BalanceOf, Next, Invariant, Refunds;
    if m < n {
      BalanceNeverRises(s, steps, m, n - 1, a);
      MoneyIsConserved(s, steps, n - 1);
      var t := After(s, steps, n - 1);
      assert Enabled(t, steps[n - 1]);
      forall key: Key | key.agent == a
        ensures !Refunds(t, steps[n - 1], key)
      {
        assert !RefundsAt(s, steps, n - 1, key);
      }
      StepNeverRaises(t, s.db, steps[n - 1], a);
    }
  }

  /** Two payouts that read the same balance never both take money, whatever their days, methods and
      countries: in any interleaving in which no key of the agent is refunded from the reading on, once
      one has locked its amount the balance no longer covers the other's. */
  lemma SameReadingLocksOnce(s: Ledger, steps: seq<Step>, r: nat, m: nat, n: nat)
    requires Opening(s) && ValidRun(s, steps) && r <= m < n < |steps|
    requires steps[m].Lock? && steps[n].Lock? && steps[m].key.agent == steps[n].key.agent
    requires var a, read := steps[m].key.agent, BalanceOf(After(s, steps, r).db, steps[m].key.agent);
             read >= 0 && steps[m].key.amount == steps[n].key.amount == Disbursable(read)
             && NoRefundOf(s, steps, r, n, a)
    requires Locked(After(s, steps, m).db, steps[m].key).Some?
    ensures Locked(After(s, steps, n).db, steps[n].key).None?
  {
    var a, first, second := steps[m].key.agent, steps[m].key, steps[n].key;
    assert Enabled(After(s, steps, m), steps[m]);
    var read := BalanceOf(After(s, steps, r).db, a);
    BalanceNeverRises(s, steps, r, m, a);
    BalanceNeverRises(s, steps, m + 1, n, a);
    LockedFacts(After(s, steps, m).db, first);
    DisbursableBounds(read);
    assert After(s, steps, m + 1) == Next(After(s, steps, m), steps[m]);
    hide After, Opening, ValidRun, NoRefundOf, HasLog;
  }

  // ---- What a sweep does to one agent ----

  /** The two databases agree on agent a: its row, and which of its keys are logged. */
  ghost predicate SameFor(a: string, db: Db, t: Db) {
    && (a in db.agents <==> a in t.agents)
    && (a in db.agents ==> db.agents[a] == t.agents[a])
    && forall key: Key :: key.agent == a ==> (HasLog(db.logs, key) <==> HasLog(t.logs, key))
  }

  /** Which keys are logged after a call: the one it locked, and those before. */
  lemma KeysAfterCall(db: Db, rec: AgentRecord, w: World, day: int, key: Key)
    ensures HasLog(Processed(db, rec, w, day).0.logs, key)
       <==> HasLog(db.logs, key) || (key == KeyOf(rec, day) && Payable(rec, w.gates) && Locked(db, key).Some?)
  {
    var k := KeyOf(rec, day);
    if Payable(rec, w.gates) && Locked(db, k).Some? {
      LockedFacts(db, k);
      var locked := Locked(db, k).value;
      HasLogAppend(db.logs, LogRow(k, k.agent, k.amount, Pending), key);
      var status := if w.outcome == Exception then Failed else w.outcome.status;
      MarkKeepsMoney(locked, k, status, map[]);
      hide Locked, HasLog, Marked, NetPaid;
    } else {
      hide HasLog, Debited;
    }
  }

  /** Agent a's row after a call: only a call for a may change it, and only its balance. */
  lemma RowAfterCall(db: Db, rec: AgentRecord, w: World, day: int, a: string)
    ensures var t := Processed(db, rec, w, day).0;
            && (a in t.agents <==> a in db.agents)
            && (a in db.agents ==>
                  var paid := if a == rec.id then Kept(db, rec, w, day) else 0;
                  t.agents[a] == db.agents[a].(balance := db.agents[a].balance - paid))
  {
    OneCallMoves(db, rec, w, day, a);
    hide HasLog, MarkedRows;
  }

  lemma OthersDoNotTouch(db: Db, rec: AgentRecord, w: World, day: int, a: string)
    requires rec.id != a
    ensures SameFor(a, db, Processed(db, rec, w, day).0)
  {
    RowAfterCall(db, rec, w, day, a);
    forall key: Key | key.agent == a
      ensures HasLog(Processed(db, rec, w, day).0.logs, key) <==> HasLog(db.logs, key)
    {
      KeysAfterCall(db, rec, w, day, key);
    }
    hide Processed, HasLog;
  }

  /** What a call does to its agent, and what it answers, depends on that agent alone. */
  lemma CallIsLocal(db: Db, t: Db, rec: AgentRecord, w: World, day: int)
    requires SameFor(rec.id, db, t)
    ensures SameFor(rec.id, Processed(db, rec, w, day).0, Processed(t, rec, w, day).0)
    ensures Processed(db, rec, w, day).1 == Processed(t, rec, w, day).1
    ensures Kept(db, rec, w, day) == Kept(t, rec, w, day)
  {
    assert HasLog(db.logs, KeyOf(rec, day)) <==> HasLog(t.logs, KeyOf(rec, day));
    assert Locked(db, KeyOf(rec, day)).Some? <==> Locked(t, KeyOf(rec, day)).Some?;
    RowAfterCall(db, rec, w, day, rec.id);
    RowAfterCall(t, rec, w, day, rec.id);
    forall key: Key | key.agent == rec.id
      ensures HasLog(Processed(db, rec, w, day).0.logs, key) <==> HasLog(Processed(t, rec, w, day).0.logs, key)
    {
      KeysAfterCall(db, rec, w, day, key);
      KeysAfterCall(t, rec, w, day, key);
    }
    hide HasLog, Dispatched, Debited;
  }

  lemma SameForTransitive(a: string, db: Db, t: Db, u: Db)
    requires SameFor(a, db, t) && SameFor(a, t, u)
    ensures SameFor(a, db, u)
  {
    hide HasLog;
  }

  ghost predicate DistinctAgents(recs: seq<AgentRecord>) {
    forall i, j :: 0 <= i < j < |recs| ==> recs[i].id != recs[j].id
  }

  /** A sweep acts on an agent it does not list not at all, and on one it lists as the one call for
      it would, made on the tables the sweep began with. */
  lemma {:induction false} SweepIsOneCall(db: Db, recs: seq<AgentRecord>, world: map<string, World>, day: int,
                                          n: nat, a: string)
    requires n <= |recs| && (forall i :: 0 <= i < |recs| ==> recs[i].id in world) && DistinctAgents(recs)
    ensures var (after, results) := Swept(db, recs, world, day, n);
            && |results| == n
            && ((forall i :: 0 <= i < n ==> recs[i].id != a) ==> SameFor(a, db, after))
            && forall i :: 0 <= i < n && recs[i].id == a ==>
                 var (t, r) := Processed(db, recs[i], world[a], day);
                 SameFor(a, t, after) && results[i] == r
  {
    hide SameFor, Processed, DistinctAgents;
    if n == 0 {
      SameForItself(a, db);
    } else {
      SweepIsOneCall(db, recs, world, day, n - 1, a);
      var (before, results) := Swept(db, recs, world, day, n - 1);
      var rec, w := recs[n - 1], world[recs[n - 1].id];
      if rec.id != a {
        OthersDoNotTouch(before, rec, w, day, a);
        forall i | 0 <= i < n - 1 && recs[i].id == a
          ensures SameFor(a, Processed(db, recs[i], world[a], day).0, Processed(before, rec, w, day).0)
        {
          SameForTransitive(a, Processed(db, recs[i], world[a], day).0, before, Processed(before, rec, w, day).0);
        }
        if forall i :: 0 <= i < n - 1 ==> recs[i].id != a {
          SameForTransitive(a, db, before, Processed(before, rec, w, day).0);
        }
      } else {
        OnlyOnce(recs, n - 1);
        CallIsLocal(db, before, rec, w, day);
      }
    }
  }

  lemma SameForItself(a: string, db: Db)
    ensures SameFor(a, db, db)
  {
  }

  lemma OnlyOnce(recs: seq<AgentRecord>, n: nat)
    requires DistinctAgents(recs) && n < |recs|
    ensures forall i :: 0 <= i < n ==> recs[i].id != recs[n].id
  {
  }

  // ---- A series of sweeps ----

  /** A sweep with the list it reads and what the world answers. */
  datatype Sweep = Sweep(tenant: string, recs: seq<AgentRecord>, world: map<string, World>, day: int)

  ghost predicate Covered(sweep: Sweep) {
    forall i :: 0 <= i < |sweep.recs| ==> sweep.recs[i].id in sweep.world
  }

  ghost function AfterSweeps(db: Db, sweeps: seq<Sweep>, n: nat): Db
    requires n <= |sweeps| && forall i :: 0 <= i < |sweeps| ==> Covered(sweeps[i])
  {
    if n == 0 then db
    else
      var sweep := sweeps[n - 1];
      Swept(AfterSweeps(db, sweeps, n - 1), sweep.recs, sweep.world, sweep.day, |sweep.recs|).0
  }

  /** One sweep after the other, each over the agents eligible when it begins; gates, answers, days
      and tenants are arbitrary. */
  ghost predicate Series(db: Db, sweeps: seq<Sweep>) {
    && (forall i :: 0 <= i < |sweeps| ==> Covered(sweeps[i]))
    && forall n :: 0 <= n < |sweeps| ==> Snapshot(AfterSweeps(db, sweeps, n), sweeps[n].tenant, sweeps[n].recs)
  }

  /** The sweep lists agent a and keeps money of it. */
  ghost predicate Pays(db: Db, sweep: Sweep, a: string)
    requires Covered(sweep)
  {
    exists i :: 0 <= i < |sweep.recs| && sweep.recs[i].id == a && Kept(db, sweep.recs[i], sweep.world[a], sweep.day) > 0
  }

  /** How many of the first n sweeps kept money of agent a. */
  ghost function Payouts(db: Db, sweeps: seq<Sweep>, n: nat, a: string): nat
    requires n <= |sweeps| && forall i :: 0 <= i < |sweeps| ==> Covered(sweeps[i])
  {
    if n == 0 then 0
    else Payouts(db, sweeps, n - 1, a) + if Pays(AfterSweeps(db, sweeps, n - 1), sweeps[n - 1], a) then 1 else 0
  }

  lemma SweepTakes(db: Db, sweep: Sweep, a: string)
    requires Covered(sweep) && Snapshot(db, sweep.tenant, sweep.recs) && a in db.agents && db.agents[a].balance >= 0
    ensures var after := Swept(db, sweep.recs, sweep.world, sweep.day, |sweep.recs|).0;
            && a in after.agents
            && after.agents[a].balance
               == db.agents[a].balance - (if Pays(db, sweep, a) then Disbursable(db.agents[a].balance) else 0)
    ensures Pays(db, sweep, a) ==> 0 < Disbursable(db.agents[a].balance) <= SWEEP_HARD_CAP
  {
    var recs := sweep.recs;
    SweepIsOneCall(db, recs, sweep.world, sweep.day, |recs|, a);
    if i :| 0 <= i < |recs| && recs[i].id == a {
      RowAfterCall(db, recs[i], sweep.world[a], sweep.day, a);
      OnlyListed(recs, i);
      assert recs[i].balance == db.agents[a].balance;
      KeptIsAmount(db, recs[i], sweep.world[a], sweep.day);
      hide Kept, Processed, Swept, Disbursable;
      assert Pays(db, sweep, a) <==> Kept(db, recs[i], sweep.world[a], sweep.day) > 0;
    } else {
      hide Kept, Processed, Swept, Disbursable;
    }
  }

  lemma OnlyListed(recs: seq<AgentRecord>, i: nat)
    requires DistinctAgents(recs) && i < |recs|
    ensures forall j :: 0 <= j < |recs| && recs[j].id == recs[i].id ==> j == i
  {
  }

  lemma KeptIsAmount(db: Db, rec: AgentRecord, w: World, day: int)
    ensures Kept(db, rec, w, day) == 0 || Kept(db, rec, w, day) == Disbursable(rec.balance)
    ensures Kept(db, rec, w, day) >= 0
    ensures Kept(db, rec, w, day) > 0 ==> 0 < Disbursable(rec.balance) <= SWEEP_HARD_CAP
  {
    hide Locked;
  }

  /** After any series of sweeps an agent's balance is what is left of its start after as many payouts
      as kept money, and those are at most nine. */
  lemma {:induction false} BalanceAfterSweeps(db: Db, sweeps: seq<Sweep>, n: nat, a: string)
    requires Series(db, sweeps) && n <= |sweeps| && a in db.agents && db.agents[a].balance >= 0
    ensures var after, k := AfterSweeps(db, sweeps, n), Payouts(db, sweeps, n, a);
            && a in after.agents && after.agents[a].balance == BalanceAfter(db.agents[a].balance, k)
            && k <= 9 && (k > 0 ==> Disbursable(db.agents[a].balance) <= SWEEP_HARD_CAP)
  {
    hide Swept, Pays, Snapshot, Disbursable;
    if n > 0 {
      BalanceAfterSweeps(db, sweeps, n - 1, a);
      var before, k, start := AfterSweeps(db, sweeps, n - 1), Payouts(db, sweeps, n - 1, a), db.agents[a].balance;
      SweepTakes(before, sweeps[n - 1], a);
      if Pays(before, sweeps[n - 1], a) {
        DisbursableBounds(BalanceAfter(start, k));
        DrainedAfterNine(start, k);
        assert k != 9;
      }
    }
  }

  /** Main result on the reserve: after any series of sweeps an agent holds 0.15^k of its start to
      within 0.5 / (1 - 0.15) of a cent, k being the number of payouts that kept money; there are at
      most nine of those, and each lowers the balance. */
  lemma ReserveAfterSweeps(db: Db, sweeps: seq<Sweep>, n: nat, a: string)
    requires Series(db, sweeps) && n <= |sweeps| && a in db.agents && db.agents[a].balance >= 0
    ensures var after, k := AfterSweeps(db, sweeps, n), Payouts(db, sweeps, n, a);
            && a in after.agents && k <= 9
            && Abs(after.agents[a].balance as real - Ideal(db.agents[a].balance as real, k)) < 0.5 / (1.0 - 0.15)
    ensures n < |sweeps| ==>
      var now, next := AfterSweeps(db, sweeps, n), AfterSweeps(db, sweeps, n + 1);
      a in now.agents && a in next.agents
      && (next.agents[a].balance < now.agents[a].balance <==> Pays(now, sweeps[n], a))
  {
    hide Swept, Pays, Snapshot, Disbursable, Pow, Ideal, BalanceAfter;
    BalanceAfterSweeps(db, sweeps, n, a);
    var start, k := db.agents[a].balance, Payouts(db, sweeps, n, a);
    GeometricReserve(start, k);
    if n < |sweeps| {
      SweepTakes(AfterSweeps(db, sweeps, n), sweeps[n], a);
    }
  }

  // ---- What a sweep reports of an agent ----

  lemma {:induction false} ResultsNameAgents(db: Db, recs: seq<AgentRecord>, world: map<string, World>,
                                             day: int, n: nat)
    requires n <= |recs| && forall i :: 0 <= i < |recs| ==> recs[i].id in world
    ensures |Swept(db, recs, world, day, n).1| == n
    ensures forall i :: 0 <= i < n ==> Swept(db, recs, world, day, n).1[i].agent == recs[i].id
  {
    if n > 0 {
      ResultsNameAgents(db, recs, world, day, n - 1);
      OneCallMoves(Swept(db, recs, world, day, n - 1).0, recs[n - 1], world[recs[n - 1].id], day, recs[n - 1].id);
      hide Processed;
    }
  }

  /** The record a sweep reads of an eligible agent. */
  function RecordOf(id: string, a: Agent): AgentRecord
    requires a.balance >= 0 && a.payoutMethod.Some? && a.country.Some?
  {
    AgentRecord(id, a.balance, a.payoutMethod.value, a.country.value)
  }

  ghost predicate Lists(sweep: Sweep, a: string) {
    exists j :: 0 <= j < |sweep.recs| && sweep.recs[j].id == a
  }

  ghost predicate Reports(results: seq<Result>, a: string, status: ResultStatus) {
    exists i :: 0 <= i < |results| && results[i].agent == a && results[i].status == status
  }

  /** A sweep lists an agent iff it is eligible, and reports for it what the one call answers. */
  lemma SweepReports(db: Db, sweep: Sweep, a: string, status: ResultStatus)
    requires Covered(sweep) && Snapshot(db, sweep.tenant, sweep.recs)
    requires a in db.agents && db.agents[a].balance >= 0 && a in sweep.world
    ensures Lists(sweep, a) <==> Eligible(db.agents[a], sweep.tenant)
    ensures Reports(Swept(db, sweep.recs, sweep.world, sweep.day, |sweep.recs|).1, a, status)
       <==> Eligible(db.agents[a], sweep.tenant)
            && Processed(db, RecordOf(a, db.agents[a]), sweep.world[a], sweep.day).1.status == status
  {
    hide Swept, Processed;
    var recs := sweep.recs;
    var results := Swept(db, recs, sweep.world, sweep.day, |recs|).1;
    SweepIsOneCall(db, recs, sweep.world, sweep.day, |recs|, a);
    ResultsNameAgents(db, recs, sweep.world, sweep.day, |recs|);
    if j :| 0 <= j < |recs| && recs[j].id == a {
      assert recs[j] == RecordOf(a, db.agents[a]);
      OnlyListed(recs, j);
      assert results[j].agent == a;
    }
  }

  /** A row is logged for this agent with this amount on this day, by its present method and country. */
  ghost predicate LoggedOn(logs: seq<LogRow>, a: string, g: Agent, amount: int, day: int) {
    exists i :: 0 <= i < |logs|
      && logs[i].key.agent == a && logs[i].key.amount == amount && logs[i].key.day == day
      && Some(logs[i].key.payoutMethod) == g.payoutMethod && Some(logs[i].key.country) == g.country
  }

  /** Unlocked, of the tenant, at its threshold, and with somewhere to pay to. */
  predicate Listable(g: Agent, tenant: string) {
    && g.tenant == tenant && !g.locked && g.balance >= g.threshold
    && g.payoutMethod.Some? && g.country.Some?
  }

  /** What one call answers and does, for a record that shows the agent as it is. `amount` is 85 % of the
      balance, rounded half up to a cent. */
  lemma CallAnswers(db: Db, rec: AgentRecord, w: World, day: int, amount: int)
    requires rec.id in db.agents && ReadFrom(rec, db.agents[rec.id])
    requires -50 < 100 * amount - 85 * rec.balance <= 50
    ensures var (after, r) := Processed(db, rec, w, day);
            var open := w.gates.identity && w.gates.conversion && 1 <= amount <= 5_000_000;
            var logged := LoggedOn(db.logs, rec.id, db.agents[rec.id], amount, day);
            var answered := w.outcome == Answered(Success) || w.outcome == Answered(Processing);
            && (r.status == Initiated <==> open && !logged && answered)
            && (r.status == Duplicate <==> open && logged)
            && (r.status == Refused ==> r.amount == 0 || r.amount == amount)
            && (r.status != Refused ==> r.amount == amount)
            && Kept(db, rec, w, day) == if open && !logged && w.outcome != Exception then amount else 0
  {
    var key := KeyOf(rec, day);
    assert Disbursable(rec.balance) == amount;
    assert HasLog(db.logs, key) <==> LoggedOn(db.logs, rec.id, db.agents[rec.id], amount, day) by {
      if i :| 0 <= i < |db.logs| && db.logs[i].key == key {
        assert db.logs[i].key.agent == rec.id;
      }
    }
    hide HasLog, LoggedOn, Disbursable;
  }

  /** Main theorem on reports, from the agent's row, the log and the world alone: who is listed, who is
      paid, who is a duplicate, who is refused, and what is left. */
  lemma SweepAnswers(db: Db, sweep: Sweep, a: string, amount: int)
    requires Covered(sweep) && Snapshot(db, sweep.tenant, sweep.recs)
    requires a in db.agents && a in sweep.world && db.agents[a].balance >= 0
    requires -50 < 100 * amount - 85 * db.agents[a].balance <= 50
    ensures var (after, results) := Swept(db, sweep.recs, sweep.world, sweep.day, |sweep.recs|);
            var g, w := db.agents[a], sweep.world[a];
            var open := w.gates.identity && w.gates.conversion && 1 <= amount <= 5_000_000;
            var called := Listable(g, sweep.tenant) && open;
            var logged := LoggedOn(db.logs, a, g, amount, sweep.day);
            var answered := w.outcome == Answered(Success) || w.outcome == Answered(Processing);
            && (Lists(sweep, a) <==> Listable(g, sweep.tenant))
            && (Reports(results, a, Initiated) <==> called && !logged && answered)
            && (Reports(results, a, Duplicate) <==> called && logged)
            && (Reports(results, a, Refused) <==> Listable(g, sweep.tenant) && !(open && (logged || answered)))
            && a in after.agents
            && after.agents[a]
               == g.(balance := g.balance - if called && !logged && w.outcome != Exception then amount else 0)
  {
    var g, w := db.agents[a], sweep.world[a];
    SweepReports(db, sweep, a, Initiated);
    SweepReports(db, sweep, a, Duplicate);
    SweepReports(db, sweep, a, Refused);
    SweepLeaves(db, sweep, a);
    if Eligible(g, sweep.tenant) {
      CallAnswers(db, RecordOf(a, g), w, sweep.day, amount);
    }
    hide Swept, Processed, Kept, Reports, LoggedOn, Lists, Snapshot;
  }

  /** The agent's row after a sweep. */
  lemma SweepLeaves(db: Db, sweep: Sweep, a: string)
    requires Covered(sweep) && Snapshot(db, sweep.tenant, sweep.recs)
    requires a in db.agents && db.agents[a].balance >= 0 && a in sweep.world
    ensures var after, g := Swept(db, sweep.recs, sweep.world, sweep.day, |sweep.recs|).0, db.agents[a];
            var taken := if Eligible(g, sweep.tenant)
              then Kept(db, RecordOf(a, g), sweep.world[a], sweep.day) else 0;
            a in after.agents && after.agents[a] == g.(balance := g.balance - taken)
  {
    hide Swept, Processed, Kept;
    var recs := sweep.recs;
    SweepIsOneCall(db, recs, sweep.world, sweep.day, |recs|, a);
    if j :| 0 <= j < |recs| && recs[j].id == a {
      assert recs[j] == RecordOf(a, db.agents[a]);
      RowAfterCall(db, recs[j], sweep.world[a], sweep.day, a);
    }
  }

  /** What a sweep logs of an agent is logged on its own day. */
  lemma SweepLogsItsDay(db: Db, sweep: Sweep, key: Key)
    requires Covered(sweep) && Snapshot(db, sweep.tenant, sweep.recs) && key.day != sweep.day
    ensures HasLog(Swept(db, sweep.recs, sweep.world, sweep.day, |sweep.recs|).0.logs, key) <==> HasLog(db.logs, key)
  {
    hide Swept, Processed, HasLog, Snapshot;
    var recs, a := sweep.recs, key.agent;
    SnapshotIsDistinct(db, sweep.tenant, recs);
    SweepIsOneCall(db, recs, sweep.world, sweep.day, |recs|, a);
    if j :| 0 <= j < |recs| && recs[j].id == a {
      KeysAfterCall(db, recs[j], sweep.world[a], sweep.day, key);
    }
  }

  lemma SnapshotIsDistinct(db: Db, tenant: string, recs: seq<AgentRecord>)
    requires Snapshot(db, tenant, recs)
    ensures DistinctAgents(recs)
  {
  }

  /** A new day renews every key: whatever a sweep on another day did, the next one pays or reports a
      duplicate by what was logged for its own day before either. */
  lemma DayRenewsKeys(db: Db, first: Sweep, second: Sweep, a: string, amount: int)
    requires Covered(first) && Snapshot(db, first.tenant, first.recs) && first.day != second.day
    requires var mid := Swept(db, first.recs, first.world, first.day, |first.recs|).0;
             && Covered(second) && Snapshot(mid, second.tenant, second.recs)
             && a in mid.agents && a in second.world && mid.agents[a].balance >= 0
             && -50 < 100 * amount - 85 * mid.agents[a].balance <= 50
    ensures var mid := Swept(db, first.recs, first.world, first.day, |first.recs|).0;
            var results := Swept(mid, second.recs, second.world, second.day, |second.recs|).1;
            var g, w := mid.agents[a], second.world[a];
            var called := Listable(g, second.tenant) && w.gates.identity
              && w.gates.conversion && 1 <= amount <= 5_000_000;
            var logged := LoggedOn(db.logs, a, g, amount, second.day);
            var answered := w.outcome == Answered(Success) || w.outcome == Answered(Processing);
            && (Reports(results, a, Initiated) <==> called && !logged && answered)
            && (Reports(results, a, Duplicate) <==> called && logged)
  {
    var mid := Swept(db, first.recs, first.world, first.day, |first.recs|).0;
    SweepAnswers(mid, second, a, amount);
    LoggedOnIsHasLog(db.logs, a, mid.agents[a], amount, second.day);
    LoggedOnIsHasLog(mid.logs, a, mid.agents[a], amount, second.day);
    if mid.agents[a].payoutMethod.Some? && mid.agents[a].country.Some? {
      SweepLogsItsDay(
        db, first, Key(a, amount, mid.agents[a].payoutMethod.value, mid.agents[a].country.value, second.day));
    }
    hide Swept, Reports, LoggedOn, HasLog, Snapshot;
  }

  lemma LoggedOnIsHasLog(logs: seq<LogRow>, a: string, g: Agent, amount: int, day: int)
    ensures LoggedOn(logs, a, g, amount, day)
       <==> g.payoutMethod.Some? && g.country.Some?
            && HasLog(logs, Key(a, amount, g.payoutMethod.value, g.country.value, day))
  {
  }

  // ---- A second sweep on the same day ----

  /** Two sweeps on one day, the first of which locked agent a's payout: amounts, keys and answers. */
  ghost predicate SameDay(db: Db, first: Sweep, second: Sweep, i: nat) {
    && Covered(first) && Covered(second) && first.day == second.day && first.tenant == second.tenant
    && Snapshot(db, first.tenant, first.recs) && i < |first.recs|
    && Payable(first.recs[i], first.world[first.recs[i].id].gates)
    && !HasLog(db.logs, KeyOf(first.recs[i], first.day))
    && Snapshot(Swept(db, first.recs, first.world, first.day, |first.recs|).0, second.tenant, second.recs)
  }

  /** The agent between the two sweeps: its row but for the balance, and its keys but for the first. */
  lemma AgentAfterFirst(db: Db, first: Sweep, i: nat)
    requires Covered(first) && Snapshot(db, first.tenant, first.recs) && i < |first.recs|
    requires Payable(first.recs[i], first.world[first.recs[i].id].gates)
    requires !HasLog(db.logs, KeyOf(first.recs[i], first.day))
    ensures var rec, a := first.recs[i], first.recs[i].id;
            var mid := Swept(db, first.recs, first.world, first.day, |first.recs|).0;
            var paid := if first.world[a].outcome == Exception then 0 else Disbursable(rec.balance);
            && a in db.agents && a in mid.agents && mid.agents[a] == db.agents[a].(balance := rec.balance - paid)
            && forall key: Key :: key.agent == a ==>
                 (HasLog(mid.logs, key) <==> HasLog(db.logs, key) || key == KeyOf(rec, first.day))
  {
    var rec, a := first.recs[i], first.recs[i].id;
    var w := first.world[a];
    DisbursableBounds(rec.balance);
    assert Locked(db, KeyOf(rec, first.day)).Some?;
    SweepIsOneCall(db, first.recs, first.world, first.day, |first.recs|, a);
    RowAfterCall(db, rec, w, first.day, a);
    var mid := Swept(db, first.recs, first.world, first.day, |first.recs|).0;
    forall key: Key | key.agent == a
      ensures HasLog(mid.logs, key) <==> HasLog(db.logs, key) || key == KeyOf(rec, first.day)
    {
      KeysAfterCall(db, rec, w, first.day, key);
    }
    hide Processed, HasLog, Swept, Disbursable;
  }

  /** What the second call answers, on what the first left of the agent. */
  lemma SecondAnswer(mid: Db, rec: AgentRecord, w: World, day: int)
    requires rec.id in mid.agents && mid.agents[rec.id].balance == rec.balance
    requires Disbursable(rec.balance) <= SWEEP_HARD_CAP
    ensures var r, open := Processed(mid, rec, w, day).1, w.gates.identity && w.gates.conversion && rec.balance > 0;
            && (r.status == Initiated <==> open && !HasLog(mid.logs, KeyOf(rec, day)) && Sent(w.outcome))
            && (r.status == Duplicate <==> open && HasLog(mid.logs, KeyOf(rec, day)))
  {
    DisbursableBounds(rec.balance);
  }

  /** Payouts are meant to be idempotent within a day. After a first payout that was not refunded, a
      second sweep on the same day lists the agent iff what is left still reaches its threshold, and
      then derives another key: it pays again iff every gate and the provider allow it, unless that
      second amount was logged that day before. After a refunded one the second sweep always lists the
      agent, never pays it, and reports a duplicate iff the gates are passed. */
  lemma SameDayRepeat(db: Db, first: Sweep, second: Sweep, i: nat)
    requires SameDay(db, first, second, i) && first.recs[i].id in second.world
    ensures var rec, w1, w2 := first.recs[i], first.world[first.recs[i].id], second.world[first.recs[i].id];
            var left := rec.balance - Disbursable(rec.balance);
            var mid := Swept(db, first.recs, first.world, first.day, |first.recs|).0;
            var results := Swept(mid, second.recs, second.world, second.day, |second.recs|).1;
            var open := w2.gates.identity && w2.gates.conversion;
            if w1.outcome == Exception then
              && Lists(second, rec.id) && !Reports(results, rec.id, Initiated)
              && (Reports(results, rec.id, Duplicate) <==> open)
            else
              var again := KeyOf(rec.(balance := left), first.day);
              && (Lists(second, rec.id) <==> db.agents[rec.id].threshold <= left)
              && (Reports(results, rec.id, Initiated) <==>
                  Lists(second, rec.id) && left > 0 && open
                  && Sent(w2.outcome) && !HasLog(db.logs, again))
              && (Reports(results, rec.id, Duplicate) <==>
                  Lists(second, rec.id) && left > 0 && open && HasLog(db.logs, again))
  {
    var rec, a := first.recs[i], first.recs[i].id;
    var w1, w2 := first.world[a], second.world[a];
    var mid := Swept(db, first.recs, first.world, first.day, |first.recs|).0;
    AgentAfterFirst(db, first, i);
    var left := rec.balance - Disbursable(rec.balance);
    DisbursableBounds(rec.balance);
    DisbursableBounds(left);
    SweepReports(mid, second, a, Initiated);
    SweepReports(mid, second, a, Duplicate);
    var found := RecordOf(a, mid.agents[a]);
    assert found == rec.(balance := mid.agents[a].balance);
    hide Disbursable, Swept, Processed, HasLog, Lists, Reports;
    SecondAnswer(mid, found, w2, first.day);
  }
}
