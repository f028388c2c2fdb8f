/** The money tables of scripts/payout.ts and every statement that writes them, as atomic
  steps that any number of sweeps, provider answers and webhooks may interleave. */
module PayoutLedger {
  import opened Common

  datatype Method = Momo | Card

  datatype Status = Pending | Processing | Success | Failed

  /** The fields hashed into an idempotency key; the hash is taken to be injective. */
  datatype Key = Key(agent: string, amount: int, payoutMethod: Method, country: string, day: int)

  /** Money is in whole cents. */
  datatype Agent = Agent(
    tenant: string, balance: int, threshold: int, locked: bool,
    payoutMethod: Option<Method>, country: Option<string>)

  datatype LogRow = LogRow(key: Key, agent: string, amount: int, status: Status)

  datatype Db = Db(agents: map<string, Agent>, logs: seq<LogRow>)

  // ---- The prepared statements ----

  predicate HasLog(logs: seq<LogRow>, key: Key) {
    exists i :: 0 <= i < |logs| && logs[i].key == key
  }

  function FindLog(logs: seq<LogRow>, key: Key): Option<LogRow> {
    if logs == [] then None
    else if logs[0].key == key then Some(logs[0])
    else FindLog(logs[1..], key)
  }

  function WithBalance(db: Db, agent: string, balance: int): Db
    requires agent in db.agents
  {
    db.(agents := db.agents[agent := db.agents[agent].(balance := balance)])
  }

  /** The debit matches no row when the agent is missing or holds less than the amount. */
  function Debited(db: Db, agent: string, amount: int): Option<Db> {
    if agent in db.agents && db.agents[agent].balance >= amount
    then Some(WithBalance(db, agent, db.agents[agent].balance - amount)) else None
  }

  function Restored(db: Db, agent: string, amount: int): Db {
    if agent in db.agents then WithBalance(db, agent, db.agents[agent].balance + amount) else db
  }

  function MarkedRows(logs: seq<LogRow>, key: Key, status: Status): (r: seq<LogRow>)
    ensures |r| == |logs|
  {
    if logs == [] then []
    else [if logs[0].key == key then logs[0].(status := status) else logs[0]] + MarkedRows(logs[1..], key, status)
  }

  function Marked(db: Db, key: Key, status: Status): Db {
    db.(logs := MarkedRows(db.logs, key, status))
  }

  /** The insert-and-debit transaction: None when the UNIQUE key or the balance refuses it. */
  function Locked(db: Db, key: Key): Option<Db> {
    if HasLog(db.logs, key) then None
    else Debited(db.(logs := db.logs + [LogRow(key, key.agent, key.amount, Pending)]), key.agent, key.amount)
  }

  /** The webhook handler. */
  function Settled(db: Db, key: Key, success: bool): Db {
    var marked := Marked(db, key, if success then Success else Failed);
    if success then marked
    else match FindLog(marked.logs, key)
      case None => marked
      case Some(row) => Restored(marked, row.agent, row.amount)
  }

  // ---- Steps and runs ----

  /** Where the sweep that locked a key stands. */
  datatype Phase = Dispatching | Threw | Finished

  datatype Step =
    | Lock(key: Key)
    | Throw(key: Key)                   // dispatch failed with an exception: balance restored
    | Mark(key: Key, status: Status)    // the sweep records the outcome
    | Settle(key: Key, success: bool)   // webhook, at any time, for any key

  /** The database together with the history of each key: debits and refunds made so far. */
  datatype Ledger = Ledger(db: Db, phase: map<Key, Phase>, debits: map<Key, nat>, refunds: map<Key, nat>)

  function Count(m: map<Key, nat>, key: Key): nat {
    if key in m then m[key] else 0
  }

  function Bump(m: map<Key, nat>, key: Key): map<Key, nat> {
    m[key := Count(m, key) + 1]
  }

  ghost predicate Enabled(s: Ledger, step: Step) {
    match step
    case Lock(key) => key.amount > 0
    case Throw(key) => key in s.phase && s.phase[key] == Dispatching
    case Mark(key, status) =>
      && key in s.phase
      && ((s.phase[key] == Dispatching && status != Pending) || (s.phase[key] == Threw && status == Failed))
    case Settle(_, _) => true
  }

  function Next(s: Ledger, step: Step): Ledger {
    match step
    case Lock(key) =>
      (match Locked(s.db, key)
       case None => s
       case Some(db) => s.(db := db, phase := s.phase[key := Dispatching], debits := Bump(s.debits, key)))
    case Throw(key) =>
      s.(db := Restored(s.db, key.agent, key.amount), phase := s.phase[key := Threw], refunds := Bump(s.refunds, key))
    case Mark(key, status) =>
      s.(db := Marked(s.db, key, status), phase := s.phase[key := Finished])
    case Settle(key, success) =>
      s.(db := Settled(s.db, key, success),
         refunds := if !success && HasLog(s.db.logs, key) then Bump(s.refunds, key) else s.refunds)
  }

  function After(s: Ledger, steps: seq<Step>, n: nat): Ledger
    requires n <= |steps|
  {
    if n == 0 then s else Next(After(s, steps, n - 1), steps[n - 1])
  }

  ghost predicate ValidRun(s: Ledger, steps: seq<Step>) {
    forall n :: 0 <= n < |steps| ==> Enabled(After(s, steps, n), steps[n])
  }

  /** A ledger before any payout. */
  ghost predicate Opening(s: Ledger) {
    && s.db.logs == [] && s.phase == map[] && s.debits == map[] && s.refunds == map[]
    && forall a :: a in s.db.agents ==> s.db.agents[a].balance >= 0
  }

  // ---- Conservation ----

  /** What agent a has paid out, net: each log counts once per debit, less once per refund. */
  function NetPaid(logs: seq<LogRow>, refunds: map<Key, nat>, a: string): int {
    if logs == [] then 0
    else (if logs[0].agent == a then logs[0].amount * (1 - Count(refunds, logs[0].key)) else 0)
         + NetPaid(logs[1..], refunds, a)
  }

  ghost predicate UniqueKeys(logs: seq<LogRow>) {
    forall i, j :: 0 <= i < j < |logs| ==> logs[i].key != logs[j].key
  }

  ghost predicate RowsMatchKeys(db: Db) {
    forall i :: 0 <= i < |db.logs| ==>
      var row := db.logs[i];
      row.agent == row.key.agent && row.amount == row.key.amount > 0 && row.agent in db.agents
  }

  ghost predicate Conserved(s: Ledger, start: Db) {
    && s.db.agents.Keys == start.agents.Keys
    && forall a :: a in start.agents ==>
         && s.db.agents[a].balance >= 0
         && s.db.agents[a].balance + NetPaid(s.db.logs, s.refunds, a) == start.agents[a].balance
  }

  ghost predicate HistoryAgrees(s: Ledger) {
    && (forall key :: key in s.phase ==> HasLog(s.db.logs, key))
    && (forall key :: key in s.refunds ==> HasLog(s.db.logs, key))
    && (forall key :: Count(s.debits, key) == if HasLog(s.db.logs, key) then 1 else 0)
  }

  ghost predicate Invariant(s: Ledger, start: Db) {
    UniqueKeys(s.db.logs) && RowsMatchKeys(s.db) && Conserved(s, start) && HistoryAgrees(s)
  }

  lemma {:induction false} FindLogIsHasLog(logs: seq<LogRow>, key: Key)
    ensures FindLog(logs, key).Some? <==> HasLog(logs, key)
    ensures FindLog(logs, key).Some? ==> FindLog(logs, key).value in logs && FindLog(logs, key).value.key == key
  {
    if logs != [] {
      FindLogIsHasLog(logs[1..], key);
      if HasLog(logs, key) && logs[0].key != key {
        var i :| 0 <= i < |logs| && logs[i].key == key;
        assert logs[1..][i - 1].key == key;
      }
      if HasLog(logs[1..], key) {
        var i :| 0 <= i < |logs| - 1 && logs[1..][i].key == key;
        assert logs[i + 1].key == key;
      }
    }
  }

  lemma {:induction false} MarkedRowAt(logs: seq<LogRow>, key: Key, status: Status, i: nat)
    requires i < |logs|
    ensures MarkedRows(logs, key, status)[i] == if logs[i].key == key then logs[i].(status := status) else logs[i]
  {
    if i > 0 {
      MarkedRowAt(logs[1..], key, status, i - 1);
    }
  }

  /** Marking changes statuses and nothing else about any row. */
  lemma MarkKeepsMoney(db: Db, key: Key, status: Status, refunds: map<Key, nat>)
    ensures UniqueKeys(db.logs) ==> UniqueKeys(Marked(db, key, status).logs)
    ensures RowsMatchKeys(db) ==> RowsMatchKeys(Marked(db, key, status))
    ensures forall k :: HasLog(Marked(db, key, status).logs, k) <==> HasLog(db.logs, k)
    ensures forall a :: NetPaid(Marked(db, key, status).logs, refunds, a) == NetPaid(db.logs, refunds, a)
  {
    var marked := MarkedRows(db.logs, key, status);
    forall i | 0 <= i < |db.logs|
      ensures marked[i] == if db.logs[i].key == key then db.logs[i].(status := status) else db.logs[i]
    {
      MarkedRowAt(db.logs, key, status, i);
    }
    forall a
      ensures NetPaid(marked, refunds, a) == NetPaid(db.logs, refunds, a)
    {
      MarkedNetPaid(db.logs, key, status, refunds, a);
    }
    SameKeysSameLogs(db.logs, marked);
    hide HasLog, NetPaid, MarkedRows;
  }

  lemma SameKeysSameLogs(logs: seq<LogRow>, marked: seq<LogRow>)
    requires |marked| == |logs| && forall i :: 0 <= i < |logs| ==> marked[i].key == logs[i].key
    ensures forall k :: HasLog(marked, k) <==> HasLog(logs, k)
  {
    forall k
      ensures HasLog(marked, k) <==> HasLog(logs, k)
    {
      if i :| 0 <= i < |logs| && logs[i].key == k {
        assert marked[i].key == k;
      }
    }
  }

  lemma {:induction false} MarkedNetPaid(logs: seq<LogRow>, key: Key, status: Status, refunds: map<Key, nat>, a: string)
    ensures NetPaid(MarkedRows(logs, key, status), refunds, a) == NetPaid(logs, refunds, a)
  {
    if logs != [] {
      MarkedNetPaid(logs[1..], key, status, refunds, a);
    }
  }

  lemma {:induction false} NetPaidAppend(logs: seq<LogRow>, row: LogRow, refunds: map<Key, nat>, a: string)
    ensures NetPaid(logs + [row], refunds, a)
         == NetPaid(logs, refunds, a) + if row.agent == a then row.amount * (1 - Count(refunds, row.key)) else 0
  {
    if logs != [] {
      assert (logs + [row])[1..] == logs[1..] + [row];
      NetPaidAppend(logs[1..], row, refunds, a);
    } else {
      assert (logs + [row])[1..] == [];
    }
  }

  lemma {:induction false} NetPaidIgnores(logs: seq<LogRow>, refunds: map<Key, nat>, key: Key, a: string)
    requires !HasLog(logs, key)
    ensures NetPaid(logs, Bump(refunds, key), a) == NetPaid(logs, refunds, a)
  {
    if logs != [] {
      assert logs[0].key != key;
      assert forall i :: 0 <= i < |logs| - 1 ==> logs[1..][i] == logs[i + 1];
      NetPaidIgnores(logs[1..], refunds, key, a);
    }
  }

  /** One more refund of a logged key lowers its owner's net payment by the logged amount. */
  lemma {:induction false} NetPaidRefund(logs: seq<LogRow>, refunds: map<Key, nat>, i: nat, a: string)
    requires UniqueKeys(logs) && i < |logs|
    ensures NetPaid(logs, Bump(refunds, logs[i].key), a)
         == NetPaid(logs, refunds, a) - if logs[i].agent == a then logs[i].amount else 0
  {
    assert forall j :: 0 <= j < |logs| - 1 ==> logs[1..][j] == logs[j + 1];
    if i == 0 {
      NetPaidIgnores(logs[1..], refunds, logs[0].key, a);
      var c: int := Count(refunds, logs[0].key);
      assert logs[0].amount * (1 - (c + 1)) == logs[0].amount * (1 - c) - logs[0].amount;
    } else {
      NetPaidRefund(logs[1..], refunds, i - 1, a);
    }
  }

  lemma RefundConserves(s: Ledger, start: Db, i: nat)
    requires UniqueKeys(s.db.logs) && RowsMatchKeys(s.db) && Conserved(s, start) && i < |s.db.logs|
    ensures var row := s.db.logs[i];
            var db := Restored(s.db, row.agent, row.amount);
            Conserved(s.(db := db, refunds := Bump(s.refunds, row.key)), start) && RowsMatchKeys(db)
  {
    forall a | a in start.agents
      ensures NetPaid(s.db.logs, Bump(s.refunds, s.db.logs[i].key), a)
           == NetPaid(s.db.logs, s.refunds, a) - if s.db.logs[i].agent == a then s.db.logs[i].amount else 0
    {
      NetPaidRefund(s.db.logs, s.refunds, i, a);
    }
  }

  lemma HasLogAppend(logs: seq<LogRow>, row: LogRow, k: Key)
    ensures HasLog(logs + [row], k) <==> k == row.key || HasLog(logs, k)
  {
    assert (logs + [row])[|logs|] == row;
    if HasLog(logs, k) {
      var i :| 0 <= i < |logs| && logs[i].key == k;
      assert (logs + [row])[i].key == k;
    }
  }

  /** What a successful lock does: one new row, one debit of the same amount. */
  lemma LockedFacts(db: Db, key: Key)
    requires Locked(db, key).Some?
    ensures var t := Locked(db, key).value;
            && t.logs == db.logs + [LogRow(key, key.agent, key.amount, Pending)]
            && !HasLog(db.logs, key)
            && t.agents.Keys == db.agents.Keys && key.agent in db.agents
            && db.agents[key.agent].balance >= key.amount
            && forall a :: a in db.agents ==>
                 t.agents[a].balance == db.agents[a].balance - if a == key.agent then key.amount else 0
  {
  }

  lemma LockConserves(s: Ledger, start: Db, key: Key)
    requires Invariant(s, start) && key.amount > 0 && Locked(s.db, key).Some?
    ensures Conserved(s.(db := Locked(s.db, key).value), start)
  {
    LockedFacts(s.db, key);
    var row := LogRow(key, key.agent, key.amount, Pending);
    assert key !in s.refunds;
    forall a | a in start.agents
      ensures NetPaid(s.db.logs + [row], s.refunds, a)
           == NetPaid(s.db.logs, s.refunds, a) + if key.agent == a then key.amount else 0
    {
      NetPaidAppend(s.db.logs, row, s.refunds, a);
    }
    hide Locked, HasLog, NetPaid, RowsMatchKeys, UniqueKeys, HistoryAgrees;
  }

  lemma LockRows(s: Ledger, start: Db, key: Key)
    requires Invariant(s, start) && key.amount > 0 && Locked(s.db, key).Some?
    ensures UniqueKeys(Locked(s.db, key).value.logs) && RowsMatchKeys(Locked(s.db, key).value)
  {
    LockedFacts(s.db, key);
    forall i | 0 <= i < |s.db.logs|
      ensures s.db.logs[i].key != key
    {
      assert HasLog(s.db.logs, s.db.logs[i].key);
    }
    hide Locked, HasLog, Conserved, HistoryAgrees;
  }

  lemma LockHistory(s: Ledger, key: Key)
    requires HistoryAgrees(s) && Locked(s.db, key).Some?
    ensures HistoryAgrees(Next(s, Lock(key)))
  {
    LockedFacts(s.db, key);
    forall k
      ensures HasLog(Locked(s.db, key).value.logs, k) <==> k == key || HasLog(s.db.logs, k)
    {
      HasLogAppend(s.db.logs, LogRow(key, key.agent, key.amount, Pending), k);
    }
    hide Locked, HasLog;
  }

  lemma LockStep(s: Ledger, start: Db, key: Key)
    requires Invariant(s, start) && key.amount > 0
    ensures Invariant(Next(s, Lock(key)), start)
  {
    hide Locked, HasLog, NetPaid, RowsMatchKeys, UniqueKeys, HistoryAgrees;
    if Locked(s.db, key).Some? {
      LockConserves(s, start, key);
      LockRows(s, start, key);
      LockHistory(s, key);
    }
  }

  lemma ThrowStep(s: Ledger, start: Db, key: Key)
    requires Invariant(s, start) && key in s.phase
    ensures Invariant(Next(s, Throw(key)), start)
  {
    assert HasLog(s.db.logs, key);
    var i :| 0 <= i < |s.db.logs| && s.db.logs[i].key == key;
    RefundConserves(s, start, i);
  }

  lemma MarkStep(s: Ledger, start: Db, key: Key, status: Status)
    requires Invariant(s, start) && key in s.phase
    ensures Invariant(Next(s, Mark(key, status)), start)
  {
    MarkKeepsMoney(s.db, key, status, s.refunds);
  }

  lemma SettleStep(s: Ledger, start: Db, key: Key, success: bool)
    requires Invariant(s, start)
    ensures Invariant(Next(s, Settle(key, success)), start)
  {
    var status := if success then Success else Failed;
    var m := s.(db := Marked(s.db, key, status));
    MarkedInvariant(s, start, key, status);
    SettleIsMarkThenRefund(s, key, success);
    hide Invariant, Next, Marked, FindLog;
    if !success && FindLog(m.db.logs, key).Some? {
      RefundInvariant(m, start, key);
    }
  }

  lemma SettleIsMarkThenRefund(s: Ledger, key: Key, success: bool)
    ensures var m := s.(db := Marked(s.db, key, if success then Success else Failed));
            var row := FindLog(m.db.logs, key);
            if success || row.None? then Next(s, Settle(key, success)) == m
            else
              Next(s, Settle(key, success))
                == m.(db := Restored(m.db, row.value.agent, row.value.amount), refunds := Bump(s.refunds, key))
  {
    var status := if success then Success else Failed;
    MarkKeepsMoney(s.db, key, status, s.refunds);
    FindLogIsHasLog(Marked(s.db, key, status).logs, key);
    hide HasLog, NetPaid, UniqueKeys, RowsMatchKeys, FindLog, Marked;
  }

  lemma MarkedInvariant(s: Ledger, start: Db, key: Key, status: Status)
    requires Invariant(s, start)
    ensures Invariant(s.(db := Marked(s.db, key, status)), start)
  {
    MarkKeepsMoney(s.db, key, status, s.refunds);
    hide UniqueKeys, RowsMatchKeys, HasLog, NetPaid;
  }

  /** Returning a logged amount to its owner and counting the refund. */
  lemma RefundInvariant(s: Ledger, start: Db, key: Key)
    requires Invariant(s, start) && FindLog(s.db.logs, key).Some?
    ensures var row := FindLog(s.db.logs, key).value;
            Invariant(s.(db := Restored(s.db, row.agent, row.amount), refunds := Bump(s.refunds, key)), start)
  {
    FindLogIsHasLog(s.db.logs, key);
    var row := FindLog(s.db.logs, key).value;
    var i :| 0 <= i < |s.db.logs| && s.db.logs[i] == row;
    RefundConserves(s, start, i);
    hide Conserved, UniqueKeys, RowsMatchKeys, FindLog, HistoryAgrees;
    BumpKeepsHistory(s, Restored(s.db, row.agent, row.amount), key);
  }

  lemma BumpKeepsHistory(s: Ledger, db: Db, key: Key)
    requires HistoryAgrees(s) && HasLog(s.db.logs, key) && db.logs == s.db.logs
    ensures HistoryAgrees(s.(db := db, refunds := Bump(s.refunds, key)))
  {
    hide HasLog;
  }

  lemma OpeningInvariant(s: Ledger)
    requires Opening(s)
    ensures Invariant(s, s.db)
  {
  }

  /** Every run keeps the invariant it starts with. */
  lemma {:induction false} RunKeepsInvariant(s: Ledger, start: Db, steps: seq<Step>, n: nat)
    requires Invariant(s, start) && ValidRun(s, steps) && n <= |steps|
    ensures Invariant(After(s, steps, n), start)
  {
    hide Invariant, Next, HasLog;
    if n > 0 {
      RunKeepsInvariant(s, start, steps, n - 1);
      var t := After(s, steps, n - 1);
      assert Enabled(t, steps[n - 1]);
      match steps[n - 1]
      case Lock(key) => LockStep(t, start, key);
      case Throw(key) => ThrowStep(t, start, key);
      case Mark(key, status) => MarkStep(t, start, key, status);
      case Settle(key, success) => SettleStep(t, start, key, success);
    }
  }

  /** Main theorem: under any interleaving every agent's balance plus its net payments is what it
      started with, no balance is negative, a key has at most one log, and was debited exactly
      once iff that log exists. */
  lemma MoneyIsConserved(s: Ledger, steps: seq<Step>, n: nat)
    requires Opening(s) && ValidRun(s, steps) && n <= |steps|
    ensures Invariant(After(s, steps, n), s.db)
  {
    hide Invariant, Next, Opening, HasLog, ValidRun;
    OpeningInvariant(s);
    RunKeepsInvariant(s, s.db, steps, n);
  }

  // ---- When is a debit returned exactly once? ----

  /** Logged amounts of agent a that were never refunded. */
  function KeptDebits(logs: seq<LogRow>, refunds: map<Key, nat>, a: string): int {
    if logs == [] then 0
    else (if logs[0].agent == a && Count(refunds, logs[0].key) == 0 then logs[0].amount else 0)
         + KeptDebits(logs[1..], refunds, a)
  }

  ghost predicate RefundedAtMostOnce(s: Ledger) {
    forall key :: Count(s.refunds, key) <= 1
  }

  /** Exactly two kinds of step refund a key, once each. */
  predicate Refunds(s: Ledger, step: Step, key: Key) {
    step == Throw(key) || (step == Settle(key, false) && HasLog(s.db.logs, key))
  }

  lemma RefundsOfStep(s: Ledger, step: Step, key: Key)
    ensures Count(Next(s, step).refunds, key) == Count(s.refunds, key) + if Refunds(s, step, key) then 1 else 0
  {
    hide HasLog, Restored, Locked, Marked, Settled;
  }

  /** At step n a failure webhook for the key finds its log. */
  ghost predicate WebhookFailsAt(s: Ledger, steps: seq<Step>, n: nat, key: Key)
    requires n < |steps|
  {
    steps[n] == Settle(key, false) && HasLog(After(s, steps, n).db.logs, key)
  }

  /** What can be told from outside: no failure webhook reaches a logged key twice, and none reaches
      a key whose dispatch throws, before or after. */
  ghost predicate ReportedFailedOnce(s: Ledger, steps: seq<Step>, key: Key) {
    && (forall m, n :: 0 <= m < n < |steps| && WebhookFailsAt(s, steps, m, key) ==> !WebhookFailsAt(s, steps, n, key))
    && (forall m, n :: 0 <= m < |steps| && 0 <= n < |steps| && WebhookFailsAt(s, steps, m, key) ==>
          steps[n] != Throw(key))
  }

  ghost predicate RefundsAt(s: Ledger, steps: seq<Step>, n: nat, key: Key)
    requires n < |steps|
  {
    Refunds(After(s, steps, n), steps[n], key)
  }

  lemma RefundsAtIff(s: Ledger, steps: seq<Step>, n: nat, key: Key)
    requires n < |steps|
    ensures RefundsAt(s, steps, n, key) <==> steps[n] == Throw(key) || WebhookFailsAt(s, steps, n, key)
    ensures Count(After(s, steps, n + 1).refunds, key)
         == Count(After(s, steps, n).refunds, key) + if RefundsAt(s, steps, n, key) then 1 else 0
  {
    hide Next, HasLog, Count;
    RefundsOfStep(After(s, steps, n), steps[n], key);
  }

  /** A key is refunded at most once iff its failure is reported at most once. */
  lemma RefundedOnceIff(s: Ledger, steps: seq<Step>, key: Key)
    requires Opening(s) && ValidRun(s, steps)
    ensures Count(After(s, steps, |steps|).refunds, key) <= 1 <==> ReportedFailedOnce(s, steps, key)
  {
    hide After, Count, ValidRun, RefundsAt, WebhookFailsAt;
    forall n | 0 <= n < |steps|
      ensures RefundsAt(s, steps, n, key) <==> steps[n] == Throw(key) || WebhookFailsAt(s, steps, n, key)
    {
      RefundsAtIff(s, steps, n, key);
    }
    if m, n :| 0 <= m < n < |steps| && RefundsAt(s, steps, m, key) && RefundsAt(s, steps, n, key) {
      TwoRefundsCount(s, steps, m, n, key);
      if steps[m] == Throw(key) && steps[n] == Throw(key) {
        ThrowsOnce(s, steps, m, n, key);
        assert false;
      }
    } else {
      OneRefundCounts(s, steps, |steps|, key);
      NotBoth(s, steps, key);
    }
  }

  /** A step is not a throw and a webhook at once, so a second report is a second refund. */
  lemma NotBoth(s: Ledger, steps: seq<Step>, key: Key)
    requires forall n :: 0 <= n < |steps| ==>
      (RefundsAt(s, steps, n, key) <==> steps[n] == Throw(key) || WebhookFailsAt(s, steps, n, key))
    requires forall m, n :: 0 <= m < n < |steps| && RefundsAt(s, steps, m, key) ==> !RefundsAt(s, steps, n, key)
    ensures ReportedFailedOnce(s, steps, key)
  {
    hide After, RefundsAt;
    forall m, n | 0 <= m < |steps| && 0 <= n < |steps| && WebhookFailsAt(s, steps, m, key)
      ensures steps[n] != Throw(key)
    {
      if m != n {
        assert RefundsAt(s, steps, m, key);
        assert RefundsAt(s, steps, n, key) <==> steps[n] == Throw(key) || WebhookFailsAt(s, steps, n, key);
      }
    }
  }

  lemma TwoRefundsCount(s: Ledger, steps: seq<Step>, m: nat, n: nat, key: Key)
    requires m < n < |steps| && RefundsAt(s, steps, m, key) && RefundsAt(s, steps, n, key)
    ensures Count(After(s, steps, |steps|).refunds, key) >= 2
  {
    hide After, Count, RefundsAt, WebhookFailsAt;
    RefundsAtIff(s, steps, m, key);
    RefundsNeverDrop(s, steps, m + 1, n, key);
    RefundsAtIff(s, steps, n, key);
    RefundsNeverDrop(s, steps, n + 1, |steps|, key);
  }

  lemma {:induction false} OneRefundCounts(s: Ledger, steps: seq<Step>, n: nat, key: Key)
    requires s.refunds == map[] && n <= |steps|
    requires forall m, k :: 0 <= m < k < n && RefundsAt(s, steps, m, key) ==> !RefundsAt(s, steps, k, key)
    ensures Count(After(s, steps, n).refunds, key) <= 1
    ensures (forall m :: 0 <= m < n ==> !RefundsAt(s, steps, m, key)) ==> Count(After(s, steps, n).refunds, key) == 0
  {
    hide Next, HasLog, Count, RefundsAt, WebhookFailsAt;
    if n > 0 {
      OneRefundCounts(s, steps, n - 1, key);
      RefundsAtIff(s, steps, n - 1, key);
    } else {
      CountEmpty(key);
    }
  }

  /** A dispatch throws at most once. */
  lemma ThrowsOnce(s: Ledger, steps: seq<Step>, m: nat, n: nat, key: Key)
    requires Opening(s) && ValidRun(s, steps) && m < n < |steps| && steps[m] == Throw(key)
    ensures steps[n] != Throw(key)
  {
    hide Opening, After;
    NeverDispatchesAgain(s, steps, m, n, key);
    assert Enabled(After(s, steps, n), steps[n]);
  }

  ghost predicate PastDispatch(s: Ledger, key: Key) {
    key in s.phase && s.phase[key] != Dispatching
  }

  lemma StaysPastDispatch(s: Ledger, step: Step, key: Key)
    requires PastDispatch(s, key) && HasLog(s.db.logs, key)
    ensures PastDispatch(Next(s, step), key)
  {
    hide HasLog, Restored, Marked, Settled, Debited;
  }

  lemma {:induction false} NeverDispatchesAgain(s: Ledger, steps: seq<Step>, m: nat, n: nat, key: Key)
    requires Opening(s) && ValidRun(s, steps) && m < n <= |steps| && steps[m] == Throw(key)
    ensures PastDispatch(After(s, steps, n), key)
  {
    hide Next, PastDispatch, Invariant, Opening, ValidRun, HasLog;
    if n > m + 1 {
      NeverDispatchesAgain(s, steps, m, n - 1, key);
      MoneyIsConserved(s, steps, n - 1);
      PastDispatchIsLogged(After(s, steps, n - 1), s.db, key);
      StaysPastDispatch(After(s, steps, n - 1), steps[n - 1], key);
    } else {
      ThrowIsPastDispatch(After(s, steps, m), key);
    }
  }

  lemma ThrowIsPastDispatch(s: Ledger, key: Key)
    ensures PastDispatch(Next(s, Throw(key)), key)
  {
  }

  lemma PastDispatchIsLogged(s: Ledger, start: Db, key: Key)
    requires Invariant(s, start) && PastDispatch(s, key)
    ensures HasLog(s.db.logs, key)
  {
  }

  /** Main theorem on refunds: no log is refunded twice iff every key's failure is reported at most
      once; then each agent's balance is its start less exactly the debits never returned. */
  lemma RefundsExactlyWhenReportedOnce(s: Ledger, steps: seq<Step>)
    requires Opening(s) && ValidRun(s, steps)
    ensures RefundedAtMostOnce(After(s, steps, |steps|)) <==> forall key :: ReportedFailedOnce(s, steps, key)
    ensures RefundedAtMostOnce(After(s, steps, |steps|)) ==> BalancesLessKeptDebits(s, After(s, steps, |steps|))
  {
    hide ReportedFailedOnce, Opening, ValidRun, Next, Conserved, UniqueKeys, RowsMatchKeys, HistoryAgrees, Count;
    forall key
      ensures Count(After(s, steps, |steps|).refunds, key) <= 1 <==> ReportedFailedOnce(s, steps, key)
    {
      RefundedOnceIff(s, steps, key);
    }
    if RefundedAtMostOnce(After(s, steps, |steps|)) {
      MoneyIsConserved(s, steps, |steps|);
      OnceMeansKeptDebits(After(s, steps, |steps|), s);
    }
  }

  ghost predicate BalancesLessKeptDebits(s: Ledger, end: Ledger) {
    forall a :: a in s.db.agents ==>
      && a in end.db.agents
      && end.db.agents[a].balance == s.db.agents[a].balance - KeptDebits(end.db.logs, end.refunds, a)
  }

  lemma OnceMeansKeptDebits(end: Ledger, s: Ledger)
    requires Conserved(end, s.db) && RefundedAtMostOnce(end)
    ensures BalancesLessKeptDebits(s, end)
  {
    forall a | a in s.db.agents
      ensures NetPaid(end.db.logs, end.refunds, a) == KeptDebits(end.db.logs, end.refunds, a)
    {
      OnceMeansKept(end.db.logs, end.refunds, a);
    }
  }

  lemma {:induction false} RefundsNeverDrop(s: Ledger, steps: seq<Step>, m: nat, n: nat, key: Key)
    requires m <= n <= |steps|
    ensures Count(After(s, steps, m).refunds, key) <= Count(After(s, steps, n).refunds, key)
  {
    hide Next, HasLog;
    if m < n {
      RefundsNeverDrop(s, steps, m, n - 1, key);
      RefundsOfStep(After(s, steps, n - 1), steps[n - 1], key);
    }
  }

  lemma {:induction false} OnceMeansKept(logs: seq<LogRow>, refunds: map<Key, nat>, a: string)
    requires forall key :: Count(refunds, key) <= 1
    ensures NetPaid(logs, refunds, a) == KeptDebits(logs, refunds, a)
  {
    if logs != [] {
      OnceMeansKept(logs[1..], refunds, a);
      assert Count(refunds, logs[0].key) == 0 || Count(refunds, logs[0].key) == 1;
    }
  }

  /** A second report does happen: from any opening state a dispatch that threw, followed by a failure
      webhook for the same key, refunds twice and leaves the agent its start plus the amount. */
  lemma ThrowThenFailedWebhookOverpays(s: Ledger, key: Key)
    requires Opening(s) && key.amount > 0 && key.agent in s.db.agents && s.db.agents[key.agent].balance >= key.amount
    ensures var steps := [Lock(key), Throw(key), Mark(key, Failed), Settle(key, false)];
            && ValidRun(s, steps)
            && After(s, steps, 4).db.agents == Restored(s.db, key.agent, key.amount).agents
            && Count(After(s, steps, 4).refunds, key) == 2
  {
    var steps := [Lock(key), Throw(key), Mark(key, Failed), Settle(key, false)];
    var locked, failed := Next(s, Lock(key)), LogRow(key, key.agent, key.amount, Failed);
    LockedFacts(s.db, key);
    LockThenRestore(s.db, key);
    OneFailedRow(key);
    hide Locked, HasLog, FindLog, MarkedRows;
    var thrown := Next(locked, Throw(key));
    var marked := Next(thrown, Mark(key, Failed));
    assert locked.phase == map[key := Dispatching] && marked.db == Db(s.db.agents, [failed]);
    FourSteps(s, Lock(key), Throw(key), Mark(key, Failed), Settle(key, false));
    hide After, ValidRun;
  }

  lemma FourSteps(s: Ledger, a: Step, b: Step, c: Step, d: Step)
    ensures After(s, [a, b, c, d], 4) == Next(Next(Next(Next(s, a), b), c), d)
    ensures ValidRun(s, [a, b, c, d]) <==>
      Enabled(s, a) && Enabled(Next(s, a), b)
      && Enabled(Next(Next(s, a), b), c) && Enabled(Next(Next(Next(s, a), b), c), d)
  {
    hide Next, Enabled;
    var steps := [a, b, c, d];
    assert After(s, steps, 0) == s;
    assert After(s, steps, 1) == Next(s, a);
    assert After(s, steps, 2) == Next(Next(s, a), b);
    assert After(s, steps, 3) == Next(Next(Next(s, a), b), c);
    if ValidRun(s, steps) {
      assert Enabled(After(s, steps, 0), steps[0]) && Enabled(After(s, steps, 1), steps[1]);
      assert Enabled(After(s, steps, 2), steps[2]) && Enabled(After(s, steps, 3), steps[3]);
    }
  }

  lemma OneFailedRow(key: Key)
    ensures var failed := LogRow(key, key.agent, key.amount, Failed);
            && MarkedRows([failed.(status := Pending)], key, Failed) == [failed] == MarkedRows([failed], key, Failed)
            && FindLog([failed], key) == Some(failed) && HasLog([failed], key)
  {
    var failed := LogRow(key, key.agent, key.amount, Failed);
    assert [failed][0].key == key;
  }

  // ---- Status and refund ----

  /** Did one of the first n steps refund key: a dispatch that threw, or a failure webhook that
      found its log? */
  ghost predicate RefundedBy(s: Ledger, steps: seq<Step>, n: nat, key: Key)
    requires n <= |steps|
  {
    exists m :: 0 <= m < n && Refunds(After(s, steps, m), steps[m], key)
  }

  /** A logged debit is still outstanding iff its dispatch did not throw and no failure webhook
      reached it. In particular a log the provider answered FAILED stays debited until a webhook. */
  lemma {:induction false} DebitKeptIff(s: Ledger, steps: seq<Step>, n: nat, key: Key)
    requires s.refunds == map[] && n <= |steps|
    ensures Count(After(s, steps, n).refunds, key) == 0 <==> !RefundedBy(s, steps, n, key)
  {
    hide Next, Refunds, Count;
    if n > 0 {
      DebitKeptIff(s, steps, n - 1, key);
      RefundsOfStep(After(s, steps, n - 1), steps[n - 1], key);
      if RefundedBy(s, steps, n - 1, key) {
        var m :| 0 <= m < n - 1 && Refunds(After(s, steps, m), steps[m], key);
        assert RefundedBy(s, steps, n, key);
      }
    } else {
      CountEmpty(key);
    }
  }

  lemma CountEmpty(key: Key)
    ensures Count(map[], key) == 0
  {
  }

  /** The status column does not tell: a dispatch that threw and a provider that answered FAILED
      leave the same row, one refunded and one not. */
  lemma SameRowDifferentMoney(s: Ledger, key: Key)
    requires Opening(s) && key.amount > 0 && key.agent in s.db.agents && s.db.agents[key.agent].balance >= key.amount
    ensures var threw, refused := [Lock(key), Throw(key), Mark(key, Failed)], [Lock(key), Mark(key, Failed)];
            && ValidRun(s, threw) && ValidRun(s, refused)
            && After(s, threw, 3).db.logs == After(s, refused, 2).db.logs
               == [LogRow(key, key.agent, key.amount, Failed)]
            && After(s, threw, 3).db.agents == s.db.agents
            && After(s, refused, 2).db.agents[key.agent].balance == s.db.agents[key.agent].balance - key.amount
  {
    var threw, refused := [Lock(key), Throw(key), Mark(key, Failed)], [Lock(key), Mark(key, Failed)];
    var locked := Next(s, Lock(key));
    LockedFacts(s.db, key);
    LockThenRestore(s.db, key);
    assert locked.phase == map[key := Dispatching];
    assert MarkedRows([LogRow(key, key.agent, key.amount, Pending)], key, Failed)
        == [LogRow(key, key.agent, key.amount, Failed)];
    hide Locked, Restored, HasLog;
    assert After(s, threw, 0) == s && After(s, refused, 0) == s;
    assert After(s, threw, 1) == locked == After(s, refused, 1);
    assert After(s, threw, 2) == Next(locked, Throw(key));
    assert After(s, threw, 3) == Next(After(s, threw, 2), Mark(key, Failed));
    assert After(s, refused, 2) == Next(locked, Mark(key, Failed));
  }

  lemma LockThenRestore(db: Db, key: Key)
    requires Locked(db, key).Some?
    ensures Restored(Locked(db, key).value, key.agent, key.amount)
         == db.(logs := db.logs + [LogRow(key, key.agent, key.amount, Pending)])
  {
  }
}
