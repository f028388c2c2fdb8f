/** The migration runner of src/db/migrate.ts: runs that may die at any migration, the pending
  list, and the one-shot renumbering that every open performs before running. */
module Migrations {
  import opened Common

  /** `up` is what one migration does to the schema. */
  datatype Migration<!S> = Migration(version: int, description: string, up: S -> S)

  /** A row of schema_migrations. */
  datatype Row = Row(version: int, description: string, appliedAt: int)

  /** `rows` is None until the tracking table exists. */
  datatype Db<S> = Db(schema: S, rows: Option<seq<Row>>)

  datatype Status = Applied | Skipped

  datatype Result = Result(version: int, status: Status)

  function RowsOf<S>(db: Db<S>): seq<Row> {
    if db.rows.Some? then db.rows.value else []
  }

  function Versions(rows: seq<Row>): (vs: seq<int>)
    ensures |vs| == |rows| && forall i :: 0 <= i < |rows| ==> vs[i] == rows[i].version
  {
    Mapped(rows, (row: Row) => row.version)
  }

  function ListVersions<S>(ms: seq<Migration<S>>): (vs: seq<int>)
    ensures |vs| == |ms| && forall i :: 0 <= i < |ms| ==> vs[i] == ms[i].version
  {
    Mapped(ms, (m: Migration<S>) => m.version)
  }

  ghost predicate DistinctVersions<S>(ms: seq<Migration<S>>) {
    forall i, j :: 0 <= i < j < |ms| ==> ms[i].version != ms[j].version
  }

  /** The schema reached by the first p migrations. */
  function Fold<S>(ms: seq<Migration<S>>, s: S, p: nat): S
    requires p <= |ms|
  {
    if p == 0 then s else ms[p - 1].up(Fold(ms, s, p - 1))
  }

  // ---- One run ----

  /** A run in progress: the database, what was reported so far, and whether it died. */
  datatype Progress<S> = Progress(db: Db<S>, results: seq<Result>, died: bool)

  /** One migration: skipped if its version was present when the run began; otherwise its `up` and
      its row commit together, unless the run dies here and neither does. */
  function Stepped<S>(p: Progress<S>, m: Migration<S>, present: seq<int>, dies: bool, now: int): Progress<S> {
    if p.died then p
    else if m.version in present then p.(results := p.results + [Result(m.version, Skipped)])
    else if dies then p.(died := true)
    else Progress(Db(m.up(p.db.schema), Some(RowsOf(p.db) + [Row(m.version, m.description, now)])),
                  p.results + [Result(m.version, Applied)], false)
  }

  /** The run after its first n migrations; `dieAt` is the migration at which it would die. */
  function Running<S>(ms: seq<Migration<S>>, db: Db<S>, dieAt: Option<nat>, now: int, n: nat): Progress<S>
    requires n <= |ms|
  {
    if n == 0 then Progress(db.(rows := Some(RowsOf(db))), [], false)
    else Stepped(Running(ms, db, dieAt, now, n - 1), ms[n - 1], Versions(RowsOf(db)), dieAt == Some(n - 1), now)
  }

  function CountOf(results: seq<Result>, status: Status): nat {
    if results == [] then 0
    else CountOf(results[..|results| - 1], status) + if results[|results| - 1].status == status then 1 else 0
  }

  function Pending<S>(ms: seq<Migration<S>>, present: seq<int>): seq<Migration<S>> {
    if ms == [] then []
    else
      var last := ms[|ms| - 1];
      Pending(ms[..|ms| - 1], present) + if last.version in present then [] else [last]
  }

  /** `pending` are the migrations at these ascending positions of the list. */
  ghost predicate StandAt<S>(pending: seq<Migration<S>>, ms: seq<Migration<S>>, at: seq<nat>) {
    && |pending| == |at|
    && (forall k :: 0 <= k < |at| ==> at[k] < |ms| && pending[k] == ms[at[k]])
    && forall j, k :: 0 <= j < k < |at| ==> at[j] < at[k]
  }

  /** The positions are those of the versions not present. */
  ghost predicate SelectsMissing<S>(ms: seq<Migration<S>>, present: seq<int>, at: seq<nat>) {
    forall i :: 0 <= i < |ms| ==> (i in at <==> ms[i].version !in present)
  }

  class MigrationDb<S(!new)> {
    var schema: S
    var rows: Option<seq<Row>>

    function Contents(): Db<S>
      reads this
    {
      Db(schema, rows)
    }

    constructor (empty: S)
      ensures Contents() == Db(empty, None)
    {
      schema, rows := empty, None;
    }

    /** `up` and the version row in one transaction. */
    method ApplyMigration(m: Migration<S>, now: int)
      requires rows.Some?
      modifies this
      ensures Contents() == Db(m.up(old(schema)), Some(RowsOf(old(Contents())) + [Row(m.version, m.description, now)]))
    {
      schema := m.up(schema);
      rows := Some(rows.value + [Row(m.version, m.description, now)]);
    }

    method RunMigrations(ms: seq<Migration<S>>, dieAt: Option<nat>, now: int)
        returns (results: seq<Result>, applied: nat, skipped: nat, died: bool)
      modifies this
      ensures Progress(Contents(), results, died) == Running(ms, old(Contents()), dieAt, now, |ms|)
      ensures applied == CountOf(results, Applied) && skipped == CountOf(results, Skipped)
    {
      if rows.None? {
        rows := Some([]);
      }
      var present := Versions(rows.value);
      results, applied, skipped, died := [], 0, 0, false;
      RunningStarts(ms, old(Contents()), dieAt, now);
      hide Running;
      for n := 0 to |ms|
        invariant present == Versions(RowsOf(old(Contents())))
        invariant rows.Some? && Progress(Contents(), results, died) == Running(ms, old(Contents()), dieAt, now, n)
        invariant applied == CountOf(results, Applied) && skipped == CountOf(results, Skipped)
        invariant !died
      {
        var m := ms[n];
        RunningStep(ms, old(Contents()), dieAt, now, n);
        if m.version in present {
          CountOneMore(results, Result(m.version, Skipped));
          results := results + [Result(m.version, Skipped)];
          skipped := skipped + 1;
        } else if dieAt == Some(n) {
          died := true;
          StaysDead(ms, old(Contents()), dieAt, now, n + 1, |ms|);
          return;
        } else {
          ApplyMigration(m, now);
          CountOneMore(results, Result(m.version, Applied));
          results := results + [Result(m.version, Applied)];
          applied := applied + 1;
        }
      }
    }

    /** Exactly the migrations of the list whose version is not recorded, in list order. */
    method GetPendingMigrations(ms: seq<Migration<S>>) returns (pending: seq<Migration<S>>)
      ensures exists at: seq<nat> :: StandAt(pending, ms, at) && SelectsMissing(ms, Versions(RowsOf(Contents())), at)
      ensures forall v :: v in ListVersions(pending) <==> v in ListVersions(ms) && v !in Versions(RowsOf(Contents()))
    {
      hide Pending, StandAt, SelectsMissing;
      var present := Versions(RowsOf(Contents()));
      ghost var at := PendingIsSelection(ms, present);
      SelectedVersions(ms, present, Pending(ms, present), at);
      if rows.None? {
        NothingPresent(ms);
        return ms;
      }
      pending := Pending(ms, present);
    }

    method GetCurrentVersion() returns (v: int)
      ensures RowsOf(Contents()) == [] ==> v == 0
      ensures RowsOf(Contents()) != [] ==> v in Versions(RowsOf(Contents()))
      ensures forall w :: w in Versions(RowsOf(Contents())) ==> w <= v
    {
      if rows.None? || rows.value == [] {
        return 0;
      }
      var vs := Versions(rows.value);
      v := vs[0];
      for i := 1 to |vs|
        invariant v in vs && forall j :: 0 <= j < i ==> vs[j] <= v
      {
        if vs[i] > v {
          v := vs[i];
        }
      }
    }

    /** Rewrites legacy versions in place; refuses, changing nothing, when a pair is ambiguous. */
    method ReconcilePhase12Renumber() returns (ok: bool)
      modifies `rows
      ensures ok <==> !Ambiguous(Versions(RowsOf(old(Contents()))))
      ensures Contents() == if ok then Reconciled(old(Contents())) else old(Contents())
    {
      if rows.None? {
        return true;
      }
      var present := Versions(rows.value);
      for legacy := 31 to 36
        invariant forall v :: v in present && 31 <= v < legacy ==> v - 14 !in present
      {
        if legacy in present && legacy - 14 in present {
          assert Legacy(legacy) && Canonical(legacy) in present;
          return false;
        }
      }
      for legacy := 31 to 36
        invariant rows.Some? && |rows.value| == |RowsOf(old(Contents()))| && unchanged(`schema)
        invariant forall i :: 0 <= i < |rows.value| ==>
          var was := RowsOf(old(Contents()))[i];
          rows.value[i] == if 31 <= was.version < legacy then Renumbered(was) else was
      {
        if legacy in present {
          rows := Some(UpdatedVersion(rows.value, legacy, legacy - 14));
        }
      }
      assert rows.value == RowsOf(Reconciled(old(Contents())));
      return true;
    }

    method OpenDatabase(ms: seq<Migration<S>>, dieAt: Option<nat>, now: int) returns (ok: bool)
      modifies this
      ensures (Contents(), ok) == Opened(ms, old(Contents()), dieAt, now)
    {
      ok := ReconcilePhase12Renumber();
      if !ok {
        return false;
      }
      var _, _, _, died := RunMigrations(ms, dieAt, now);
      ok := !died;
    }
  }

  /** The filter keeps order and leaves out exactly the versions present. */
  lemma {:induction false} PendingIsSelection<S>(ms: seq<Migration<S>>, present: seq<int>) returns (at: seq<nat>)
    ensures StandAt(Pending(ms, present), ms, at) && SelectsMissing(ms, present, at)
  {
    hide StandAt, SelectsMissing;
    if ms == [] {
      at := [];
      assert Pending(ms, present) == [];
      NothingSelected(ms, present);
    } else {
      var before := PendingIsSelection(ms[..|ms| - 1], present);
      var kept := Pending(ms[..|ms| - 1], present);
      SelectionGrows(ms, present, kept, before);
      if ms[|ms| - 1].version in present {
        at := before;
        assert Pending(ms, present) == kept;
      } else {
        at := before + [|ms| - 1];
        assert Pending(ms, present) == kept + [ms[|ms| - 1]];
      }
    }
  }

  lemma NothingSelected<S>(ms: seq<Migration<S>>, present: seq<int>)
    requires ms == []
    ensures StandAt([], ms, []) && SelectsMissing(ms, present, [])
  {
  }

  lemma SelectionGrows<S>(ms: seq<Migration<S>>, present: seq<int>, pending: seq<Migration<S>>, at: seq<nat>)
    requires ms != [] && StandAt(pending, ms[..|ms| - 1], at) && SelectsMissing(ms[..|ms| - 1], present, at)
    ensures var last := |ms| - 1;
            if ms[last].version in present then StandAt(pending, ms, at) && SelectsMissing(ms, present, at)
            else StandAt(pending + [ms[last]], ms, at + [last]) && SelectsMissing(ms, present, at + [last])
  {
    assert |ms| - 1 !in at;
  }

  lemma {:induction false} NothingPresent<S>(ms: seq<Migration<S>>)
    ensures Pending(ms, []) == ms
  {
    if ms != [] {
      NothingPresent(ms[..|ms| - 1]);
    }
  }

  lemma SelectedVersions<S>(ms: seq<Migration<S>>, present: seq<int>, pending: seq<Migration<S>>, at: seq<nat>)
    requires StandAt(pending, ms, at) && SelectsMissing(ms, present, at)
    ensures forall v :: v in ListVersions(pending) <==> v in ListVersions(ms) && v !in present
  {
    forall v | v in ListVersions(pending)
      ensures v in ListVersions(ms) && v !in present
    {
      var k :| 0 <= k < |pending| && ListVersions(pending)[k] == v;
      assert ListVersions(ms)[at[k]] == v && at[k] in at;
    }
    forall v | v in ListVersions(ms) && v !in present
      ensures v in ListVersions(pending)
    {
      var i :| 0 <= i < |ms| && ListVersions(ms)[i] == v;
      assert i in at;
      var k :| 0 <= k < |at| && at[k] == i;
      assert ListVersions(pending)[k] == v;
    }
  }

  lemma RunningStarts<S>(ms: seq<Migration<S>>, db: Db<S>, dieAt: Option<nat>, now: int)
    ensures Running(ms, db, dieAt, now, 0) == Progress(db.(rows := Some(RowsOf(db))), [], false)
  {
  }

  lemma RunningStep<S>(ms: seq<Migration<S>>, db: Db<S>, dieAt: Option<nat>, now: int, n: nat)
    requires n < |ms|
    ensures Running(ms, db, dieAt, now, n + 1)
         == Stepped(Running(ms, db, dieAt, now, n), ms[n], Versions(RowsOf(db)), dieAt == Some(n), now)
  {
  }

  lemma CountOneMore(results: seq<Result>, r: Result)
    ensures CountOf(results + [r], Applied) == CountOf(results, Applied) + if r.status == Applied then 1 else 0
    ensures CountOf(results + [r], Skipped) == CountOf(results, Skipped) + if r.status == Skipped then 1 else 0
  {
    assert (results + [r])[..|results|] == results;
  }

  lemma {:induction false} StaysDead<S>(ms: seq<Migration<S>>, db: Db<S>, dieAt: Option<nat>, now: int, n: nat, m: nat)
    requires n <= m <= |ms| && Running(ms, db, dieAt, now, n).died
    ensures Running(ms, db, dieAt, now, m) == Running(ms, db, dieAt, now, n)
  {
    if n < m {
      StaysDead(ms, db, dieAt, now, n, m - 1);
    }
  }

  // ---- Any number of runs from an empty database ----

  /** The database after the first n runs, each with its own point of death and clock. */
  function AfterRuns<S>(ms: seq<Migration<S>>, start: S, deaths: seq<Option<nat>>, n: nat): Db<S>
    requires n <= |deaths|
  {
    if n == 0 then Db(start, None)
    else Running(ms, AfterRuns(ms, start, deaths, n - 1), deaths[n - 1], n, |ms|).db
  }

  /** Exactly the first p migrations are recorded and folded into the schema. */
  ghost predicate AtPrefix<S>(ms: seq<Migration<S>>, start: S, db: Db<S>, p: nat) {
    && p <= |ms|
    && Versions(RowsOf(db)) == ListVersions(ms)[..p]
    && db.schema == Fold(ms, start, p)
  }

  /** How far a run started at prefix p has come after n migrations. */
  ghost predicate RunAt<S>(ms: seq<Migration<S>>, start: S, p: nat, n: nat, dieAt: Option<nat>, q: Progress<S>) {
    if q.died then
      dieAt.Some? && p <= dieAt.value < n && AtPrefix(ms, start, q.db, dieAt.value)
      && q.results == Reports(ms, p, dieAt.value)
    else
      AtPrefix(ms, start, q.db, if n <= p then p else n) && q.results == Reports(ms, p, n)
      && (dieAt.Some? && p <= dieAt.value ==> n <= dieAt.value)
  }

  /** Skipped up to p, applied after. */
  function Reports<S>(ms: seq<Migration<S>>, p: nat, n: nat): seq<Result>
    requires n <= |ms|
  {
    seq(n, i requires 0 <= i < n => Result(ms[i].version, if i < p then Skipped else Applied))
  }

  lemma PresentIff<S>(ms: seq<Migration<S>>, p: nat, i: nat)
    requires DistinctVersions(ms) && p <= |ms| && i < |ms|
    ensures ms[i].version in ListVersions(ms)[..p] <==> i < p
  {
    if i < p {
      assert ListVersions(ms)[..p][i] == ms[i].version;
    }
  }

  lemma {:induction false} RunFromPrefix<S>(ms: seq<Migration<S>>, start: S, db: Db<S>, p: nat,
                                            dieAt: Option<nat>, now: int, n: nat)
    requires DistinctVersions(ms) && AtPrefix(ms, start, db, p) && n <= |ms|
    ensures RunAt(ms, start, p, n, dieAt, Running(ms, db, dieAt, now, n))
  {
    if n > 0 {
      RunFromPrefix(ms, start, db, p, dieAt, now, n - 1);
      RunStep(ms, start, p, n, dieAt, Running(ms, db, dieAt, now, n - 1), Versions(RowsOf(db)), now);
    } else {
      assert RowsOf(db.(rows := Some(RowsOf(db)))) == RowsOf(db);
      assert Reports(ms, p, 0) == [];
    }
  }

  lemma ReportsGrow<S>(ms: seq<Migration<S>>, p: nat, n: nat)
    requires 0 < n <= |ms|
    ensures Reports(ms, p, n)
         == Reports(ms, p, n - 1) + [Result(ms[n - 1].version, if n - 1 < p then Skipped else Applied)]
  {
  }

  lemma PrefixGrows<S>(ms: seq<Migration<S>>, start: S, db: Db<S>, n: nat, now: int)
    requires 0 < n <= |ms| && AtPrefix(ms, start, db, n - 1)
    ensures var m := ms[n - 1];
            AtPrefix(ms, start, Db(m.up(db.schema), Some(RowsOf(db) + [Row(m.version, m.description, now)])), n)
  {
    var m := ms[n - 1];
    var rows := RowsOf(db) + [Row(m.version, m.description, now)];
    assert Versions(rows) == Versions(RowsOf(db)) + [m.version];
    assert ListVersions(ms)[..n] == ListVersions(ms)[..n - 1] + [m.version];
  }

  lemma RunStep<S>(ms: seq<Migration<S>>, start: S, p: nat, n: nat, dieAt: Option<nat>, q: Progress<S>,
                   present: seq<int>, now: int)
    requires DistinctVersions(ms) && 0 < n <= |ms| && p <= |ms| && present == ListVersions(ms)[..p]
    requires RunAt(ms, start, p, n - 1, dieAt, q)
    ensures RunAt(ms, start, p, n, dieAt, Stepped(q, ms[n - 1], present, dieAt == Some(n - 1), now))
  {
    PresentIff(ms, p, n - 1);
    ReportsGrow(ms, p, n);
    if !q.died && n - 1 >= p {
      PrefixGrows(ms, start, q.db, n, now);
    }
    hide AtPrefix, DistinctVersions, Reports;
  }

  ghost predicate IsRowOf<S>(row: Row, ms: seq<Migration<S>>, n: nat, present: seq<int>, now: int)
    requires n <= |ms|
  {
    exists k :: 0 <= k < n && ms[k].version !in present && row == Row(ms[k].version, ms[k].description, now)
  }

  /** A run only appends rows, each of a listed migration that was not recorded when it began, with its own
      description and the time of the run. */
  lemma {:induction false} RowsTell<S>(ms: seq<Migration<S>>, db: Db<S>, dieAt: Option<nat>, now: int, n: nat)
    requires n <= |ms|
    ensures var rows, found := RowsOf(Running(ms, db, dieAt, now, n).db), RowsOf(db);
            && found <= rows
            && forall i :: |found| <= i < |rows| ==> IsRowOf(rows[i], ms, n, Versions(found), now)
  {
    if n > 0 {
      RowsTell(ms, db, dieAt, now, n - 1);
      var found, before := RowsOf(db), RowsOf(Running(ms, db, dieAt, now, n - 1).db);
      var rows := RowsOf(Running(ms, db, dieAt, now, n).db);
      forall i | |found| <= i < |rows|
        ensures IsRowOf(rows[i], ms, n, Versions(found), now)
      {
        if i < |before| {
          assert rows[i] == before[i];
          var k :| 0 <= k < n - 1 && ms[k].version !in Versions(found)
            && before[i] == Row(ms[k].version, ms[k].description, now);
        } else {
          assert rows[i] == Row(ms[n - 1].version, ms[n - 1].description, now);
        }
      }
    }
  }

  /** Where a run from prefix p leaves the database. */
  function Reaches<S>(ms: seq<Migration<S>>, p: nat, dieAt: Option<nat>): nat {
    if dieAt.Some? && p <= dieAt.value < |ms| then dieAt.value else |ms|
  }

  /** The prefix recorded after the first n runs. */
  function PrefixAfter<S>(ms: seq<Migration<S>>, deaths: seq<Option<nat>>, n: nat): nat
    requires n <= |deaths|
  {
    if n == 0 then 0 else Reaches(ms, PrefixAfter(ms, deaths, n - 1), deaths[n - 1])
  }

  /** Main theorem: however many runs died wherever, the recorded versions are a prefix of the list
      and the schema is the fold of exactly those; the prefix never shrinks. */
  lemma {:induction false} CrashSafety<S>(ms: seq<Migration<S>>, start: S, deaths: seq<Option<nat>>, n: nat)
    requires DistinctVersions(ms) && n <= |deaths|
    ensures AtPrefix(ms, start, AfterRuns(ms, start, deaths, n), PrefixAfter(ms, deaths, n))
    ensures n > 0 ==> PrefixAfter(ms, deaths, n - 1) <= PrefixAfter(ms, deaths, n)
  {
    if n > 0 {
      CrashSafety(ms, start, deaths, n - 1);
      RunFromPrefix(ms, start, AfterRuns(ms, start, deaths, n - 1), PrefixAfter(ms, deaths, n - 1),
                    deaths[n - 1], n, |ms|);
    }
  }

  lemma {:induction false} CountReports<S>(ms: seq<Migration<S>>, p: nat, n: nat)
    requires p <= |ms| && n <= |ms|
    ensures CountOf(Reports(ms, p, n), Skipped) == if n <= p then n else p
    ensures CountOf(Reports(ms, p, n), Applied) == if n <= p then 0 else n - p
  {
    if n > 0 {
      CountReports(ms, p, n - 1);
      assert Reports(ms, p, n)[..n - 1] == Reports(ms, p, n - 1);
    }
  }

  lemma {:induction false} NothingPending<S>(ms: seq<Migration<S>>, present: seq<int>)
    requires forall i :: 0 <= i < |ms| ==> ms[i].version in present
    ensures Pending(ms, present) == []
  {
    if ms != [] {
      NothingPending(ms[..|ms| - 1], present);
    }
  }

  /** A run that completes, after any history of dead runs, reaches the one-shot schema, leaves
      nothing pending, and reports every migration once: the recorded prefix skipped, the rest applied. */
  lemma CompletedRun<S>(ms: seq<Migration<S>>, start: S, deaths: seq<Option<nat>>, n: nat)
    requires DistinctVersions(ms) && 0 < n <= |deaths|
    requires !Running(ms, AfterRuns(ms, start, deaths, n - 1), deaths[n - 1], n, |ms|).died
    ensures var db := AfterRuns(ms, start, deaths, n);
            var results := Running(ms, AfterRuns(ms, start, deaths, n - 1), deaths[n - 1], n, |ms|).results;
            && db.schema == Fold(ms, start, |ms|)
            && db.schema == Running(ms, Db(start, None), None, n, |ms|).db.schema
            && Pending(ms, Versions(RowsOf(db))) == []
            && CountOf(results, Skipped) == PrefixAfter(ms, deaths, n - 1)
            && CountOf(results, Applied) + CountOf(results, Skipped) == |ms|
  {
    hide Running, CountOf, Pending, Fold, AtPrefix, DistinctVersions;
    CrashSafety(ms, start, deaths, n - 1);
    var before, p := AfterRuns(ms, start, deaths, n - 1), PrefixAfter(ms, deaths, n - 1);
    RunFromPrefix(ms, start, before, p, deaths[n - 1], n, |ms|);
    CompletedFromPrefix(ms, start, p, deaths[n - 1], Running(ms, before, deaths[n - 1], n, |ms|));
    EmptyIsPrefix(ms, start);
    RunFromPrefix(ms, start, Db(start, None), 0, None, n, |ms|);
    CompletedFromPrefix(ms, start, 0, None, Running(ms, Db(start, None), None, n, |ms|));
  }

  lemma EmptyIsPrefix<S>(ms: seq<Migration<S>>, start: S)
    ensures AtPrefix(ms, start, Db(start, None), 0)
  {
  }

  lemma CompletedFromPrefix<S>(ms: seq<Migration<S>>, start: S, p: nat, dieAt: Option<nat>, q: Progress<S>)
    requires p <= |ms| && RunAt(ms, start, p, |ms|, dieAt, q) && !q.died
    ensures q.db.schema == Fold(ms, start, |ms|)
    ensures Pending(ms, Versions(RowsOf(q.db))) == []
    ensures CountOf(q.results, Skipped) == p && CountOf(q.results, Applied) == |ms| - p
  {
    CountReports(ms, p, |ms|);
    var vs := Versions(RowsOf(q.db));
    assert vs == ListVersions(ms);
    forall i | 0 <= i < |ms|
      ensures ms[i].version in vs
    {
      assert vs[i] == ms[i].version;
    }
    NothingPending(ms, vs);
  }

  /** How many of the first n runs committed migration i. */
  function Commits<S>(ms: seq<Migration<S>>, start: S, deaths: seq<Option<nat>>, n: nat, i: nat): nat
    requires n <= |deaths| && i < |ms|
  {
    if n == 0 then 0
    else Commits(ms, start, deaths, n - 1, i)
         + if Result(ms[i].version, Applied)
             in Running(ms, AfterRuns(ms, start, deaths, n - 1), deaths[n - 1], n, |ms|).results
           then 1 else 0
  }

  /** Each `up` is committed exactly once overall iff it is in the recorded prefix, else never. */
  lemma {:induction false} CommittedOnce<S>(ms: seq<Migration<S>>, start: S, deaths: seq<Option<nat>>, n: nat, i: nat)
    requires DistinctVersions(ms) && n <= |deaths| && i < |ms|
    ensures Commits(ms, start, deaths, n, i) == if i < PrefixAfter(ms, deaths, n) then 1 else 0
  {
    hide Running, AtPrefix, Reports, DistinctVersions;
    if n > 0 {
      CommittedOnce(ms, start, deaths, n - 1, i);
      CrashSafety(ms, start, deaths, n - 1);
      var p := PrefixAfter(ms, deaths, n - 1);
      RunFromPrefix(ms, start, AfterRuns(ms, start, deaths, n - 1), p, deaths[n - 1], n, |ms|);
      ReportedIff(ms, p, Reaches(ms, p, deaths[n - 1]), i);
    }
  }

  lemma ReportedIff<S>(ms: seq<Migration<S>>, p: nat, n: nat, i: nat)
    requires DistinctVersions(ms) && n <= |ms| && i < |ms|
    ensures Result(ms[i].version, Applied) in Reports(ms, p, n) <==> p <= i < n
  {
    if p <= i < n {
      assert Reports(ms, p, n)[i] == Result(ms[i].version, Applied);
    }
  }

  // ---- Renumbering on every open ----

  /** Versions 31..35 were once the numbers of what are now 17..21. */
  predicate Legacy(v: int) {
    31 <= v <= 35
  }

  function Canonical(v: int): int {
    if Legacy(v) then v - 14 else v
  }

  function Renumbered(row: Row): Row {
    row.(version := Canonical(row.version))
  }

  /** Some legacy row and its canonical target both exist. */
  predicate Ambiguous(vs: seq<int>) {
    exists v :: v in vs && Legacy(v) && Canonical(v) in vs
  }

  /** UPDATE schema_migrations SET version = after WHERE version = before. */
  function UpdatedVersion(rows: seq<Row>, before: int, after: int): seq<Row> {
    seq(|rows|, i requires 0 <= i < |rows| => if rows[i].version == before then rows[i].(version := after) else rows[i])
  }

  function Reconciled<S>(db: Db<S>): Db<S> {
    if db.rows.None? then db
    else var rows := db.rows.value;
      db.(rows := Some(seq(|rows|, i requires 0 <= i < |rows| => Renumbered(rows[i]))))
  }

  function Opened<S>(ms: seq<Migration<S>>, db: Db<S>, dieAt: Option<nat>, now: int): (Db<S>, bool) {
    if Ambiguous(Versions(RowsOf(db))) then (db, false)
    else var p := Running(ms, Reconciled(db), dieAt, now, |ms|); (p.db, !p.died)
  }

  /** Renumbering an unambiguous table keeps its rows and their distinctness, and is idempotent. */
  lemma ReconcileKeepsRows<S>(db: Db<S>)
    requires db.rows.Some? && !Ambiguous(Versions(db.rows.value))
    requires forall i, j :: 0 <= i < j < |db.rows.value| ==> db.rows.value[i].version != db.rows.value[j].version
    ensures var rows, after := db.rows.value, RowsOf(Reconciled(db));
            && |after| == |rows|
            && (forall i :: 0 <= i < |rows| ==> after[i] == rows[i].(version := Canonical(rows[i].version)))
            && (forall i, j :: 0 <= i < j < |after| ==> after[i].version != after[j].version)
            && !Ambiguous(Versions(after)) && Reconciled(Reconciled(db)) == Reconciled(db)
  {
    var rows, after := db.rows.value, RowsOf(Reconciled(db));
    forall i, j | 0 <= i < j < |after|
      ensures after[i].version != after[j].version
    {
      assert Versions(rows)[i] in Versions(rows) && Versions(rows)[j] in Versions(rows);
    }
    forall i | 0 <= i < |after|
      ensures !Legacy(after[i].version)
    {
    }
    assert RowsOf(Reconciled(Reconciled(db))) == after;
  }

  /** A database that records every listed version, under its old number or its new one, is taken
      over without running anything: opening changes no more than the numbers. */
  lemma TakenOverWithoutRunning<S>(ms: seq<Migration<S>>, db: Db<S>, dieAt: Option<nat>, now: int)
    requires db.rows.Some? && !Ambiguous(Versions(db.rows.value))
    requires forall i :: 0 <= i < |ms| ==>
      exists j :: 0 <= j < |db.rows.value| && Canonical(db.rows.value[j].version) == ms[i].version
    ensures Opened(ms, db, dieAt, now) == (Reconciled(db), true)
  {
    var vs := Versions(RowsOf(Reconciled(db)));
    forall i | 0 <= i < |ms|
      ensures ms[i].version in vs
    {
      var j :| 0 <= j < |db.rows.value| && Canonical(db.rows.value[j].version) == ms[i].version;
      assert vs[j] == ms[i].version;
    }
    AllPresent(ms, Reconciled(db), dieAt, now, |ms|);
  }

  lemma {:induction false} AllPresent<S>(ms: seq<Migration<S>>, db: Db<S>, dieAt: Option<nat>, now: int, n: nat)
    requires n <= |ms| && db.rows.Some? && forall i :: 0 <= i < |ms| ==> ms[i].version in Versions(RowsOf(db))
    ensures Running(ms, db, dieAt, now, n).db == db && !Running(ms, db, dieAt, now, n).died
  {
    if n > 0 {
      AllPresent(ms, db, dieAt, now, n - 1);
    }
  }

  /** The database after the first n opens, each of which may die; the process always opens. */
  function AfterOpens<S>(ms: seq<Migration<S>>, start: S, deaths: seq<Option<nat>>, n: nat): Db<S>
    requires n <= |deaths|
  {
    if n == 0 then Db(start, None)
    else Opened(ms, AfterOpens(ms, start, deaths, n - 1), deaths[n - 1], n).0
  }

  /** For a list without legacy numbers opening is running, whatever died before, so the crash-safety
      theorems speak of the process as it starts. */
  lemma {:induction false} OpensAreRuns<S>(ms: seq<Migration<S>>, start: S, deaths: seq<Option<nat>>, n: nat)
    requires DistinctVersions(ms) && n <= |deaths|
    requires forall i :: 0 <= i < |ms| ==> !Legacy(ms[i].version)
    ensures AfterOpens(ms, start, deaths, n) == AfterRuns(ms, start, deaths, n)
    ensures AtPrefix(ms, start, AfterOpens(ms, start, deaths, n), PrefixAfter(ms, deaths, n))
    ensures n > 0 ==> Opened(ms, AfterOpens(ms, start, deaths, n - 1), deaths[n - 1], n).1
                      == !Running(ms, AfterRuns(ms, start, deaths, n - 1), deaths[n - 1], n, |ms|).died
  {
    hide AtPrefix, Running, Opened, PrefixAfter;
    CrashSafety(ms, start, deaths, n);
    if n > 0 {
      OpensAreRuns(ms, start, deaths, n - 1);
      OpenIsRun(ms, start, AfterRuns(ms, start, deaths, n - 1), PrefixAfter(ms, deaths, n - 1), deaths[n - 1], n);
    }
  }

  lemma OpenIsRun<S>(ms: seq<Migration<S>>, start: S, db: Db<S>, p: nat, dieAt: Option<nat>, now: int)
    requires AtPrefix(ms, start, db, p) && forall i :: 0 <= i < |ms| ==> !Legacy(ms[i].version)
    ensures var run := Running(ms, db, dieAt, now, |ms|);
            Opened(ms, db, dieAt, now) == (run.db, !run.died)
  {
    hide AtPrefix, Running, Reconciled, Ambiguous;
    NothingToReconcile(ms, start, db, p);
  }

  lemma NothingLegacy<S>(db: Db<S>)
    requires forall i :: 0 <= i < |RowsOf(db)| ==> !Legacy(RowsOf(db)[i].version)
    ensures !Ambiguous(Versions(RowsOf(db))) && Reconciled(db) == db
  {
    if db.rows.Some? {
      forall i | 0 <= i < |db.rows.value|
        ensures Renumbered(db.rows.value[i]) == db.rows.value[i]
      {
        assert !Legacy(RowsOf(db)[i].version);
      }
      assert RowsOf(Reconciled(db)) == db.rows.value;
    }
  }

  lemma NothingToReconcile<S>(ms: seq<Migration<S>>, start: S, db: Db<S>, p: nat)
    requires AtPrefix(ms, start, db, p) && forall i :: 0 <= i < |ms| ==> !Legacy(ms[i].version)
    ensures !Ambiguous(Versions(RowsOf(db))) && Reconciled(db) == db
  {
    var vs := Versions(RowsOf(db));
    forall i | 0 <= i < |vs|
      ensures !Legacy(RowsOf(db)[i].version)
    {
      assert vs[i] == ListVersions(ms)[i] == ms[i].version;
    }
    NothingLegacy(db);
  }

  /** Opening is meant to be safe on every start. After a first open that completed, the next open
      leaves the database as it is iff no listed version is a legacy number, and fails outright
      iff the list holds a legacy number together with its canonical one. */
  lemma ReopenIff<S>(ms: seq<Migration<S>>, start: S, now: int)
    requires DistinctVersions(ms)
    ensures var db := Opened(ms, Db(start, None), None, now).0;
            && Opened(ms, Db(start, None), None, now).1
            && ((Opened(ms, db, None, now + 1).1 && Opened(ms, db, None, now + 1).0 == db)
                  <==> forall i :: 0 <= i < |ms| ==> !Legacy(ms[i].version))
            && (!Opened(ms, db, None, now + 1).1 <==> Ambiguous(ListVersions(ms)))
  {
    var empty := Db(start, None);
    var db := Opened(ms, empty, None, now).0;
    RunFromPrefix(ms, start, empty, 0, None, now, |ms|);
    var vs := Versions(RowsOf(db));
    assert vs == ListVersions(ms);
    if !Ambiguous(vs) {
      RunCompletes(ms, Reconciled(db), now + 1, |ms|);
    }
    if forall i :: 0 <= i < |ms| ==> !Legacy(ms[i].version) {
      assert RowsOf(Reconciled(db)) == RowsOf(db) by {
        forall i | 0 <= i < |RowsOf(db)|
          ensures Renumbered(RowsOf(db)[i]) == RowsOf(db)[i]
        {
          assert vs[i] == ms[i].version;
        }
      }
      RunFromPrefix(ms, start, db, |ms|, None, now + 1, |ms|);
      forall i | 0 <= i < |ms|
        ensures ms[i].version in vs
      {
        assert vs[i] == ms[i].version;
      }
      AllPresent(ms, db, None, now + 1, |ms|);
    } else if !Ambiguous(vs) {
      var i :| 0 <= i < |ms| && Legacy(ms[i].version);
      RowsOnlyGrow(ms, Reconciled(db), None, now + 1, |ms|);
      assert RowsOf(db)[i].version == vs[i] == ms[i].version;
      assert RowsOf(Reconciled(db))[i].version == Canonical(ms[i].version) != ms[i].version;
    }
  }

  lemma {:induction false} RunCompletes<S>(ms: seq<Migration<S>>, db: Db<S>, now: int, n: nat)
    requires n <= |ms|
    ensures !Running(ms, db, None, now, n).died
  {
    if n > 0 {
      RunCompletes(ms, db, now, n - 1);
    }
  }

  lemma {:induction false} RowsOnlyGrow<S>(ms: seq<Migration<S>>, db: Db<S>, dieAt: Option<nat>, now: int, n: nat)
    requires n <= |ms|
    ensures RowsOf(db) <= RowsOf(Running(ms, db, dieAt, now, n).db)
  {
    if n > 0 {
      RowsOnlyGrow(ms, db, dieAt, now, n - 1);
    }
  }

  /** The shipped list runs from 1 to 32, so it contains 17 and 31: a database it has fully
      migrated can never be opened again. */
  lemma ShippedListCannotReopen<S>(ms: seq<Migration<S>>, start: S, now: int)
    requires Shipped(ms)
    ensures var db := Opened(ms, Db(start, None), None, now).0;
            Opened(ms, db, None, now + 1) == (db, false)
  {
    EmptyIsPrefix(ms, start);
    ShippedPrefixOpensIff(ms, start, Db(start, None), 0, None, now);
    ShippedPrefixOpensIff(ms, start, Opened(ms, Db(start, None), None, now).0, 32, None, now + 1);
  }

  /** The versions of the shipped list. */
  ghost predicate Shipped<S>(ms: seq<Migration<S>>) {
    |ms| == 32 && forall i :: 0 <= i < 32 ==> ms[i].version == i + 1
  }

  /** A database that records the first p versions of the shipped list opens iff 31 is not among them:
      the renumbering finds nothing to do until then, and an ambiguous pair from then on. */
  lemma ShippedPrefixOpensIff<S>(ms: seq<Migration<S>>, start: S, db: Db<S>, p: nat, dieAt: Option<nat>, now: int)
    requires Shipped(ms) && AtPrefix(ms, start, db, p)
    ensures p <= 30 ==> Opened(ms, db, dieAt, now).0 == Running(ms, db, dieAt, now, 32).db
    ensures p <= 30 ==> AtPrefix(ms, start, Opened(ms, db, dieAt, now).0, Reaches(ms, p, dieAt))
    ensures p <= 30 ==> (Opened(ms, db, dieAt, now).1 <==> Reaches(ms, p, dieAt) == 32)
    ensures p > 30 ==> Opened(ms, db, dieAt, now) == (db, false)
  {
    var vs := Versions(RowsOf(db));
    assert vs == ListVersions(ms)[..p];
    if p > 30 {
      assert vs[30] == 31 && vs[16] == 17;
      assert 31 in vs && Legacy(31) && Canonical(31) in vs;
    } else {
      forall i | 0 <= i < p
        ensures vs[i] == i + 1
      {
        assert vs[i] == ListVersions(ms)[i] == ms[i].version;
      }
      NothingLegacy(db);
      RunFromPrefix(ms, start, db, p, dieAt, now, 32);
    }
  }

  /** A first open of that list that died at migration d can be resumed iff it died no later than
      version 31 itself. */
  lemma ShippedListResumesIff<S>(ms: seq<Migration<S>>, start: S, d: nat, now: int)
    requires Shipped(ms) && d < 32
    ensures var db := Opened(ms, Db(start, None), Some(d), now).0;
            Opened(ms, db, None, now + 1).1 <==> d <= 30
  {
    var db := Opened(ms, Db(start, None), Some(d), now).0;
    EmptyIsPrefix(ms, start);
    ShippedPrefixOpensIff(ms, start, Db(start, None), 0, Some(d), now);
    ShippedPrefixOpensIff(ms, start, db, d, None, now + 1);
  }

  /** A database as the renumbering expects it: 1 to 16 under their numbers, and what are now 17 to 21
      recorded as 31 to 35. */
  ghost predicate FoundOld<S>(ms: seq<Migration<S>>, start: S, db: Db<S>) {
    && db.rows.Some? && |db.rows.value| == 21 && |ms| >= 21
    && (forall i :: 0 <= i < 16 ==> db.rows.value[i].version == i + 1)
    && (forall i :: 16 <= i < 21 ==> db.rows.value[i].version == i + 15)
    && db.schema == Fold(ms, start, 21)
  }

  /** What opens do to it under the shipped list. The first renumbers and runs 22 onwards without
      repeating 17 to 21, so it reaches the one-shot schema if nothing dies; but it thereby records 31
      beside 17, so the next open succeeds only if the first died before that. */
  lemma OldDatabaseOpensOnce<S>(ms: seq<Migration<S>>, start: S, db: Db<S>, dieAt: Option<nat>, now: int)
    requires Shipped(ms) && FoundOld(ms, start, db)
    ensures var (after, ok) := Opened(ms, db, dieAt, now);
            && AtPrefix(ms, start, after, Reaches(ms, 21, dieAt))
            && (ok <==> Reaches(ms, 21, dieAt) == 32)
            && (ok ==> after.schema == Fold(ms, start, 32))
            && (Opened(ms, after, None, now + 1).1 <==> Reaches(ms, 21, dieAt) <= 30)
            && (Reaches(ms, 21, dieAt) > 30 ==> Opened(ms, after, None, now + 1) == (after, false))
  {
    var rows, renumbered := db.rows.value, Reconciled(db);
    forall v | v in Versions(rows) && Legacy(v)
      ensures Canonical(v) !in Versions(rows)
    {
    }
    assert Versions(RowsOf(renumbered)) == ListVersions(ms)[..21];
    assert AtPrefix(ms, start, renumbered, 21);
    OpensAsRenumbered(ms, start, db, dieAt, now);
    ShippedPrefixOpensIff(ms, start, renumbered, 21, dieAt, now);
    var after := Opened(ms, db, dieAt, now).0;
    hide Opened, AtPrefix, Running, Reconciled;
    ShippedPrefixOpensIff(ms, start, after, Reaches(ms, 21, dieAt), None, now + 1);
  }

  /** Opening an unambiguous database is opening it renumbered. */
  lemma OpensAsRenumbered<S>(ms: seq<Migration<S>>, start: S, db: Db<S>, dieAt: Option<nat>, now: int)
    requires db.rows.Some? && !Ambiguous(Versions(db.rows.value))
    ensures Opened(ms, db, dieAt, now) == Opened(ms, Reconciled(db), dieAt, now)
  {
    var renumbered := Reconciled(db);
    forall i | 0 <= i < |RowsOf(renumbered)|
      ensures !Legacy(RowsOf(renumbered)[i].version)
    {
    }
    NothingLegacy(renumbered);
  }
}
