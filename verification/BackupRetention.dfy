/** Filesystem backups of src/db/replication.ts: copies, prunes that list first and unlink one
  file at a time, and the failover target they must never lose. */
module BackupRetention {
  import opened Common

  // ---- File names and their order ----

  /** Lexicographic order on names. */
  predicate Less(a: string, b: string) {
    if b == "" then false
    else if a == "" then true
    else a[0] < b[0] || (a[0] == b[0] && Less(a[1..], b[1..]))
  }

  predicate IsBackup(name: string) {
    |name| >= 3 && name[|name| - 3..] == ".db"
  }

  lemma {:induction false} LessIsTotal(a: string, b: string)
    ensures Less(a, b) || Less(b, a) || a == b
    ensures !(Less(a, b) && Less(b, a)) && (a == b ==> !Less(a, b))
  {
    if a != "" && b != "" {
      LessIsTotal(a[1..], b[1..]);
      assert a == [a[0]] + a[1..] && b == [b[0]] + b[1..];
    }
  }

  lemma {:induction false} LessIsTransitive(a: string, b: string, c: string)
    requires Less(a, b) && Less(b, c)
    ensures Less(a, c)
  {
    if a != "" && a[0] == b[0] == c[0] {
      LessIsTransitive(a[1..], b[1..], c[1..]);
    }
  }

  /** Where two names first differ, a has the lesser character. */
  predicate Differs(a: string, b: string, i: nat) {
    i < |a| && i < |b| && a[..i] == b[..i] && a[i] < b[i]
  }

  lemma {:induction false} LessDiffers(a: string, b: string) returns (i: nat)
    requires Less(a, b) && !(a <= b)
    ensures Differs(a, b, i)
  {
    if a[0] < b[0] {
      i := 0;
    } else {
      var j := LessDiffers(a[1..], b[1..]);
      i := j + 1;
      assert a[..i] == [a[0]] + a[1..][..j] && b[..i] == [b[0]] + b[1..][..j];
    }
  }

  /** The order is decided by the first character that differs, and a name comes before what extends it. */
  lemma LessIff(a: string, b: string)
    ensures Less(a, b) <==> (|a| < |b| && a <= b) || exists i: nat :: Differs(a, b, i)
  {
    hide Less, Differs;
    LessIsTotal(a, b);
    if Less(a, b) && !(a <= b) {
      var i := LessDiffers(a, b);
    }
    if |a| < |b| && a <= b {
      PrefixIsLess(a, b);
    }
    if i: nat :| Differs(a, b, i) {
      DiffersIsLess(a, b, i);
    }
  }

  lemma PrefixIsLess(a: string, b: string)
    requires |a| < |b| && a <= b
    ensures Less(a, b)
  {
    LessAfter(a, "", b[|a|..]);
    assert a == a + "" && b == a + b[|a|..];
  }

  lemma DiffersIsLess(a: string, b: string, i: nat)
    requires Differs(a, b, i)
    ensures Less(a, b)
  {
    assert Less(a[i..], b[i..]);
    hide Less;
    LessAfter(a[..i], a[i..], b[i..]);
    assert a == a[..i] + a[i..] && b == a[..i] + b[i..];
  }

  // ---- Names carry the time they were taken ----

  const DIGITS := "0123456789"

  /** n in decimal, on `width` places. */
  function Digits(n: nat, width: nat): (s: string)
    ensures |s| == width
  {
    if width == 0 then "" else Digits(n / 10, width - 1) + [DIGITS[n % 10]]
  }

  function Ten(width: nat): nat {
    if width == 0 then 1 else 10 * Ten(width - 1)
  }

  /** The places of year, month, day, hour, minute, second and millisecond in a name, and what follows
      each: an ISO timestamp with its colons and its point replaced. */
  const WIDTHS := [4, 2, 2, 2, 2, 2, 3]

  const MARKS := "--T---Z"

  /** A time, by those seven numbers. */
  ghost predicate IsTime(t: seq<nat>) {
    |t| == 7 && forall i :: 0 <= i < 7 ==> t[i] < Ten(WIDTHS[i])
  }

  function Stamp(t: seq<nat>, i: nat): string
    requires |t| == 7 && i <= 7
    decreases 7 - i
  {
    if i == 7 then "" else Digits(t[i], WIDTHS[i]) + [MARKS[i]] + Stamp(t, i + 1)
  }

  /** The backup was named at time t; a random part and the extension follow. */
  ghost predicate TakenAt(name: string, t: seq<nat>) {
    IsTime(t) && Stamp(t, 0) <= name
  }

  /** A file named by the backup cycle is a backup, taken at its time. */
  lemma CycleNamesBackups(t: seq<nat>, random: string)
    requires IsTime(t)
    ensures var name := Stamp(t, 0) + "_" + random + ".db"; IsBackup(name) && TakenAt(name, t)
  {
    hide Stamp;
  }

  ghost predicate Earlier(t: seq<nat>, u: seq<nat>)
    requires IsTime(t) && IsTime(u)
  {
    exists i :: 0 <= i < 7 && t[..i] == u[..i] && t[i] < u[i]
  }

  lemma {:induction false} LessBefore(a: string, b: string, s: string, t: string)
    requires |a| == |b| && Less(a, b)
    ensures Less(a + s, b + t)
  {
    assert (a + s)[1..] == a[1..] + s && (b + t)[1..] == b[1..] + t;
    if a[0] == b[0] {
      LessBefore(a[1..], b[1..], s, t);
    }
  }

  lemma {:induction false} LessAfter(p: string, s: string, t: string)
    requires Less(s, t)
    ensures Less(p + s, p + t)
  {
    if p == "" {
      assert p + s == s && p + t == t;
    } else {
      assert (p + s)[1..] == p[1..] + s && (p + t)[1..] == p[1..] + t;
      LessAfter(p[1..], s, t);
    }
  }

  lemma {:induction false} DigitsAreOrdered(m: nat, n: nat, width: nat)
    requires m < n < Ten(width)
    ensures Less(Digits(m, width), Digits(n, width))
  {
    var p, q := Digits(m / 10, width - 1), Digits(n / 10, width - 1);
    if m / 10 < n / 10 {
      DigitsAreOrdered(m / 10, n / 10, width - 1);
      LessBefore(p, q, [DIGITS[m % 10]], [DIGITS[n % 10]]);
    } else {
      LessAfter(p, [DIGITS[m % 10]], [DIGITS[n % 10]]);
    }
  }

  /** From the first number that differs on, the stamps differ in the same way. */
  lemma {:induction false} StampsAreOrdered(t: seq<nat>, u: seq<nat>, i: nat, d: nat, r: string, s: string)
    requires IsTime(t) && IsTime(u) && i <= d < 7 && t[d] < u[d] && forall j :: i <= j < d ==> t[j] == u[j]
    ensures Less(Stamp(t, i) + r, Stamp(u, i) + s)
    decreases d - i
  {
    hide Stamp, Digits, Less, Ten;
    var a, b := Digits(t[i], WIDTHS[i]), Digits(u[i], WIDTHS[i]);
    var x, y := Stamp(t, i + 1) + r, Stamp(u, i + 1) + s;
    StampStep(t, i, r);
    StampStep(u, i, s);
    if i == d {
      DigitsAreOrdered(t[i], u[i], WIDTHS[i]);
      LessBefore(a, b, [MARKS[i]] + x, [MARKS[i]] + y);
    } else {
      StampsAreOrdered(t, u, i + 1, d, r, s);
      LessAfter([MARKS[i]], x, y);
      LessAfter(a, [MARKS[i]] + x, [MARKS[i]] + y);
    }
  }

  lemma StampStep(t: seq<nat>, i: nat, r: string)
    requires |t| == 7 && i < 7
    ensures Stamp(t, i) + r == Digits(t[i], WIDTHS[i]) + ([MARKS[i]] + (Stamp(t, i + 1) + r))
  {
    hide Digits;
  }

  /** Lexicographic is chronological: of two backups the one taken earlier has the lesser name. */
  lemma EarlierIsLess(f: string, g: string, t: seq<nat>, u: seq<nat>)
    requires TakenAt(f, t) && TakenAt(g, u) && Earlier(t, u)
    ensures Less(f, g)
  {
    hide Stamp, Less, Ten;
    var d :| 0 <= d < 7 && t[..d] == u[..d] && t[d] < u[d];
    forall j | 0 <= j < d
      ensures t[j] == u[j]
    {
      assert t[..d][j] == u[..d][j];
    }
    var a, b := Stamp(t, 0), Stamp(u, 0);
    StampsAreOrdered(t, u, 0, d, f[|a|..], g[|b|..]);
    assert f == a + f[|a|..] && g == b + g[|b|..];
  }

  /** A backup is what ends in ".db". */
  lemma IsBackupIff(name: string)
    ensures IsBackup(name) <==> exists stem: string :: stem + ".db" == name
  {
    if IsBackup(name) {
      assert name[..|name| - 3] + ".db" == name;
    }
  }

  lemma TwoPlaces(n: nat)
    ensures Digits(n, 2) == [DIGITS[n / 10 % 10], DIGITS[n % 10]]
  {
    assert Digits(n / 10, 1) == [DIGITS[n / 10 % 10]];
  }

  lemma ThreePlaces(n: nat)
    ensures Digits(n, 3) == [DIGITS[n / 10 / 10 % 10], DIGITS[n / 10 % 10], DIGITS[n % 10]]
  {
    TwoPlaces(n / 10);
  }

  lemma FourPlaces(n: nat)
    ensures Digits(n, 4)
         == [DIGITS[n / 10 / 10 / 10 % 10], DIGITS[n / 10 / 10 % 10], DIGITS[n / 10 % 10], DIGITS[n % 10]]
  {
    ThreePlaces(n / 10);
  }

  /** The shape of a name: year-month-dayThour-minute-second-millisecondZ, each on its places. */
  lemma StampShape(y: nat, mo: nat, d: nat, h: nat, mi: nat, s: nat, ms: nat)
    ensures var clock :=
                Digits(h, 2) + ("-" + (Digits(mi, 2) + ("-" + (Digits(s, 2) + ("-" + (Digits(ms, 3) + "Z"))))));
            Stamp([y, mo, d, h, mi, s, ms], 0)
              == Digits(y, 4) + ("-" + (Digits(mo, 2) + ("-" + (Digits(d, 2) + ("T" + clock)))))
  {
    hide Stamp, Digits;
    var t := [y, mo, d, h, mi, s, ms];
    StampEnds(t);
    StampFrom(t, 6);
    StampFrom(t, 5);
    StampFrom(t, 4);
    StampFrom(t, 3);
    StampFrom(t, 2);
    StampFrom(t, 1);
    StampFrom(t, 0);
    assert "Z" + "" == "Z";
  }

  lemma StampFrom(t: seq<nat>, i: nat)
    requires |t| == 7 && i < 7
    ensures Stamp(t, i) == Digits(t[i], WIDTHS[i]) + ([MARKS[i]] + Stamp(t, i + 1))
  {
    hide Digits;
  }

  lemma StampEnds(t: seq<nat>)
    requires |t| == 7
    ensures Stamp(t, 7) == ""
  {
  }

  /** Decimal, with leading zeros. */
  lemma DigitsExamples()
    ensures Digits(2025, 4) == "2025" && Digits(7, 2) == "07" && Digits(78, 3) == "078"
  {
    FourPlaces(2025);
    TwoPlaces(7);
    ThreePlaces(78);
  }

  function Backups(files: set<string>): set<string> {
    set f | f in files && IsBackup(f)
  }

  function Above(names: set<string>, f: string): set<string> {
    set g | g in names && Less(f, g)
  }

  /** What a prune plans to delete: every backup with at least k greater ones beside it. */
  function Surplus(names: set<string>, k: int): set<string> {
    if k <= 0 then {} else set f | f in names && |Above(names, f)| >= k
  }

  /** None of `names` was taken before any of `others`. */
  ghost predicate NoneEarlier(names: set<string>, others: set<string>) {
    forall f, g, t, u :: f in names && g in others && TakenAt(f, t) && TakenAt(g, u) ==> !Earlier(t, u)
  }

  /** What a prune spares was not taken before anything it plans to delete. */
  lemma PruneSparesLatest(names: set<string>, k: int, spared: set<string>, deleted: set<string>)
    requires spared <= names - Surplus(names, k) && deleted <= Surplus(names, k)
    ensures NoneEarlier(spared, deleted)
  {
    forall f, g, t, u | f in spared && g in deleted && TakenAt(f, t) && TakenAt(g, u)
      ensures !Earlier(t, u)
    {
      if Earlier(t, u) {
        EarlierIsLess(f, g, t, u);
        forall h | h in Above(names, g)
          ensures h in Above(names, f)
        {
          LessIsTransitive(f, g, h);
        }
        SubsetCard(Above(names, g), Above(names, f));
      }
    }
  }

  lemma GreatestIsLatest(names: set<string>, f: string)
    requires IsGreatest(names, f)
    ensures NoneEarlier({f}, names)
  {
    forall g, t, u | g in names && TakenAt(f, t) && TakenAt(g, u)
      ensures !Earlier(t, u)
    {
      if Earlier(t, u) {
        EarlierIsLess(f, g, t, u);
        LessIsTotal(f, g);
      }
    }
  }

  // ---- The directory ----

  ghost predicate Ascending(names: seq<string>) {
    forall i, j :: 0 <= i < j < |names| ==> Less(names[i], names[j])
  }

  function Names(names: seq<string>): set<string> {
    set n | n in names
  }

  function Inserted(names: seq<string>, x: string): seq<string> {
    if names == [] || Less(x, names[0]) then [x] + names else [names[0]] + Inserted(names[1..], x)
  }

  lemma {:induction false} InsertedFacts(names: seq<string>, x: string)
    requires Ascending(names) && x !in names
    ensures Ascending(Inserted(names, x)) && Names(Inserted(names, x)) == Names(names) + {x}
  {
    if names == [] {
    } else if Less(x, names[0]) {
      forall j | 0 <= j < |names|
        ensures Less(x, names[j])
      {
        if j > 0 {
          LessIsTransitive(x, names[0], names[j]);
        }
      }
    } else {
      LessIsTotal(x, names[0]);
      InsertedFacts(names[1..], x);
      var rest := Inserted(names[1..], x);
      assert names == [names[0]] + names[1..];
      assert Names(names) == {names[0]} + Names(names[1..]);
      forall j | 0 <= j < |rest|
        ensures Less(names[0], rest[j])
      {
        assert rest[j] in Names(rest);
        if rest[j] != x {
          var i :| 0 <= i < |names| - 1 && names[1..][i] == rest[j];
          assert names[i + 1] == rest[j];
        }
      }
      assert Names([names[0]] + rest) == {names[0]} + Names(rest);
    }
  }

  class BackupDirectory {
    var files: set<string>

    constructor ()
      ensures files == {}
    {
      files := {};
    }

    method CopyFile(name: string)
      modifies this
      ensures files == old(files) + {name}
    {
      files := files + {name};
    }

    method ListSorted() returns (names: seq<string>)
      ensures Ascending(names) && Names(names) == Backups(files)
    {
      names := [];
      var todo := Backups(files);
      while todo != {}
        invariant todo <= Backups(files)
        invariant Ascending(names) && Names(names) == Backups(files) - todo
      {
        var x :| x in todo;
        assert x !in Names(names);
        InsertedFacts(names, x);
        names := Inserted(names, x);
        todo := todo - {x};
      }
    }

    /** A prune with nothing in between: exactly the newest k backups remain, and whatever older ones
        could not be unlinked; those are counted as deleted all the same. */
    method PruneFilesystemBackups(retentionCount: int, stuck: set<string>) returns (deleted: nat)
      modifies this
      ensures files == old(files) - (Surplus(Backups(old(files)), retentionCount) - stuck)
      ensures deleted == |Surplus(Backups(old(files)), retentionCount)|
      ensures NoneEarlier(Backups(files) - stuck, Backups(old(files)) - Backups(files))
      ensures retentionCount >= 1 && stuck == {} ==>
        |Backups(files)| == if |Backups(old(files))| < retentionCount then |Backups(old(files))| else retentionCount
    {
      if retentionCount <= 0 {
        return 0;
      }
      var names := ListSorted();
      var n := if |names| > retentionCount then |names| - retentionCount else 0;
      ghost var listed := Backups(files);
      SliceIsSurplus(names, listed, retentionCount);
      for i := 0 to n
        invariant files == old(files) - (Names(names[..i]) - stuck)
      {
        if names[i] !in stuck {
          files := files - {names[i]};
        }
        assert names[..i + 1] == names[..i] + [names[i]];
      }
      deleted := n;
      AscendingCount(names);
      AscendingCount(names[..n]);
      assert stuck == {} ==> Backups(files) == listed - Surplus(listed, retentionCount);
      hide NoneEarlier, Surplus;
      PruneSparesLatest(listed, retentionCount, Backups(files) - stuck, Backups(old(files)) - Backups(files));
    }

    method FindLatestFilesystemBackup() returns (latest: Option<string>)
      ensures latest == None <==> Backups(files) == {}
      ensures latest.Some? ==> IsGreatest(Backups(files), latest.value)
      ensures latest.Some? ==> NoneEarlier({latest.value}, Backups(files))
    {
      var names := ListSorted();
      if names == [] {
        return None;
      }
      latest := Some(names[|names| - 1]);
      assert latest.value in Names(names);
      forall g | g in Backups(files)
        ensures g == latest.value || Less(g, latest.value)
      {
        assert g in Names(names);
        var i :| 0 <= i < |names| && names[i] == g;
      }
      GreatestIsLatest(Backups(files), latest.value);
    }
  }

  ghost predicate IsGreatest(names: set<string>, f: string) {
    f in names && forall g :: g in names ==> g == f || Less(g, f)
  }

  lemma {:induction false} AscendingCount(names: seq<string>)
    requires Ascending(names)
    ensures |Names(names)| == |names|
  {
    if names != [] {
      var init, last := names[..|names| - 1], names[|names| - 1];
      AscendingCount(init);
      forall i | 0 <= i < |init|
        ensures init[i] != last
      {
        LessIsTotal(init[i], last);
      }
      assert names == init + [last];
      assert Names(names) == Names(init) + {last};
    }
  }

  /** In ascending order the names above position i are those after it. */
  lemma AboveIsSuffix(names: seq<string>, i: nat)
    requires Ascending(names) && i < |names|
    ensures Above(Names(names), names[i]) == Names(names[i + 1..])
    ensures |Above(Names(names), names[i])| == |names| - i - 1
  {
    forall g | g in Above(Names(names), names[i])
      ensures g in Names(names[i + 1..])
    {
      var j :| 0 <= j < |names| && names[j] == g;
      LessIsTotal(names[i], names[j]);
      assert j > i;
      assert names[i + 1..][j - i - 1] == g;
    }
    forall g | g in Names(names[i + 1..])
      ensures g in Above(Names(names), names[i])
    {
      var j :| 0 <= j < |names| - i - 1 && names[i + 1..][j] == g;
      assert names[i + 1 + j] == g;
    }
    AscendingCount(names[i + 1..]);
  }

  /** The slice the code deletes is the surplus. */
  lemma SliceIsSurplus(names: seq<string>, listed: set<string>, k: int)
    requires Ascending(names) && Names(names) == listed && k >= 1
    ensures var n := if |names| > k then |names| - k else 0;
            Names(names[..n]) == Surplus(listed, k)
  {
    var n := if |names| > k then |names| - k else 0;
    forall f
      ensures f in Names(names[..n]) <==> f in Surplus(listed, k)
    {
      if f in Names(names[..n]) {
        var i :| 0 <= i < n && names[..n][i] == f;
        AboveIsSuffix(names, i);
      }
      if f in Surplus(listed, k) {
        var i :| 0 <= i < |names| && names[i] == f;
        AboveIsSuffix(names, i);
        assert names[..n][i] == f;
      }
    }
  }

  // ---- Any interleaving of copies and prunes ----

  /** `ever` holds every backup name that was ever in the directory; `planned` every name some prune
      has listed for deletion. */
  datatype State = State(files: set<string>, ever: set<string>, planned: set<string>)

  /** A prune is a `List` followed, in its own time, by unlinks of what it planned; an unlink may
      fail silently. Any number of prunes may be under way. */
  datatype Step = Copy(name: string) | List | Unlink(name: string, ok: bool)

  ghost predicate Enabled(s: State, step: Step) {
    match step
    case Copy(name) => IsBackup(name)
    case List => true
    case Unlink(name, _) => name in s.planned
  }

  function Next(s: State, k: int, step: Step): State {
    match step
    case Copy(name) => s.(files := s.files + {name}, ever := s.ever + {name})
    case List => s.(planned := s.planned + Surplus(Backups(s.files), k))
    case Unlink(name, ok) => if ok then s.(files := s.files - {name}) else s
  }

  function After(start: set<string>, k: int, steps: seq<Step>, n: nat): State
    requires n <= |steps|
  {
    if n == 0 then State(start, Backups(start), {}) else Next(After(start, k, steps, n - 1), k, steps[n - 1])
  }

  ghost predicate ValidRun(start: set<string>, k: int, steps: seq<Step>) {
    forall n :: 0 <= n < |steps| ==> Enabled(After(start, k, steps, n), steps[n])
  }

  /** The unlinks of one prune, in its order. */
  function Unlinks(order: seq<string>, stuck: set<string>): seq<Step> {
    Mapped(order, (name: string) => Unlink(name, name !in stuck))
  }

  /** A prune with nothing in between is such a run: a listing, then an unlink for each name it planned. */
  lemma {:induction false} PruneIsRun(start: set<string>, k: int, order: seq<string>, stuck: set<string>, n: nat)
    requires n <= |order| && Names(order) == Surplus(Backups(start), k)
    ensures var steps := [List] + Unlinks(order, stuck);
            var s := After(start, k, steps, n + 1);
            && s.files == start - (Names(order[..n]) - stuck)
            && s.planned == Surplus(Backups(start), k)
            && (n < |order| ==> Enabled(s, steps[n + 1]))
  {
    var steps := [List] + Unlinks(order, stuck);
    if n == 0 {
      assert After(start, k, steps, 0) == State(start, Backups(start), {});
      assert steps[0] == List;
    } else {
      PruneIsRun(start, k, order, stuck, n - 1);
      assert steps[n] == Unlink(order[n - 1], order[n - 1] !in stuck);
      assert order[..n] == order[..n - 1] + [order[n - 1]];
    }
    if n < |order| {
      assert order[n] in Names(order);
    }
  }

  /** Among the k greatest names ever seen (all of them when retention is switched off). */
  predicate Protected(ever: set<string>, k: int, f: string) {
    f in ever && (k <= 0 || |Above(ever, f)| < k)
  }

  ghost predicate Safe(s: State, k: int) {
    && Backups(s.files) <= s.ever
    && (forall f :: Protected(s.ever, k, f) ==> f in s.files)
    && (forall f :: f in s.planned ==> f in s.ever && !Protected(s.ever, k, f))
    && (forall f :: f in s.ever ==> IsBackup(f))
  }

  lemma {:induction false} MoreNamesAbove(a: set<string>, b: set<string>, f: string)
    requires a <= b
    ensures Above(a, f) <= Above(b, f) && |Above(a, f)| <= |Above(b, f)|
  {
    SubsetCard(Above(a, f), Above(b, f));
  }

  lemma StepIsSafe(s: State, k: int, step: Step)
    requires Safe(s, k) && Enabled(s, step)
    ensures Safe(Next(s, k, step), k)
  {
    match step
    case Copy(name) =>
      forall f
        ensures f in s.ever && Protected(s.ever + {name}, k, f) ==> Protected(s.ever, k, f)
      {
        MoreNamesAbove(s.ever, s.ever + {name}, f);
      }
    case List =>
      forall f | f in Surplus(Backups(s.files), k)
        ensures f in s.ever && !Protected(s.ever, k, f)
      {
        MoreNamesAbove(Backups(s.files), s.ever, f);
      }
    case Unlink(_, _) =>
  }

  /** Main theorem: under any interleaving the k greatest backups ever present are still there. */
  lemma {:induction false} RetentionIsSafe(start: set<string>, k: int, steps: seq<Step>, n: nat)
    requires ValidRun(start, k, steps) && n <= |steps|
    ensures Safe(After(start, k, steps, n), k)
  {
    if n > 0 {
      RetentionIsSafe(start, k, steps, n - 1);
      assert Enabled(After(start, k, steps, n - 1), steps[n - 1]);
      StepIsSafe(After(start, k, steps, n - 1), k, steps[n - 1]);
    }
  }

  /** Hence the failover target, the greatest name in the directory, is the greatest ever present. */
  lemma FailoverTargetSurvives(start: set<string>, k: int, steps: seq<Step>, n: nat, latest: string)
    requires ValidRun(start, k, steps) && n <= |steps|
    ensures var s := After(start, k, steps, n);
            IsGreatest(s.ever, latest) <==> IsGreatest(Backups(s.files), latest)
  {
    RetentionIsSafe(start, k, steps, n);
    var s := After(start, k, steps, n);
    if IsGreatest(s.ever, latest) {
      GreatestIsProtected(s.ever, k, latest);
    }
    if IsGreatest(Backups(s.files), latest) {
      var top := GreatestOf(s.ever, latest);
      GreatestIsProtected(s.ever, k, top);
      LessIsTotal(latest, top);
    }
  }

  /** In terms of time: under any interleaving a backup that was taken and is gone leaves at least k that
      were not taken before it, still there, and the failover target was taken before no backup ever. */
  lemma RetentionInTime(start: set<string>, k: int, steps: seq<Step>, n: nat, gone: string, latest: string)
    requires ValidRun(start, k, steps) && n <= |steps|
    ensures var s := After(start, k, steps, n);
            && (gone in s.ever && gone !in s.files ==> k >= 1 && LeavesLatest(s, k, gone))
            && (IsGreatest(Backups(s.files), latest) ==> NoneEarlier({latest}, s.ever))
  {
    RetentionIsSafe(start, k, steps, n);
    var s := After(start, k, steps, n);
    if gone in s.ever && gone !in s.files {
      assert !Protected(s.ever, k, gone);
      GoneLeavesLatest(s, k, gone);
    }
    if IsGreatest(Backups(s.files), latest) {
      FailoverTargetSurvives(start, k, steps, n, latest);
      GreatestIsLatest(s.ever, latest);
    }
  }

  /** There are k backups, none taken before `gone`. */
  ghost predicate LeavesLatest(s: State, k: int, gone: string) {
    exists rest :: rest <= Backups(s.files) && |rest| == k && NoneEarlier(rest, {gone})
  }

  lemma GoneLeavesLatest(s: State, k: int, gone: string)
    requires Safe(s, k) && gone in s.ever && !Protected(s.ever, k, gone)
    ensures LeavesLatest(s, k, gone)
  {
    var rest := TopOf(Above(s.ever, gone), k);
    forall f | f in rest
      ensures f in Backups(s.files)
    {
      AboveAll(s.ever, gone, f);
      assert Protected(s.ever, k, f);
    }
    forall f, t, u | f in rest && TakenAt(f, t) && TakenAt(gone, u)
      ensures !Earlier(t, u)
    {
      if Earlier(t, u) {
        EarlierIsLess(f, gone, t, u);
        LessIsTotal(f, gone);
      }
    }
    hide TakenAt, Protected, Backups;
  }

  /** What is above a name that is itself above another is above that one too. */
  lemma AboveAll(names: set<string>, low: string, f: string)
    requires f in Above(names, low)
    ensures Above(names, f) == Above(Above(names, low), f)
  {
    forall g | g in Above(names, f)
      ensures g in Above(Above(names, low), f)
    {
      LessIsTransitive(low, f, g);
    }
  }

  /** The k greatest of a set that has them. */
  lemma {:induction false} TopOf(names: set<string>, k: nat) returns (top: set<string>)
    requires |names| >= k
    ensures top <= names && |top| == k && forall f :: f in top ==> |Above(names, f)| < k
  {
    top := {};
    if k > 0 {
      var member :| member in names;
      var first := GreatestOf(names, member);
      var rest := names - {first};
      var below := TopOf(rest, k - 1);
      top := below + {first};
      forall f | f in top
        ensures |Above(names, f)| < k
      {
        if f == first {
          GreatestIsProtected(names, 1, first);
        } else {
          LessIsTotal(f, first);
          assert Above(names, f) == Above(rest, f) + {first};
        }
      }
    }
  }

  lemma GreatestIsProtected(ever: set<string>, k: int, f: string)
    requires IsGreatest(ever, f)
    ensures Protected(ever, k, f)
  {
    forall g | g in ever
      ensures !Less(f, g)
    {
      LessIsTotal(f, g);
    }
    assert Above(ever, f) == {};
  }

  lemma {:induction false} GreatestOf(names: set<string>, member: string) returns (top: string)
    requires member in names
    ensures IsGreatest(names, top)
    decreases |names|
  {
    if names == {member} {
      top := member;
    } else {
      var rest := names - {member};
      assert rest != {} by {
        assert names == rest + {member};
      }
      var x :| x in rest;
      var best := GreatestOf(rest, x);
      LessIsTotal(best, member);
      top := if Less(best, member) then member else best;
      forall g | g in names
        ensures g == top || Less(g, top)
      {
        if g != member && top == member && g != best {
          LessIsTransitive(g, best, member);
        }
      }
    }
  }
}
