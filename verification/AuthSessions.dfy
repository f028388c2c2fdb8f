/** The login, refresh, logout and change-password handlers of src/routes/auth.ts, each one
  atomic step on the users and refresh_tokens tables. */
module AuthSessions {
  import opened Common

  const MAX_FAILED_ATTEMPTS := 5
  const SOFT_LOCKOUT_MS := 15 * 60_000
  const HARD_LOCKOUT_MS := 24 * 3_600_000
  const REFRESH_TTL_MS := 30 * 86_400_000

  datatype User = User(failedAttempts: nat, locked: bool, lockedUntil: Option<int>, shadowUntil: Option<int>)

  /** A stored refresh token; its identity is its position in the table. `family` is the position of
      the token its login issued. */
  datatype Token = Token(user: string, expiresAt: int, revoked: bool, family: nat)

  /** `audit` lists the users of password_change rows. */
  datatype Db = Db(users: map<string, User>, tokens: seq<Token>, audit: seq<string>)

  /** The password check. It may fail to run at all. */
  datatype Verification = Match | Mismatch | VerifyError

  /** What anomaly scoring does to the user row when it is asked about a burst. A shadow lockout
      clears `locked`. */
  datatype Anomaly = Nothing | ShadowLockout(until: int) | Lockout(until: int)

  datatype LoginResult =
    | UnknownUser | AccountLocked(until: int) | ServerError
    | NowLocked(until: int) | BadCredentials(remaining: int) | LoggedIn(token: nat)

  predicate LockedAt(u: User, now: int) {
    u.locked && u.lockedUntil.Some? && u.lockedUntil.value > now
  }

  function ResetUser(u: User): User {
    u.(failedAttempts := 0, locked := false, lockedUntil := None)
  }

  function Scored(u: User, a: Anomaly): User {
    if u.failedAttempts < MAX_FAILED_ATTEMPTS then u
    else match a
      case Nothing => u
      case ShadowLockout(until) => u.(locked := false, shadowUntil := Some(until))
      case Lockout(until) => u.(locked := true, lockedUntil := Some(until))
  }

  function LockEnd(failedAttempts: nat, now: int): int {
    now + if failedAttempts >= MAX_FAILED_ATTEMPTS * 2 then HARD_LOCKOUT_MS else SOFT_LOCKOUT_MS
  }

  /** The user row after a wrong password was verified. */
  function AfterMismatch(u: User, a: Anomaly, now: int): User {
    var counted := u.(failedAttempts := u.failedAttempts + 1);
    var scored := Scored(counted, a);
    if counted.failedAttempts >= MAX_FAILED_ATTEMPTS
    then scored.(locked := true, lockedUntil := Some(LockEnd(counted.failedAttempts, now))) else scored
  }

  /** The user row once an elapsed lock, or one without an end, has been cleared. */
  function Unlocked(u: User): User {
    if u.locked then ResetUser(u) else u
  }

  /** The user row after a login attempt. */
  function AfterLogin(u: User, v: Verification, a: Anomaly, now: int): User {
    if LockedAt(u, now) then u
    else match v
      case VerifyError => Unlocked(u)
      case Mismatch => AfterMismatch(Unlocked(u), a, now)
      case Match => ResetUser(u)
  }

  function Issued(tokens: seq<Token>, user: string, family: nat, now: int): seq<Token> {
    tokens + [Token(user, now + REFRESH_TTL_MS, false, family)]
  }

  function LoggedInDb(db: Db, user: string, v: Verification, a: Anomaly, now: int): (Db, LoginResult) {
    if user !in db.users then (db, UnknownUser)
    else
      var u := db.users[user];
      var after := db.(users := db.users[user := AfterLogin(u, v, a, now)]);
      if LockedAt(u, now) then (db, AccountLocked(u.lockedUntil.value))
      else match v
        case VerifyError => (after, ServerError)
        case Mismatch =>
          var count := Unlocked(u).failedAttempts + 1;
          (after, if count >= MAX_FAILED_ATTEMPTS then NowLocked(LockEnd(count, now))
                  else BadCredentials(MAX_FAILED_ATTEMPTS - count))
        case Match => (after.(tokens := Issued(db.tokens, user, |db.tokens|, now)), LoggedIn(|db.tokens|))
  }

  datatype RefreshResult = NotFound | Expired | Refused(until: int) | Refreshed(token: nat)

  function Revoked(tokens: seq<Token>, id: nat): seq<Token>
    requires id < |tokens|
  {
    tokens[id := tokens[id].(revoked := true)]
  }

  function RefreshedDb(db: Db, id: nat, now: int): (Db, RefreshResult) {
    if id >= |db.tokens| || db.tokens[id].revoked || db.tokens[id].user !in db.users then (db, NotFound)
    else
      var t := db.tokens[id];
      var u := db.users[t.user];
      if t.expiresAt < now then (db.(tokens := Revoked(db.tokens, id)), Expired)
      else if LockedAt(u, now) then (db, Refused(u.lockedUntil.value))
      else (db.(tokens := Issued(Revoked(db.tokens, id), t.user, t.family, now)), Refreshed(|db.tokens|))
  }

  function AllRevoked(tokens: seq<Token>, user: string): seq<Token> {
    seq(|tokens|, i requires 0 <= i < |tokens| =>
      if tokens[i].user == user then tokens[i].(revoked := true) else tokens[i])
  }

  datatype PasswordResult = WeakPassword | WrongPassword | SamePassword | Changed | NoSuchUser

  /** What the handler finds out about the two passwords: is the new one strong enough, is the current
      one right, are they the same? */
  datatype Passwords = Passwords(strong: bool, matches: bool, same: bool)

  /** A wrong current password is counted but never locks; a change zeroes the count, keeps any
      lock, is audited and revokes every token. */
  function PasswordChanged(db: Db, user: string, p: Passwords): (Db, PasswordResult) {
    if !p.strong then (db, WeakPassword)
    else if user !in db.users then (db, NoSuchUser)
    else
      var u := db.users[user];
      if !p.matches then (db.(users := db.users[user := u.(failedAttempts := u.failedAttempts + 1)]), WrongPassword)
      else if p.same then (db, SamePassword)
      else (Db(db.users[user := u.(failedAttempts := 0)], AllRevoked(db.tokens, user), db.audit + [user]), Changed)
  }

  class AuthDb {
    var users: map<string, User>
    var tokens: seq<Token>
    var audit: seq<string>

    function Tables(): Db
      reads this
    {
      Db(users, tokens, audit)
    }

    constructor (users: map<string, User>)
      ensures Tables() == Db(users, [], [])
    {
      this.users, this.tokens, audit := users, [], [];
    }

    method IncrementFailedAttempts(user: string) returns (count: nat)
      requires user in users
      modifies `users
      ensures users == old(users)[user := old(users)[user].(failedAttempts := old(users)[user].failedAttempts + 1)]
      ensures count == users[user].failedAttempts
    {
      users := users[user := users[user].(failedAttempts := users[user].failedAttempts + 1)];
      count := users[user].failedAttempts;
    }

    method ResetFailedAttempts(user: string)
      requires user in users
      modifies `users
      ensures users == old(users)[user := ResetUser(old(users)[user])]
    {
      users := users[user := users[user].(failedAttempts := 0, locked := false, lockedUntil := None)];
    }

    method LockUser(user: string, until: int)
      requires user in users
      modifies `users
      ensures users == old(users)[user := old(users)[user].(locked := true, lockedUntil := Some(until))]
    {
      users := users[user := users[user].(locked := true, lockedUntil := Some(until))];
    }

    /** Below five failures, or when scoring does nothing, the row stays; a shadow lockout opens the
        account and keeps the lock's end, any other lockout locks it and keeps the shadow's. */
    method DetectFailedAuthBurst(user: string, a: Anomaly)
      requires user in users
      modifies `users
      ensures users == old(users)[user := Scored(old(users)[user], a)]
      ensures users.Keys == old(users).Keys && forall x :: x in users && x != user ==> users[x] == old(users)[x]
      ensures old(users)[user].failedAttempts < MAX_FAILED_ATTEMPTS || a == Nothing ==> users == old(users)
      ensures old(users)[user].failedAttempts >= MAX_FAILED_ATTEMPTS && a != Nothing ==>
        var was, now := old(users)[user], users[user];
        && now.failedAttempts == was.failedAttempts
        && (now.locked <==> a.Lockout?)
        && now.lockedUntil == (if a.Lockout? then Some(a.until) else was.lockedUntil)
        && now.shadowUntil == (if a.ShadowLockout? then Some(a.until) else was.shadowUntil)
    {
      if users[user].failedAttempts < MAX_FAILED_ATTEMPTS {
        return;
      }
      match a {
        case Nothing =>
        case ShadowLockout(until) =>
          users := users[user := users[user].(shadowUntil := Some(until), locked := false)];
        case Lockout(until) =>
          users := users[user := users[user].(locked := true, lockedUntil := Some(until))];
      }
    }

    method StoreRefreshToken(user: string, family: nat, now: int) returns (id: nat)
      modifies `tokens
      ensures tokens == Issued(old(tokens), user, family, now) && id == |old(tokens)|
    {
      id := |tokens|;
      tokens := tokens + [Token(user, now + REFRESH_TTL_MS, false, family)];
    }

    method Login(user: string, v: Verification, a: Anomaly, now: int) returns (r: LoginResult)
      modifies this
      ensures (Tables(), r) == LoggedInDb(old(Tables()), user, v, a, now)
    {
      hide Scored;
      if user !in users {
        return UnknownUser;
      }
      var row := users[user];
      if row.locked {
        if row.lockedUntil.Some? && row.lockedUntil.value > now {
          return AccountLocked(row.lockedUntil.value);
        }
        ResetFailedAttempts(user);
      }
      assert users == old(users)[user := Unlocked(row)];
      if v == VerifyError {
        return ServerError;
      }
      if v == Mismatch {
        ghost var counted := Unlocked(row).(failedAttempts := Unlocked(row).failedAttempts + 1);
        var count := IncrementFailedAttempts(user);
        assert users == old(users)[user := counted];
        DetectFailedAuthBurst(user, a);
        assert users == old(users)[user := Scored(counted, a)];
        if count >= MAX_FAILED_ATTEMPTS {
          var until := now + if count >= MAX_FAILED_ATTEMPTS * 2 then HARD_LOCKOUT_MS else SOFT_LOCKOUT_MS;
          LockUser(user, until);
          assert users == old(users)[user := AfterMismatch(Unlocked(row), a, now)];
          return NowLocked(until);
        }
        assert users == old(users)[user := AfterMismatch(Unlocked(row), a, now)];
        return BadCredentials(MAX_FAILED_ATTEMPTS - count);
      }
      ResetFailedAttempts(user);
      assert users == old(users)[user := ResetUser(row)];
      var id := StoreRefreshToken(user, |tokens|, now);
      return LoggedIn(id);
    }

    method Refresh(id: nat, now: int) returns (r: RefreshResult)
      modifies `tokens
      ensures (Tables(), r) == RefreshedDb(old(Tables()), id, now)
    {
      if id >= |tokens| || tokens[id].revoked || tokens[id].user !in users {
        return NotFound;
      }
      var stored := tokens[id];
      if stored.expiresAt < now {
        tokens := tokens[id := stored.(revoked := true)];
        return Expired;
      }
      var u := users[stored.user];
      if u.locked && u.lockedUntil.Some? && u.lockedUntil.value > now {
        return Refused(u.lockedUntil.value);
      }
      tokens := tokens[id := stored.(revoked := true)];
      var renewed := StoreRefreshToken(stored.user, stored.family, now);
      return Refreshed(renewed);
    }

    method RevokeAllUserRefreshTokens(user: string)
      modifies `tokens
      ensures tokens == AllRevoked(old(tokens), user)
    {
      for i := 0 to |tokens|
        invariant |tokens| == |old(tokens)|
        invariant forall j :: 0 <= j < |tokens| ==>
          tokens[j] == if j < i && old(tokens)[j].user == user then old(tokens)[j].(revoked := true) else old(tokens)[j]
      {
        if tokens[i].user == user {
          tokens := tokens[i := tokens[i].(revoked := true)];
        }
      }
    }

    method ChangePassword(user: string, p: Passwords) returns (r: PasswordResult)
      modifies this
      ensures (Tables(), r) == PasswordChanged(old(Tables()), user, p)
    {
      if !p.strong {
        return WeakPassword;
      }
      if user !in users {
        return NoSuchUser;
      }
      if !p.matches {
        var _ := IncrementFailedAttempts(user);
        return WrongPassword;
      }
      if p.same {
        return SamePassword;
      }
      users := users[user := users[user].(failedAttempts := 0)];
      audit := audit + [user];
      RevokeAllUserRefreshTokens(user);
      return Changed;
    }
  }

  // ---- What the handlers answer, read off the user row ----

  /** A lock with an end after `now` stands. */
  predicate LockStands(db: Db, user: string, now: int) {
    && user in db.users && db.users[user].locked
    && match db.users[user].lockedUntil
       case None => false
       case Some(end) => now < end
  }

  /** A login issues a token iff the user exists, the password matches and no lock stands; the token lives
      thirty days, the count and the lock are cleared and nothing else changes. */
  lemma LoginIssuesIff(db: Db, user: string, v: Verification, a: Anomaly, now: int)
    ensures var (after, r) := LoggedInDb(db, user, v, a, now);
            && (r.LoggedIn? <==> user in db.users && v == Match && !LockStands(db, user, now))
            && (r.LoggedIn? ==>
                  var cleared := db.users[user].(failedAttempts := 0, locked := false, lockedUntil := None);
                  && r.token == |db.tokens|
                  && after.users == db.users[user := cleared] && after.audit == db.audit
                  && after.tokens == db.tokens + [Token(user, now + 30 * 86_400_000, false, r.token)])
            && (!r.LoggedIn? ==> after.tokens == db.tokens)
  {
  }

  /** What stands in the way of it: while a lock stands every attempt is answered with its end and nothing
      is written; otherwise the count, started anew if a lock has elapsed, decides what a wrong password
      brings. From five on it locks for fifteen minutes, from ten on for a day. */
  lemma LoginRefuses(db: Db, user: string, v: Verification, a: Anomaly, now: int)
    ensures var (after, r) := LoggedInDb(db, user, v, a, now);
            && (user !in db.users ==> (after, r) == (db, UnknownUser))
            && (LockStands(db, user, now) ==> (after, r) == (db, AccountLocked(db.users[user].lockedUntil.value)))
            && (user in db.users && !LockStands(db, user, now) && v != Match ==>
                  var u := db.users[user];
                  var start := if u.locked then 0 else u.failedAttempts;
                  && after == db.(users := after.users) && after.users.Keys == db.users.Keys
                  && (forall x :: x in db.users && x != user ==> after.users[x] == db.users[x])
                  && Refusal(u, after.users[user], r, v == Mismatch, start, now))
  {
  }

  /** The answer to an attempt that found no lock standing, and the row it leaves. */
  predicate Refusal(u: User, after: User, r: LoginResult, wrong: bool, start: nat, now: int) {
    if !wrong then
      && r == ServerError
      && after == if u.locked then u.(failedAttempts := 0, locked := false, lockedUntil := None) else u
    else if start >= 4 then
      var until := now + if start >= 9 then 24 * 3_600_000 else 15 * 60_000;
      && r == NowLocked(until)
      && after.failedAttempts == start + 1 && after.locked && after.lockedUntil == Some(until)
    else
      r == BadCredentials(4 - start) && !after.locked && after.failedAttempts == start + 1
  }

  /** A token is exchanged iff it is stored and live, its user exists and no lock stands; it is revoked and
      one successor of its family is issued. One that lived too long is revoked, and nothing is issued. */
  lemma RefreshIssuesIff(db: Db, id: nat, now: int)
    ensures var (after, r) := RefreshedDb(db, id, now);
            var known := id < |db.tokens| && !db.tokens[id].revoked && db.tokens[id].user in db.users;
            && (r == NotFound <==> !known)
            && (r == Expired <==> known && db.tokens[id].expiresAt < now)
            && (r.Refreshed? <==>
                  known && now <= db.tokens[id].expiresAt && !LockStands(db, db.tokens[id].user, now))
            && (r.Refused? ==> r.until == db.users[db.tokens[id].user].lockedUntil.value)
            && after.users == db.users && after.audit == db.audit
            && (r.Refreshed? ==>
                  var t := db.tokens[id];
                  && r.token == |db.tokens|
                  && after.tokens == db.tokens[id := t.(revoked := true)]
                                     + [Token(t.user, now + 30 * 86_400_000, false, t.family)])
            && (r == Expired ==> after.tokens == db.tokens[id := db.tokens[id].(revoked := true)])
            && (r == NotFound || r.Refused? ==> after == db)
  {
  }

  /** A password is changed iff the new one is strong and different, the user exists and the current one is
      right; then every token of that user is revoked, no other token is, and a lock is kept. */
  lemma ChangeRevokesIff(db: Db, user: string, p: Passwords)
    ensures var (after, r) := PasswordChanged(db, user, p);
            && (r == Changed <==> p.strong && user in db.users && p.matches && !p.same)
            && (r == WrongPassword <==> p.strong && user in db.users && !p.matches)
            && |after.tokens| == |db.tokens|
            && (forall i :: 0 <= i < |db.tokens| ==>
                  after.tokens[i] == if r == Changed && db.tokens[i].user == user
                    then db.tokens[i].(revoked := true) else db.tokens[i])
            && after.audit == (if r == Changed then db.audit + [user] else db.audit)
            && after.users.Keys == db.users.Keys
            && forall x :: x in db.users ==>
                 after.users[x] == db.users[x].(failedAttempts :=
                   if x == user && r == Changed then 0
                   else db.users[x].failedAttempts + if x == user && r == WrongPassword then 1 else 0)
  {
  }
}

/** How often a wrong password can be tried. */
module LoginLockout {
  import opened Common
  import opened AuthSessions

  /** The steps that touch one user's row while no login succeeds and no password is changed. */
  datatype Attempt =
    | TryLogin(v: Verification, a: Anomaly, at: int)   // v is Mismatch or VerifyError
    | TryChangePassword(at: int)                       // with a wrong current password

  function Next(u: User, s: Attempt): User {
    match s
    case TryLogin(v, a, at) => AfterLogin(u, v, a, at)
    case TryChangePassword(_) => u.(failedAttempts := u.failedAttempts + 1)
  }

  /** An attempt is what the handlers do to the row of the user it is for. */
  lemma AttemptIsHandler(db: Db, user: string, s: Attempt, same: bool)
    requires user in db.users
    ensures match s
      case TryLogin(v, a, at) => LoggedInDb(db, user, v, a, at).0.users == db.users[user := Next(db.users[user], s)]
      case TryChangePassword(_) =>
        PasswordChanged(db, user, Passwords(true, false, same)).0.users == db.users[user := Next(db.users[user], s)]
  {
    if s.TryLogin? && LockedAt(db.users[user], s.at) {
      assert db.users[user := db.users[user]] == db.users;
    }
    hide AfterMismatch;
  }

  function After(u: User, run: seq<Attempt>, n: nat): User
    requires n <= |run|
  {
    if n == 0 then u else Next(After(u, run, n - 1), run[n - 1])
  }

  ghost predicate Valid(run: seq<Attempt>) {
    && (forall i :: 0 <= i < |run| && run[i].TryLogin? ==> run[i].v != Match)
    && (forall i, j :: 0 <= i <= j < |run| ==> run[i].at <= run[j].at)
  }

  /** When the login handler verified a wrong password, oldest first. */
  function WrongAt(u: User, run: seq<Attempt>, n: nat): seq<int>
    requires n <= |run|
  {
    if n == 0 then []
    else
      var s := run[n - 1];
      if s.TryLogin? && s.v == Mismatch && !LockedAt(After(u, run, n - 1), s.at)
      then WrongAt(u, run, n - 1) + [s.at] else WrongAt(u, run, n - 1)
  }

  ghost predicate Spaced(wrong: seq<int>) {
    && (forall i, j :: 0 <= i <= j < |wrong| ==> wrong[i] <= wrong[j])
    && (forall i :: 0 <= i < |wrong| - 5 ==> wrong[i + 5] >= wrong[i] + SOFT_LOCKOUT_MS)
  }

  /** The verifications since the last lock elapsed form the current batch, of size c: at most four
      while the account is open. Everything before the batch is at least a lockout old, and a lock
      in force outlasts a lockout after every verification. */
  ghost predicate Quiet(u: User, wrong: seq<int>, c: nat, now: int) {
    && c <= |wrong|
    && (forall i :: 0 <= i < |wrong| ==> wrong[i] <= now)
    && (forall i :: 0 <= i < |wrong| - c ==> wrong[i] + SOFT_LOCKOUT_MS <= now)
    && (u.locked ==> c <= 5)
    && (u.locked && u.lockedUntil.Some? ==>
          forall i :: 0 <= i < |wrong| ==> u.lockedUntil.value >= wrong[i] + SOFT_LOCKOUT_MS)
    && (u.locked && |wrong| > 0 ==> u.lockedUntil.Some?)
    && (!u.locked ==> c <= 4 && c <= u.failedAttempts)
  }

  lemma QuietStep(u: User, s: Attempt, wrong: seq<int>, c: nat, now: int) returns (d: nat)
    requires Quiet(u, wrong, c, now) && Spaced(wrong) && now <= s.at && (s.TryLogin? ==> s.v != Match)
    ensures var more := if s.TryLogin? && s.v == Mismatch && !LockedAt(u, s.at) then wrong + [s.at] else wrong;
            Quiet(Next(u, s), more, d, s.at) && Spaced(more)
  {
    match s
    case TryChangePassword(_) => d := c;
    case TryLogin(v, a, at) =>
      if LockedAt(u, at) {
        d := c;
      } else {
        // an elapsed lock closes the batch; an open account goes on with it
        var open := if u.locked then 0 else c;
        if v == VerifyError {
          d := open;
        } else {
          d := open + 1;
          SpacedMore(wrong, open, at);
        }
      }
      hide Spaced;
  }

  /** One more verification with at most four within the last lockout. */
  lemma SpacedMore(wrong: seq<int>, open: nat, at: int)
    requires Spaced(wrong) && open <= 4 && forall i :: 0 <= i < |wrong| ==> wrong[i] <= at
    requires forall i :: 0 <= i < |wrong| - open ==> wrong[i] + SOFT_LOCKOUT_MS <= at
    ensures Spaced(wrong + [at])
  {
    var more := wrong + [at];
    forall i | 0 <= i < |more| - 5
      ensures more[i + 5] >= more[i] + SOFT_LOCKOUT_MS
    {
      if i + 5 < |wrong| {
        assert more[i + 5] == wrong[i + 5] && more[i] == wrong[i];
      } else {
        assert more[i] == wrong[i] && more[i + 5] == at;
      }
    }
  }

  lemma {:induction false} WrongIsSpaced(u: User, run: seq<Attempt>, n: nat) returns (c: nat)
    requires n <= |run| && Valid(run)
    ensures Spaced(WrongAt(u, run, n))
    ensures n > 0 ==> Quiet(After(u, run, n), WrongAt(u, run, n), c, run[n - 1].at)
    ensures n == 0 ==> c == 0
  {
    if n == 0 {
      c := 0;
    } else {
      var b := WrongIsSpaced(u, run, n - 1);
      var last := if n == 1 then run[0].at else run[n - 2].at;
      assert last <= run[n - 1].at;
      c := QuietStep(After(u, run, n - 1), run[n - 1], WrongAt(u, run, n - 1), b, last);
    }
  }

  function CountIn(times: seq<int>, n: nat, lo: int, hi: int): nat
    requires n <= |times|
  {
    if n == 0 then 0 else CountIn(times, n - 1, lo, hi) + if lo <= times[n - 1] < hi then 1 else 0
  }

  /** Main theorem: from any state of the user row, while no login succeeds and no password is
      changed, a half-open window of fifteen minutes holds at most five wrong-password
      verifications, whatever failed change-password attempts and anomaly lockouts do in between. */
  lemma AtMostFivePerWindow(u: User, run: seq<Attempt>, lo: int)
    requires Valid(run)
    ensures CountIn(WrongAt(u, run, |run|), |WrongAt(u, run, |run|)|, lo, lo + SOFT_LOCKOUT_MS) <= 5
  {
    var _ := WrongIsSpaced(u, run, |run|);
    SpacedCount(WrongAt(u, run, |run|), |WrongAt(u, run, |run|)|, lo);
  }

  lemma {:induction false} SpacedCount(times: seq<int>, n: nat, lo: int)
    requires Spaced(times) && n <= |times|
    ensures CountIn(times, n, lo, lo + SOFT_LOCKOUT_MS) <= 5
  {
    if n > 5 {
      if lo <= times[n - 1] < lo + SOFT_LOCKOUT_MS {
        assert times[n - 6 + 5] >= times[n - 6] + SOFT_LOCKOUT_MS;
        NoneBefore(times, n - 5, lo);
        assert CountIn(times, n - 2, lo, lo + SOFT_LOCKOUT_MS) <= 3 by {
          assert CountIn(times, n - 4, lo, lo + SOFT_LOCKOUT_MS) <= 1;
          assert CountIn(times, n - 3, lo, lo + SOFT_LOCKOUT_MS) <= 2;
        }
      } else {
        SpacedCount(times, n - 1, lo);
      }
    } else {
      CountAtMost(times, n, lo);
    }
  }

  lemma {:induction false} CountAtMost(times: seq<int>, n: nat, lo: int)
    requires n <= |times|
    ensures CountIn(times, n, lo, lo + SOFT_LOCKOUT_MS) <= n
  {
    if n > 0 {
      CountAtMost(times, n - 1, lo);
    }
  }

  lemma {:induction false} NoneBefore(times: seq<int>, n: nat, lo: int)
    requires n <= |times| && forall i :: 0 <= i < n ==> times[i] < lo
    ensures CountIn(times, n, lo, lo + SOFT_LOCKOUT_MS) == 0
  {
    if n > 0 {
      NoneBefore(times, n - 1, lo);
    }
  }

  /** The bound is reached: five wrong passwords at once are all verified, the sixth is not. */
  lemma FiveAreReached(a: Anomaly, at: int)
    ensures var wrong := TryLogin(Mismatch, a, at);
            var run := [wrong, wrong, wrong, wrong, wrong, wrong];
            Valid(run) && WrongAt(User(0, false, None, None), run, 6) == [at, at, at, at, at]
  {
    var wrong := TryLogin(Mismatch, a, at);
    var run := [wrong, wrong, wrong, wrong, wrong, wrong];
    var u := User(0, false, None, None);
    assert After(u, run, 1) == User(1, false, None, None);
    assert After(u, run, 2) == User(2, false, None, None);
    assert After(u, run, 3) == User(3, false, None, None);
    assert After(u, run, 4) == User(4, false, None, None);
    assert LockedAt(After(u, run, 5), at);
    assert WrongAt(u, run, 1) == [at];
    assert WrongAt(u, run, 2) == [at, at];
    assert WrongAt(u, run, 3) == [at, at, at];
    assert WrongAt(u, run, 4) == [at, at, at, at];
    assert WrongAt(u, run, 5) == [at, at, at, at, at];
  }
}

/** What rotation promises about refresh tokens, over every run. */
module RefreshRotation {
  import opened Common
  import opened AuthSessions

  datatype Step =
    | Login(user: string, v: Verification, a: Anomaly, at: int)
    | Refresh(id: nat, at: int)
    | Logout(user: string)
    | ChangePassword(user: string, p: Passwords)

  function Next(db: Db, s: Step): Db {
    match s
    case Login(user, v, a, at) => LoggedInDb(db, user, v, a, at).0
    case Refresh(id, at) => RefreshedDb(db, id, at).0
    case Logout(user) => db.(tokens := AllRevoked(db.tokens, user))
    case ChangePassword(user, p) => PasswordChanged(db, user, p).0
  }

  function After(users: map<string, User>, run: seq<Step>, n: nat): Db
    requires n <= |run|
  {
    if n == 0 then Db(users, [], []) else Next(After(users, run, n - 1), run[n - 1])
  }

  /** Step n exchanges token id for a new one. */
  predicate Refreshes(users: map<string, User>, run: seq<Step>, n: nat, id: nat)
    requires n < |run|
  {
    run[n].Refresh? && run[n].id == id && RefreshedDb(After(users, run, n), id, run[n].at).1.Refreshed?
  }

  /** What one step may do to the table: mark tokens revoked, and append at most one. */
  ghost predicate Grows(tokens: seq<Token>, after: seq<Token>) {
    && |tokens| <= |after| <= |tokens| + 1
    && forall i :: 0 <= i < |tokens| ==>
         && after[i].user == tokens[i].user && after[i].family == tokens[i].family
         && (tokens[i].revoked ==> after[i].revoked)
  }

  lemma StepGrows(db: Db, s: Step)
    ensures Grows(db.tokens, Next(db, s).tokens)
  {
  }

  lemma {:induction false} StaysRevoked(users: map<string, User>, run: seq<Step>, m: nat, n: nat, id: nat)
    requires m <= n <= |run| && id < |After(users, run, m).tokens|
    ensures id < |After(users, run, n).tokens|
    ensures After(users, run, n).tokens[id].user == After(users, run, m).tokens[id].user
    ensures After(users, run, m).tokens[id].revoked ==> After(users, run, n).tokens[id].revoked
  {
    if m < n {
      StaysRevoked(users, run, m, n - 1, id);
      StepGrows(After(users, run, n - 1), run[n - 1]);
      hide Next;
    }
  }

  /** Every token is exchanged at most once. */
  lemma TokenRefreshesOnce(users: map<string, User>, run: seq<Step>, m: nat, n: nat, id: nat)
    requires m < n < |run| && Refreshes(users, run, m, id)
    ensures !Refreshes(users, run, n, id)
  {
    assert After(users, run, m + 1).tokens[id].revoked;
    StaysRevoked(users, run, m + 1, n, id);
  }

  predicate RevokesAll(users: map<string, User>, run: seq<Step>, n: nat, user: string)
    requires n < |run|
  {
    match run[n]
    case Logout(u) => u == user
    case ChangePassword(u, p) => u == user && PasswordChanged(After(users, run, n), user, p).1 == Changed
    case _ => false
  }

  /** No token of a user issued before a logout or a committed password change is exchanged after it. */
  lemma NoRefreshAfterRevocation(users: map<string, User>, run: seq<Step>, m: nat, n: nat, id: nat, user: string)
    requires m < n < |run| && RevokesAll(users, run, m, user)
    requires id < |After(users, run, m).tokens| && After(users, run, m).tokens[id].user == user
    ensures !Refreshes(users, run, n, id)
  {
    assert After(users, run, m + 1).tokens[id].revoked;
    StaysRevoked(users, run, m + 1, n, id);
  }

  /** Tokens of one login form a family; at most one of them is live. */
  ghost predicate OneLivePerFamily(tokens: seq<Token>) {
    && (forall i :: 0 <= i < |tokens| ==> tokens[i].family <= i)
    && (forall i, j :: 0 <= i < j < |tokens| && tokens[i].family == tokens[j].family ==>
          tokens[i].revoked || tokens[j].revoked)
  }

  lemma RotationKeepsOneLive(tokens: seq<Token>, id: nat, now: int)
    requires OneLivePerFamily(tokens) && id < |tokens| && !tokens[id].revoked
    ensures OneLivePerFamily(Issued(Revoked(tokens, id), tokens[id].user, tokens[id].family, now))
  {
    var after := Issued(Revoked(tokens, id), tokens[id].user, tokens[id].family, now);
    forall i, j | 0 <= i < j < |after| && after[i].family == after[j].family
      ensures after[i].revoked || after[j].revoked
    {
      if j == |tokens| && i != id {
        assert tokens[i].family == tokens[id].family;
      }
    }
  }

  lemma StepKeepsOneLive(db: Db, s: Step)
    requires OneLivePerFamily(db.tokens)
    ensures OneLivePerFamily(Next(db, s).tokens)
  {
    if s.Refresh? && s.id < |db.tokens| && !db.tokens[s.id].revoked {
      RotationKeepsOneLive(db.tokens, s.id, s.at);
    }
  }

  /** At most one live token descends from each login. */
  lemma {:induction false} OneLiveTokenPerLogin(users: map<string, User>, run: seq<Step>, n: nat)
    requires n <= |run|
    ensures OneLivePerFamily(After(users, run, n).tokens)
  {
    if n > 0 {
      OneLiveTokenPerLogin(users, run, n - 1);
      StepKeepsOneLive(After(users, run, n - 1), run[n - 1]);
    }
  }

  // ---- No token while a lock stands ----

  /** Before `end`, as far as the step has a time. */
  predicate Before(s: Step, end: int) {
    match s
    case Login(_, _, _, at) => at < end
    case Refresh(_, at) => at < end
    case _ => true
  }

  ghost predicate LockedUntil(db: Db, user: string, end: int) {
    user in db.users && db.users[user].locked && db.users[user].lockedUntil == Some(end)
  }

  /** How many tokens were ever issued to the user. */
  function TokensOf(tokens: seq<Token>, user: string): nat {
    if tokens == [] then 0
    else TokensOf(tokens[..|tokens| - 1], user) + if tokens[|tokens| - 1].user == user then 1 else 0
  }

  lemma {:induction false} SameUsersSameCount(tokens: seq<Token>, after: seq<Token>, user: string)
    requires |after| == |tokens| && forall i :: 0 <= i < |tokens| ==> after[i].user == tokens[i].user
    ensures TokensOf(after, user) == TokensOf(tokens, user)
  {
    if tokens != [] {
      SameUsersSameCount(tokens[..|tokens| - 1], after[..|after| - 1], user);
    }
  }

  lemma OneMoreToken(tokens: seq<Token>, after: seq<Token>, t: Token, user: string)
    requires |after| == |tokens| && forall i :: 0 <= i < |tokens| ==> after[i].user == tokens[i].user
    ensures TokensOf(after + [t], user) == TokensOf(tokens, user) + if t.user == user then 1 else 0
  {
    SameUsersSameCount(tokens, after, user);
    assert (after + [t])[..|after|] == after;
  }

  lemma LockHoldsOneStep(db: Db, s: Step, user: string, end: int)
    requires LockedUntil(db, user, end) && Before(s, end)
    ensures LockedUntil(Next(db, s), user, end)
    ensures TokensOf(Next(db, s).tokens, user) == TokensOf(db.tokens, user)
  {
    match s
    case Login(u, v, a, at) =>
      LoginIssuesIff(db, u, v, a, at);
      LoginRefuses(db, u, v, a, at);
      OneMoreToken(db.tokens, db.tokens, Token(u, at + 30 * 86_400_000, false, |db.tokens|), user);
      hide LoggedInDb;
    case Refresh(id, at) =>
      RefreshIssuesIff(db, id, at);
      if id < |db.tokens| {
        var t := db.tokens[id];
        var revoked := db.tokens[id := t.(revoked := true)];
        OneMoreToken(db.tokens, revoked, Token(t.user, at + 30 * 86_400_000, false, t.family), user);
        SameUsersSameCount(db.tokens, revoked, user);
      }
      hide RefreshedDb;
    case Logout(u) =>
      SameUsersSameCount(db.tokens, AllRevoked(db.tokens, u), user);
    case ChangePassword(u, p) =>
      ChangeRevokesIff(db, u, p);
      SameUsersSameCount(db.tokens, Next(db, s).tokens, user);
      hide PasswordChanged;
  }

  /** Over any run: from any state with a lock that has an end, until that end the lock stands and the user
      is issued no token, by login or refresh, with the right password or a wrong one. */
  lemma {:induction false} NoTokenInsideLock(users: map<string, User>, run: seq<Step>, m: nat, n: nat,
                                             user: string, end: int)
    requires m <= n <= |run| && LockedUntil(After(users, run, m), user, end)
    requires forall i :: m <= i < n ==> Before(run[i], end)
    ensures LockedUntil(After(users, run, n), user, end)
    ensures TokensOf(After(users, run, n).tokens, user) == TokensOf(After(users, run, m).tokens, user)
  {
    if m < n {
      hide Next, LockedUntil, Before;
      NoTokenInsideLock(users, run, m, n - 1, user, end);
      LockHoldsOneStep(After(users, run, n - 1), run[n - 1], user, end);
    }
  }

  /** In particular from the login that was told so: after the answer that the account is locked until
      `end`, no attempt before `end` gets in. */
  lemma LockedMeansLocked(users: map<string, User>, run: seq<Step>, m: nat, n: nat, end: int)
    requires m < n <= |run| && run[m].Login?
    requires LoggedInDb(After(users, run, m), run[m].user, run[m].v, run[m].a, run[m].at).1
               in {NowLocked(end), AccountLocked(end)}
    requires forall i :: m < i < n ==> Before(run[i], end)
    ensures LockedUntil(After(users, run, n), run[m].user, end)
    ensures TokensOf(After(users, run, n).tokens, run[m].user)
         == TokensOf(After(users, run, m).tokens, run[m].user)
  {
    var db, s := After(users, run, m), run[m];
    LoginIssuesIff(db, s.user, s.v, s.a, s.at);
    LoginRefuses(db, s.user, s.v, s.a, s.at);
    assert After(users, run, m + 1) == Next(db, s);
    hide After, LoggedInDb;
    NoTokenInsideLock(users, run, m + 1, n, s.user, end);
  }

  // ---- How many are live ----

  function LiveTokens(tokens: seq<Token>, user: string): nat {
    if tokens == [] then 0
    else LiveTokens(tokens[..|tokens| - 1], user)
         + if tokens[|tokens| - 1].user == user && !tokens[|tokens| - 1].revoked then 1 else 0
  }

  lemma {:induction false} RevokeLowersLive(tokens: seq<Token>, id: nat, user: string)
    requires id < |tokens| && !tokens[id].revoked
    ensures LiveTokens(Revoked(tokens, id), user) == LiveTokens(tokens, user) - if tokens[id].user == user then 1 else 0
  {
    var after := Revoked(tokens, id);
    if id == |tokens| - 1 {
      assert after[..|after| - 1] == tokens[..|tokens| - 1];
    } else {
      assert after[..|after| - 1] == Revoked(tokens[..|tokens| - 1], id);
      RevokeLowersLive(tokens[..|tokens| - 1], id, user);
    }
  }

  /** A refresh never raises a user's number of live tokens: a successful one keeps it, an expired
      token lowers its owner's by one, and a refusal changes nothing. */
  lemma RefreshNeverAddsLive(db: Db, id: nat, now: int, user: string)
    ensures var (after, r) := RefreshedDb(db, id, now);
            match r
            case Refreshed(_) => LiveTokens(after.tokens, user) == LiveTokens(db.tokens, user)
            case Expired =>
              LiveTokens(after.tokens, user)
              == LiveTokens(db.tokens, user) - if db.tokens[id].user == user then 1 else 0
            case _ => after == db
  {
    if id < |db.tokens| && !db.tokens[id].revoked {
      RevokeLowersLive(db.tokens, id, user);
      var t := db.tokens[id];
      var revoked := Revoked(db.tokens, id);
      assert Issued(revoked, t.user, t.family, now)[..|revoked|] == revoked;
    }
  }
}
