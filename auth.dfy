/**
 * The authentication service of authService.js: registration and the login
 * state machine over the `users` table, with provenance tracking and audit
 * records. The table is a sequence of accounts whose id is their position
 * plus one (AUTOINCREMENT without deletions); the clock is the integer `now`
 * in milliseconds; Argon2id is a symbolic hash that verifies exactly the
 * password it was made from.
 */
module Auth {
  import opened Common
  import Errors
  import Provenance
  import Audit

  /** Failed attempts at which the account locks, and for how long (15 minutes). */
  const MaxFailedAttempts: nat := 5
  const LockoutMs: nat := 15 * 60 * 1000

  const DuplicateUserMessage: string := "El usuario o email ya está registrado"
  const LockedMessage: string := "Cuenta temporalmente bloqueada. Intenta más tarde."

  // ---------------------------------------------------------------------------
  // Password hashing.

  /** An Argon2id hash: the random salt it was made with and the password it encodes. */
  datatype PasswordHash = PasswordHash(salt: nat, preimage: string)

  function Hash(password: string, salt: nat): (h: PasswordHash)
    ensures h.salt == salt
  {
    PasswordHash(salt, password)
  }

  predicate Verify(h: PasswordHash, password: string)
  {
    h.preimage == password
  }

  /**
   * A hash verifies the password it was made from, and no other. On the
   * symbolic hash this is `Verify` unfolded: it records the assumption that
   * Argon2 is collision-free, and proves nothing about Argon2 itself.
   */
  lemma {:induction false} HashVerifies(password: string, salt: nat, attempt: string)
    ensures Verify(Hash(password, salt), attempt) <==> attempt == password
  {
  }

  // ---------------------------------------------------------------------------
  // The users table.

  /** A row of `users`; NULL history columns are `None`. */
  datatype Account = Account(
    id: nat,
    username: string,
    email: string,
    passwordHash: PasswordHash,
    ipHistory: Option<seq<Provenance.Entry>>,
    deviceHistory: Option<seq<Provenance.Entry>>,
    createdAt: int,
    updatedAt: int,
    lastLoginAt: Option<int>,
    failedLoginAttempts: nat,
    lockedUntil: Option<int>)

  /**
   * The table's invariant: ids follow positions, `username` and `email` are
   * each UNIQUE under COLLATE NOCASE, and both histories are bounded and
   * free of repeated keys.
   */
  ghost predicate AccountsValid(accounts: seq<Account>)
  {
    && (forall i :: 0 <= i < |accounts| ==> accounts[i].id == i + 1)
    && (forall i, j :: 0 <= i < j < |accounts| ==>
          !NoCaseEq(accounts[i].username, accounts[j].username) &&
          !NoCaseEq(accounts[i].email, accounts[j].email))
    && (forall i :: 0 <= i < |accounts| ==>
          Provenance.WellFormed(Provenance.OrEmpty(accounts[i].ipHistory)) &&
          Provenance.WellFormed(Provenance.OrEmpty(accounts[i].deviceHistory)))
  }

  /** `SELECT * FROM users WHERE username = ?` against the NOCASE column: the position of the match. */
  function FindByUsername(accounts: seq<Account>, username: string): (r: Option<nat>)
    ensures r.None? <==> forall i :: 0 <= i < |accounts| ==> !NoCaseEq(accounts[i].username, username)
    ensures r.Some? ==> r.value < |accounts| && NoCaseEq(accounts[r.value].username, username)
  {
    if accounts == [] then None
    else if NoCaseEq(accounts[0].username, username) then Some(0)
    else match FindByUsername(accounts[1..], username)
      case None => None
      case Some(i) => Some(i + 1)
  }

  /** `SELECT id FROM users WHERE username = ? OR email = ?` finds a row. */
  predicate Taken(accounts: seq<Account>, username: string, email: string)
  {
    exists i :: 0 <= i < |accounts| &&
      (NoCaseEq(accounts[i].username, username) || NoCaseEq(accounts[i].email, email))
  }

  /** The account is locked while `locked_until` lies in the future. */
  predicate IsLocked(a: Account, now: int)
  {
    a.lockedUntil.Some? && a.lockedUntil.value > now
  }

  /** On a valid table the lookup names the one account with that username, whatever its case. */
  lemma {:induction false} LookupIsCaseInsensitive(accounts: seq<Account>, username: string, other: string, k: nat)
    requires AccountsValid(accounts)
    requires k < |accounts| && NoCaseEq(accounts[k].username, username)
    requires NoCaseEq(other, username)
    ensures FindByUsername(accounts, username) == Some(k)
    ensures FindByUsername(accounts, other) == Some(k)
  {
    var i := FindByUsername(accounts, username).value;
    if i != k {
      assert false;
    }
    assert NoCaseEq(accounts[k].username, other);
    var i' := FindByUsername(accounts, other).value;
    if i' != k {
      assert false;
    }
  }

  /** Replacing one row by one with the same id, username and email and well-formed histories keeps the table valid. */
  lemma {:induction false} UpdatePreservesValid(accounts: seq<Account>, i: nat, a: Account)
    requires AccountsValid(accounts) && i < |accounts|
    requires a.id == accounts[i].id && a.username == accounts[i].username && a.email == accounts[i].email
    requires Provenance.WellFormed(Provenance.OrEmpty(a.ipHistory))
    requires Provenance.WellFormed(Provenance.OrEmpty(a.deviceHistory))
    ensures AccountsValid(accounts[i := a])
  {
    var s := accounts[i := a];
    forall k | 0 <= k < |s|
      ensures s[k].id == accounts[k].id && s[k].username == accounts[k].username && s[k].email == accounts[k].email
    {
    }
  }

  // ---------------------------------------------------------------------------
  // registerUser (authService.js:25-69).

  /** The row `registerUser` inserts: one-entry histories without a count. */
  function NewAccount(id: nat, username: string, email: string, password: string, salt: nat,
                      ip: string, userAgent: string, deviceHash: string, now: int): (a: Account)
    ensures a.id == id && a.username == username && a.email == email
    ensures Verify(a.passwordHash, password)
    ensures a.ipHistory == Some([Provenance.Entry(ip, None, now, None)])
    ensures a.deviceHistory == Some([Provenance.Entry(deviceHash, Some(userAgent), now, None)])
    ensures a.failedLoginAttempts == 0 && a.lockedUntil == None && a.lastLoginAt == None
  {
    Account(id, username, email, Hash(password, salt),
            Some([Provenance.Entry(ip, None, now, None)]),
            Some([Provenance.Entry(deviceHash, Some(userAgent), now, None)]),
            now, now, None, 0, None)
  }

  function RegisterEntry(id: nat, ip: string, userAgent: string, deviceHash: string): Audit.AuditEntry
  {
    Audit.AuditEntry(Some(id), Audit.Register, ip, deviceHash, userAgent, None, true)
  }

  /** Inserting a row that collides with nobody keeps the table valid. */
  lemma {:induction false} RegisterPreservesValid(accounts: seq<Account>, username: string, email: string,
                                                 password: string, salt: nat, ip: string,
                                                 userAgent: string, deviceHash: string, now: int)
    requires AccountsValid(accounts) && !Taken(accounts, username, email)
    ensures AccountsValid(accounts + [NewAccount(|accounts| + 1, username, email, password, salt,
                                                ip, userAgent, deviceHash, now)])
  {
    var a := NewAccount(|accounts| + 1, username, email, password, salt, ip, userAgent, deviceHash, now);
    var s := accounts + [a];
    forall i, j | 0 <= i < j < |s|
      ensures !NoCaseEq(s[i].username, s[j].username) && !NoCaseEq(s[i].email, s[j].email)
    {
      if j == |accounts| {
        assert s[j] == a;
        assert !(NoCaseEq(accounts[i].username, username) || NoCaseEq(accounts[i].email, email));
      } else {
        assert s[i] == accounts[i] && s[j] == accounts[j];
      }
    }
  }

  /** What a successful registration returns. */
  datatype Registered = Registered(id: nat, username: string)

  // ---------------------------------------------------------------------------
  // loginUser (authService.js:75-172).

  /** The successful result: the account as read before the login, and the alerts. */
  datatype LoginOk = LoginOk(
    id: nat,
    username: string,
    email: string,
    passwordHash: PasswordHash,
    lastLogin: Option<int>,
    alerts: seq<Provenance.Alert>)

  /** One login attempt: what the caller gets, the table afterwards, and the audit entry written. */
  datatype LoginOutcome = LoginOutcome(
    result: Result<LoginOk, Errors.ThrownError>,
    accounts: seq<Account>,
    audit: Option<Audit.AuditEntry>)

  /** The row after a wrong password: one more failure, and a 15-minute lock from the fifth on. */
  function AfterFailure(a: Account, now: int): Account
  {
    var n := a.failedLoginAttempts + 1;
    a.(failedLoginAttempts := n, lockedUntil := if n >= MaxFailedAttempts then Some(now + LockoutMs) else None)
  }

  /** The row after a correct password: counters cleared, login stamped, both histories merged. */
  function AfterSuccess(a: Account, ip: string, userAgent: string, deviceHash: string, now: int): Account
  {
    a.(failedLoginAttempts := 0, lockedUntil := None, lastLoginAt := Some(now),
       ipHistory := Some(Provenance.Merge(Provenance.OrEmpty(a.ipHistory), ip, None, now)),
       deviceHistory := Some(Provenance.Merge(Provenance.OrEmpty(a.deviceHistory), deviceHash, Some(userAgent), now)),
       updatedAt := now)
  }

  /** The alerts of a login, computed from the histories stored before it. */
  function LoginAlerts(a: Account, ip: string, userAgent: string, deviceHash: string): seq<Provenance.Alert>
  {
    Provenance.CheckNewIpAndDevice(Provenance.OrEmpty(a.ipHistory), Provenance.OrEmpty(a.deviceHistory),
                                   ip, deviceHash, userAgent)
  }

  /** The username names an account that is not locked and whose hash verifies the password. */
  predicate Admits(accounts: seq<Account>, username: string, password: string, now: int)
  {
    match FindByUsername(accounts, username)
    case None => false
    case Some(i) => !IsLocked(accounts[i], now) && Verify(accounts[i].passwordHash, password)
  }

  /** The specification of `loginUser`: existence, then lock, then password. */
  function LoginStep(accounts: seq<Account>, username: string, password: string,
                     ip: string, userAgent: string, deviceHash: string, now: int): (o: LoginOutcome)
    ensures |o.accounts| == |accounts|
    ensures o.result.Ok? <==> Admits(accounts, username, password, now)
    ensures o.result.Err? ==> o.result.error.cls == Errors.AuthenticationClass
    ensures FindByUsername(accounts, username).None? ==> o.accounts == accounts
    ensures o.audit.None? <==> o.result.Err? && o.result.error.message == LockedMessage
  {
    match FindByUsername(accounts, username)
    case None =>
      LoginOutcome(Err(Errors.AuthenticationError(Errors.InvalidCredentialsMessage)), accounts,
                   Some(Audit.AuditEntry(None, Audit.LoginFailed, ip, deviceHash, userAgent,
                                         Some(Audit.UserNotFound(username)), false)))
    case Some(i) =>
      var a := accounts[i];
      if IsLocked(a, now) then
        LoginOutcome(Err(Errors.AuthenticationError(LockedMessage)), accounts, None)
      else if !Verify(a.passwordHash, password) then
        var a' := AfterFailure(a, now);
        LoginOutcome(Err(Errors.AuthenticationError(Errors.InvalidCredentialsMessage)), accounts[i := a'],
                     Some(Audit.AuditEntry(Some(a.id), Audit.LoginFailed, ip, deviceHash, userAgent,
                                           Some(Audit.InvalidPassword(a'.failedLoginAttempts)), false)))
      else
        var alerts := LoginAlerts(a, ip, userAgent, deviceHash);
        LoginOutcome(Ok(LoginOk(a.id, a.username, a.email, a.passwordHash, a.lastLoginAt, alerts)),
                     accounts[i := AfterSuccess(a, ip, userAgent, deviceHash, now)],
                     Some(Audit.AuditEntry(Some(a.id), Audit.LoginSuccess, ip, deviceHash, userAgent,
                                           Some(Audit.LoginAlerts(alerts)), true)))
  }

  /** The audit rows an attempt appends: its entry if it has one and the insert succeeds. */
  function Appended(audit: Option<Audit.AuditEntry>, records: seq<Audit.AuditRecord>, now: int, persisted: bool)
    : (r: seq<Audit.AuditRecord>)
    ensures |r| <= 1
    ensures |r| == 1 <==> audit.Some? && persisted
  {
    if audit.Some? && persisted then [Audit.Stored(audit.value, |records| + 1, now)] else []
  }

  /** Every login attempt keeps the table valid. */
  lemma {:induction false} LoginPreservesValid(accounts: seq<Account>, username: string, password: string,
                                              ip: string, userAgent: string, deviceHash: string, now: int)
    requires AccountsValid(accounts)
    ensures AccountsValid(LoginStep(accounts, username, password, ip, userAgent, deviceHash, now).accounts)
  {
    var found := FindByUsername(accounts, username);
    if found.Some? {
      var i := found.value;
      var a := accounts[i];
      if !IsLocked(a, now) {
        if Verify(a.passwordHash, password) {
          Provenance.MergePreservesWellFormed(Provenance.OrEmpty(a.ipHistory), ip, None, now);
          Provenance.MergePreservesWellFormed(Provenance.OrEmpty(a.deviceHistory), deviceHash, Some(userAgent), now);
          UpdatePreservesValid(accounts, i, AfterSuccess(a, ip, userAgent, deviceHash, now));
        } else {
          UpdatePreservesValid(accounts, i, AfterFailure(a, now));
        }
      }
    }
  }

  /**
   * An unknown username changes no account, writes a LOGIN_FAILED record with
   * no user id and reason USER_NOT_FOUND, and fails exactly as a wrong
   * password does, so the two cannot be told apart.
   */
  lemma {:induction false} UnknownUserLooksLikeWrongPassword(
    accounts: seq<Account>, username: string, password: string,
    others: seq<Account>, known: string, wrong: string,
    ip: string, userAgent: string, deviceHash: string, now: int)
    requires FindByUsername(accounts, username).None?
    requires FindByUsername(others, known).Some?
    requires var a := others[FindByUsername(others, known).value];
      !IsLocked(a, now) && !Verify(a.passwordHash, wrong)
    ensures var o := LoginStep(accounts, username, password, ip, userAgent, deviceHash, now);
      && o.accounts == accounts
      && o.audit == Some(Audit.AuditEntry(None, Audit.LoginFailed, ip, deviceHash, userAgent,
                                          Some(Audit.UserNotFound(username)), false))
      && o.result == LoginStep(others, known, wrong, ip, userAgent, deviceHash, now).result
      && o.result.Err? && o.result.error.cls == Errors.AuthenticationClass
      && o.result.error.message == Errors.InvalidCredentialsMessage
  {
  }

  /** While locked, every password is refused with the lock message, and nothing is changed or logged. */
  lemma {:induction false} LockedAccountRefused(accounts: seq<Account>, username: string, password: string,
                                               ip: string, userAgent: string, deviceHash: string, now: int)
    requires FindByUsername(accounts, username).Some?
    requires IsLocked(accounts[FindByUsername(accounts, username).value], now)
    ensures var o := LoginStep(accounts, username, password, ip, userAgent, deviceHash, now);
      && o.result == Err(Errors.AuthenticationError(LockedMessage))
      && o.accounts == accounts
      && o.audit == None
  {
  }

  /**
   * A wrong password on an unlocked account: the counter goes up by one, the
   * lock is set to now + 15 minutes iff the new count is at least 5 and
   * cleared otherwise, nothing else in the table changes, a LOGIN_FAILED
   * record carries the new count, and the generic credentials error is raised.
   */
  lemma {:induction false} WrongPasswordCounts(accounts: seq<Account>, username: string, password: string,
                                              ip: string, userAgent: string, deviceHash: string, now: int)
    requires FindByUsername(accounts, username).Some?
    requires var a := accounts[FindByUsername(accounts, username).value];
      !IsLocked(a, now) && !Verify(a.passwordHash, password)
    ensures var i := FindByUsername(accounts, username).value;
      var a, o := accounts[i], LoginStep(accounts, username, password, ip, userAgent, deviceHash, now);
      && |o.accounts| == |accounts|
      && (forall k :: 0 <= k < |accounts| && k != i ==> o.accounts[k] == accounts[k])
      && o.accounts[i].failedLoginAttempts == a.failedLoginAttempts + 1
      && (o.accounts[i].failedLoginAttempts >= 5 ==> o.accounts[i].lockedUntil == Some(now + 900000))
      && (o.accounts[i].failedLoginAttempts < 5 ==> o.accounts[i].lockedUntil == None)
      && o.accounts[i] == a.(failedLoginAttempts := o.accounts[i].failedLoginAttempts,
                             lockedUntil := o.accounts[i].lockedUntil)
      && o.audit == Some(Audit.AuditEntry(Some(a.id), Audit.LoginFailed, ip, deviceHash, userAgent,
                                          Some(Audit.InvalidPassword(a.failedLoginAttempts + 1)), false))
      && o.result == Err(Errors.AuthenticationError(Errors.InvalidCredentialsMessage))
  {
  }

  /**
   * A correct password on an unlocked account clears the counter and the
   * lock, stamps the login time, merges the origin into both histories, and
   * returns the account with the last login as it was BEFORE this one and
   * the alerts computed from the histories as they were before it.
   */
  lemma {:induction false} CorrectPasswordLogsIn(accounts: seq<Account>, username: string, password: string,
                                                ip: string, userAgent: string, deviceHash: string, now: int)
    requires FindByUsername(accounts, username).Some?
    requires var a := accounts[FindByUsername(accounts, username).value];
      !IsLocked(a, now) && Verify(a.passwordHash, password)
    ensures var i := FindByUsername(accounts, username).value;
      var a, o := accounts[i], LoginStep(accounts, username, password, ip, userAgent, deviceHash, now);
      var ipH, devH := Provenance.OrEmpty(a.ipHistory), Provenance.OrEmpty(a.deviceHistory);
      && |o.accounts| == |accounts|
      && (forall k :: 0 <= k < |accounts| && k != i ==> o.accounts[k] == accounts[k])
      && o.accounts[i].failedLoginAttempts == 0
      && o.accounts[i].lockedUntil == None
      && o.accounts[i].lastLoginAt == Some(now)
      && o.accounts[i].ipHistory == Some(Provenance.Merge(ipH, ip, None, now))
      && o.accounts[i].deviceHistory == Some(Provenance.Merge(devH, deviceHash, Some(userAgent), now))
      && o.result.Ok?
      && o.result.value.lastLogin == a.lastLoginAt
      && o.result.value.id == a.id && o.result.value.username == a.username
      && o.result.value.alerts == Provenance.CheckNewIpAndDevice(ipH, devH, ip, deviceHash, userAgent)
      && o.audit.Some? && o.audit.value.action == Audit.LoginSuccess && o.audit.value.success
  {
  }

  // ---------------------------------------------------------------------------
  // Consequences over several attempts.

  /** Consecutive attempts with one username and the given passwords at the given times. */
  function LoginMany(accounts: seq<Account>, username: string, passwords: seq<string>, times: seq<int>,
                     ip: string, userAgent: string, deviceHash: string): seq<Account>
    requires |passwords| == |times|
    decreases |passwords|
  {
    if passwords == [] then accounts
    else
      var next := LoginStep(accounts, username, passwords[0], ip, userAgent, deviceHash, times[0]).accounts;
      LoginMany(next, username, passwords[1..], times[1..], ip, userAgent, deviceHash)
  }

  /** A failed or successful attempt keeps the account at its position with the same credentials. */
  lemma {:induction false} StepKeepsIdentity(accounts: seq<Account>, username: string, password: string,
                                            ip: string, userAgent: string, deviceHash: string, now: int)
    requires FindByUsername(accounts, username).Some?
    ensures var i := FindByUsername(accounts, username).value;
      var s := LoginStep(accounts, username, password, ip, userAgent, deviceHash, now).accounts;
      && |s| == |accounts|
      && (forall k :: 0 <= k < |s| ==> s[k].username == accounts[k].username)
      && s[i].passwordHash == accounts[i].passwordHash
      && FindByUsername(s, username) == Some(i)
  {
    var i := FindByUsername(accounts, username).value;
    var a := accounts[i];
    var s := LoginStep(accounts, username, password, ip, userAgent, deviceHash, now).accounts;
    var r := if IsLocked(a, now) then a
             else if !Verify(a.passwordHash, password) then AfterFailure(a, now)
             else AfterSuccess(a, ip, userAgent, deviceHash, now);
    assert s == accounts[i := r];
    assert r.username == a.username && r.passwordHash == a.passwordHash;
    FindSameUsernames(accounts, s, username);
  }

  /** The lookup depends only on the usernames. */
  lemma {:induction false} FindSameUsernames(s: seq<Account>, t: seq<Account>, username: string)
    requires |s| == |t| && forall k :: 0 <= k < |s| ==> s[k].username == t[k].username
    ensures FindByUsername(s, username) == FindByUsername(t, username)
    decreases |s|
  {
    if s != [] {
      FindSameUsernames(s[1..], t[1..], username);
    }
  }

  /** One wrong password on an unlocked account: only that row changes, as `AfterFailure` says, and it is still found. */
  lemma {:induction false} FailureStep(accounts: seq<Account>, username: string, password: string,
                                      ip: string, userAgent: string, deviceHash: string, now: int)
    requires FindByUsername(accounts, username).Some?
    requires var a := accounts[FindByUsername(accounts, username).value];
      !IsLocked(a, now) && !Verify(a.passwordHash, password)
    ensures var i := FindByUsername(accounts, username).value;
      var s := LoginStep(accounts, username, password, ip, userAgent, deviceHash, now).accounts;
      && s == accounts[i := AfterFailure(accounts[i], now)]
      && FindByUsername(s, username) == Some(i)
  {
    StepKeepsIdentity(accounts, username, password, ip, userAgent, deviceHash, now);
  }

  /** However the attempts go, the username still finds the same row. */
  lemma {:induction false} LoginManyKeepsLookup(accounts: seq<Account>, username: string, i: nat,
                                               passwords: seq<string>, times: seq<int>,
                                               ip: string, userAgent: string, deviceHash: string)
    requires |passwords| == |times|
    requires FindByUsername(accounts, username) == Some(i)
    ensures FindByUsername(LoginMany(accounts, username, passwords, times, ip, userAgent, deviceHash), username) == Some(i)
    decreases |passwords|
  {
    if passwords != [] {
      StepKeepsIdentity(accounts, username, passwords[0], ip, userAgent, deviceHash, times[0]);
      var next := LoginStep(accounts, username, passwords[0], ip, userAgent, deviceHash, times[0]).accounts;
      LoginManyKeepsLookup(next, username, i, passwords[1..], times[1..], ip, userAgent, deviceHash);
    }
  }

  /** The first of several wrong passwords: the rest start from the table `AfterFailure` leaves. */
  lemma {:induction false} FailureThenRest(accounts: seq<Account>, username: string, i: nat,
                                          passwords: seq<string>, times: seq<int>,
                                          ip: string, userAgent: string, deviceHash: string)
    requires |passwords| == |times| && passwords != []
    requires FindByUsername(accounts, username) == Some(i)
    requires !IsLocked(accounts[i], times[0]) && !Verify(accounts[i].passwordHash, passwords[0])
    ensures var next := accounts[i := AfterFailure(accounts[i], times[0])];
      && FindByUsername(next, username) == Some(i)
      && LoginMany(accounts, username, passwords, times, ip, userAgent, deviceHash)
         == LoginMany(next, username, passwords[1..], times[1..], ip, userAgent, deviceHash)
  {
    FailureStep(accounts, username, passwords[0], ip, userAgent, deviceHash, times[0]);
  }

  /** The row after wrong passwords at the given times, one `AfterFailure` each. */
  function FailRow(a: Account, times: seq<int>): (r: Account)
    ensures r.passwordHash == a.passwordHash && r.username == a.username
    decreases |times|
  {
    if times == [] then a else FailRow(AfterFailure(a, times[0]), times[1..])
  }

  /** The counter rises by one per failure; the lock is the one the last failure set, or none. */
  lemma {:induction false} FailRowCounts(a: Account, times: seq<int>)
    requires times != []
    ensures var r, n := FailRow(a, times), a.failedLoginAttempts + |times|;
      && r.failedLoginAttempts == n
      && r.lockedUntil == (if n >= MaxFailedAttempts then Some(times[|times| - 1] + LockoutMs) else None)
    decreases |times|
  {
    var ts := times[1..];
    if ts != [] {
      assert ts[|ts| - 1] == times[|times| - 1];
      FailRowCounts(AfterFailure(a, times[0]), ts);
    }
  }

  /**
   * Wrong passwords on an account that stays unlocked until the last of
   * them change that row alone, one failure at a time.
   */
  lemma {:induction false} FailuresChangeOneRow(accounts: seq<Account>, username: string, i: nat,
                                               passwords: seq<string>, times: seq<int>,
                                               ip: string, userAgent: string, deviceHash: string)
    requires |passwords| == |times| && passwords != []
    requires FindByUsername(accounts, username) == Some(i)
    requires !IsLocked(accounts[i], times[0])
    requires forall k :: 0 <= k < |passwords| ==> !Verify(accounts[i].passwordHash, passwords[k])
    requires accounts[i].failedLoginAttempts + |passwords| - 1 < MaxFailedAttempts
    ensures LoginMany(accounts, username, passwords, times, ip, userAgent, deviceHash)
            == accounts[i := FailRow(accounts[i], times)]
    decreases |passwords|
  {
    var b := AfterFailure(accounts[i], times[0]);
    var next := accounts[i := b];
    var ps, ts := passwords[1..], times[1..];
    FailureThenRest(accounts, username, i, passwords, times, ip, userAgent, deviceHash);
    assert FailRow(accounts[i], times) == FailRow(b, ts);
    if ps != [] {
      assert b.lockedUntil == None && b.passwordHash == accounts[i].passwordHash;
      forall k | 0 <= k < |ps| ensures !Verify(b.passwordHash, ps[k]) {
        assert ps[k] == passwords[k + 1];
      }
      FailuresChangeOneRow(next, username, i, ps, ts, ip, userAgent, deviceHash);
      assert next[i := FailRow(b, ts)] == accounts[i := FailRow(b, ts)];
    } else {
      assert LoginMany(next, username, ps, ts, ip, userAgent, deviceHash) == next;
    }
  }

  /**
   * `k` wrong passwords in a row on an account that is unlocked when they
   * start and whose counter stays below 5 until the last of them: the counter
   * rises by `k`, and the account ends locked for 15 minutes from the last
   * attempt exactly when the counter reaches 5. The counter is never reset by
   * a lock running out, so an account already at 4 or more locks again on its
   * very next wrong password.
   */
  lemma {:induction false} WrongPasswordsAccumulate(accounts: seq<Account>, username: string, i: nat,
                                                   passwords: seq<string>, times: seq<int>,
                                                   ip: string, userAgent: string, deviceHash: string)
    requires |passwords| == |times| && passwords != []
    requires FindByUsername(accounts, username) == Some(i)
    requires !IsLocked(accounts[i], times[0])
    requires forall k :: 0 <= k < |passwords| ==> !Verify(accounts[i].passwordHash, passwords[k])
    requires accounts[i].failedLoginAttempts + |passwords| - 1 < MaxFailedAttempts
    ensures var s := LoginMany(accounts, username, passwords, times, ip, userAgent, deviceHash);
      var n := accounts[i].failedLoginAttempts + |passwords|;
      && FindByUsername(s, username) == Some(i)
      && s[i].failedLoginAttempts == n
      && s[i].lockedUntil == (if n >= MaxFailedAttempts then Some(times[|times| - 1] + LockoutMs) else None)
  {
    FailuresChangeOneRow(accounts, username, i, passwords, times, ip, userAgent, deviceHash);
    FailRowCounts(accounts[i], times);
    LoginManyKeepsLookup(accounts, username, i, passwords, times, ip, userAgent, deviceHash);
  }

  /**
   * Five wrong passwords in a row lock a fresh account; the right password
   * within the next 15 minutes is then refused with the lock message.
   */
  lemma {:induction false} FiveFailuresLockOut(accounts: seq<Account>, username: string,
                                              passwords: seq<string>, times: seq<int>, password: string,
                                              ip: string, userAgent: string, deviceHash: string, now: int)
    requires |passwords| == |times| == 5
    requires FindByUsername(accounts, username).Some?
    requires var a := accounts[FindByUsername(accounts, username).value];
      && a.failedLoginAttempts == 0 && !IsLocked(a, times[0])
      && Verify(a.passwordHash, password)
      && (forall k :: 0 <= k < 5 ==> !Verify(a.passwordHash, passwords[k]))
    requires times[4] <= now < times[4] + LockoutMs
    ensures var s := LoginMany(accounts, username, passwords, times, ip, userAgent, deviceHash);
      LoginStep(s, username, password, ip, userAgent, deviceHash, now).result
        == Err(Errors.AuthenticationError(LockedMessage))
  {
    var i := FindByUsername(accounts, username).value;
    WrongPasswordsAccumulate(accounts, username, i, passwords, times, ip, userAgent, deviceHash);
  }

  /**
   * A freshly registered account logs in with its password, under its
   * username in any letter case, from the ip and device it registered from:
   * no alerts, and no previous login.
   */
  lemma {:induction false} RegisteredAccountLogsIn(accounts: seq<Account>, username: string, typed: string,
                                                  email: string, password: string, salt: nat, ip: string,
                                                  userAgent: string, deviceHash: string, t0: int, now: int)
    requires AccountsValid(accounts) && !Taken(accounts, username, email)
    requires NoCaseEq(typed, username)
    ensures var a := NewAccount(|accounts| + 1, username, email, password, salt, ip, userAgent, deviceHash, t0);
      var o := LoginStep(accounts + [a], typed, password, ip, userAgent, deviceHash, now);
      && o.result.Ok?
      && o.result.value.id == |accounts| + 1
      && o.result.value.lastLogin == None
      && o.result.value.alerts == []
  {
    var a := NewAccount(|accounts| + 1, username, email, password, salt, ip, userAgent, deviceHash, t0);
    var s := accounts + [a];
    RegisterPreservesValid(accounts, username, email, password, salt, ip, userAgent, deviceHash, t0);
    assert s[|accounts|] == a;
    assert NoCaseEq(a.username, username);
    LookupIsCaseInsensitive(s, username, typed, |accounts|);
    Provenance.AlertRules([Provenance.Entry(ip, None, t0, None)],
                          [Provenance.Entry(deviceHash, Some(userAgent), t0, None)], ip, deviceHash, userAgent);
    assert Provenance.Keys([Provenance.Entry(ip, None, t0, None)]) == [ip];
    assert Provenance.Keys([Provenance.Entry(deviceHash, Some(userAgent), t0, None)]) == [deviceHash];
  }

  // ---------------------------------------------------------------------------
  // The service over the database.

  class AccountStore {
    var accounts: seq<Account>
    const log: Audit.AuditLog

    ghost predicate Valid()
      reads this, log
    {
      AccountsValid(accounts) && log.Valid()
    }

    constructor ()
      ensures Valid() && accounts == [] && fresh(log) && log.records == []
    {
      accounts := [];
      log := new Audit.AuditLog();
    }

    /**
     * `registerUser`: a username or email already present in any letter case
     * is refused with one generic validation error whichever collided, and
     * nothing changes; otherwise one account is inserted with one-entry
     * histories for this ip and device, a REGISTER record is written (when
     * the insert into the log succeeds), and `{id, username}` is returned.
     */
    method Register(username: string, email: string, password: string, salt: nat,
                    ip: string, userAgent: string, deviceHash: string, now: int, persisted: bool)
      returns (r: Result<Registered, Errors.ThrownError>)
      requires Valid()
      modifies this, log
      ensures Valid()
      ensures Taken(old(accounts), username, email) ==>
        && r == Err(Errors.ValidationError(DuplicateUserMessage))
        && accounts == old(accounts) && log.records == old(log.records)
      ensures !Taken(old(accounts), username, email) ==>
        var id := |old(accounts)| + 1;
        && r == Ok(Registered(id, username))
        && accounts == old(accounts) + [NewAccount(id, username, email, password, salt, ip, userAgent, deviceHash, now)]
        && log.records == old(log.records) + Appended(Some(RegisterEntry(id, ip, userAgent, deviceHash)),
                                                       old(log.records), now, persisted)
    {
      if Taken(accounts, username, email) {
        return Err(Errors.ValidationError(DuplicateUserMessage));
      }
      var id := |accounts| + 1;
      RegisterPreservesValid(accounts, username, email, password, salt, ip, userAgent, deviceHash, now);
      accounts := accounts + [NewAccount(id, username, email, password, salt, ip, userAgent, deviceHash, now)];
      log.LogAction(RegisterEntry(id, ip, userAgent, deviceHash), now, persisted);
      r := Ok(Registered(id, username));
    }

    /**
     * `loginUser`, step by step: look the username up, refuse a locked
     * account, verify the password, then either record the failure or clear
     * the counters, compute the alerts from the stored histories and merge
     * the new origin into them. The outcome is `LoginStep`'s.
     */
    method Login(username: string, password: string, ip: string, userAgent: string, deviceHash: string,
                 now: int, persisted: bool)
      returns (r: Result<LoginOk, Errors.ThrownError>)
      requires Valid()
      modifies this, log
      ensures Valid()
      ensures var o := LoginStep(old(accounts), username, password, ip, userAgent, deviceHash, now);
        && r == o.result
        && accounts == o.accounts
        && log.records == old(log.records) + Appended(o.audit, old(log.records), now, persisted)
    {
      var entry;
      r, entry := Attempt(username, password, ip, userAgent, deviceHash, now);
      if entry.Some? {
        log.LogAction(entry.value, now, persisted);
      }
    }

    /**
     * The body of `loginUser` up to the audit call: the outcome, the new
     * table, and the record to write, if any.
     */
    method Attempt(username: string, password: string, ip: string, userAgent: string, deviceHash: string, now: int)
      returns (r: Result<LoginOk, Errors.ThrownError>, entry: Option<Audit.AuditEntry>)
      requires AccountsValid(accounts)
      modifies this
      ensures AccountsValid(accounts)
      ensures var o := LoginStep(old(accounts), username, password, ip, userAgent, deviceHash, now);
        r == o.result && accounts == o.accounts && entry == o.audit
    {
      LoginPreservesValid(accounts, username, password, ip, userAgent, deviceHash, now);
      var found := FindByUsername(accounts, username);
      if found.None? {
        entry := Some(Audit.AuditEntry(None, Audit.LoginFailed, ip, deviceHash, userAgent,
                                       Some(Audit.UserNotFound(username)), false));
        return Err(Errors.AuthenticationError(Errors.InvalidCredentialsMessage)), entry;
      }
      var i := found.value;
      var user := accounts[i];
      if IsLocked(user, now) {
        return Err(Errors.AuthenticationError(LockedMessage)), None;
      }
      if !Verify(user.passwordHash, password) {
        var newFailedAttempts := RecordFailure(i, now);
        entry := Some(Audit.AuditEntry(Some(user.id), Audit.LoginFailed, ip, deviceHash, userAgent,
                                       Some(Audit.InvalidPassword(newFailedAttempts)), false));
        return Err(Errors.AuthenticationError(Errors.InvalidCredentialsMessage)), entry;
      }
      var alerts := Provenance.CheckNewIpAndDevice(Provenance.OrEmpty(user.ipHistory),
                                                   Provenance.OrEmpty(user.deviceHistory),
                                                   ip, deviceHash, userAgent);
      RecordSuccess(i, ip, userAgent, deviceHash, now);
      entry := Some(Audit.AuditEntry(Some(user.id), Audit.LoginSuccess, ip, deviceHash, userAgent,
                                     Some(Audit.LoginAlerts(alerts)), true));
      r := Ok(LoginOk(user.id, user.username, user.email, user.passwordHash, user.lastLoginAt, alerts));
    }

    /** The failure branch of `loginUser`: bump the counter and set or clear the lock. */
    method RecordFailure(i: nat, now: int) returns (newFailedAttempts: nat)
      requires i < |accounts|
      modifies this
      ensures accounts == old(accounts)[i := AfterFailure(old(accounts)[i], now)]
      ensures newFailedAttempts == old(accounts)[i].failedLoginAttempts + 1
    {
      newFailedAttempts := accounts[i].failedLoginAttempts + 1;
      var lockUntil: Option<int> := None;
      if newFailedAttempts >= MaxFailedAttempts {
        lockUntil := Some(now + LockoutMs);
      }
      accounts := accounts[i := accounts[i].(failedLoginAttempts := newFailedAttempts, lockedUntil := lockUntil)];
    }

    /** The success branch of `loginUser`: clear the counters, stamp the login, then merge both histories. */
    method RecordSuccess(i: nat, ip: string, userAgent: string, deviceHash: string, now: int)
      requires i < |accounts|
      modifies this
      ensures accounts == old(accounts)[i := AfterSuccess(old(accounts)[i], ip, userAgent, deviceHash, now)]
    {
      accounts := accounts[i := accounts[i].(failedLoginAttempts := 0, lockedUntil := None, lastLoginAt := Some(now))];
      var stored := accounts[i];
      var ipHistory := Provenance.UpdateHistoryList(Provenance.OrEmpty(stored.ipHistory), ip, None, now);
      var deviceHistory := Provenance.UpdateHistoryList(Provenance.OrEmpty(stored.deviceHistory),
                                                        deviceHash, Some(userAgent), now);
      accounts := accounts[i := stored.(ipHistory := Some(ipHistory), deviceHistory := Some(deviceHistory),
                                        updatedAt := now)];
    }
  }
}
