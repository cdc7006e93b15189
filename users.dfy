/**
 * The profile queries of userService.js over the users table, and the
 * account-age phrase shown on the dashboard. Times are integer milliseconds.
 */
module Users {
  import opened Common
  import Errors
  import Provenance
  import Auth

  const UserNotFoundMessage: string := "Usuario no encontrado"
  const DayMs: nat := 1000 * 60 * 60 * 24

  datatype Stats = Stats(totalIps: nat, totalDevices: nat, accountAge: string)

  datatype UserProfile = UserProfile(
    id: nat,
    username: string,
    email: string,
    passwordHash: Auth.PasswordHash,
    createdAt: int,
    lastLoginAt: Option<int>,
    ipHistory: seq<Provenance.Entry>,
    deviceHistory: seq<Provenance.Entry>,
    stats: Stats)

  datatype UserHistory = UserHistory(ipHistory: seq<Provenance.Entry>, deviceHistory: seq<Provenance.Entry>)

  /** `SELECT ... FROM users WHERE id = ?`. */
  function FindById(accounts: seq<Auth.Account>, userId: int): (r: Option<Auth.Account>)
    ensures r.None? <==> forall i :: 0 <= i < |accounts| ==> accounts[i].id != userId
    ensures r.Some? ==> r.value in accounts && r.value.id == userId
  {
    if accounts == [] then None
    else if accounts[0].id == userId then Some(accounts[0])
    else FindById(accounts[1..], userId)
  }

  /** `Math.floor(diffMs / 86400000)`: whole days, rounded down also for a negative difference. */
  function DiffDays(created: int, now: int): (d: int)
    ensures d * DayMs <= now - created < (d + 1) * DayMs
  {
    (now - created) / DayMs
  }

  /** The age phrase for a number of whole days. */
  function AgePhrase(diffDays: int): string
  {
    if diffDays == 0 then "Hoy"
    else if diffDays == 1 then "1 día"
    else if diffDays < 30 then IntToString(diffDays) + " días"
    else if diffDays < 365 then NatToString(diffDays / 30) + " meses"
    else NatToString(diffDays / 365) + " años"
  }

  function CalculateAccountAge(createdAt: int, now: int): (r: string)
    ensures 0 <= now - createdAt < DayMs ==> r == "Hoy"
    ensures DayMs <= now - createdAt < 2 * DayMs ==> r == "1 día"
    ensures now - createdAt >= DayMs ==> r != "Hoy"
  {
    AgePhrase(DiffDays(createdAt, now))
  }

  /**
   * The buckets by whole days: 0 is 'Hoy', 1 is '1 día', up to 29 it is the
   * day count, below 365 whole 30-day months (1 to 12), and from there on
   * whole 365-day years.
   */
  lemma {:induction false} AgeBuckets(d: int)
    ensures d == 0 ==> AgePhrase(d) == "Hoy"
    ensures d == 1 ==> AgePhrase(d) == "1 día"
    ensures 2 <= d < 30 ==> AgePhrase(d) == NatToString(d) + " días"
    ensures 30 <= d < 365 ==>
      exists m: nat :: 1 <= m <= 12 && m * 30 <= d < (m + 1) * 30 && AgePhrase(d) == NatToString(m) + " meses"
    ensures 365 <= d ==>
      exists y: nat :: 1 <= y && y * 365 <= d < (y + 1) * 365 && AgePhrase(d) == NatToString(y) + " años"
  {
    if 30 <= d < 365 {
      var m: nat := d / 30;
      assert 1 <= m <= 12 && m * 30 <= d < (m + 1) * 30;
    }
    if 365 <= d {
      var y: nat := d / 365;
      assert 1 <= y && y * 365 <= d < (y + 1) * 365;
    }
  }

  /** 'Hoy' exactly when the account is less than one day old. */
  lemma {:induction false} TodayMeansUnderADay(createdAt: int, now: int)
    ensures CalculateAccountAge(createdAt, now) == "Hoy" <==> 0 <= now - createdAt < DayMs
  {
    var d := DiffDays(createdAt, now);
    if d != 0 {
      var age := AgePhrase(d);
      if d == 1 {
        assert |age| == 5;
      } else if d < 30 {
        assert |age| >= 6;
      } else if d < 365 {
        assert |age| >= 7;
      } else {
        assert |age| >= 6;
      }
      if d >= 1 {
        assert d * DayMs >= DayMs;
      } else {
        assert (d + 1) * DayMs <= 0;
      }
    }
  }

  /**
   * A creation time in the future, however near, gives a negative day count,
   * shown as such: a clock running one second behind shows '-1 días'.
   */
  lemma {:induction false} FutureCreationShowsNegativeDays(createdAt: int, now: int)
    requires now < createdAt
    ensures DiffDays(createdAt, now) < 0
    ensures createdAt - now <= DayMs ==> DiffDays(createdAt, now) == -1
    ensures CalculateAccountAge(createdAt, now) == IntToString(DiffDays(createdAt, now)) + " días"
  {
    var d := DiffDays(createdAt, now);
    assert (d + 1) * DayMs <= 0;
  }

  /**
   * `getUserProfile`: the stored row echoed, with NULL histories read as
   * empty lists, and the stats; an unknown id is a NotFoundError.
   */
  function GetUserProfile(accounts: seq<Auth.Account>, userId: int, now: int)
    : (r: Result<UserProfile, Errors.ThrownError>)
    ensures FindById(accounts, userId).None? <==> r.Err?
    ensures r.Err? ==> r.error == Errors.NotFoundError(UserNotFoundMessage)
    ensures r.Ok? ==>
      var a, p := FindById(accounts, userId).value, r.value;
      && p.id == a.id && p.username == a.username && p.email == a.email
      && p.passwordHash == a.passwordHash && p.createdAt == a.createdAt && p.lastLoginAt == a.lastLoginAt
      && p.ipHistory == Provenance.OrEmpty(a.ipHistory)
      && p.deviceHistory == Provenance.OrEmpty(a.deviceHistory)
      && p.stats.totalIps == |p.ipHistory| && p.stats.totalDevices == |p.deviceHistory|
      && p.stats.accountAge == CalculateAccountAge(a.createdAt, now)
  {
    match FindById(accounts, userId)
    case None => Err(Errors.NotFoundError(UserNotFoundMessage))
    case Some(a) =>
      var ipHistory := Provenance.OrEmpty(a.ipHistory);
      var deviceHistory := Provenance.OrEmpty(a.deviceHistory);
      Ok(UserProfile(a.id, a.username, a.email, a.passwordHash, a.createdAt, a.lastLoginAt,
                     ipHistory, deviceHistory,
                     Stats(|ipHistory|, |deviceHistory|, CalculateAccountAge(a.createdAt, now))))
  }

  /** `getUserHistory`: the two histories only; an unknown id is a NotFoundError. */
  function GetUserHistory(accounts: seq<Auth.Account>, userId: int): (r: Result<UserHistory, Errors.ThrownError>)
    ensures FindById(accounts, userId).None? <==> r.Err?
    ensures r.Err? ==> r.error == Errors.NotFoundError(UserNotFoundMessage)
  {
    match FindById(accounts, userId)
    case None => Err(Errors.NotFoundError(UserNotFoundMessage))
    case Some(a) => Ok(UserHistory(Provenance.OrEmpty(a.ipHistory), Provenance.OrEmpty(a.deviceHistory)))
  }

  /**
   * The two queries agree: they fail together, and the history query returns
   * exactly the histories of the profile. On a valid table both are bounded
   * by 20 entries, so the stats never exceed 20.
   */
  lemma {:induction false} ProfileAndHistoryAgree(accounts: seq<Auth.Account>, userId: int, now: int)
    requires Auth.AccountsValid(accounts)
    ensures GetUserProfile(accounts, userId, now).Ok? <==> GetUserHistory(accounts, userId).Ok?
    ensures GetUserProfile(accounts, userId, now).Ok? ==>
      var p, h := GetUserProfile(accounts, userId, now).value, GetUserHistory(accounts, userId).value;
      && h.ipHistory == p.ipHistory && h.deviceHistory == p.deviceHistory
      && p.stats.totalIps <= Provenance.MaxHistorySize
      && p.stats.totalDevices <= Provenance.MaxHistorySize
  {
    var found := FindById(accounts, userId);
    if found.Some? {
      var a := found.value;
      var k :| 0 <= k < |accounts| && accounts[k] == a;
      assert Provenance.WellFormed(Provenance.OrEmpty(accounts[k].ipHistory));
    }
  }

  /** On a valid table, the profile of id k is the account at position k - 1. */
  lemma {:induction false} ProfileOfIdIsRow(accounts: seq<Auth.Account>, k: nat, now: int)
    requires Auth.AccountsValid(accounts) && 1 <= k <= |accounts|
    ensures GetUserProfile(accounts, k, now).Ok?
    ensures GetUserProfile(accounts, k, now).value.username == accounts[k - 1].username
  {
    var found := FindById(accounts, k);
    assert accounts[k - 1].id == k;
    var i :| 0 <= i < |accounts| && accounts[i] == found.value;
    assert accounts[i].id == i + 1;
  }
}
