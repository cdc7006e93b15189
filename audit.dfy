/**
 * The audit trail of auditService.js: an append-only `audit_log` table that
 * `logAction` writes best-effort, and the two read-only queries over it.
 * Timestamps are integer milliseconds; `created_at` is the time of the insert.
 */
module Audit {
  import opened Common
  import opened SeqUtil
  import Provenance

  datatype Action = Register | LoginSuccess | LoginFailed

  /** The structured `details` objects the authentication service writes. */
  datatype Details =
    | EmptyDetails                                    // {}
    | UserNotFound(attemptedUsername: string)         // { reason: 'USER_NOT_FOUND', attemptedUsername }
    | InvalidPassword(attempts: nat)                  // { reason: 'INVALID_PASSWORD', attempts }
    | LoginAlerts(alerts: seq<Provenance.Alert>)      // { alerts }

  /** The argument object of `logAction`; `details: None` is an omitted `details`. */
  datatype AuditEntry = AuditEntry(
    userId: Option<nat>,
    action: Action,
    ip: string,
    deviceHash: string,
    userAgent: string,
    details: Option<Details>,
    success: bool)

  /** A row of `audit_log`: `details` may be NULL and `success` is stored as an integer. */
  datatype AuditRecord = AuditRecord(
    id: nat,
    userId: Option<nat>,
    action: Action,
    ip: string,
    deviceHash: string,
    userAgent: string,
    details: Option<Details>,
    success: int,
    createdAt: int)

  /** A row as `getAuditHistory` returns it: details parsed, success a boolean. */
  datatype AuditView = AuditView(
    id: nat,
    userId: Option<nat>,
    action: Action,
    ip: string,
    deviceHash: string,
    userAgent: string,
    details: Details,
    success: bool,
    createdAt: int)

  /**
   * `created_at` is filled by CURRENT_TIMESTAMP, which keeps whole seconds:
   * the stamp is the start of the second holding `now`.
   */
  function SecondOf(now: int): (t: int)
    ensures t % 1000 == 0 && t <= now < t + 1000
  {
    now - now % 1000
  }

  /** The row that `logAction` inserts. */
  function Stored(e: AuditEntry, id: nat, now: int): (r: AuditRecord)
    ensures r.success == (if e.success then 1 else 0)
    ensures r.details.Some?
    ensures r.createdAt == SecondOf(now)
  {
    AuditRecord(id, e.userId, e.action, e.ip, e.deviceHash, e.userAgent,
                Some(if e.details.Some? then e.details.value else EmptyDetails),
                if e.success then 1 else 0, SecondOf(now))
  }

  /** Two inserts within one second get the same `created_at`, so nothing orders them by time. */
  lemma {:induction false} SameSecondSameStamp(e1: AuditEntry, e2: AuditEntry, id1: nat, id2: nat, t1: int, t2: int)
    requires SecondOf(t1) <= t2 < SecondOf(t1) + 1000
    ensures Stored(e1, id1, t1).createdAt == Stored(e2, id2, t2).createdAt
  {
    assert SecondOf(t2) == SecondOf(t1) by {
      var s := SecondOf(t1);
      assert t2 - s == t2 % 1000 + (t2 - t2 % 1000 - s);
    }
  }

  /** `{ ...log, details: JSON.parse(log.details || '{}'), success: Boolean(log.success) }`. */
  function View(r: AuditRecord): AuditView
  {
    AuditView(r.id, r.userId, r.action, r.ip, r.deviceHash, r.userAgent,
              if r.details.Some? then r.details.value else EmptyDetails,
              r.success != 0, r.createdAt)
  }

  /** Reading back a logged entry restores its fields, with `{}` for omitted details. */
  lemma {:induction false} StoredReadsBack(e: AuditEntry, id: nat, now: int)
    ensures var v := View(Stored(e, id, now));
      && v.success == e.success
      && v.details == (if e.details.Some? then e.details.value else EmptyDetails)
      && v.userId == e.userId && v.action == e.action && v.ip == e.ip
      && v.deviceHash == e.deviceHash && v.userAgent == e.userAgent
      && v.id == id && v.createdAt == SecondOf(now)
  {
  }

  class AuditLog {
    var records: seq<AuditRecord>

    /** AUTOINCREMENT ids in insertion order; `success` is 0 or 1. */
    ghost predicate Valid()
      reads this
    {
      forall i :: 0 <= i < |records| ==> records[i].id == i + 1 && 0 <= records[i].success <= 1
    }

    constructor ()
      ensures Valid() && records == []
    {
      records := [];
    }

    /**
     * Appends exactly one row when the insert succeeds (`persisted`); when it
     * fails the error is caught and logged, so nothing is appended and nothing
     * reaches the caller.
     */
    method LogAction(entry: AuditEntry, now: int, persisted: bool)
      requires Valid()
      modifies this
      ensures Valid()
      ensures persisted ==> records == old(records) + [Stored(entry, |old(records)| + 1, now)]
      ensures !persisted ==> records == old(records)
    {
      if persisted {
        records := records + [Stored(entry, |records| + 1, now)];
      }
    }
  }

  // ---------------------------------------------------------------------------
  // getAuditHistory (auditService.js:49-65).

  function CreatedAt(r: AuditRecord): int { r.createdAt }

  function ByUser(records: seq<AuditRecord>, userId: nat): seq<AuditRecord>
  {
    Filter(records, (r: AuditRecord) => r.userId == Some(userId))
  }

  /** `LIMIT ?`: a negative limit means no limit in SQLite. */
  function Limit<T>(s: seq<T>, limit: int): (r: seq<T>)
    ensures limit < 0 || |s| <= limit ==> r == s
    ensures 0 <= limit < |s| ==> r == s[..limit]
  {
    if 0 <= limit < |s| then s[..limit] else s
  }

  /** The rows the SQL query selects, before they are mapped. */
  function HistoryRows(records: seq<AuditRecord>, userId: nat, limit: int): seq<AuditRecord>
  {
    Limit(SortDesc(ByUser(records, userId), CreatedAt), limit)
  }

  function Views(rows: seq<AuditRecord>): (r: seq<AuditView>)
    ensures |r| == |rows|
    ensures forall i :: 0 <= i < |rows| ==> r[i] == View(rows[i])
  {
    seq(|rows|, i requires 0 <= i < |rows| => View(rows[i]))
  }

  function GetAuditHistory(records: seq<AuditRecord>, userId: nat, limit: int := 50): (r: seq<AuditView>)
    ensures forall i :: 0 <= i < |r| ==> r[i].userId == Some(userId)
    ensures var mine := |ByUser(records, userId)|;
      |r| == if 0 <= limit < mine then limit else mine
  {
    HistoryRowsFacts(records, userId, limit);
    Views(HistoryRows(records, userId, limit))
  }

  lemma {:induction false} HistoryRowsFacts(records: seq<AuditRecord>, userId: nat, limit: int)
    ensures var sorted := SortDesc(ByUser(records, userId), CreatedAt);
      var rows := HistoryRows(records, userId, limit);
      && rows == sorted[..|rows|]
      && |rows| == (if 0 <= limit < |sorted| then limit else |sorted|)
      && (forall rec :: rec in rows ==> rec in records && rec.userId == Some(userId))
  {
    var mine := ByUser(records, userId);
    var sorted := SortDesc(mine, CreatedAt);
    var rows := HistoryRows(records, userId, limit);
    forall rec | rec in rows ensures rec in records && rec.userId == Some(userId) {
      assert rec in sorted;
    }
  }

  /** At most `limit` rows (all of the user's rows when the limit is negative or larger). */
  lemma {:induction false} AuditHistoryLength(records: seq<AuditRecord>, userId: nat, limit: int)
    ensures var n := |ByUser(records, userId)|;
      |GetAuditHistory(records, userId, limit)| == (if 0 <= limit < n then limit else n)
  {
    HistoryRowsFacts(records, userId, limit);
  }

  /** Every returned row is a stored row of that user, with details and success parsed back. */
  lemma {:induction false} AuditHistoryOnlyOwnRows(records: seq<AuditRecord>, userId: nat, limit: int)
    ensures var r := GetAuditHistory(records, userId, limit);
      forall i :: 0 <= i < |r| ==> r[i].userId == Some(userId) && exists rec :: rec in records && r[i] == View(rec)
  {
    var rows := HistoryRows(records, userId, limit);
    var r := GetAuditHistory(records, userId, limit);
    HistoryRowsFacts(records, userId, limit);
    forall i | 0 <= i < |r|
      ensures r[i].userId == Some(userId) && exists rec :: rec in records && r[i] == View(rec)
    {
      assert rows[i] in rows;
    }
  }

  /** Newest first: `ORDER BY created_at DESC`. */
  lemma {:induction false} AuditHistoryNewestFirst(records: seq<AuditRecord>, userId: nat, limit: int)
    ensures var r := GetAuditHistory(records, userId, limit);
      forall i, j :: 0 <= i < j < |r| ==> r[i].createdAt >= r[j].createdAt
  {
    var sorted := SortDesc(ByUser(records, userId), CreatedAt);
    var rows := HistoryRows(records, userId, limit);
    var r := GetAuditHistory(records, userId, limit);
    HistoryRowsFacts(records, userId, limit);
    forall i, j | 0 <= i < j < |r| ensures r[i].createdAt >= r[j].createdAt {
      assert rows[i] == sorted[i] && rows[j] == sorted[j];
    }
  }

  /**
   * No row of the user newer than the last one returned is left out: the
   * rows are the top of the user's history by `created_at`.
   */
  lemma {:induction false} AuditHistoryKeepsNewest(records: seq<AuditRecord>, userId: nat, limit: int)
    ensures var r := GetAuditHistory(records, userId, limit);
      forall rec :: rec in records && rec.userId == Some(userId) && r != [] && rec.createdAt > r[|r| - 1].createdAt
                    ==> View(rec) in r
  {
    var sorted := SortDesc(ByUser(records, userId), CreatedAt);
    var rows := HistoryRows(records, userId, limit);
    var r := GetAuditHistory(records, userId, limit);
    HistoryRowsFacts(records, userId, limit);
    forall rec | rec in records && rec.userId == Some(userId) && r != [] && rec.createdAt > r[|r| - 1].createdAt
      ensures View(rec) in r
    {
      NewerRowReturned(sorted, rows, rec, records, userId);
      var j :| 0 <= j < |rows| && rows[j] == rec;
      assert r[j] == View(rec);
    }
  }

  lemma {:induction false} NewerRowReturned(sorted: seq<AuditRecord>, rows: seq<AuditRecord>, rec: AuditRecord,
                                            records: seq<AuditRecord>, userId: nat)
    requires sorted == SortDesc(ByUser(records, userId), CreatedAt)
    requires 0 < |rows| <= |sorted| && rows == sorted[..|rows|]
    requires rec in records && rec.userId == Some(userId) && rec.createdAt > rows[|rows| - 1].createdAt
    ensures rec in rows
  {
    assert rec in ByUser(records, userId);
    assert rec in sorted;
    TopOfSorted(sorted, CreatedAt, |rows|, rec);
  }

  // ---------------------------------------------------------------------------
  // getRecentFailedLogins (auditService.js:70-86).

  datatype FailedGroup = FailedGroup(ip: string, attempts: nat, lastAttempt: int)

  const MinuteMs: int := 60 * 1000

  /** `action = 'LOGIN_FAILED' AND created_at > cutoff`. */
  function RecentFailures(records: seq<AuditRecord>, cutoff: int): seq<AuditRecord>
  {
    Filter(records, (r: AuditRecord) => r.action == LoginFailed && r.createdAt > cutoff)
  }

  function WithIp(rs: seq<AuditRecord>, ip: string): seq<AuditRecord>
  {
    Filter(rs, (r: AuditRecord) => r.ip == ip)
  }

  /** The ip addresses of the rows, each once, in order of first appearance. */
  function DistinctIps(rs: seq<AuditRecord>): (ips: seq<string>)
    ensures forall ip :: ip in ips <==> exists r :: r in rs && r.ip == ip
    ensures forall i, j :: 0 <= i < j < |ips| ==> ips[i] != ips[j]
  {
    if rs == [] then []
    else
      var init := DistinctIps(rs[..|rs| - 1]);
      var last := rs[|rs| - 1];
      assert rs == rs[..|rs| - 1] + [last];
      if last.ip in init then init else init + [last.ip]
  }

  /** `MAX(created_at)` of a non-empty group. */
  function MaxCreatedAt(rs: seq<AuditRecord>): (m: int)
    requires rs != []
    ensures exists r :: r in rs && r.createdAt == m
    ensures forall r :: r in rs ==> r.createdAt <= m
  {
    if |rs| == 1 then rs[0].createdAt
    else
      var rest := MaxCreatedAt(rs[1..]);
      assert rs == [rs[0]] + rs[1..];
      if rs[0].createdAt >= rest then rs[0].createdAt else rest
  }

  /** One output row: the ip, `COUNT(*)` and `MAX(created_at)` of its rows (0 for an empty group). */
  function Group(rs: seq<AuditRecord>, ip: string): (g: FailedGroup)
    ensures g.ip == ip && g.attempts == |WithIp(rs, ip)|
    ensures g.attempts > 0 ==> exists r :: r in rs && r.ip == ip && r.createdAt == g.lastAttempt
    ensures forall r :: r in rs && r.ip == ip ==> r.createdAt <= g.lastAttempt
  {
    var mine := WithIp(rs, ip);
    if mine == [] then FailedGroup(ip, 0, 0) else FailedGroup(ip, |mine|, MaxCreatedAt(mine))
  }

  function Attempts(g: FailedGroup): int { g.attempts }

  function IpOf(g: FailedGroup): string { g.ip }

  function AtLeastThree(g: FailedGroup): bool { g.attempts >= 3 }

  /** The groups before `HAVING` and `ORDER BY`: one per distinct ip of the window. */
  function Groups(recent: seq<AuditRecord>): (gs: seq<FailedGroup>)
    ensures forall g :: g in gs ==> g == Group(recent, g.ip)
    ensures forall rec :: rec in recent ==> Group(recent, rec.ip) in gs
    ensures DistinctKeys(gs, IpOf)
  {
    var ips := DistinctIps(recent);
    var gs := seq(|ips|, i requires 0 <= i < |ips| => Group(recent, ips[i]));
    GroupsCover(recent, ips, gs);
    gs
  }

  lemma {:induction false} GroupsCover(recent: seq<AuditRecord>, ips: seq<string>, gs: seq<FailedGroup>)
    requires ips == DistinctIps(recent)
    requires |gs| == |ips| && forall i :: 0 <= i < |ips| ==> gs[i] == Group(recent, ips[i])
    ensures forall rec :: rec in recent ==> Group(recent, rec.ip) in gs
  {
    forall rec | rec in recent ensures Group(recent, rec.ip) in gs {
      assert rec.ip in ips;
      var i :| 0 <= i < |ips| && ips[i] == rec.ip;
      assert gs[i] == Group(recent, rec.ip);
    }
  }

  function GetRecentFailedLogins(records: seq<AuditRecord>, now: int, minutes: int := 15): (r: seq<FailedGroup>)
    ensures forall i :: 0 <= i < |r| ==> r[i].attempts >= 3
    ensures forall i, j :: 0 <= i < j < |r| ==> r[i].attempts >= r[j].attempts
  {
    SortDesc(Filter(Groups(RecentFailures(records, now - minutes * MinuteMs)), AtLeastThree), Attempts)
  }

  /**
   * Every returned row is an ip with at least 3 failed logins strictly inside
   * the window, holding that ip's count and its latest attempt.
   */
  lemma {:induction false} RecentFailedLoginsRows(records: seq<AuditRecord>, now: int, minutes: int)
    ensures var recent := RecentFailures(records, now - minutes * MinuteMs);
      forall g :: g in GetRecentFailedLogins(records, now, minutes) ==>
        && g.attempts >= 3
        && g.attempts == |WithIp(recent, g.ip)|
        && (exists rec :: rec in recent && rec.ip == g.ip && rec.createdAt == g.lastAttempt)
        && (forall rec :: rec in recent && rec.ip == g.ip ==> rec.createdAt <= g.lastAttempt)
  {
    var recent := RecentFailures(records, now - minutes * MinuteMs);
    var groups := Groups(recent);
    var kept := Filter(groups, AtLeastThree);
    forall g | g in GetRecentFailedLogins(records, now, minutes)
      ensures g.attempts >= 3 && g == Group(recent, g.ip)
    {
      assert g in kept;
    }
  }

  /** Every ip with at least 3 failed logins inside the window is reported. */
  lemma {:induction false} RecentFailedLoginsComplete(records: seq<AuditRecord>, now: int, minutes: int)
    ensures var recent := RecentFailures(records, now - minutes * MinuteMs);
      forall rec :: rec in recent && |WithIp(recent, rec.ip)| >= 3 ==>
        exists g :: g in GetRecentFailedLogins(records, now, minutes) && g.ip == rec.ip
  {
    var recent := RecentFailures(records, now - minutes * MinuteMs);
    var kept := Filter(Groups(recent), AtLeastThree);
    var r := GetRecentFailedLogins(records, now, minutes);
    forall rec | rec in recent && |WithIp(recent, rec.ip)| >= 3
      ensures exists g :: g in r && g.ip == rec.ip
    {
      assert Group(recent, rec.ip) in kept;
      assert Group(recent, rec.ip) in r;
    }
  }

  /** Rows come by count, largest first, and no ip appears twice. */
  lemma {:induction false} RecentFailedLoginsOrdered(records: seq<AuditRecord>, now: int, minutes: int)
    ensures var r := GetRecentFailedLogins(records, now, minutes);
      forall i, j :: 0 <= i < j < |r| ==> r[i].ip != r[j].ip && r[i].attempts >= r[j].attempts
  {
    var recent := RecentFailures(records, now - minutes * MinuteMs);
    var groups := Groups(recent);
    var kept := Filter(groups, AtLeastThree);
    var r := GetRecentFailedLogins(records, now, minutes);
    FilterKeepsDistinct(groups, AtLeastThree, IpOf);
    DistinctUnderPermutation(kept, r, IpOf);
    assert DistinctKeys(r, IpOf) && SortedDesc(r, Attempts);
  }
}
