/**
 * Provenance tracking of authService.js: the bounded, deduplicated histories of
 * observed IP addresses and device hashes (`updateHistory`) and the novelty
 * alerts computed from them (`checkNewIpAndDevice`).
 *
 * Both histories share one entry shape: the key is the IP address or the device
 * hash; only device entries carry a user agent. Entries written at registration
 * carry no count, and a missing count reads as 1.
 *
 * Policy: a known key is updated in place (timestamp refreshed, count
 * incremented) and keeps its position; only an unseen key is prepended.
 */
module Provenance {
  import opened Common

  const MaxHistorySize: nat := 20

  datatype Entry = Entry(key: string, userAgent: Option<string>, timestamp: int, count: Option<nat>)

  datatype AlertType = NewIp | NewDevice | NewIpAndDevice
  datatype Severity = Warning | High

  /** `details` holds the user agent of a NEW_DEVICE alert. */
  datatype Alert = Alert(kind: AlertType, message: string, severity: Severity, details: Option<string>)

  /** `entry.count || 1`. */
  function CountOr1(c: Option<nat>): (n: nat)
    ensures n >= 1
    ensures c.Some? && c.value != 0 ==> n == c.value
    ensures c.None? ==> n == 1
  {
    if c.Some? && c.value != 0 then c.value else 1
  }

  /** `JSON.parse(column || '[]')`: a missing history is empty. */
  function OrEmpty(h: Option<seq<Entry>>): (r: seq<Entry>)
    ensures h.None? ==> r == []
    ensures h.Some? ==> r == h.value
  {
    if h.Some? then h.value else []
  }

  function Keys(h: seq<Entry>): (ks: seq<string>)
    ensures |ks| == |h|
    ensures forall i :: 0 <= i < |h| ==> ks[i] == h[i].key
  {
    seq(|h|, i requires 0 <= i < |h| => h[i].key)
  }

  predicate NoDupKeys(h: seq<Entry>)
  {
    forall i, j :: 0 <= i < j < |h| ==> h[i].key != h[j].key
  }

  /** A history as the store keeps it: at most 20 entries, each key once. */
  predicate WellFormed(h: seq<Entry>)
  {
    |h| <= MaxHistorySize && NoDupKeys(h)
  }

  // ---------------------------------------------------------------------------
  // Novelty alerts (authService.js:177-219).

  function NewIpAlert(ip: string): Alert
  {
    Alert(NewIp, "Nueva IP detectada: " + ip, Warning, None)
  }

  function NewDeviceAlert(userAgent: string): Alert
  {
    Alert(NewDevice, "Nuevo dispositivo detectado", Warning, Some(userAgent))
  }

  const BothNewAlert: Alert := Alert(NewIpAndDevice, "Primera conexión desde esta IP Y dispositivo", High, None)

  /**
   * The alerts for a login, computed from the histories as they were stored
   * before this login: NEW_IP, then NEW_DEVICE, then NEW_IP_AND_DEVICE when
   * both are new.
   */
  function CheckNewIpAndDevice(ipHistory: seq<Entry>, deviceHistory: seq<Entry>,
                               ip: string, deviceHash: string, userAgent: string): (alerts: seq<Alert>)
    ensures var newIp, newDevice := ip !in Keys(ipHistory), deviceHash !in Keys(deviceHistory);
      && |alerts| == (if newIp then 1 else 0) + (if newDevice then 1 else 0) + (if newIp && newDevice then 1 else 0)
      && (newIp ==> alerts[0] == NewIpAlert(ip))
      && (newDevice ==> alerts[if newIp then 1 else 0] == NewDeviceAlert(userAgent))
      && (newIp && newDevice ==> alerts[2] == BothNewAlert)
    ensures forall a :: a in alerts ==> (a.severity == High <==> a.kind == NewIpAndDevice)
  {
    var newIp := ip !in Keys(ipHistory);
    var newDevice := deviceHash !in Keys(deviceHistory);
    (if newIp then [NewIpAlert(ip)] else [])
    + (if newDevice then [NewDeviceAlert(userAgent)] else [])
    + (if newIp && newDevice then [BothNewAlert] else [])
  }

  predicate HasAlert(alerts: seq<Alert>, kind: AlertType)
  {
    exists i :: 0 <= i < |alerts| && alerts[i].kind == kind
  }

  /** Each alert kind is emitted exactly when its rule holds, and never twice. */
  lemma {:induction false} AlertRules(ipHistory: seq<Entry>, deviceHistory: seq<Entry>,
                                      ip: string, deviceHash: string, userAgent: string)
    ensures var alerts := CheckNewIpAndDevice(ipHistory, deviceHistory, ip, deviceHash, userAgent);
      && (HasAlert(alerts, NewIp) <==> ip !in Keys(ipHistory))
      && (HasAlert(alerts, NewDevice) <==> deviceHash !in Keys(deviceHistory))
      && (HasAlert(alerts, NewIpAndDevice) <==> ip !in Keys(ipHistory) && deviceHash !in Keys(deviceHistory))
      && (forall i, j :: 0 <= i < j < |alerts| ==> alerts[i].kind != alerts[j].kind)
  {
    var alerts := CheckNewIpAndDevice(ipHistory, deviceHistory, ip, deviceHash, userAgent);
    var newIp, newDevice := ip !in Keys(ipHistory), deviceHash !in Keys(deviceHistory);
    if newIp { assert alerts[0].kind == NewIp; }
    if newDevice { assert alerts[if newIp then 1 else 0].kind == NewDevice; }
    if newIp && newDevice { assert alerts[2].kind == NewIpAndDevice; }
  }

  // ---------------------------------------------------------------------------
  // History merge (authService.js:228-263).

  /** `findIndex(entry => entry.key === key)`, or None when it returns -1. */
  function IndexOfKey(h: seq<Entry>, key: string): (r: Option<nat>)
    ensures r.None? <==> key !in Keys(h)
    ensures r.Some? ==> r.value < |h| && h[r.value].key == key
    ensures r.Some? ==> forall j :: 0 <= j < r.value ==> h[j].key != key
  {
    if h == [] then None
    else if h[0].key == key then Some(0)
    else
      var rest := IndexOfKey(h[1..], key);
      assert Keys(h) == [h[0].key] + Keys(h[1..]);
      if rest.Some? then Some(rest.value + 1) else None
  }

  /** `list.slice(0, MAX_HISTORY_SIZE)` when the list is longer than the bound. */
  function Truncate(h: seq<Entry>): (r: seq<Entry>)
    ensures |r| <= MaxHistorySize
    ensures |h| <= MaxHistorySize ==> r == h
    ensures |h| > MaxHistorySize ==> r == h[..MaxHistorySize]
  {
    if |h| > MaxHistorySize then h[..MaxHistorySize] else h
  }

  /** The entry a re-observation leaves behind. */
  function Touch(e: Entry, now: int): Entry
  {
    e.(timestamp := now, count := Some(CountOr1(e.count) + 1))
  }

  /** The specification of one history update: in place for a known key, prepend-and-cut otherwise. */
  function Merge(h: seq<Entry>, key: string, userAgent: Option<string>, now: int): (r: seq<Entry>)
    ensures key in Keys(r)
    ensures key in Keys(h) ==> |r| == |h|
    ensures key !in Keys(h) ==> |r| == if |h| < MaxHistorySize then |h| + 1 else MaxHistorySize
  {
    match IndexOfKey(h, key)
    case Some(i) =>
      var r := h[i := Touch(h[i], now)];
      assert Keys(r)[i] == key;
      r
    case None =>
      var r := Truncate([Entry(key, userAgent, now, Some(1))] + h);
      assert Keys(r)[0] == key;
      r
  }

  /**
   * One history update as the service performs it: a `findIndex` scan, then
   * either an in-place update of the found entry or `unshift` followed by
   * `slice(0, 20)`.
   */
  method UpdateHistoryList(h: seq<Entry>, key: string, userAgent: Option<string>, now: int)
    returns (r: seq<Entry>)
    ensures r == Merge(h, key, userAgent, now)
  {
    var i := 0;
    while i < |h| && h[i].key != key
      invariant 0 <= i <= |h|
      invariant forall j :: 0 <= j < i ==> h[j].key != key
    {
      i := i + 1;
    }
    var found := IndexOfKey(h, key);
    if i < |h| {
      assert found == Some(i);
      r := h;
      r := r[i := r[i].(timestamp := now)];
      r := r[i := r[i].(count := Some(CountOr1(r[i].count) + 1))];
    } else {
      assert key !in Keys(h) by {
        forall j | 0 <= j < |h| ensures Keys(h)[j] != key { }
      }
      r := [Entry(key, userAgent, now, Some(1))] + h;
      if |r| > MaxHistorySize {
        r := r[..MaxHistorySize];
      }
    }
  }

  /**
   * Re-observing a known key changes only that entry: its timestamp is
   * refreshed and its count becomes (count, or 1 if missing) + 1. Length,
   * order, keys and every other entry stay as they were.
   */
  lemma {:induction false} KnownKeyUpdatedInPlace(h: seq<Entry>, key: string, userAgent: Option<string>, now: int)
    requires key in Keys(h)
    ensures var r, i := Merge(h, key, userAgent, now), IndexOfKey(h, key).value;
      && |r| == |h|
      && Keys(r) == Keys(h)
      && r[i].key == key && r[i].userAgent == h[i].userAgent
      && r[i].timestamp == now
      && r[i].count == Some(CountOr1(h[i].count) + 1)
      && (forall j :: 0 <= j < |h| && j != i ==> r[j] == h[j])
  {
    var r, i := Merge(h, key, userAgent, now), IndexOfKey(h, key).value;
    assert r == h[i := Touch(h[i], now)];
    assert forall j :: 0 <= j < |r| ==> Keys(r)[j] == Keys(h)[j];
  }

  /**
   * An unseen key is prepended with count 1 and the list is cut to its first
   * 20 entries, so when the list was full its last (oldest-prepended) entry is
   * the one evicted.
   */
  lemma {:induction false} NewKeyPrepended(h: seq<Entry>, key: string, userAgent: Option<string>, now: int)
    requires key !in Keys(h)
    ensures var r := Merge(h, key, userAgent, now);
      && r[0] == Entry(key, userAgent, now, Some(1))
      && |r| == (if |h| < MaxHistorySize then |h| + 1 else MaxHistorySize)
      && r[1..] == h[..|r| - 1]
      && (|h| >= MaxHistorySize ==> r[1..] == h[..MaxHistorySize - 1])
  {
    var r := Merge(h, key, userAgent, now);
    var l := [Entry(key, userAgent, now, Some(1))] + h;
    assert r == Truncate(l);
    assert l[1..] == h;
    if |h| >= MaxHistorySize {
      assert r == l[..MaxHistorySize];
    }
  }

  /** The update keeps a history well formed: never above 20 entries, never a duplicate key. */
  lemma {:induction false} MergePreservesWellFormed(h: seq<Entry>, key: string, userAgent: Option<string>, now: int)
    requires WellFormed(h)
    ensures WellFormed(Merge(h, key, userAgent, now))
    ensures key in Keys(Merge(h, key, userAgent, now))
  {
    var r := Merge(h, key, userAgent, now);
    if key in Keys(h) {
      KnownKeyUpdatedInPlace(h, key, userAgent, now);
    } else {
      NewKeyPrepended(h, key, userAgent, now);
      forall i, j | 0 <= i < j < |r| ensures r[i].key != r[j].key {
        if i == 0 {
          assert r[j] == h[j - 1];
          assert Keys(h)[j - 1] == h[j - 1].key;
        } else {
          assert r[i] == h[i - 1] && r[j] == h[j - 1];
        }
      }
      assert Keys(r)[0] == key;
    }
  }

  /** A second login from the same origin and device raises no alert. */
  lemma {:induction false} RepeatLoginIsQuiet(ipHistory: seq<Entry>, deviceHistory: seq<Entry>,
                                              ip: string, deviceHash: string, userAgent: string, now: int)
    ensures CheckNewIpAndDevice(Merge(ipHistory, ip, None, now),
                                Merge(deviceHistory, deviceHash, Some(userAgent), now),
                                ip, deviceHash, userAgent) == []
  {
    var h1 := Merge(ipHistory, ip, None, now);
    var h2 := Merge(deviceHistory, deviceHash, Some(userAgent), now);
    if ip in Keys(ipHistory) {
      KnownKeyUpdatedInPlace(ipHistory, ip, None, now);
    } else {
      NewKeyPrepended(ipHistory, ip, None, now);
      assert Keys(h1)[0] == ip;
    }
    if deviceHash in Keys(deviceHistory) {
      KnownKeyUpdatedInPlace(deviceHistory, deviceHash, Some(userAgent), now);
    } else {
      NewKeyPrepended(deviceHistory, deviceHash, Some(userAgent), now);
      assert Keys(h2)[0] == deviceHash;
    }
  }

  // ---------------------------------------------------------------------------
  // Many logins.

  datatype Observation = Observation(key: string, userAgent: Option<string>, at: int)

  /** The history after the given observations, in order (the last one is the most recent). */
  function MergeAll(h: seq<Entry>, obs: seq<Observation>): seq<Entry>
  {
    if obs == [] then h
    else
      var o := obs[|obs| - 1];
      Merge(MergeAll(h, obs[..|obs| - 1]), o.key, o.userAgent, o.at)
  }

  function ReversedKeys(obs: seq<Observation>): (ks: seq<string>)
    ensures |ks| == |obs|
    ensures forall i :: 0 <= i < |obs| ==> ks[i] == obs[|obs| - 1 - i].key
  {
    if obs == [] then [] else [obs[|obs| - 1].key] + ReversedKeys(obs[..|obs| - 1])
  }

  function TakeKeys(ks: seq<string>): (r: seq<string>)
  {
    if |ks| > MaxHistorySize then ks[..MaxHistorySize] else ks
  }

  predicate DistinctUnseen(h: seq<Entry>, obs: seq<Observation>)
  {
    && (forall i :: 0 <= i < |obs| ==> obs[i].key !in Keys(h))
    && (forall i, j :: 0 <= i < j < |obs| ==> obs[i].key != obs[j].key)
  }

  /** The keys after prepending an unseen key: the new key, then the old keys, cut to 20. */
  lemma {:induction false} KeysAfterPrepend(x: seq<Entry>, o: Observation)
    requires o.key !in Keys(x)
    ensures Keys(Merge(x, o.key, o.userAgent, o.at)) == TakeKeys([o.key] + Keys(x))
  {
    NewKeyPrepended(x, o.key, o.userAgent, o.at);
    var r := Merge(x, o.key, o.userAgent, o.at);
    var want := TakeKeys([o.key] + Keys(x));
    assert |Keys(r)| == |want|;
    forall i | 0 <= i < |want| ensures Keys(r)[i] == want[i] {
      if i > 0 {
        assert r[i] == r[1..][i - 1] == x[i - 1];
      }
    }
  }

  lemma {:induction false} TakeKeysAbsorbs(k: string, t: seq<string>)
    ensures TakeKeys([k] + TakeKeys(t)) == TakeKeys([k] + t)
  {
    if |t| > MaxHistorySize {
      assert ([k] + t[..MaxHistorySize])[..MaxHistorySize] == ([k] + t)[..MaxHistorySize];
    }
  }

  /** The last of distinct unseen observations is unseen by the history the earlier ones produced. */
  /** The last observation, unseen, prepended to a history that holds the first 20 of `tail`. */
  lemma {:induction false} PrependKeepsMostRecent(h: seq<Entry>, obs: seq<Observation>, tail: seq<string>)
    requires obs != []
    requires var x := MergeAll(h, obs[..|obs| - 1]);
      Keys(x) == TakeKeys(tail) && obs[|obs| - 1].key !in Keys(x)
    ensures Keys(MergeAll(h, obs)) == TakeKeys([obs[|obs| - 1].key] + tail)
  {
    var x, o := MergeAll(h, obs[..|obs| - 1]), obs[|obs| - 1];
    assert MergeAll(h, obs) == Merge(x, o.key, o.userAgent, o.at);
    KeysAfterPrepend(x, o);
    TakeKeysAbsorbs(o.key, tail);
  }

  lemma {:induction false} LastObservationUnseen(h: seq<Entry>, obs: seq<Observation>)
    requires obs != [] && DistinctUnseen(h, obs)
    ensures obs[|obs| - 1].key !in ReversedKeys(obs[..|obs| - 1]) + Keys(h)
  {
  }

  lemma {:induction false} NotInTakeKeys(k: string, t: seq<string>)
    requires k !in t
    ensures k !in TakeKeys(t)
  {
    if |t| > MaxHistorySize {
      assert forall i :: 0 <= i < MaxHistorySize ==> t[..MaxHistorySize][i] == t[i];
    }
  }

  lemma {:induction false} DistinctUnseenPrefix(h: seq<Entry>, obs: seq<Observation>)
    requires obs != [] && DistinctUnseen(h, obs)
    ensures DistinctUnseen(h, obs[..|obs| - 1])
  {
  }

  /**
   * After logins from distinct, never-seen keys, the history holds the most
   * recent keys first, followed by the old ones, cut to 20: after 25 distinct
   * origins exactly the 20 most recently observed remain.
   */
  lemma {:induction false} DistinctObservationsKeepMostRecent(h: seq<Entry>, obs: seq<Observation>)
    requires |h| <= MaxHistorySize && DistinctUnseen(h, obs)
    ensures Keys(MergeAll(h, obs)) == TakeKeys(ReversedKeys(obs) + Keys(h))
  {
    if obs != [] {
      var init, o := obs[..|obs| - 1], obs[|obs| - 1];
      var x := MergeAll(h, init);
      var tail := ReversedKeys(init) + Keys(h);
      assert Keys(x) == TakeKeys(tail) by {
        DistinctUnseenPrefix(h, obs);
        DistinctObservationsKeepMostRecent(h, init);
      }
      assert o.key !in Keys(x) by {
        LastObservationUnseen(h, obs);
        NotInTakeKeys(o.key, tail);
      }
      PrependKeepsMostRecent(h, obs, tail);
      ReversedKeysLast(obs, Keys(h));
    }
  }

  lemma {:induction false} ReversedKeysLast(obs: seq<Observation>, rest: seq<string>)
    requires obs != []
    ensures ReversedKeys(obs) + rest == [obs[|obs| - 1].key] + (ReversedKeys(obs[..|obs| - 1]) + rest)
  {
    assert ReversedKeys(obs) == [obs[|obs| - 1].key] + ReversedKeys(obs[..|obs| - 1]);
  }
}
