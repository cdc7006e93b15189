/**
 * The display helpers of Dashboard.jsx: the user-agent truncation, the CSS
 * class and label of a login alert, and the rows of the two history tables
 * (connections shown as `count || 1`, the first row marked 'current').
 */
module Dashboard {
  import opened Common
  import Provenance

  const UnknownAgent: string := "Desconocido"
  const MaxAgentLength: nat := 50
  const KeptPrefix: nat := 47
  const Ellipsis: string := "..."

  /** `truncateUserAgent`: a missing or empty agent, an agent of at most 50 characters, or the first 47 plus '...'. */
  function TruncateUserAgent(ua: Option<string>): (r: string)
    ensures ua.None? || ua.value == [] ==> r == UnknownAgent
    ensures ua.Some? && 0 < |ua.value| <= MaxAgentLength ==> r == ua.value
    ensures ua.Some? && |ua.value| > MaxAgentLength ==>
      |r| == MaxAgentLength && r[..KeptPrefix] == ua.value[..KeptPrefix] && r[KeptPrefix..] == Ellipsis
  {
    if ua.None? || ua.value == [] then UnknownAgent
    else if |ua.value| > MaxAgentLength then ua.value[..KeptPrefix] + Ellipsis
    else ua.value
  }

  /**
   * What the table shows is never empty and never longer than 50 characters,
   * and truncating it again changes nothing.
   */
  lemma {:induction false} TruncatedAgentIsStable(ua: Option<string>)
    ensures var r := TruncateUserAgent(ua);
      0 < |r| <= MaxAgentLength && TruncateUserAgent(Some(r)) == r
  {
    var r := TruncateUserAgent(ua);
    assert |UnknownAgent| == 11;
    assert r != [];
  }

  // ---------------------------------------------------------------------------
  // Alerts (Dashboard.jsx:66-79).

  /** The `type` field of an alert as the login answer carries it. */
  function TypeText(k: Provenance.AlertType): string
  {
    match k
    case NewIp => "NEW_IP"
    case NewDevice => "NEW_DEVICE"
    case NewIpAndDevice => "NEW_IP_AND_DEVICE"
  }

  /** The `severity` field of an alert as the login answer carries it. */
  function SeverityText(s: Provenance.Severity): string
  {
    match s
    case Warning => "warning"
    case High => "high"
  }

  /** The class of the alert box: error styling for 'high', warning styling for anything else. */
  function AlertClass(severity: string): (c: string)
    ensures severity == "high" ==> c == "alert alert-error"
    ensures severity != "high" ==> c == "alert alert-warning"
  {
    "alert alert-" + (if severity == "high" then "error" else "warning")
  }

  /** The heading of the alert box. */
  function AlertLabel(kind: string): (l: string)
    ensures kind == "NEW_IP" ==> l == "Nueva IP"
    ensures kind == "NEW_DEVICE" ==> l == "Nuevo Dispositivo"
    ensures kind != "NEW_IP" && kind != "NEW_DEVICE" ==> l == "IP y Dispositivo Nuevos"
  {
    if kind == "NEW_IP" then "Nueva IP"
    else if kind == "NEW_DEVICE" then "Nuevo Dispositivo"
    else "IP y Dispositivo Nuevos"
  }

  /**
   * For the alerts a login produces, the box is styled as an error exactly
   * for the both-new alert, and the three kinds get three different labels.
   */
  lemma {:induction false} LoginAlertsRenderByKind(ipHistory: seq<Provenance.Entry>, deviceHistory: seq<Provenance.Entry>,
                                                   ip: string, deviceHash: string, userAgent: string)
    ensures var alerts := Provenance.CheckNewIpAndDevice(ipHistory, deviceHistory, ip, deviceHash, userAgent);
      forall a :: a in alerts ==>
        && (AlertClass(SeverityText(a.severity)) == "alert alert-error" <==> a.kind == Provenance.NewIpAndDevice)
        && AlertLabel(TypeText(a.kind)) == (match a.kind
             case NewIp => "Nueva IP"
             case NewDevice => "Nuevo Dispositivo"
             case NewIpAndDevice => "IP y Dispositivo Nuevos")
    ensures forall k1, k2 :: AlertLabel(TypeText(k1)) == AlertLabel(TypeText(k2)) ==> k1 == k2
  {
    assert "warning" != "high";
    assert "alert alert-warning" != "alert alert-error";
    assert "NEW_IP_AND_DEVICE" != "NEW_IP" && "NEW_IP_AND_DEVICE" != "NEW_DEVICE";
    assert "Nueva IP" != "Nuevo Dispositivo" && "Nueva IP" != "IP y Dispositivo Nuevos";
    assert "Nuevo Dispositivo" != "IP y Dispositivo Nuevos";
  }

  // ---------------------------------------------------------------------------
  // History tables (Dashboard.jsx:142-148, 178-185).

  /** One table row: the key, the agent column of the device table, the connections column, and the 'current' class. */
  datatype Row = Row(key: string, agent: string, connections: nat, current: bool)

  function RowOf(h: seq<Provenance.Entry>, i: nat): Row
    requires i < |h|
  {
    Row(h[i].key, TruncateUserAgent(h[i].userAgent), Provenance.CountOr1(h[i].count), i == 0)
  }

  /** The rows of a stored history, in its order. */
  function Rows(h: seq<Provenance.Entry>): (rows: seq<Row>)
    ensures |rows| == |h|
    ensures forall i :: 0 <= i < |h| ==> rows[i] == RowOf(h, i)
  {
    seq(|h|, i requires 0 <= i < |h| => RowOf(h, i))
  }

  /**
   * Exactly one row is marked current when the history is not empty, every
   * row shows at least one connection, and rows have distinct keys when the
   * history does.
   */
  lemma {:induction false} RowsShape(h: seq<Provenance.Entry>)
    requires Provenance.WellFormed(h)
    ensures var rows := Rows(h);
      && |rows| <= Provenance.MaxHistorySize
      && (forall i :: 0 <= i < |rows| ==> (rows[i].current <==> i == 0) && rows[i].connections >= 1)
      && (forall i, j :: 0 <= i < j < |rows| ==> rows[i].key != rows[j].key)
  {
  }

  /**
   * After a login from a new key, the first row (the one marked current) is
   * that key with one connection. After a login from a known key, that key's
   * row stays where it was and shows one more connection; it carries the
   * 'current' mark only if it already was the first row.
   */
  lemma {:induction false} RowsAfterLogin(h: seq<Provenance.Entry>, key: string, userAgent: Option<string>, now: int)
    ensures var after := Rows(Provenance.Merge(h, key, userAgent, now));
      && (key !in Provenance.Keys(h) ==> after[0] == Row(key, TruncateUserAgent(userAgent), 1, true))
      && (key in Provenance.Keys(h) ==>
            var i := Provenance.IndexOfKey(h, key).value;
            && |after| == |h|
            && after[i].key == key
            && after[i].connections == Rows(h)[i].connections + 1
            && (after[i].current <==> i == 0))
  {
    if key !in Provenance.Keys(h) {
      Provenance.NewKeyPrepended(h, key, userAgent, now);
    } else {
      Provenance.KnownKeyUpdatedInPlace(h, key, userAgent, now);
    }
  }
}
