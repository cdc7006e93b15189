/**
 * Device fingerprints of deviceService.js: the format check for a device
 * hash and the server-side construction of one. SHA-256 is a parameter,
 * assumed to return 64 lowercase hexadecimal characters.
 */
module Device {
  import opened Common

  const HashLength: nat := 16
  const Unknown: string := "unknown"

  /** A character of the class `[a-f0-9]` under the `i` flag. */
  predicate IsHexChar(c: char)
  {
    '0' <= c <= '9' || 'a' <= c <= 'f' || 'A' <= c <= 'F'
  }

  predicate IsLowerHexChar(c: char)
  {
    '0' <= c <= '9' || 'a' <= c <= 'f'
  }

  /** `[a-f0-9]*` anchored at both ends, matched character by character from the left. */
  function AllHex(s: string): (b: bool)
    ensures b <==> forall i :: 0 <= i < |s| ==> IsHexChar(s[i])
  {
    if s == [] then true else IsHexChar(s[0]) && AllHex(s[1..])
  }

  /** `isValidDeviceHash`: falsy or non-string input is refused before the pattern `^[a-f0-9]{16}$/i` is tried. */
  function IsValidDeviceHash(hash: Value): (b: bool)
    ensures !Truthy(hash) || !hash.Str? ==> !b
    ensures hash.Str? ==> (b <==> |hash.s| == HashLength && forall i :: 0 <= i < |hash.s| ==> IsHexChar(hash.s[i]))
  {
    if !Truthy(hash) then false
    else if !hash.Str? then false
    else |hash.s| == HashLength && AllHex(hash.s)
  }

  /** A field of the device data: absent (defaults to 'unknown'), `null` (joined as ''), or a string. */
  datatype Field = Missing | NullField | Text(s: string)

  datatype DeviceData = DeviceData(userAgent: Field, language: Field, screenResolution: Field, timezone: Field)

  /** The destructuring default applies to a missing field only; `join` renders `null` as ''. */
  function Render(f: Field): (s: string)
    ensures f.Missing? ==> s == Unknown
    ensures f.NullField? ==> s == ""
    ensures f.Text? ==> s == f.s
  {
    match f
    case Missing => Unknown
    case NullField => ""
    case Text(s) => s
  }

  /** The four fields joined with '|'. */
  function Fingerprint(d: DeviceData): (r: string)
    ensures var ua := Render(d.userAgent);
      |ua| < |r| && r[..|ua|] == ua && r[|ua|] == '|'
    ensures var tz := Render(d.timezone);
      |tz| < |r| && r[|r| - |tz|..] == tz && r[|r| - |tz| - 1] == '|'
  {
    Render(d.userAgent) + "|" + Render(d.language) + "|" + Render(d.screenResolution) + "|" + Render(d.timezone)
  }

  /** The text before the first '|', and the rest after it. */
  function SplitFirst(s: string): (r: (string, string))
    ensures '|' !in r.0
    ensures '|' in s ==> s == r.0 + "|" + r.1
    ensures '|' !in s ==> r == (s, "")
  {
    if s == [] then ("", "")
    else if s[0] == '|' then ("", s[1..])
    else
      var (a, b) := SplitFirst(s[1..]);
      assert s == [s[0]] + s[1..];
      (([s[0]] + a), b)
  }

  /** The four rendered fields, read back from a fingerprint. */
  function Fields(fp: string): seq<string>
  {
    var (a, r1) := SplitFirst(fp);
    var (b, r2) := SplitFirst(r1);
    var (c, d) := SplitFirst(r2);
    [a, b, c, d]
  }

  lemma {:induction false} SplitFirstOfJoin(a: string, rest: string)
    requires '|' !in a
    ensures SplitFirst(a + "|" + rest) == (a, rest)
    decreases |a|
  {
    if a == [] {
      assert a + "|" + rest == ['|'] + rest;
    } else {
      assert (a + "|" + rest)[0] == a[0] && a[0] != '|';
      assert (a + "|" + rest)[1..] == a[1..] + "|" + rest;
      assert '|' !in a[1..];
      SplitFirstOfJoin(a[1..], rest);
      assert [a[0]] + a[1..] == a;
    }
  }

  /**
   * When no field contains '|', the fingerprint determines the four rendered
   * fields: splitting it at '|' gives them back in order.
   */
  lemma {:induction false} FingerprintSplitsBack(d: DeviceData)
    requires '|' !in Render(d.userAgent) && '|' !in Render(d.language)
    requires '|' !in Render(d.screenResolution) && '|' !in Render(d.timezone)
    ensures Fields(Fingerprint(d)) == [Render(d.userAgent), Render(d.language), Render(d.screenResolution), Render(d.timezone)]
  {
    var u, l, s, t := Render(d.userAgent), Render(d.language), Render(d.screenResolution), Render(d.timezone);
    assert Fingerprint(d) == u + "|" + (l + "|" + (s + "|" + t));
    SplitFirstOfJoin(u, l + "|" + (s + "|" + t));
    SplitFirstOfJoin(l, s + "|" + t);
    SplitFirstOfJoin(s, t);
  }

  /** Two devices whose fields are free of '|' share a fingerprint only if their rendered fields agree. */
  lemma {:induction false} FingerprintInjective(d: DeviceData, e: DeviceData)
    requires '|' !in Render(d.userAgent) && '|' !in Render(d.language)
    requires '|' !in Render(d.screenResolution) && '|' !in Render(d.timezone)
    requires '|' !in Render(e.userAgent) && '|' !in Render(e.language)
    requires '|' !in Render(e.screenResolution) && '|' !in Render(e.timezone)
    requires Fingerprint(d) == Fingerprint(e)
    ensures Render(d.userAgent) == Render(e.userAgent) && Render(d.language) == Render(e.language)
    ensures Render(d.screenResolution) == Render(e.screenResolution) && Render(d.timezone) == Render(e.timezone)
  {
    FingerprintSplitsBack(d);
    FingerprintSplitsBack(e);
  }

  /** A missing field and the literal text 'unknown' give the same fingerprint. */
  lemma {:induction false} MissingIsUnknown(d: DeviceData)
    ensures Fingerprint(d.(userAgent := Missing)) == Fingerprint(d.(userAgent := Text("unknown")))
  {
  }

  /** What SHA-256 is assumed to return: a 64-character lowercase hex digest. */
  predicate IsHexDigest(s: string)
  {
    |s| == 64 && forall i :: 0 <= i < |s| ==> IsLowerHexChar(s[i])
  }

  /** `generateDeviceHash`: the first 16 characters of the digest of the fingerprint. */
  function GenerateDeviceHash(d: DeviceData, sha256: string -> string): (h: string)
    requires IsHexDigest(sha256(Fingerprint(d)))
    ensures |h| == HashLength
    ensures forall i :: 0 <= i < |h| ==> IsLowerHexChar(h[i])
    ensures h <= sha256(Fingerprint(d))
  {
    sha256(Fingerprint(d))[..HashLength]
  }

  /** Every hash the server generates passes the server's own format check. */
  lemma {:induction false} GeneratedHashIsValid(d: DeviceData, sha256: string -> string)
    requires IsHexDigest(sha256(Fingerprint(d)))
    ensures IsValidDeviceHash(Str(GenerateDeviceHash(d, sha256)))
  {
    var h := GenerateDeviceHash(d, sha256);
    assert h != [];
  }
}
