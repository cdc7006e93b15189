/**
 * The time-window test of `getRecentFailedLogins` (auditService.js:73-79).
 * The `created_at` column is filled by SQLite's CURRENT_TIMESTAMP, text of the
 * form 'YYYY-MM-DD HH:MM:SS'; the cutoff bound to the query is JavaScript's
 * `toISOString()`, 'YYYY-MM-DDTHH:MM:SS.sssZ'. A DATETIME column holding such
 * text keeps it as text, so `created_at > ?` compares the two strings with
 * the BINARY collation: byte by byte, a proper prefix first.
 */
module Timestamps {
  import opened Common

  /** A UTC date and time, as the calendar fields both formats print. */
  datatype DateTime = DateTime(year: nat, month: nat, day: nat, hour: nat, minute: nat, second: nat, millis: nat)

  predicate Valid(t: DateTime)
  {
    && t.year < 10000 && 1 <= t.month <= 12 && 1 <= t.day <= 31
    && t.hour < 24 && t.minute < 60 && t.second < 60 && t.millis < 1000
  }

  function Pow10(w: nat): (p: nat)
    ensures p > 0
  {
    if w == 0 then 1 else 10 * Pow10(w - 1)
  }

  /** `n` in exactly `w` decimal digits, zero-padded on the left. */
  function Pad(n: nat, w: nat): (s: string)
    ensures |s| == w
    ensures forall i :: 0 <= i < |s| ==> IsDigit(s[i])
  {
    if w == 0 then "" else Pad(n / 10, w - 1) + [DigitChar(n % 10)]
  }

  /** The BINARY collation: the first differing character decides, and a proper prefix sorts first. */
  predicate LexLess(a: string, b: string)
    decreases |a|
  {
    if a == [] then b != []
    else b != [] && (a[0] < b[0] || (a[0] == b[0] && LexLess(a[1..], b[1..])))
  }

  lemma {:induction false} LexLessIrreflexive(a: string)
    ensures !LexLess(a, a)
    decreases |a|
  {
    if a != [] {
      LexLessIrreflexive(a[1..]);
    }
  }

  /** Comparing two texts whose first parts have the same length: the first parts decide unless they are equal. */
  lemma {:induction false} LexLessConcat(a1: string, a2: string, r1: string, r2: string)
    requires |a1| == |a2|
    ensures a1 + r1 == a2 + r2 <==> a1 == a2 && r1 == r2
    ensures LexLess(a1 + r1, a2 + r2) <==> LexLess(a1, a2) || (a1 == a2 && LexLess(r1, r2))
    decreases |a1|
  {
    if a1 + r1 == a2 + r2 {
      assert a1 == (a1 + r1)[..|a1|] && a2 == (a2 + r2)[..|a2|];
      assert r1 == (a1 + r1)[|a1|..] && r2 == (a2 + r2)[|a2|..];
    }
    if a1 == [] {
      assert a1 + r1 == r1 && a2 + r2 == r2;
    } else {
      assert (a1 + r1)[0] == a1[0] && (a1 + r1)[1..] == a1[1..] + r1;
      assert (a2 + r2)[0] == a2[0] && (a2 + r2)[1..] == a2[1..] + r2;
      LexLessConcat(a1[1..], a2[1..], r1, r2);
      if a1[0] == a2[0] && a1[1..] == a2[1..] {
        assert a1 == [a1[0]] + a1[1..] && a2 == [a2[0]] + a2[1..];
      }
      LexLessIrreflexive(a1);
    }
  }

  lemma {:induction false} DigitCharOrder(a: nat, b: nat)
    requires a < 10 && b < 10
    ensures DigitChar(a) < DigitChar(b) <==> a < b
    ensures DigitChar(a) == DigitChar(b) <==> a == b
  {
  }

  /** Zero-padded numbers of the same width sort as text exactly as they sort as numbers. */
  lemma {:induction false} PadOrder(n: nat, m: nat, w: nat)
    requires n < Pow10(w) && m < Pow10(w)
    ensures LexLess(Pad(n, w), Pad(m, w)) <==> n < m
    ensures Pad(n, w) == Pad(m, w) <==> n == m
    decreases w
  {
    if w > 0 {
      var dn, dm := [DigitChar(n % 10)], [DigitChar(m % 10)];
      PadOrder(n / 10, m / 10, w - 1);
      LexLessConcat(Pad(n / 10, w - 1), Pad(m / 10, w - 1), dn, dm);
      DigitCharOrder(n % 10, m % 10);
      assert LexLess(dn, dm) <==> dn[0] < dm[0] by {
        assert dn[1..] == [] && dm[1..] == [];
      }
      assert dn == dm <==> dn[0] == dm[0];
    }
  }

  /** One numeric field followed by the rest of the text. */
  lemma {:induction false} FieldStep(n: nat, m: nat, w: nat, r1: string, r2: string)
    requires n < Pow10(w) && m < Pow10(w)
    ensures LexLess(Pad(n, w) + r1, Pad(m, w) + r2) <==> n < m || (n == m && LexLess(r1, r2))
  {
    PadOrder(n, m, w);
    LexLessConcat(Pad(n, w), Pad(m, w), r1, r2);
  }

  /** A separator shared by both texts decides nothing. */
  lemma {:induction false} SepStep(c: char, r1: string, r2: string)
    ensures LexLess([c] + r1, [c] + r2) <==> LexLess(r1, r2)
  {
    assert ([c] + r1)[1..] == r1 && ([c] + r2)[1..] == r2;
  }

  /** 'YYYY-MM-DD' followed by the character `sep` and the rest of the text. */
  function DatePart(t: DateTime, sep: char, rest: string): string
  {
    Pad(t.year, 4) + ("-" + (Pad(t.month, 2) + ("-" + (Pad(t.day, 2) + ([sep] + rest)))))
  }

  /** 'HH:MM:SS'. */
  function TimePart(t: DateTime): string
  {
    Pad(t.hour, 2) + (":" + (Pad(t.minute, 2) + (":" + Pad(t.second, 2))))
  }

  /** SQLite's CURRENT_TIMESTAMP: 'YYYY-MM-DD HH:MM:SS'. */
  function SqliteText(t: DateTime): string
  {
    DatePart(t, ' ', TimePart(t))
  }

  /** `Date.prototype.toISOString()`: 'YYYY-MM-DDTHH:MM:SS.sssZ'. */
  function IsoText(t: DateTime): string
  {
    DatePart(t, 'T', TimePart(t) + ("." + (Pad(t.millis, 3) + "Z")))
  }

  predicate SameDate(a: DateTime, b: DateTime)
  {
    a.year == b.year && a.month == b.month && a.day == b.day
  }

  /** The calendar date of `a` is strictly before that of `b`. */
  predicate DateBefore(a: DateTime, b: DateTime)
  {
    a.year < b.year || (a.year == b.year && (a.month < b.month || (a.month == b.month && a.day < b.day)))
  }

  /** `a` is a later second than `b` (the precision of CURRENT_TIMESTAMP). */
  predicate Later(a: DateTime, b: DateTime)
  {
    DateBefore(b, a) || (SameDate(a, b) &&
      (b.hour < a.hour || (b.hour == a.hour && (b.minute < a.minute || (b.minute == a.minute && b.second < a.second)))))
  }

  lemma {:induction false} DatePartOrder(a: DateTime, b: DateTime, sa: char, sb: char, ra: string, rb: string)
    requires Valid(a) && Valid(b)
    ensures LexLess(DatePart(a, sa, ra), DatePart(b, sb, rb)) <==>
      DateBefore(a, b) || (SameDate(a, b) && LexLess([sa] + ra, [sb] + rb))
  {
    assert Pow10(2) == 100 && Pow10(4) == 10000 by {
      assert Pow10(1) == 10;
      assert Pow10(3) == 1000;
    }
    var da, db := Pad(a.day, 2) + ([sa] + ra), Pad(b.day, 2) + ([sb] + rb);
    FieldStep(a.day, b.day, 2, [sa] + ra, [sb] + rb);
    SepStep('-', da, db);
    var ma, mb := Pad(a.month, 2) + ("-" + da), Pad(b.month, 2) + ("-" + db);
    FieldStep(a.month, b.month, 2, "-" + da, "-" + db);
    SepStep('-', ma, mb);
    FieldStep(a.year, b.year, 4, "-" + ma, "-" + mb);
  }

  lemma {:induction false} TimePartOrder(a: DateTime, b: DateTime)
    requires Valid(a) && Valid(b)
    ensures LexLess(TimePart(a), TimePart(b)) <==>
      a.hour < b.hour || (a.hour == b.hour && (a.minute < b.minute || (a.minute == b.minute && a.second < b.second)))
  {
    assert Pow10(2) == 100 by {
      assert Pow10(1) == 10;
    }
    FieldStep(a.second, b.second, 2, "", "");
    assert Pad(a.second, 2) + "" == Pad(a.second, 2) && Pad(b.second, 2) + "" == Pad(b.second, 2);
    SepStep(':', Pad(a.second, 2), Pad(b.second, 2));
    var sa, sb := Pad(a.minute, 2) + (":" + Pad(a.second, 2)), Pad(b.minute, 2) + (":" + Pad(b.second, 2));
    FieldStep(a.minute, b.minute, 2, ":" + Pad(a.second, 2), ":" + Pad(b.second, 2));
    SepStep(':', sa, sb);
    FieldStep(a.hour, b.hour, 2, ":" + sa, ":" + sb);
  }

  /**
   * The comparison as written: the stored row text against the ISO cutoff.
   * It holds exactly when the row's date is after the cutoff's date, whatever
   * the times: at the first character past the date the row has ' ' and the
   * cutoff 'T', and ' ' sorts first.
   */
  predicate CountedAsWritten(row: DateTime, cutoff: DateTime)
  {
    LexLess(IsoText(cutoff), SqliteText(row))
  }

  lemma {:induction false} AsWrittenComparesDatesOnly(row: DateTime, cutoff: DateTime)
    requires Valid(row) && Valid(cutoff)
    ensures CountedAsWritten(row, cutoff) <==> DateBefore(cutoff, row)
  {
    var ri := TimePart(cutoff) + ("." + (Pad(cutoff.millis, 3) + "Z"));
    DatePartOrder(cutoff, row, 'T', ' ', ri, TimePart(row));
    assert !LexLess(['T'] + ri, [' '] + TimePart(row));
  }

  /**
   * A failed login on the same UTC date as the cutoff is never counted, even
   * when it is later than the cutoff: at 12:00:00 on 2026-10-15, with the
   * window opening at 11:45:00.000 that day, the row is inside the window and
   * still left out.
   */
  lemma {:induction false} SameDayFailureNeverCounted(row: DateTime, cutoff: DateTime)
    requires Valid(row) && Valid(cutoff) && SameDate(row, cutoff)
    ensures !CountedAsWritten(row, cutoff)
    ensures var r, c := DateTime(2026, 10, 15, 12, 0, 0, 0), DateTime(2026, 10, 15, 11, 45, 0, 0);
      Later(r, c) && !CountedAsWritten(r, c)
  {
    AsWrittenComparesDatesOnly(row, cutoff);
    var r, c := DateTime(2026, 10, 15, 12, 0, 0, 0), DateTime(2026, 10, 15, 11, 45, 0, 0);
    AsWrittenComparesDatesOnly(r, c);
  }

  /**
   * The comparison with the cutoff written in SQLite's own format (what
   * `datetime('now', '-15 minutes')` yields): a row counts exactly when it
   * is a later second than the cutoff.
   */
  predicate CountedCorrected(row: DateTime, cutoff: DateTime)
  {
    LexLess(SqliteText(cutoff), SqliteText(row))
  }

  lemma {:induction false} CorrectedCountsLaterRows(row: DateTime, cutoff: DateTime)
    requires Valid(row) && Valid(cutoff)
    ensures CountedCorrected(row, cutoff) <==> Later(row, cutoff)
    ensures SameDate(row, cutoff) && Later(row, cutoff) ==> CountedCorrected(row, cutoff)
  {
    DatePartOrder(cutoff, row, ' ', ' ', TimePart(cutoff), TimePart(row));
    SepStep(' ', TimePart(cutoff), TimePart(row));
    TimePartOrder(cutoff, row);
  }
}
