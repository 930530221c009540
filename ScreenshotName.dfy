/**
 * The name a screenshot is saved under: the capture time formatted with the
 * pattern `yyyyMMdd_HHmmss`, followed by `.png`.
 */
module ScreenshotName {
  import opened Wrappers

  /** The calendar fields of the capture time, already in the formatter's time zone. */
  datatype DateTime = DateTime(year: nat, month: nat, day: nat, hour: nat, minute: nat, second: nat)

  predicate ValidDateTime(t: DateTime)
  {
    1 <= t.year && 1 <= t.month <= 12 && 1 <= t.day <= 31 && t.hour < 24 && t.minute < 60 && t.second < 60
  }

  const EXTENSION := ".png"

  predicate IsDigit(c: char)
  {
    '0' <= c <= '9'
  }

  function DigitChar(d: nat): (c: char)
    requires d < 10
    ensures IsDigit(c)
  {
    ('0' as int + d) as char
  }

  function DigitValue(c: char): int
  {
    c as int - '0' as int
  }

  /** A field printed with two digits, as `MM`, `dd`, `HH`, `mm` and `ss` do. */
  function Pad2(n: nat): (r: string)
    requires n < 100
    ensures |r| == 2 && IsDigit(r[0]) && IsDigit(r[1])
  {
    [DigitChar(n / 10), DigitChar(n % 10)]
  }

  /** A year below 10000 printed with four digits, as `yyyy` does. */
  function Pad4(n: nat): (r: string)
    requires n < 10000
    ensures |r| == 4 && forall k :: 0 <= k < 4 ==> IsDigit(r[k])
  {
    Pad2(n / 100) + Pad2(n % 100)
  }

  /** The decimal digits of `n`, without leading zeros. */
  function Decimal(n: nat): (r: string)
    ensures |r| > 0 && forall k :: 0 <= k < |r| ==> IsDigit(r[k])
  {
    if n < 10 then [DigitChar(n)] else Decimal(n / 10) + [DigitChar(n % 10)]
  }

  /** `yyyy` pads to four digits and prints longer years in full. */
  function YearText(year: nat): (r: string)
    ensures |r| > 0 && forall k :: 0 <= k < |r| ==> IsDigit(r[k])
    ensures year < 10000 ==> |r| == 4
  {
    if year < 10000 then Pad4(year) else Decimal(year)
  }

  /** `SimpleDateFormat("yyyyMMdd_HHmmss").format(t)`. */
  function Timestamp(t: DateTime): (r: string)
    requires ValidDateTime(t)
    ensures |r| > 7 && r[|r| - 7] == '_'
    ensures forall k :: 0 <= k < |r| && k != |r| - 7 ==> IsDigit(r[k])
    ensures t.year < 10000 ==> |r| == 15
  {
    YearText(t.year) + (Pad2(t.month) + (Pad2(t.day) + ("_" + (Pad2(t.hour) + (Pad2(t.minute) + Pad2(t.second))))))
  }

  /** The file name a capture taken at `t` is written to. */
  function FileName(t: DateTime): (r: string)
    requires ValidDateTime(t)
    ensures |r| > |EXTENSION| && r[|r| - |EXTENSION|..] == EXTENSION
    ensures r[..|r| - |EXTENSION|] == Timestamp(t)
  {
    Timestamp(t) + EXTENSION
  }

  function Value2(s: string): int
    requires |s| == 2
  {
    10 * DigitValue(s[0]) + DigitValue(s[1])
  }

  /** Reads a capture time back out of a file name of the form `dddddddd_dddddd.png`. */
  function ParseFileName(s: string): Option<DateTime>
  {
    if |s| == 19 && s[8] == '_' && s[15..] == EXTENSION
      && (forall k :: 0 <= k < 15 && k != 8 ==> IsDigit(s[k]))
    then
      Some(DateTime(100 * Value2(s[0..2]) + Value2(s[2..4]), Value2(s[4..6]), Value2(s[6..8]),
                    Value2(s[9..11]), Value2(s[11..13]), Value2(s[13..15])))
    else None
  }

  /** A capture before the year 10000 is named `dddddddd_dddddd.png`. */
  lemma FileNameShape(t: DateTime)
    requires ValidDateTime(t) && t.year < 10000
    ensures var name := FileName(t);
      |name| == 19 && name[8] == '_' && name[15..] == EXTENSION
      && forall k :: 0 <= k < 15 && k != 8 ==> IsDigit(name[k])
  {
  }

  /** The capture time can be read back from the file name. */
  lemma FileNameRoundTrip(t: DateTime)
    requires ValidDateTime(t) && t.year < 10000
    ensures ParseFileName(FileName(t)) == Some(t)
  {
  }

  /** Strict lexicographic order on strings, as `String.compareTo(...) < 0`. */
  predicate LexLess(a: string, b: string)
  {
    |b| > 0 && (|a| == 0 || a[0] < b[0] || (a[0] == b[0] && LexLess(a[1..], b[1..])))
  }

  /** `t1` is an earlier second than `t2`. */
  predicate Before(t1: DateTime, t2: DateTime)
  {
    t1.year < t2.year || (t1.year == t2.year &&
    (t1.month < t2.month || (t1.month == t2.month &&
    (t1.day < t2.day || (t1.day == t2.day &&
    (t1.hour < t2.hour || (t1.hour == t2.hour &&
    (t1.minute < t2.minute || (t1.minute == t2.minute && t1.second < t2.second)))))))))
  }

  /** Comparing two strings with equally long heads compares the heads first and the tails on a tie. */
  lemma {:induction false} LexLessConcat(a1: string, b1: string, a2: string, b2: string)
    requires |a1| == |a2|
    ensures LexLess(a1 + b1, a2 + b2) <==> LexLess(a1, a2) || (a1 == a2 && LexLess(b1, b2))
  {
    if a1 == [] {
      assert a1 + b1 == b1 && a2 + b2 == b2;
    } else {
      assert (a1 + b1)[1..] == a1[1..] + b1;
      assert (a2 + b2)[1..] == a2[1..] + b2;
      LexLessConcat(a1[1..], b1, a2[1..], b2);
      if a1[0] == a2[0] && a1[1..] == a2[1..] {
        assert a1 == a2 by {
          assert a1 == [a1[0]] + a1[1..] && a2 == [a2[0]] + a2[1..];
        }
      }
    }
  }

  /** Two-digit fields compare as strings as they do as numbers. */
  lemma Pad2Order(m: nat, n: nat)
    requires m < 100 && n < 100
    ensures LexLess(Pad2(m), Pad2(n)) <==> m < n
    ensures Pad2(m) == Pad2(n) <==> m == n
  {
    var a, b := Pad2(m), Pad2(n);
    assert a[0] as int == '0' as int + m / 10 && b[0] as int == '0' as int + n / 10;
    assert a[1] as int == '0' as int + m % 10 && b[1] as int == '0' as int + n % 10;
    assert a[1..] == [a[1]] && b[1..] == [b[1]];
    assert !LexLess([], []);
    assert LexLess(a[1..], b[1..]) <==> a[1] < b[1];
    assert LexLess(a, b) <==> a[0] < b[0] || (a[0] == b[0] && a[1] < b[1]);
    assert m == 10 * (m / 10) + m % 10 && n == 10 * (n / 10) + n % 10;
  }

  lemma Pad4Order(m: nat, n: nat)
    requires m < 10000 && n < 10000
    ensures LexLess(Pad4(m), Pad4(n)) <==> m < n
    ensures Pad4(m) == Pad4(n) <==> m == n
  {
    Pad2Order(m / 100, n / 100);
    Pad2Order(m % 100, n % 100);
    LexLessConcat(Pad2(m / 100), Pad2(m % 100), Pad2(n / 100), Pad2(n % 100));
    assert m == 100 * (m / 100) + m % 100 && n == 100 * (n / 100) + n % 100;
    if Pad4(m) == Pad4(n) {
      assert Pad4(m)[..2] == Pad2(m / 100) && Pad4(n)[..2] == Pad2(n / 100);
      assert Pad4(m)[2..] == Pad2(m % 100) && Pad4(n)[2..] == Pad2(n % 100);
    }
  }

  lemma LexLessIrreflexive(a: string)
    ensures !LexLess(a, a)
  {
  }

  /** Before the year 10000, file names sort as their capture times do. */
  lemma FileNameOrder(t1: DateTime, t2: DateTime)
    requires ValidDateTime(t1) && ValidDateTime(t2) && t1.year < 10000 && t2.year < 10000
    ensures Before(t1, t2) <==> LexLess(FileName(t1), FileName(t2))
  {
    Pad4Order(t1.year, t2.year);
    Pad2Order(t1.month, t2.month);
    Pad2Order(t1.day, t2.day);
    Pad2Order(t1.hour, t2.hour);
    Pad2Order(t1.minute, t2.minute);
    Pad2Order(t1.second, t2.second);
    LexLessIrreflexive("_");
    LexLessIrreflexive(EXTENSION);
    var s1, s2 := Pad2(t1.second) + EXTENSION, Pad2(t2.second) + EXTENSION;
    LexLessConcat(Pad2(t1.second), EXTENSION, Pad2(t2.second), EXTENSION);
    var mi1, mi2 := Pad2(t1.minute) + s1, Pad2(t2.minute) + s2;
    LexLessConcat(Pad2(t1.minute), s1, Pad2(t2.minute), s2);
    var h1, h2 := Pad2(t1.hour) + mi1, Pad2(t2.hour) + mi2;
    LexLessConcat(Pad2(t1.hour), mi1, Pad2(t2.hour), mi2);
    var u1, u2 := "_" + h1, "_" + h2;
    LexLessConcat("_", h1, "_", h2);
    var d1, d2 := Pad2(t1.day) + u1, Pad2(t2.day) + u2;
    LexLessConcat(Pad2(t1.day), u1, Pad2(t2.day), u2);
    var mo1, mo2 := Pad2(t1.month) + d1, Pad2(t2.month) + d2;
    LexLessConcat(Pad2(t1.month), d1, Pad2(t2.month), d2);
    LexLessConcat(Pad4(t1.year), mo1, Pad4(t2.year), mo2);
    assert FileName(t1) == Pad4(t1.year) + mo1;
    assert FileName(t2) == Pad4(t2.year) + mo2;
  }
}
