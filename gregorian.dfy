/**
 * Calendar arithmetic that the appointment code takes from JavaScript's `Date`, written
 * out over the proleptic Gregorian calendar: month lengths, weekdays, the normalisation
 * `new Date(year, monthIndex, day)` performs, and the `YYYY-MM-DD` text that
 * `toISOString().split('T')[0]` yields (the ISO 8601 calendar date in extended format,
 * clause 4.1.2.2 of ISO 8601:2004).
 */
module Gregorian {
  import opened Wrappers
  import opened JsText

  predicate IsLeapYear(y: int) {
    y % 4 == 0 && (y % 100 != 0 || y % 400 == 0)
  }

  function DaysInMonth(y: int, m: int): (n: int)
    requires 1 <= m <= 12
    ensures 28 <= n <= 31
  {
    if m == 2 then (if IsLeapYear(y) then 29 else 28)
    else if m == 4 || m == 6 || m == 9 || m == 11 then 30
    else 31
  }

  predicate ValidDate(y: int, m: int, d: int) {
    1 <= m <= 12 && 1 <= d <= DaysInMonth(y, m)
  }

  /** Days in the years before `y`, counted from 1 January of year 1. */
  function DaysBeforeYear(y: int): int {
    var p := y - 1;
    365 * p + p / 4 - p / 100 + p / 400
  }

  /** Days in the months of year `y` before month `m`. */
  function DaysBeforeMonth(y: int, m: int): (r: int)
    requires 1 <= m <= 13
    ensures r >= 0
  {
    if m == 1 then 0 else DaysBeforeMonth(y, m - 1) + DaysInMonth(y, m - 1)
  }

  /** A serial day number: 1 January of year 1 is day 1. */
  function DayNumber(y: int, m: int, d: int): int
    requires 1 <= m <= 12
  {
    DaysBeforeYear(y) + DaysBeforeMonth(y, m) + d
  }

  /** `getDay()`: 0 is Sunday, 1 Monday, ..., 6 Saturday. */
  function Weekday(y: int, m: int, d: int): (w: int)
    requires 1 <= m <= 12
    ensures 0 <= w < 7
  {
    DayNumber(y, m, d) % 7
  }

  predicate IsWeekend(y: int, m: int, d: int)
    requires 1 <= m <= 12
  {
    var w := Weekday(y, m, d);
    w == 0 || w == 6
  }

  /** The calendar day after a valid date. */
  function NextDate(y: int, m: int, d: int): (r: (int, int, int))
    requires ValidDate(y, m, d)
    ensures ValidDate(r.0, r.1, r.2)
  {
    if d < DaysInMonth(y, m) then (y, m, d + 1)
    else if m < 12 then (y, m + 1, 1)
    else (y + 1, 1, 1)
  }

  lemma DaysInYear(y: int)
    ensures DaysBeforeMonth(y, 13) == if IsLeapYear(y) then 366 else 365
  {
    var feb := DaysInMonth(y, 2);
    assert DaysBeforeMonth(y, 2) == 31;
    assert DaysBeforeMonth(y, 3) == 31 + feb;
    assert DaysBeforeMonth(y, 4) == 62 + feb;
    assert DaysBeforeMonth(y, 5) == 92 + feb;
    assert DaysBeforeMonth(y, 6) == 123 + feb;
    assert DaysBeforeMonth(y, 7) == 153 + feb;
    assert DaysBeforeMonth(y, 8) == 184 + feb;
    assert DaysBeforeMonth(y, 9) == 215 + feb;
    assert DaysBeforeMonth(y, 10) == 245 + feb;
    assert DaysBeforeMonth(y, 11) == 276 + feb;
    assert DaysBeforeMonth(y, 12) == 306 + feb;
    assert DaysBeforeMonth(y, 13) == 337 + feb;
  }

  lemma DaysBeforeNextYear(y: int)
    ensures DaysBeforeYear(y + 1) == DaysBeforeYear(y) + DaysBeforeMonth(y, 13)
  {
    DaysInYear(y);
    QuotientSteps(y);
    MultipleChain(y);
  }

  /** The leap-day terms of `DaysBeforeYear` grow by one exactly at multiples of 4, 100, 400. */
  lemma QuotientSteps(y: int)
    ensures DaysBeforeYear(y + 1) - DaysBeforeYear(y) ==
      365 + (if y % 4 == 0 then 1 else 0) - (if y % 100 == 0 then 1 else 0) + (if y % 400 == 0 then 1 else 0)
  {
    assert y / 4 == (y - 1) / 4 + (if y % 4 == 0 then 1 else 0);
    assert y / 100 == (y - 1) / 100 + (if y % 100 == 0 then 1 else 0);
    assert y / 400 == (y - 1) / 400 + (if y % 400 == 0 then 1 else 0);
  }

  lemma MultipleChain(y: int)
    ensures y % 400 == 0 ==> y % 100 == 0
    ensures y % 100 == 0 ==> y % 4 == 0
  {
    if y % 400 == 0 {
      HundredDivides(y, 4 * (y / 400));
    }
    if y % 100 == 0 {
      FourDivides(y, 25 * (y / 100));
    }
  }

  lemma HundredDivides(y: int, j: int)
    requires y == 100 * j
    ensures y % 100 == 0
  {
  }

  lemma FourDivides(y: int, j: int)
    requires y == 4 * j
    ensures y % 4 == 0
  {
  }

  /** The serial day number counts days: the next date is the next number. */
  lemma {:induction false} DayNumberOfNextDate(y: int, m: int, d: int)
    requires ValidDate(y, m, d)
    ensures var n := NextDate(y, m, d); DayNumber(n.0, n.1, n.2) == DayNumber(y, m, d) + 1
  {
    if d == DaysInMonth(y, m) && m == 12 {
      DaysBeforeNextYear(y);
    }
  }

  /** Consecutive days have consecutive weekdays, Saturday wrapping to Sunday. */
  lemma WeekdayOfNextDate(y: int, m: int, d: int)
    requires ValidDate(y, m, d)
    ensures var n := NextDate(y, m, d); Weekday(n.0, n.1, n.2) == (Weekday(y, m, d) + 1) % 7
  {
    var n := NextDate(y, m, d);
    var a := DayNumber(y, m, d);
    DayNumberOfNextDate(y, m, d);
    assert Weekday(n.0, n.1, n.2) == (a + 1) % 7;
    assert Weekday(y, m, d) == a % 7;
    ModSevenSucc(a);
  }

  lemma ModSevenSucc(a: int)
    ensures (a + 1) % 7 == (a % 7 + 1) % 7
  {
  }

  /** 10 June 2025 is a Tuesday. */
  lemma WeekdayAnchor()
    ensures Weekday(2025, 6, 10) == 2
  {
    assert DaysBeforeYear(2025) == 739251;
    assert DaysBeforeMonth(2025, 6) == 151;
  }

  lemma {:induction false} DaysBeforeMonthBound(y: int, m: int)
    requires 1 <= m <= 12
    ensures DaysBeforeMonth(y, m) + DaysInMonth(y, m) <= DaysBeforeMonth(y, 13)
    decreases 12 - m
  {
    if m < 12 {
      DaysBeforeMonthBound(y, m + 1);
    }
  }

  lemma {:induction false} DaysBeforeMonthMonotone(y: int, m1: int, m2: int)
    requires 1 <= m1 < m2 <= 13
    ensures DaysBeforeMonth(y, m1) + DaysInMonth(y, m1) <= DaysBeforeMonth(y, m2)
    decreases m2 - m1
  {
    if m1 + 1 < m2 {
      DaysBeforeMonthMonotone(y, m1, m2 - 1);
    }
  }

  lemma {:induction false} DaysBeforeYearMonotone(y1: int, y2: int)
    requires y1 < y2
    ensures DaysBeforeYear(y1) + DaysBeforeMonth(y1, 13) <= DaysBeforeYear(y2)
    decreases y2 - y1
  {
    DaysBeforeNextYear(y1);
    if y1 + 1 < y2 {
      DaysBeforeYearMonotone(y1 + 1, y2);
      DaysInYear(y1 + 1);
    }
  }

  /** Date order: `(y1, m1, d1)` comes before `(y2, m2, d2)` field by field. */
  predicate DateBefore(y1: int, m1: int, d1: int, y2: int, m2: int, d2: int) {
    y1 < y2 || (y1 == y2 && (m1 < m2 || (m1 == m2 && d1 < d2)))
  }

  /** On valid dates the serial day number is strictly increasing in date order. */
  lemma DayNumberIncreasing(y1: int, m1: int, d1: int, y2: int, m2: int, d2: int)
    requires ValidDate(y1, m1, d1) && ValidDate(y2, m2, d2)
    ensures DateBefore(y1, m1, d1, y2, m2, d2) <==> DayNumber(y1, m1, d1) < DayNumber(y2, m2, d2)
  {
    if y1 < y2 {
      DaysBeforeMonthBound(y1, m1);
      DaysBeforeYearMonotone(y1, y2);
    } else if y2 < y1 {
      DaysBeforeMonthBound(y2, m2);
      DaysBeforeYearMonotone(y2, y1);
    } else if m1 < m2 {
      DaysBeforeMonthMonotone(y1, m1, m2);
    } else if m2 < m1 {
      DaysBeforeMonthMonotone(y1, m2, m1);
    }
  }

  // ---- JavaScript Date normalisation ----

  /** The `Date(year, ...)` constructor reads years 0..99 as 1900..1999. */
  function JsFullYear(year: int): int {
    if 0 <= year <= 99 then 1900 + year else year
  }

  /** The (year, month 1..12) that `new Date(year, monthIndex, ...)` lands in. */
  function JsYearMonth(year: int, monthIndex: int): (ym: (int, int))
    ensures 1 <= ym.1 <= 12
  {
    (JsFullYear(year) + monthIndex / 12, monthIndex % 12 + 1)
  }

  /**
   * `new Date(year, month, 0).getDate()`: day 0 of month index `month` is the last day of
   * month index `month - 1`, i.e. of the 1-based month `month`, after normalisation.
   */
  function JsDaysInMonth(year: int, month: int): (n: int)
    ensures 28 <= n <= 31
  {
    var ym := JsYearMonth(year, month - 1);
    DaysInMonth(ym.0, ym.1)
  }

  /** For an ordinary year and month the constructor's normalisation changes nothing. */
  lemma JsYearMonthPlain(year: int, month: int)
    requires (year < 0 || year > 99) && 1 <= month <= 12
    ensures JsYearMonth(year, month - 1) == (year, month)
    ensures JsDaysInMonth(year, month) == DaysInMonth(year, month)
  {
  }

  // ---- ISO 8601 text ----

  /** `String(n).padStart(2, '0')`. */
  function Pad2(n: nat): (s: string)
    ensures |s| >= 2
  {
    PadStart(NatToString(n), 2, '0')
  }

  /** The year field of `toISOString()`: four digits, or a sign and six digits outside 0..9999. */
  function IsoYear(y: int): string {
    if 0 <= y <= 9999 then PadStart(NatToString(y), 4, '0')
    else if y < 0 then "-" + PadStart(NatToString(-y), 6, '0')
    else "+" + PadStart(NatToString(y), 6, '0')
  }

  /** `date.toISOString().split('T')[0]` for a date whose UTC and local calendar days agree. */
  function IsoDate(y: int, m: int, d: int): string
    requires 1 <= m <= 12 && 1 <= d
  {
    IsoYear(y) + "-" + Pad2(m) + "-" + Pad2(d)
  }

  /** The date as the fixed-width text YYYY-MM-DD. */
  lemma IsoDateDigits(y: int, m: int, d: int)
    requires 0 <= y <= 9999 && 1 <= m <= 12 && 1 <= d <= 99
    ensures IsoDate(y, m, d) == Digits(y, 4) + "-" + Digits(m, 2) + "-" + Digits(d, 2)
  {
    assert Pow10(2) == 100 && Pow10(4) == 10000;
    assert IsoYear(y) == Digits(y, 4) by {
      PadStartIsDigits(y, 4);
    }
    assert Pad2(m) == Digits(m, 2) by {
      PadStartIsDigits(m, 2);
    }
    assert Pad2(d) == Digits(d, 2) by {
      PadStartIsDigits(d, 2);
    }
  }

  /** `YYYY-MM-DD` with a valid month and day: the ISO 8601 extended calendar date. */
  predicate IsIsoCalendarDate(s: string) {
    ParseIsoDate(s).Some?
  }

  /** Reads `YYYY-MM-DD` back; `None` for any other text or an impossible date. */
  function ParseIsoDate(s: string): (r: Option<(int, int, int)>)
    ensures r.Some? ==> ValidDate(r.value.0, r.value.1, r.value.2) && 0 <= r.value.0 <= 9999
  {
    if |s| == 10 && s[4] == '-' && s[7] == '-' && AllDigits(s[..4]) && AllDigits(s[5..7])
       && AllDigits(s[8..])
    then
      var y, m, d := DigitsValue(s[..4]), DigitsValue(s[5..7]), DigitsValue(s[8..]);
      assert y < 10000 by { DigitsValueBound(s[..4]); }
      if ValidDate(y, m, d) then Some((y, m, d)) else None
    else None
  }

  lemma {:induction false} DigitsValueBound(s: string)
    requires AllDigits(s)
    ensures DigitsValue(s) < Pow10(|s|)
  {
    if s != [] {
      DigitsValueBound(s[..|s| - 1]);
    }
  }

  /** Every valid date of years 0..9999 round-trips through its ISO text. */
  lemma ParseIsoDateOfIsoDate(y: int, m: int, d: int)
    requires 0 <= y <= 9999 && ValidDate(y, m, d)
    ensures ParseIsoDate(IsoDate(y, m, d)) == Some((y, m, d))
  {
    IsoDateDigits(y, m, d);
    assert Pow10(2) == 100 && Pow10(4) == 10000;
    var a, b, c := Digits(y, 4), Digits(m, 2), Digits(d, 2);
    DigitsValueOfDigits(y, 4);
    DigitsValueOfDigits(m, 2);
    DigitsValueOfDigits(d, 2);
    SeparatedFields(a, b, c);
  }

  /** Where the fields of `a-b-c` sit when they are 4, 2 and 2 characters wide. */
  lemma SeparatedFields(a: string, b: string, c: string)
    requires |a| == 4 && |b| == 2 && |c| == 2
    ensures var s := a + "-" + b + "-" + c;
      |s| == 10 && s[4] == '-' && s[7] == '-' && s[..4] == a && s[5..7] == b && s[8..] == c
  {
    var s := a + "-" + b + "-" + c;
    assert s[..4] == a;
    assert s[5..7] == b;
    assert s[8..] == c;
  }

  /** Comparing `a + "-" + r` texts whose first fields have equal width. */
  lemma SeparatedLess(a1: string, r1: string, a2: string, r2: string)
    requires |a1| == |a2|
    ensures StringLess(a1 + "-" + r1, a2 + "-" + r2) <==> StringLess(a1, a2) || (a1 == a2 && StringLess(r1, r2))
    ensures a1 + "-" + r1 == a2 + "-" + r2 <==> a1 == a2 && r1 == r2
  {
    StringLessOfConcat(a1 + "-", r1, a2 + "-", r2);
    StringLessOfConcat(a1, "-", a2, "-");
    StringLessIrreflexive("-");
    assert a1 + "-" == a2 + "-" <==> a1 == a2 by {
      if a1 + "-" == a2 + "-" {
        assert a1 == (a1 + "-")[..|a1|];
      }
    }
    if a1 + "-" + r1 == a2 + "-" + r2 {
      assert a1 + "-" == (a1 + "-" + r1)[..|a1| + 1];
      assert r1 == (a1 + "-" + r1)[|a1| + 1..];
    }
  }

  /** Fixed-width `YYYY-MM-DD` texts compare as strings the way their dates are ordered. */
  lemma DateTextOrder(y1: nat, m1: nat, d1: nat, y2: nat, m2: nat, d2: nat)
    requires y1 < 10000 && m1 < 100 && d1 < 100 && y2 < 10000 && m2 < 100 && d2 < 100
    ensures var t1, t2 := Digits(y1, 4) + "-" + Digits(m1, 2) + "-" + Digits(d1, 2),
                          Digits(y2, 4) + "-" + Digits(m2, 2) + "-" + Digits(d2, 2);
      (StringLess(t1, t2) <==> DateBefore(y1, m1, d1, y2, m2, d2)) &&
      (t1 == t2 <==> (y1, m1, d1) == (y2, m2, d2))
  {
    assert Pow10(2) == 100 && Pow10(4) == 10000;
    DigitsOrder(y1, y2, 4);
    DigitsOrder(m1, m2, 2);
    DigitsOrder(d1, d2, 2);
    var r1 := Digits(m1, 2) + "-" + Digits(d1, 2);
    var r2 := Digits(m2, 2) + "-" + Digits(d2, 2);
    SeparatedLess(Digits(m1, 2), Digits(d1, 2), Digits(m2, 2), Digits(d2, 2));
    SeparatedLess(Digits(y1, 4), r1, Digits(y2, 4), r2);
    assert Digits(y1, 4) + "-" + Digits(m1, 2) + "-" + Digits(d1, 2) == Digits(y1, 4) + "-" + r1;
    assert Digits(y2, 4) + "-" + Digits(m2, 2) + "-" + Digits(d2, 2) == Digits(y2, 4) + "-" + r2;
  }

  /**
   * JavaScript string comparison on ISO dates of years 0..9999 is chronological order:
   * the range test `start <= date && date <= end` compares calendar days.
   */
  lemma IsoDateOrder(y1: int, m1: int, d1: int, y2: int, m2: int, d2: int)
    requires 0 <= y1 <= 9999 && ValidDate(y1, m1, d1)
    requires 0 <= y2 <= 9999 && ValidDate(y2, m2, d2)
    ensures StringLess(IsoDate(y1, m1, d1), IsoDate(y2, m2, d2)) <==> DayNumber(y1, m1, d1) < DayNumber(y2, m2, d2)
    ensures IsoDate(y1, m1, d1) == IsoDate(y2, m2, d2) <==> (y1, m1, d1) == (y2, m2, d2)
  {
    IsoDateDigits(y1, m1, d1);
    IsoDateDigits(y2, m2, d2);
    DateTextOrder(y1, m1, d1, y2, m2, d2);
    DayNumberIncreasing(y1, m1, d1, y2, m2, d2);
  }
}
