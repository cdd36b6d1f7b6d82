/**
 * The part of java.time.LocalDate the statistics need: proleptic Gregorian
 * dates with four-digit years, toEpochDay, the ISO day of the week, month
 * lengths with leap years, and LocalDate.parse on the ISO form yyyy-MM-dd.
 */
module Calendar {
  import opened Wrappers
  import opened JsonNode

  datatype Date = Date(year: int, month: int, day: int)

  /** Year.isLeap: divisible by 4, and not by 100 unless by 400. */
  predicate IsLeapYear(y: int) {
    y % 4 == 0 && (y % 100 != 0 || y % 400 == 0)
  }

  /** LocalDate.lengthOfMonth. */
  function LengthOfMonth(year: int, month: int): (n: int)
    requires 1 <= month <= 12
    ensures 28 <= n <= 31
    ensures month == 2 ==> (n == 29 <==> IsLeapYear(year))
  {
    if month == 2 then (if IsLeapYear(year) then 29 else 28)
    else if month == 4 || month == 6 || month == 9 || month == 11 then 30
    else 31
  }

  /** A date LocalDate can hold, with a year of four digits. */
  predicate ValidDate(d: Date) {
    0 <= d.year <= 9999 && 1 <= d.month <= 12 && 1 <= d.day <= LengthOfMonth(d.year, d.month)
  }

  /** The days before 1 January of a year >= 0, counted from 0000-01-01. */
  function YearBase(y: int): int
    requires y >= 0
  {
    365 * y + (y + 3) / 4 - (y + 99) / 100 + (y + 399) / 400
  }

  /** toEpochDay's month term: the days before the month as if every February
      had 30 days. */
  function MonthBase(m: int): int {
    (367 * m - 362) / 12
  }

  /** LocalDate.toEpochDay (the branch for non-negative years): days since
      1970-01-01. */
  function ToEpochDay(d: Date): int
    requires ValidDate(d)
  {
    var total := YearBase(d.year) + MonthBase(d.month) + d.day - 1;
    var adjusted := if d.month > 2 then (if IsLeapYear(d.year) then total - 1 else total - 2) else total;
    adjusted - 719528
  }

  /** The ISO day of the week, 0 for Monday through 6 for Sunday:
      floorMod(epochDay + 3, 7). */
  function DayOfWeek(epochDay: int): (w: int)
    ensures 0 <= w < 7
  {
    (epochDay + 3) % 7
  }

  lemma EpochAnchors()
    ensures ToEpochDay(Date(1970, 1, 1)) == 0
    ensures ToEpochDay(Date(2024, 3, 1)) == 19783
    ensures DayOfWeek(ToEpochDay(Date(2024, 1, 1))) == 0
  {
  }

  /** Days of one month are consecutive epoch days. */
  lemma DaysOfMonthConsecutive(y: int, m: int, day: int)
    requires ValidDate(Date(y, m, day))
    ensures ToEpochDay(Date(y, m, day)) == ToEpochDay(Date(y, m, 1)) + day - 1
  {
  }

  /** The first of the month follows the last day of the month before. */
  lemma MonthsContiguous(y: int, m: int)
    requires 0 <= y <= 9999 && 1 <= m < 12
    ensures ToEpochDay(Date(y, m + 1, 1)) == ToEpochDay(Date(y, m, LengthOfMonth(y, m))) + 1
  {
    MonthBaseValues();
  }

  lemma MonthBaseValues()
    ensures MonthBase(1) == 0 && MonthBase(2) == 31 && MonthBase(3) == 61 && MonthBase(4) == 92
    ensures MonthBase(5) == 122 && MonthBase(6) == 153 && MonthBase(7) == 183 && MonthBase(8) == 214
    ensures MonthBase(9) == 245 && MonthBase(10) == 275 && MonthBase(11) == 306 && MonthBase(12) == 336
  {
  }

  /** Adding one to k - 1 + y raises the quotient by k exactly when k divides y. */
  lemma QuotientStep(y: int, k: int)
    requires y >= 0 && k in {4, 100, 400}
    ensures (y + k) / k == (y + k - 1) / k + (if y % k == 0 then 1 else 0)
  {
    var q, r := y / k, y % k;
    assert y + k == (q + 1) * k + r;
    assert (y + k) / k == q + 1;
    if r == 0 {
      assert y + k - 1 == q * k + (k - 1);
    } else {
      assert y + k - 1 == (q + 1) * k + (r - 1);
    }
  }

  /** A multiple of 400 is a multiple of 100. */
  lemma Multiple400(y: int)
    requires y >= 0 && y % 400 == 0
    ensures y % 100 == 0
  {
    var q, k := y / 400, y / 100;
    assert y == 400 * q && y == 100 * k + y % 100;
    assert 100 * (4 * q - k) == y % 100;
  }

  /** A multiple of 100 is a multiple of 4. */
  lemma Multiple100(y: int)
    requires y >= 0 && y % 100 == 0
    ensures y % 4 == 0
  {
    var q, k := y / 100, y / 4;
    assert y == 100 * q && y == 4 * k + y % 4;
    assert 4 * (25 * q - k) == y % 4;
  }

  /** A year has 366 days exactly when it is a leap year. */
  lemma YearBaseStep(y: int)
    requires y >= 0
    ensures YearBase(y + 1) == YearBase(y) + (if IsLeapYear(y) then 366 else 365)
  {
    QuotientStep(y, 4);
    QuotientStep(y, 100);
    QuotientStep(y, 400);
    if y % 400 == 0 {
      Multiple400(y);
    }
    if y % 100 == 0 {
      Multiple100(y);
    }
    var a := if y % 4 == 0 then 1 else 0;
    var b := if y % 100 == 0 then 1 else 0;
    var c := if y % 400 == 0 then 1 else 0;
    assert YearBase(y + 1) == YearBase(y) + 365 + a - b + c;
  }

  /** 1 January follows 31 December. */
  lemma YearsContiguous(y: int)
    requires 0 <= y < 9999
    ensures ToEpochDay(Date(y + 1, 1, 1)) == ToEpochDay(Date(y, 12, 31)) + 1
  {
    YearBaseStep(y);
    MonthBaseValues();
  }

  // ------------------------------------------------------- ordering of months

  /** (y1, m1) is an earlier month than (y2, m2). */
  predicate EarlierMonth(y1: int, m1: int, y2: int, m2: int) {
    y1 < y2 || (y1 == y2 && m1 < m2)
  }

  /** Every day of a month comes before the first day of any later month. */
  lemma {:induction false} EarlierMonthEndsBefore(y1: int, m1: int, y2: int, m2: int)
    requires 0 <= y1 <= 9999 && 1 <= m1 <= 12 && 0 <= y2 <= 9999 && 1 <= m2 <= 12
    requires EarlierMonth(y1, m1, y2, m2)
    ensures ToEpochDay(Date(y1, m1, LengthOfMonth(y1, m1))) < ToEpochDay(Date(y2, m2, 1))
    decreases 12 * y2 + m2
  {
    var py := if m2 == 1 then y2 - 1 else y2;
    var pm := if m2 == 1 then 12 else m2 - 1;
    if m2 == 1 {
      YearsContiguous(py);
    } else {
      MonthsContiguous(py, pm);
    }
    if EarlierMonth(y1, m1, py, pm) {
      EarlierMonthEndsBefore(y1, m1, py, pm);
      DaysOfMonthConsecutive(py, pm, LengthOfMonth(py, pm));
    }
  }

  // ------------------------------------------------------------- the windows

  /** date.with(MONDAY) and date.with(SUNDAY), as epoch days: the Monday on or
      before the date and the Sunday six days later. */
  function WeekWindow(d: Date): (w: (int, int))
    requires ValidDate(d)
    ensures DayOfWeek(w.0) == 0 && w.1 == w.0 + 6
    ensures w.0 <= ToEpochDay(d) <= w.1
  {
    var e := ToEpochDay(d);
    MondayOnOrBefore(e);
    (e - DayOfWeek(e), e - DayOfWeek(e) + 6)
  }

  /** Going back by the day of the week lands on a Monday. */
  lemma MondayOnOrBefore(e: int)
    ensures DayOfWeek(e - DayOfWeek(e)) == 0
  {
    assert e + 3 == 7 * ((e + 3) / 7) + DayOfWeek(e);
    assert e - DayOfWeek(e) + 3 == 7 * ((e + 3) / 7);
  }

  /** The week window is the only Monday-to-Sunday span holding the date. */
  lemma WeekWindowUnique(d: Date, monday: int)
    requires ValidDate(d)
    requires DayOfWeek(monday) == 0 && monday <= ToEpochDay(d) <= monday + 6
    ensures WeekWindow(d).0 == monday
  {
    MondayUnique(ToEpochDay(d), monday);
  }

  lemma MondayUnique(e: int, monday: int)
    requires DayOfWeek(monday) == 0 && monday <= e <= monday + 6
    ensures e - DayOfWeek(e) == monday
  {
    assert monday + 3 == 7 * ((monday + 3) / 7);
    assert e + 3 == 7 * ((monday + 3) / 7) + (e - monday);
  }

  /** date.withDayOfMonth(1) and date.withDayOfMonth(lengthOfMonth()). */
  function MonthWindow(d: Date): (w: (int, int))
    requires ValidDate(d)
    ensures w.1 - w.0 + 1 == LengthOfMonth(d.year, d.month)
    ensures w.0 <= ToEpochDay(d) <= w.1
  {
    DaysOfMonthConsecutive(d.year, d.month, d.day);
    DaysOfMonthConsecutive(d.year, d.month, LengthOfMonth(d.year, d.month));
    (ToEpochDay(Date(d.year, d.month, 1)), ToEpochDay(Date(d.year, d.month, LengthOfMonth(d.year, d.month))))
  }

  /** A date lies in the month window exactly when it is in the same month. */
  lemma MonthWindowExact(d: Date, other: Date)
    requires ValidDate(d) && ValidDate(other)
    ensures var w := MonthWindow(d);
            w.0 <= ToEpochDay(other) <= w.1 <==> other.year == d.year && other.month == d.month
  {
    DaysOfMonthConsecutive(other.year, other.month, other.day);
    DaysOfMonthConsecutive(other.year, other.month, LengthOfMonth(other.year, other.month));
    if EarlierMonth(other.year, other.month, d.year, d.month) {
      EarlierMonthEndsBefore(other.year, other.month, d.year, d.month);
    } else if EarlierMonth(d.year, d.month, other.year, other.month) {
      EarlierMonthEndsBefore(d.year, d.month, other.year, other.month);
    }
  }

  // ------------------------------------------------------------- ISO text

  /** The value of a digit character. */
  function DigitValue(c: char): int {
    c as int - '0' as int
  }

  lemma DigitsValue2(s: string)
    requires |s| == 2 && AllDigits(s)
    ensures DigitsValue(s) == 10 * DigitValue(s[0]) + DigitValue(s[1])
  {
    assert s[..1][..0] == [] && s[..1][0] == s[0];
    assert DigitsValue(s[..1]) == DigitValue(s[0]);
  }

  /** Four digits read as their two halves. */
  lemma DigitsValue4(s: string)
    requires |s| == 4 && AllDigits(s)
    ensures DigitsValue(s) == 100 * DigitsValue(s[..2]) + DigitsValue(s[2..])
  {
    assert s[..3][..2] == s[..2] && s[..3][2] == s[2];
    assert DigitsValue(s[..3]) == 10 * DigitsValue(s[..2]) + DigitValue(s[2]);
    DigitsValue2(s[2..]);
  }

  /** LocalDate.parse with ISO_LOCAL_DATE (strict): yyyy-MM-dd naming an
      existing day; None where the parser throws. */
  function ParseIsoDate(s: string): (r: Option<Date>)
    ensures r.Some? ==> ValidDate(r.value)
  {
    if |s| == 10 && s[4] == '-' && s[7] == '-' && AllDigits(s[..4]) && AllDigits(s[5..7]) && AllDigits(s[8..]) then
      var year, month, day := DigitsValue(s[..4]), DigitsValue(s[5..7]), DigitsValue(s[8..]);
      if year <= 9999 && 1 <= month <= 12 && 1 <= day <= LengthOfMonth(year, month) then Some(Date(year, month, day))
      else None
    else None
  }

  /** A number below 100 as two digits. */
  function Text2(n: int): (t: string)
    requires 0 <= n < 100
    ensures |t| == 2 && AllDigits(t) && DigitsValue(t) == n
  {
    var t := [DigitChar(n / 10), DigitChar(n % 10)];
    DigitsValue2(t);
    t
  }

  /** A year below 10000 as four digits. */
  function Text4(n: int): (t: string)
    requires 0 <= n < 10000
    ensures |t| == 4 && AllDigits(t) && DigitsValue(t) == n
  {
    var t := Text2(n / 100) + Text2(n % 100);
    assert t[..2] == Text2(n / 100) && t[2..] == Text2(n % 100);
    DigitsValue4(t);
    t
  }

  /** LocalDate.toString for four-digit years: yyyy-MM-dd, zero-padded. */
  function IsoText(d: Date): (t: string)
    requires ValidDate(d)
    ensures |t| == 10
  {
    Text4(d.year) + "-" + Text2(d.month) + "-" + Text2(d.day)
  }

  /** Parsing a date's text gives the date back. */
  lemma ParseIsoText(d: Date)
    requires ValidDate(d)
    ensures ParseIsoDate(IsoText(d)) == Some(d)
  {
    var t := IsoText(d);
    assert t[..4] == Text4(d.year);
    assert t[5..7] == Text2(d.month);
    assert t[8..] == Text2(d.day);
  }

  /** Two digits printed back from their value. */
  lemma Text2OfDigits(x: string)
    requires |x| == 2 && AllDigits(x)
    ensures DigitsValue(x) < 100 && Text2(DigitsValue(x)) == x
  {
    DigitsValue2(x);
    var t := Text2(DigitsValue(x));
    assert t[0] as int == x[0] as int && t[1] as int == x[1] as int;
  }

  /** Four digits printed back from their value. */
  lemma Text4OfDigits(x: string)
    requires |x| == 4 && AllDigits(x)
    ensures DigitsValue(x) < 10000 && Text4(DigitsValue(x)) == x
  {
    DigitsValue4(x);
    Text2OfDigits(x[..2]);
    Text2OfDigits(x[2..]);
    var hi, lo := DigitsValue(x[..2]), DigitsValue(x[2..]);
    assert DigitsValue(x) / 100 == hi && DigitsValue(x) % 100 == lo;
    assert x == x[..2] + x[2..];
  }

  /** Only the canonical text of a date parses: parsing is one-to-one. */
  lemma ParsedTextIsCanonical(s: string)
    requires ParseIsoDate(s).Some?
    ensures IsoText(ParseIsoDate(s).value) == s
  {
    Text4OfDigits(s[..4]);
    Text2OfDigits(s[5..7]);
    Text2OfDigits(s[8..]);
    assert s == s[..4] + "-" + s[5..7] + "-" + s[8..];
  }
}
