/** Calendar arithmetic in the proleptic Gregorian calendar, standing in for
    the JavaScript `Date` computations of the calendar and notice-board views,
    and the `y-MM-DD` date strings used as store keys. */
module Dates {
  import opened Strings

  /** A calendar day with a 0-based month, as `new Date(year, month, day)` takes it. */
  datatype Day = Day(year: int, month: int, day: int)

  predicate IsLeapYear(y: int) {
    y % 4 == 0 && (y % 100 != 0 || y % 400 == 0)
  }

  /** `new Date(year, month + 1, 0).getDate()`: the last day of the month. */
  function DaysInMonth(year: int, month: int): (n: int)
    requires 0 <= month < 12
    ensures 28 <= n <= 31
  {
    if month == 1 then (if IsLeapYear(year) then 29 else 28)
    else if month == 3 || month == 5 || month == 8 || month == 10 then 30
    else 31
  }

  function YearLength(year: int): int {
    if IsLeapYear(year) then 366 else 365
  }

  /** Days in the months before `month` of the year. */
  function DaysBeforeMonth(year: int, month: int): nat
    requires 0 <= month <= 12
    decreases month
  {
    if month == 0 then 0 else DaysBeforeMonth(year, month - 1) + DaysInMonth(year, month - 1)
  }

  /** The twelve month lengths add up to the length of the year. */
  lemma MonthsFillYear(year: int)
    ensures DaysBeforeMonth(year, 12) == YearLength(year)
  {
  }

  lemma {:induction false} DaysBeforeMonthMonotone(year: int, m: int, n: int)
    requires 0 <= m <= n <= 12
    ensures DaysBeforeMonth(year, m) <= DaysBeforeMonth(year, n)
    decreases n
  {
    if m < n {
      DaysBeforeMonthMonotone(year, m, n - 1);
    }
  }

  /** Days in the years before `year`, counted from year 1. */
  function DaysBeforeYear(year: int): nat
    requires year >= 1
    decreases year
  {
    if year == 1 then 0 else DaysBeforeYear(year - 1) + YearLength(year - 1)
  }

  lemma {:induction false} DaysBeforeYearMonotone(m: int, n: int)
    requires 1 <= m <= n
    ensures DaysBeforeYear(m) + (if m < n then YearLength(m) else 0) <= DaysBeforeYear(n)
    decreases n
  {
    if m < n - 1 {
      DaysBeforeYearMonotone(m, n - 1);
    }
  }

  /** A day that exists in the calendar (years from 1 on). */
  predicate ValidDay(d: Day) {
    1 <= d.year && 0 <= d.month < 12 && 1 <= d.day <= DaysInMonth(d.year, d.month)
  }

  /** Days elapsed since 1 January of year 1. */
  function DayNumber(d: Day): nat
    requires ValidDay(d)
  {
    DaysBeforeYear(d.year) + DaysBeforeMonth(d.year, d.month) + d.day - 1
  }

  /** `getDay()`: 0 for Sunday up to 6 for Saturday; 1 January of year 1 was a Monday. */
  function Weekday(d: Day): (w: int)
    requires ValidDay(d)
    ensures 0 <= w < 7
  {
    (DayNumber(d) + 1) % 7
  }

  /** Closed form of the days before a year: 365 per year plus one per leap
      year, leap years being the multiples of 4 except centuries not divisible by 400. */
  lemma {:induction false} DaysBeforeYearClosed(y: int)
    requires y >= 1
    ensures DaysBeforeYear(y) == LeapDays(y - 1)
    decreases y
  {
    if y > 1 {
      DaysBeforeYearClosed(y - 1);
      LeapDaysStep(y - 2);
    }
  }

  /** Days in `n` whole years counted from year 1, in closed form. */
  function LeapDays(n: int): int {
    365 * n + n / 4 - n / 100 + n / 400
  }

  /** One more year adds that year's length. */
  lemma LeapDaysStep(n: nat)
    ensures LeapDays(n + 1) == LeapDays(n) + YearLength(n + 1)
  {
    assert (n + 1) / 4 == n / 4 + (if (n + 1) % 4 == 0 then 1 else 0);
    assert (n + 1) / 100 == n / 100 + (if (n + 1) % 100 == 0 then 1 else 0);
    assert (n + 1) / 400 == n / 400 + (if (n + 1) % 400 == 0 then 1 else 0);
  }

  /** The weekday advances by one, modulo seven, from each day to the next. */
  lemma WeekdayStep(d: Day)
    requires ValidDay(d)
    ensures Weekday(NextDay(d)) == (Weekday(d) + 1) % 7
  {
    NextDayIsConsecutive(d);
    SevenStep(DayNumber(d) + 1, DayNumber(NextDay(d)) + 1);
  }

  lemma SevenStep(a: int, b: int)
    requires b == a + 1
    ensures b % 7 == (a % 7 + 1) % 7
  {
  }

  /** The weekday in closed form: the days of the earlier years, months and
      days of the date, plus one for the Monday that was 1 January of year 1. */
  lemma WeekdayFormula(d: Day)
    requires ValidDay(d)
    ensures Weekday(d) == (LeapDays(d.year - 1) + DaysBeforeMonth(d.year, d.month) + d.day) % 7
  {
    DaysBeforeYearClosed(d.year);
  }

  /** An anchor on the modern calendar: 10 October 2026 is a Saturday. */
  lemma WeekdayAnchor(d: Day)
    requires d == Day(2026, 9, 10)
    ensures ValidDay(d) && Weekday(d) == 6
  {
    assert DaysBeforeMonth(d.year, 9) == 273 by {
      assert !IsLeapYear(d.year);
      assert DaysBeforeMonth(d.year, 1) == 31;
      assert DaysBeforeMonth(d.year, 2) == 59;
      assert DaysBeforeMonth(d.year, 3) == 90;
      assert DaysBeforeMonth(d.year, 4) == 120;
      assert DaysBeforeMonth(d.year, 5) == 151;
      assert DaysBeforeMonth(d.year, 6) == 181;
      assert DaysBeforeMonth(d.year, 7) == 212;
      assert DaysBeforeMonth(d.year, 8) == 243;
    }
    WeekdayFormula(d);
    assert LeapDays(d.year - 1) == 739616;
  }

  /** The following calendar day. */
  function NextDay(d: Day): (n: Day)
    requires ValidDay(d)
    ensures ValidDay(n)
    ensures n.year == d.year || (n.year == d.year + 1 && n.month == 0 && n.day == 1)
  {
    if d.day < DaysInMonth(d.year, d.month) then d.(day := d.day + 1)
    else if d.month < 11 then Day(d.year, d.month + 1, 1)
    else Day(d.year + 1, 0, 1)
  }

  /** The next day is exactly one day later. */
  lemma NextDayIsConsecutive(d: Day)
    requires ValidDay(d)
    ensures DayNumber(NextDay(d)) == DayNumber(d) + 1
  {
    var n := NextDay(d);
    if d.day < DaysInMonth(d.year, d.month) {
      assert n == Day(d.year, d.month, d.day + 1);
    } else if d.month < 11 {
      assert n == Day(d.year, d.month + 1, 1);
      assert DaysBeforeMonth(d.year, d.month + 1) == DaysBeforeMonth(d.year, d.month) + DaysInMonth(d.year, d.month);
    } else {
      assert n == Day(d.year + 1, 0, 1);
      MonthsFillYear(d.year);
      assert DaysBeforeYear(d.year + 1) == DaysBeforeYear(d.year) + YearLength(d.year);
    }
  }

  /** Chronological order of days: by year, then month, then day. */
  predicate Before(a: Day, b: Day) {
    || a.year < b.year
    || (a.year == b.year && a.month < b.month)
    || (a.year == b.year && a.month == b.month && a.day < b.day)
  }

  /** A day ends before the first day of the next month. */
  lemma DayWithinMonth(d: Day)
    requires ValidDay(d)
    ensures DaysBeforeMonth(d.year, d.month) + d.day - 1 < DaysBeforeMonth(d.year, d.month + 1)
  {
  }

  /** A day ends before the next year begins. */
  lemma DayWithinYear(d: Day)
    requires ValidDay(d)
    ensures DayNumber(d) < DaysBeforeYear(d.year) + YearLength(d.year)
  {
    DayWithinMonth(d);
    DaysBeforeMonthMonotone(d.year, d.month + 1, 12);
    MonthsFillYear(d.year);
  }

  /** Comparing `Date` values of two days is comparing their day numbers,
      which is the chronological order. */
  lemma DayNumberOrder(a: Day, b: Day)
    requires ValidDay(a) && ValidDay(b)
    ensures Before(a, b) <==> DayNumber(a) < DayNumber(b)
    ensures a == b <==> DayNumber(a) == DayNumber(b)
  {
    if Before(a, b) {
      BeforeImpliesSmaller(a, b);
    } else if Before(b, a) {
      BeforeImpliesSmaller(b, a);
    }
  }

  lemma BeforeImpliesSmaller(a: Day, b: Day)
    requires ValidDay(a) && ValidDay(b)
    requires Before(a, b)
    ensures DayNumber(a) < DayNumber(b)
  {
    if a.year < b.year {
      DayWithinYear(a);
      DaysBeforeYearMonotone(a.year, b.year);
    } else if a.month < b.month {
      DayWithinMonth(a);
      DaysBeforeMonthMonotone(a.year, a.month + 1, b.month);
    }
  }

  /** `formatDate(year, month, day)` of the calendar: the year as printed,
      then the 1-based month and the day, each padded to two digits. */
  function FormatDate(year: int, month: int, day: int): (s: string)
    requires 0 <= month < 12 && 1 <= day <= 31
    ensures |s| == |IntToString(year)| + 6
    ensures s[..|s| - 6] == IntToString(year)
    ensures s[|s| - 6] == '-' && s[|s| - 3] == '-'
    ensures s[|s| - 5..|s| - 3] == PadTwo(month + 1)
    ensures s[|s| - 2..] == PadTwo(day)
  {
    var y, m, d := IntToString(year), PadTwo(month + 1), PadTwo(day);
    var r := y + ("-" + (m + ("-" + d)));
    assert r[..|y|] == y;
    assert r[|y|..] == "-" + (m + ("-" + d));
    assert r[|y| + 1..] == m + ("-" + d);
    assert r[|y| + 3..] == "-" + d;
    r
  }

  function FormatDay(d: Day): string
    requires ValidDay(d)
  {
    FormatDate(d.year, d.month, d.day)
  }

  /** Numbers with the same count of digits compare as their decimal strings do. */
  lemma {:induction false} NatToStringOrder(m: nat, n: nat)
    requires |NatToString(m)| == |NatToString(n)|
    ensures Less(NatToString(m), NatToString(n)) <==> m < n
    decreases n
  {
    if m < 10 || n < 10 {
      var a, b := NatToString(m), NatToString(n);
      assert a == [DigitChar(m)] && b == [DigitChar(n)];
      assert a[1..] == [] && b[1..] == [];
    } else {
      var a, b := NatToString(m / 10), NatToString(n / 10);
      var x, y := [DigitChar(m % 10)], [DigitChar(n % 10)];
      LessConcat(a, x, b, y);
      NatToStringOrder(m / 10, n / 10);
      if a == b {
        NatToStringInjective(m / 10, n / 10);
      }
      assert Less(x, y) <==> m % 10 < n % 10 by {
        assert x[1..] == [] && y[1..] == [];
      }
    }
  }

  /** Four-digit years print with four digits. */
  lemma {:induction false} FourDigits(y: nat)
    requires 1000 <= y <= 9999
    ensures |NatToString(y)| == 4
  {
    assert |NatToString(y / 1000)| == 1;
    assert |NatToString(y / 100)| == 2;
    assert |NatToString(y / 10)| == 3;
  }

  lemma PadTwoInjective(m: nat, n: nat)
    requires m < 100 && n < 100
    requires PadTwo(m) == PadTwo(n)
    ensures m == n
  {
    PadTwoOrder(m, n);
    PadTwoOrder(n, m);
    LessIrreflexive(PadTwo(m));
  }

  /** Two strings with the same first part compare as their remainders do. */
  lemma SamePrefixLess(p: string, s: string, t: string)
    ensures Less(p + s, p + t) <==> Less(s, t)
  {
    LessConcat(p, s, p, t);
    LessIrreflexive(p);
  }

  /** The part after the year: `-MM-DD`. */
  function MonthDaySuffix(month: int, day: int): string
    requires 0 <= month < 12 && 1 <= day <= 31
  {
    "-" + (PadTwo(month + 1) + ("-" + PadTwo(day)))
  }

  lemma PadTwoEqual(m: nat, n: nat)
    requires m < 100 && n < 100
    ensures PadTwo(m) == PadTwo(n) <==> m == n
  {
    if PadTwo(m) == PadTwo(n) {
      PadTwoInjective(m, n);
    }
  }

  /** `-M-D` strings with month parts of equal length compare by month part,
      then by day part. */
  lemma DashJoinLess(ma: string, da: string, mb: string, db: string)
    requires |ma| == |mb|
    ensures Less("-" + (ma + ("-" + da)), "-" + (mb + ("-" + db)))
        <==> Less(ma, mb) || (ma == mb && Less(da, db))
  {
    SamePrefixLess("-", da, db);
    LessConcat(ma, "-" + da, mb, "-" + db);
    SamePrefixLess("-", ma + ("-" + da), mb + ("-" + db));
  }

  lemma MonthDaySuffixOrder(a: Day, b: Day)
    requires ValidDay(a) && ValidDay(b)
    ensures Less(MonthDaySuffix(a.month, a.day), MonthDaySuffix(b.month, b.day))
        <==> a.month < b.month || (a.month == b.month && a.day < b.day)
  {
    var ma, mb := PadTwo(a.month + 1), PadTwo(b.month + 1);
    var da, db := PadTwo(a.day), PadTwo(b.day);
    DashJoinLess(ma, da, mb, db);
    PadTwoOrder(a.day, b.day);
    PadTwoOrder(a.month + 1, b.month + 1);
    PadTwoEqual(a.month + 1, b.month + 1);
  }

  /** Where the month and the day sit in `-MM-DD`. */
  lemma MonthDaySuffixParts(month: int, day: int)
    requires 0 <= month < 12 && 1 <= day <= 31
    ensures |MonthDaySuffix(month, day)| == 6
    ensures MonthDaySuffix(month, day)[1..3] == PadTwo(month + 1)
    ensures MonthDaySuffix(month, day)[4..] == PadTwo(day)
  {
    var m, d := PadTwo(month + 1), PadTwo(day);
    var s := "-" + (m + ("-" + d));
    assert s[1..] == m + ("-" + d);
    assert s[1..3] == m;
    assert s[4..] == ("-" + d)[1..];
  }

  lemma MonthDaySuffixEqual(a: Day, b: Day)
    requires ValidDay(a) && ValidDay(b)
    requires MonthDaySuffix(a.month, a.day) == MonthDaySuffix(b.month, b.day)
    ensures a.month == b.month && a.day == b.day
  {
    MonthDaySuffixParts(a.month, a.day);
    MonthDaySuffixParts(b.month, b.day);
    PadTwoInjective(a.month + 1, b.month + 1);
    PadTwoInjective(a.day, b.day);
  }

  /** For four-digit years the store's date keys sort as the days they name:
      comparing the strings is comparing the dates. */
  lemma FormatDateOrder(a: Day, b: Day)
    requires ValidDay(a) && ValidDay(b)
    requires 1000 <= a.year <= 9999 && 1000 <= b.year <= 9999
    ensures Less(FormatDay(a), FormatDay(b)) <==> Before(a, b)
  {
    FourDigits(a.year);
    FourDigits(b.year);
    var ya, yb := IntToString(a.year), IntToString(b.year);
    var ra, rb := MonthDaySuffix(a.month, a.day), MonthDaySuffix(b.month, b.day);
    assert FormatDay(a) == ya + ra && FormatDay(b) == yb + rb;
    assert Less(ya + ra, yb + rb) <==> Less(ya, yb) || (ya == yb && Less(ra, rb)) by {
      LessConcat(ya, ra, yb, rb);
    }
    assert Less(ya, yb) <==> a.year < b.year by {
      NatToStringOrder(a.year, b.year);
    }
    assert ya == yb <==> a.year == b.year by {
      if ya == yb {
        NatToStringInjective(a.year, b.year);
      }
    }
    MonthDaySuffixOrder(a, b);
  }

  /** For four-digit years distinct days give distinct keys. */
  lemma FormatDateInjective(a: Day, b: Day)
    requires ValidDay(a) && ValidDay(b)
    requires 1000 <= a.year <= 9999 && 1000 <= b.year <= 9999
    requires FormatDay(a) == FormatDay(b)
    ensures a == b
  {
    FourDigits(a.year);
    FourDigits(b.year);
    var ya, yb := IntToString(a.year), IntToString(b.year);
    var ra, rb := MonthDaySuffix(a.month, a.day), MonthDaySuffix(b.month, b.day);
    assert FormatDay(a) == ya + ra && FormatDay(b) == yb + rb;
    assert ya == (ya + ra)[..4] && yb == (yb + rb)[..4];
    assert ra == (ya + ra)[4..] && rb == (yb + rb)[4..];
    NatToStringInjective(a.year, b.year);
    MonthDaySuffixEqual(a, b);
  }
}
