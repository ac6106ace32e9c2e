/**
 * The proleptic Gregorian calendar that `java.time.YearMonth` and `LocalDate` use,
 * with ISO-8601 weekday numbers (Monday = 1 ... Sunday = 7). Days are counted from
 * 0001-01-01, which is a Monday; Dafny's `/` and `%` by a positive divisor round
 * toward negative infinity, so the counts hold for years before 1 as well.
 */
module Gregorian {

  /** The year range `YearMonth.of` accepts; outside it, it throws. */
  const MinYear: int := -999_999_999
  const MaxYear: int := 999_999_999

  predicate IsLeapYear(y: int) {
    y % 4 == 0 && (y % 100 != 0 || y % 400 == 0)
  }

  /** `YearMonth.lengthOfMonth()`. */
  function LengthOfMonth(y: int, m: int): (n: int)
    requires 1 <= m <= 12
    ensures 28 <= n <= 31
    ensures n == 29 <==> m == 2 && IsLeapYear(y)
    ensures n == 28 <==> m == 2 && !IsLeapYear(y)
  {
    if m == 2 then (if IsLeapYear(y) then 29 else 28)
    else if m == 4 || m == 6 || m == 9 || m == 11 then 30
    else 31
  }

  function LengthOfYear(y: int): int {
    if IsLeapYear(y) then 366 else 365
  }

  /** Days from 0001-01-01 to January 1st of year `y`. */
  function DaysBeforeYear(y: int): int {
    365 * (y - 1) + (y - 1) / 4 - (y - 1) / 100 + (y - 1) / 400
  }

  /** Days from January 1st to the 1st of month `m` of year `y`. */
  function DaysBeforeMonth(y: int, m: int): int
    requires 1 <= m <= 12
  {
    var leap := if m > 2 && IsLeapYear(y) then 1 else 0;
    leap + (match m
      case 1 => 0   case 2 => 31  case 3 => 59   case 4 => 90
      case 5 => 120 case 6 => 151 case 7 => 181  case 8 => 212
      case 9 => 243 case 10 => 273 case 11 => 304 case _ => 334)
  }

  /** Days from 0001-01-01 to the date `y-m-d`. */
  function DayNumber(y: int, m: int, d: int): int
    requires 1 <= m <= 12
  {
    DaysBeforeYear(y) + DaysBeforeMonth(y, m) + d - 1
  }

  /** `LocalDate.of(y, m, d).getDayOfWeek().getValue()`. */
  function IsoDayOfWeek(y: int, m: int, d: int): (w: int)
    requires 1 <= m <= 12
    ensures 1 <= w <= 7
  {
    DayNumber(y, m, d) % 7 + 1
  }

  /** The month after `y-m`. */
  function NextMonth(y: int, m: int): (r: (int, int))
    requires 1 <= m <= 12
    ensures 1 <= r.1 <= 12
  {
    if m == 12 then (y + 1, 1) else (y, m + 1)
  }

  /** Going from `y - 1` to `y` moves `y / k` up exactly when `k` divides `y`. */
  lemma DivSteps(y: int)
    ensures y / 4 - (y - 1) / 4 == if y % 4 == 0 then 1 else 0
    ensures y / 100 - (y - 1) / 100 == if y % 100 == 0 then 1 else 0
    ensures y / 400 - (y - 1) / 400 == if y % 400 == 0 then 1 else 0
  {
  }

  /** A multiple of 400 is a multiple of 100. */
  lemma Divides400(y: int)
    requires y % 400 == 0
    ensures y % 100 == 0
  {
    var q := y / 400;
    assert y == 100 * (4 * q);
  }

  /** A multiple of 100 is a multiple of 4. */
  lemma Divides100(y: int)
    requires y % 100 == 0
    ensures y % 4 == 0
  {
    var q := y / 100;
    assert y == 4 * (25 * q);
  }

  /** Consecutive New Year's days are a year's length apart. */
  lemma YearLength(y: int)
    ensures DaysBeforeYear(y + 1) - DaysBeforeYear(y) == LengthOfYear(y)
  {
    DivSteps(y);
    if y % 400 == 0 { Divides400(y); }
    if y % 100 == 0 { Divides100(y); }
    var q4, q100, q400 := y / 4 - (y - 1) / 4, y / 100 - (y - 1) / 100, y / 400 - (y - 1) / 400;
    assert DaysBeforeYear(y + 1) - DaysBeforeYear(y) == 365 + q4 - q100 + q400;
  }

  /** The 1st of the next month is `LengthOfMonth` days after the 1st of this one. */
  lemma NextMonthDayNumber(y: int, m: int)
    requires 1 <= m <= 12
    ensures DayNumber(NextMonth(y, m).0, NextMonth(y, m).1, 1) == DayNumber(y, m, 1) + LengthOfMonth(y, m)
  {
    if m == 12 {
      YearLength(y);
    }
  }

  /** The weekday of day `d` follows from the weekday of the 1st. */
  lemma WeekdayOfDay(y: int, m: int, d: int)
    requires 1 <= m <= 12
    ensures IsoDayOfWeek(y, m, d) - 1 == (IsoDayOfWeek(y, m, 1) - 1 + (d - 1)) % 7
  {
    var n := DayNumber(y, m, 1);
    assert DayNumber(y, m, d) == n + (d - 1);
    ModAdd(n, d - 1);
  }

  lemma ModAdd(a: int, b: int)
    ensures (a + b) % 7 == (a % 7 + b) % 7
  {
    var q := a / 7;
    assert a == 7 * q + a % 7;
    assert a + b == 7 * q + (a % 7 + b);
    ModShift(a % 7 + b, q);
  }

  lemma ModShift(x: int, q: int)
    ensures (7 * q + x) % 7 == x % 7
  {
    var r := x % 7;
    var p := x / 7;
    assert x == 7 * p + r;
    assert 7 * q + x == 7 * (q + p) + r;
  }

  /** The weekday of the next month's 1st is the one after this month's last day. */
  lemma NextMonthWeekday(y: int, m: int)
    requires 1 <= m <= 12
    ensures var (ny, nm) := NextMonth(y, m);
      IsoDayOfWeek(ny, nm, 1) - 1 == (IsoDayOfWeek(y, m, 1) - 1 + LengthOfMonth(y, m)) % 7
  {
    NextMonthDayNumber(y, m);
    ModAdd(DayNumber(y, m, 1), LengthOfMonth(y, m));
  }

  /** Day 0 of the count, 0001-01-01, is a Monday. */
  lemma DayZeroIsMonday()
    ensures IsoDayOfWeek(1, 1, 1) == 1
  {
  }

  /** Java's epoch day 0, 1970-01-01, is a Thursday. */
  lemma UnixEpochIsThursday()
    ensures IsoDayOfWeek(1970, 1, 1) == 4
  {
    assert DayNumber(1970, 1, 1) == 719162;
  }

  /** 2024-03-01 is a Friday. */
  lemma March2024StartsOnFriday()
    ensures IsoDayOfWeek(2024, 3, 1) == 5
  {
    assert DaysBeforeMonth(2024, 3) == 60;
    assert DayNumber(2024, 3, 1) == 738945;
  }
}
