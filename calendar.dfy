/** The proleptic Gregorian calendar over day numbers. A date is a whole
    number of days; day 0 is 0001-01-01, a Monday, so `n % 7` counts days
    since the last Monday. JavaScript's `Date` fields (`getFullYear`,
    `getMonth() + 1`, `getDate`, `getDay`) are read off `ToDate` and
    `JsWeekday`. */
module Calendar {

  datatype Date = Date(year: int, month: int, day: int)

  predicate IsLeapYear(y: int)
  {
    y % 4 == 0 && (y % 100 != 0 || y % 400 == 0)
  }

  function DaysInYear(y: int): int
  {
    if IsLeapYear(y) then 366 else 365
  }

  function DaysInMonth(y: int, m: int): int
    requires 1 <= m <= 12
  {
    if m == 2 then (if IsLeapYear(y) then 29 else 28)
    else if m == 4 || m == 6 || m == 9 || m == 11 then 30
    else 31
  }

  predicate ValidDate(d: Date)
  {
    1 <= d.month <= 12 && 1 <= d.day <= DaysInMonth(d.year, d.month)
  }

  /** Day number of 1 January of year `y`. */
  function YearStart(y: int): int
  {
    var k := y - 1;
    365 * k + k / 4 - k / 100 + k / 400
  }

  /** Consecutive years are as far apart as the first one is long. */
  lemma YearStartStep(y: int)
    ensures YearStart(y + 1) == YearStart(y) + DaysInYear(y)
  {
    DivStep4(y);
    DivStep100(y);
    DivStep400(y);
    LeapDivisors(y);
  }

  lemma DivStep4(y: int)
    ensures y / 4 == (y - 1) / 4 + (if y % 4 == 0 then 1 else 0)
  {
    var q, r := (y - 1) / 4, (y - 1) % 4;
    assert y == 4 * q + r + 1 && 0 <= r < 4;
  }

  lemma DivStep100(y: int)
    ensures y / 100 == (y - 1) / 100 + (if y % 100 == 0 then 1 else 0)
  {
    var q, r := (y - 1) / 100, (y - 1) % 100;
    assert y == 100 * q + r + 1 && 0 <= r < 100;
  }

  lemma DivStep400(y: int)
    ensures y / 400 == (y - 1) / 400 + (if y % 400 == 0 then 1 else 0)
  {
    var q, r := (y - 1) / 400, (y - 1) % 400;
    assert y == 400 * q + r + 1 && 0 <= r < 400;
  }

  /** A multiple of 400 is one of 100, and a multiple of 100 one of 4. */
  lemma LeapDivisors(y: int)
    ensures y % 400 == 0 ==> y % 100 == 0
    ensures y % 100 == 0 ==> y % 4 == 0
  {
    var a, b := y / 100, y % 100;
    assert y == 100 * a + b && 0 <= b < 100;
    var q, r := y / 400, y % 400;
    assert y == 400 * q + r && 0 <= r < 400;
    if r == 0 {
      assert 100 * (a - 4 * q) == -b;
    }
    var c, e := y / 4, y % 4;
    assert y == 4 * c + e && 0 <= e < 4;
    if b == 0 {
      assert 4 * (c - 25 * a) == -e;
    }
  }

  /** A year lasts 365.2425 days on average: `YearStart` stays within a few
      days of that line. */
  lemma YearStartBounds(y: int)
    ensures 146097 * (y - 1) - 800 < 400 * YearStart(y) < 146097 * (y - 1) + 400
  {
    var k := y - 1;
    assert 4 * (k / 4) <= k < 4 * (k / 4) + 4;
    assert 100 * (k / 100) <= k < 100 * (k / 100) + 100;
    assert 400 * (k / 400) <= k < 400 * (k / 400) + 400;
  }

  lemma YearStartIncreasing(a: int, b: int)
    requires a < b
    ensures YearStart(a) < YearStart(b)
  {
    YearStartBounds(a);
    YearStartBounds(b);
  }

  /** The year the day `n` falls in. */
  function YearOf(n: int): (y: int)
    ensures YearStart(y) <= n < YearStart(y + 1)
  {
    var y0 := (400 * n) / 146097 + 1;
    YearOfCandidates(n, y0);
    if n < YearStart(y0) then y0 - 1
    else if n < YearStart(y0 + 1) then y0
    else y0 + 1
  }

  /** The estimate `400 n / 146097 + 1` is off by at most one year. */
  lemma YearOfCandidates(n: int, y0: int)
    requires y0 == (400 * n) / 146097 + 1
    ensures YearStart(y0 - 1) <= n < YearStart(y0 + 2)
  {
    var k0 := y0 - 1;
    assert 146097 * k0 <= 400 * n < 146097 * k0 + 146097;
    YearStartBounds(y0 - 1);
    YearStartBounds(y0 + 2);
  }

  /** Each day falls in exactly one year. */
  lemma YearOfUnique(n: int, y: int)
    requires YearStart(y) <= n < YearStart(y + 1)
    ensures YearOf(n) == y
  {
    var z := YearOf(n);
    if z < y {
      YearStartIncreasing(z + 1, y + 1);
      if z + 1 < y { YearStartIncreasing(z + 1, y); }
    } else if z > y {
      if y + 1 < z { YearStartIncreasing(y + 1, z); }
    }
  }

  /** Days of year `y` before the first of month `m`; month 13 stands for
      the end of the year. */
  function MonthStart(y: int, m: int): int
    requires 1 <= m <= 13
  {
    var before := [0, 31, 59, 90, 120, 151, 181, 212, 243, 273, 304, 334, 365];
    before[m - 1] + (if m > 2 && IsLeapYear(y) then 1 else 0)
  }

  lemma MonthStartStep(y: int, m: int)
    requires 1 <= m <= 12
    ensures MonthStart(y, m + 1) == MonthStart(y, m) + DaysInMonth(y, m)
    ensures MonthStart(y, 1) == 0 && MonthStart(y, 13) == DaysInYear(y)
  {
  }

  /** The month in which day `doy` (counted from 0) of year `y` falls. */
  function MonthOfDay(y: int, doy: int): (m: int)
    requires 0 <= doy < DaysInYear(y)
    ensures 1 <= m <= 12 && MonthStart(y, m) <= doy < MonthStart(y, m + 1)
  {
    if doy >= MonthStart(y, 12) then 12
    else if doy >= MonthStart(y, 11) then 11
    else if doy >= MonthStart(y, 10) then 10
    else if doy >= MonthStart(y, 9) then 9
    else if doy >= MonthStart(y, 8) then 8
    else if doy >= MonthStart(y, 7) then 7
    else if doy >= MonthStart(y, 6) then 6
    else if doy >= MonthStart(y, 5) then 5
    else if doy >= MonthStart(y, 4) then 4
    else if doy >= MonthStart(y, 3) then 3
    else if doy >= MonthStart(y, 2) then 2
    else 1
  }

  lemma MonthOfDayUnique(y: int, doy: int, m: int)
    requires 1 <= m <= 12 && MonthStart(y, m) <= doy < MonthStart(y, m + 1)
    ensures 0 <= doy < DaysInYear(y) && MonthOfDay(y, doy) == m
  {
  }

  /** The day number of a calendar date. */
  function FromDate(d: Date): (n: int)
    requires ValidDate(d)
    ensures YearStart(d.year) <= n < YearStart(d.year + 1)
  {
    MonthStartStep(d.year, d.month);
    YearStartStep(d.year);
    YearStart(d.year) + MonthStart(d.year, d.month) + d.day - 1
  }

  /** The calendar date of a day number. */
  function ToDate(n: int): (d: Date)
    ensures ValidDate(d) && d.year == YearOf(n)
    ensures FromDate(d) == n
  {
    var y := YearOf(n);
    YearStartStep(y);
    var doy := n - YearStart(y);
    var m := MonthOfDay(y, doy);
    MonthStartStep(y, m);
    Date(y, m, doy - MonthStart(y, m) + 1)
  }

  /** Converting a valid date to its day number and back gives the date. */
  lemma ToDateFromDate(d: Date)
    requires ValidDate(d)
    ensures ToDate(FromDate(d)) == d
  {
    var n := FromDate(d);
    YearOfUnique(n, d.year);
    MonthStartStep(d.year, d.month);
    MonthOfDayUnique(d.year, n - YearStart(d.year), d.month);
  }

  /** `getDay()`: 0 for Sunday, 1 for Monday, ..., 6 for Saturday. */
  function JsWeekday(n: int): (w: int)
    ensures 0 <= w < 7
  {
    (n + 1) % 7
  }

  /** ISO 8601 weekday: 1 for Monday, ..., 7 for Sunday. */
  function IsoWeekday(n: int): (w: int)
    ensures 1 <= w <= 7
  {
    n % 7 + 1
  }

  /** `getDay()` and the ISO weekday name the same day, Sunday being 0 in
      one and 7 in the other. */
  lemma JsWeekdayIso(n: int)
    ensures JsWeekday(n) == IsoWeekday(n) % 7
  {
  }

  /** Going back `IsoWeekday(n) - 1` days lands on a Monday. */
  lemma BackToMonday(n: int)
    ensures IsoWeekday(n - IsoWeekday(n) + 1) == 1
  {
  }

  /** Whole weeks do not change the weekday. */
  lemma WeekdayPeriodic(n: int, k: int)
    ensures IsoWeekday(n + 7 * k) == IsoWeekday(n)
  {
  }

  /** Calibration against known weekdays: 1 January 2023 was a Sunday,
      30 December 2024 a Monday and 1 January 2024 a Monday. */
  lemma KnownWeekdays()
    ensures JsWeekday(FromDate(Date(2023, 1, 1))) == 0
    ensures JsWeekday(FromDate(Date(2024, 12, 30))) == 1
    ensures JsWeekday(FromDate(Date(2024, 1, 1))) == 1
  {
    assert YearStart(2023) == 738520 && YearStart(2024) == 738885;
    assert FromDate(Date(2023, 1, 1)) == 738520;
    assert FromDate(Date(2024, 1, 1)) == 738885;
    assert MonthStart(2024, 12) == 335;
    assert FromDate(Date(2024, 12, 30)) == 739249;
  }
}
