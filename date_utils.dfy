/** `dateUtils` (src/utils/dateUtils.js): ISO 8601 week numbers, the
    `"YYYY-Www"` week string and its inverse, the Monday of a week and the
    short day label. Dates are day numbers (see `Calendar`); the current
    date is the parameter `today`. */
module DateUtils {
  import opened Common
  import opened Text
  import opened Calendar

  /** `date.setDate(x)`: day `x` of the month of `d`, where values outside
      the month roll over into the neighbouring months. */
  function SetDate(d: int, x: int): (r: int)
    ensures r == d + x - ToDate(d).day
  {
    d - (ToDate(d).day - 1) + (x - 1)
  }

  /** `date.setDate(date.getDate() + delta)` moves the date by `delta`
      days, across month and year ends. */
  lemma SetDateMovesByDays(d: int, delta: int)
    ensures SetDate(d, ToDate(d).day + delta) == d + delta
  {
  }

  /** The shift `getMonday` applies: back `getDay() - 1` days, or six days
      from a Sunday. */
  lemma BackToMondayJs(n: int)
    ensures n - JsWeekday(n) + (if JsWeekday(n) == 0 then -6 else 1) == n - n % 7
  {
    JsWeekdayIso(n);
  }

  /** `Math.ceil(a / 7)`. */
  function CeilDiv7(a: int): (q: int)
    ensures 7 * q - 7 < a <= 7 * q
  {
    (a + 6) / 7
  }

  /** The Thursday of the Monday-to-Sunday week of `n`: `getUTCDay() || 7`
      counts Sunday as day 7, then the date is moved by `4 - dayNum`. */
  function Thursday(n: int): (t: int)
    ensures IsoWeekday(t) == 4
    ensures n - 3 <= t <= n + 3
  {
    n + 4 - IsoWeekday(n)
  }

  /** `getWeekNumber(date)`: the week of the year in which the Thursday of
      the date's week falls, counted from the first day of that year. */
  function GetWeekNumber(n: int): (w: int)
    ensures 1 <= w <= 53
  {
    var d := Thursday(n);
    var yearStart := YearStart(YearOf(d));
    YearStartStep(YearOf(d));
    CeilDiv7(d - yearStart + 1)
  }

  /** The ISO week-numbering year of `n`: the calendar year of its Thursday. */
  function IsoWeekYear(n: int): int
  {
    YearOf(Thursday(n))
  }

  /** The Monday of the Monday-to-Sunday week of `n` (day 0 is a Monday). */
  function MondayOf(n: int): (m: int)
    ensures IsoWeekday(m) == 1 && n - 6 <= m <= n
  {
    n - n % 7
  }

  /** All seven days of a Monday-to-Sunday week get the same week number,
      because they all move to the same Thursday. */
  lemma SameWeekSameNumber(n: int, k: int)
    requires 0 <= k < 7
    ensures Thursday(MondayOf(n) + k) == Thursday(n)
    ensures GetWeekNumber(MondayOf(n) + k) == GetWeekNumber(n)
    ensures IsoWeekYear(MondayOf(n) + k) == IsoWeekYear(n)
  {
  }

  /** Year boundaries follow ISO 8601: Sunday 1 January 2023 is in week 52
      (of 2022), Monday 30 December 2024 is in week 1 (of 2025). */
  lemma YearBoundaryWeeks()
    ensures GetWeekNumber(FromDate(Date(2023, 1, 1))) == 52
    ensures IsoWeekYear(FromDate(Date(2023, 1, 1))) == 2022
    ensures GetWeekNumber(FromDate(Date(2024, 12, 30))) == 1
    ensures IsoWeekYear(FromDate(Date(2024, 12, 30))) == 2025
  {
    assert FromDate(Date(2023, 1, 1)) == 738520;
    assert FromDate(Date(2024, 12, 30)) == 739249;
    assert YearStart(2022) == 738155 && YearStart(2023) == 738520;
    assert YearStart(2025) == 739251 && YearStart(2026) == 739616;
    assert Thursday(738520) == 738517;
    assert Thursday(739249) == 739252;
    YearOfUnique(738517, 2022);
    YearOfUnique(739252, 2025);
  }

  /** The Monday of week 1 of ISO year `y`: the Monday of the week that
      holds 4 January. */
  function Week1Monday(y: int): (m: int)
    ensures IsoWeekday(m) == 1
  {
    var jan4 := YearStart(y) + 3;
    BackToMonday(jan4);
    jan4 - IsoWeekday(jan4) + 1
  }

  /** Week 1 is the week of the year's first Thursday (ISO 8601, section
      4.1.4): its Thursday is among the first seven days of the year. */
  lemma Week1HoldsFirstThursday(y: int)
    ensures YearStart(y) <= Week1Monday(y) + 3 < YearStart(y) + 7
    ensures IsoWeekday(Week1Monday(y) + 3) == 4
  {
    var s := YearStart(y);
    assert Week1Monday(y) == s + 3 - (s + 3) % 7;
    ThursdayOnOrAfter(s);
  }

  /** The Monday of the week of day `s + 3` lies at most three days before
      `s`, so its Thursday is among `s .. s + 6`. */
  lemma ThursdayOnOrAfter(s: int)
    ensures s <= s + 6 - (s + 3) % 7 < s + 7
    ensures (s + 6 - (s + 3) % 7) % 7 == 3
  {
    var u, p := (s + 3) / 7, (s + 3) % 7;
    assert s + 3 == 7 * u + p && 0 <= p < 7;
    assert s + 6 - p == 7 * u + 3;
  }

  /** ISO week dates: the Monday of any day is the Monday of week 1 of its
      ISO week-year plus one week for each later week number. */
  lemma {:induction false} WeekNumberLocatesMonday(n: int)
    ensures MondayOf(n) == Week1Monday(IsoWeekYear(n)) + (GetWeekNumber(n) - 1) * 7
  {
    var t := Thursday(n);
    var y := YearOf(t);
    var start := YearStart(y);
    assert MondayOf(n) == t - 3;
    assert GetWeekNumber(n) == CeilDiv7(t - start + 1);
    assert Week1Monday(y) == start + 3 - (start + 3) % 7;
    FirstThursdayArithmetic(t, start);
  }

  /** The arithmetic behind `WeekNumberLocatesMonday`: a Thursday `t` on or
      after `start` lies whole weeks after the first Thursday on or after
      `start`. */
  lemma FirstThursdayArithmetic(t: int, start: int)
    requires t % 7 == 3 && start <= t
    ensures t - 3 == start + 3 - (start + 3) % 7 + (CeilDiv7(t - start + 1) - 1) * 7
  {
    var k := t - start;
    var q, r := k / 7, k % 7;
    assert k == 7 * q + r && 0 <= r < 7;
    assert CeilDiv7(k + 1) == q + 1;
    var u, p := (start + 3) / 7, (start + 3) % 7;
    assert start + 3 == 7 * u + p && 0 <= p < 7;
    var v := t / 7;
    assert t == 7 * v + 3;
    assert 7 * (v - u - q) == p + r - 6;
    assert p + r == 6;
  }

  /** The week string `"<year>-W<week, two digits>"`. */
  function WeekString(year: int, week: nat): string
  {
    IntToString(year) + "-W" + PadStart(NatToString(week), 2, '0')
  }

  /** `getCurrentWeekString()`: the calendar year of today, not its ISO
      week-year, followed by today's week number. */
  function GetCurrentWeekString(today: int): string
  {
    var year := ToDate(today).year;
    var weekNum := GetWeekNumber(today);
    WeekString(year, weekNum)
  }

  /** `new Date(year, 0, 4)` reads a year from 0 to 99 as 1900 to 1999. */
  function JsYear(year: int): (y: int)
    ensures 0 <= year <= 99 ==> y == 1900 + year
    ensures (year < 0 || year > 99) ==> y == year
  {
    if 0 <= year <= 99 then 1900 + year else year
  }

  /** `getMonday(date)`: moves back to the Monday of the date's
      Monday-to-Sunday week, so a Sunday goes back six days. */
  function GetMonday(n: int): (m: int)
    ensures m == MondayOf(n)
    ensures IsoWeekday(m) == 1 && n - 6 <= m <= n
    ensures JsWeekday(n) == 0 ==> m == n - 6
  {
    var day := JsWeekday(n);
    var delta := -day + (if day == 0 then -6 else 1);
    SetDateMovesByDays(n, delta);
    BackToMondayJs(n);
    SetDate(n, ToDate(n).day + delta)
  }

  /** The date arithmetic of `getMondayFromWeekInput`: `new Date(year, 0,
      4)`, back to the Monday of its week with `setDate(getDate() - jan4Day
      + 1)`, then forward `week - 1` weeks with another `setDate(getDate() +
      ...)`; each of these moves the date by that many days
      (`SetDateMovesByDays`). */
  function MondayOfIsoWeek(year: int, week: int): (m: int)
    ensures IsoWeekday(m) == 1
    ensures m == Week1Monday(JsYear(year)) + (week - 1) * 7
  {
    var jan4 := FromDate(Date(JsYear(year), 1, 4));
    var jan4Day := IsoWeekday(jan4);
    var jan4Monday := jan4 + (-jan4Day + 1);
    var targetMonday := jan4Monday + (week - 1) * 7;
    BackToMonday(jan4);
    WeekdayPeriodic(jan4Monday, week - 1);
    targetMonday
  }

  /** `const [yearStr, weekStr] = weekValue.split('-W')` followed by
      `parseInt` of both halves; a missing second half is `undefined`,
      which `parseInt` turns into NaN (`None`). */
  function ParseWeekValue(weekValue: string): (r: (Option<int>, Option<int>))
    ensures r.0 == ParseInt(Split(weekValue, "-W")[0])
  {
    var parts := Split(weekValue, "-W");
    var year := ParseInt(parts[0]);
    var week := if |parts| > 1 then ParseInt(parts[1]) else None;
    (year, week)
  }

  /** The week string parses back to the year and week it was built from. */
  lemma {:induction false} ParseWeekString(year: int, week: nat)
    ensures WeekString(year, week) != ""
    ensures ParseWeekValue(WeekString(year, week)) == (Some(year), Some(week))
  {
    var a := IntToString(year);
    var b := PadStart(NatToString(week), 2, '0');
    PadStartZeros(NatToString(week), 2);
    IntToStringLacks(year, 'W');
    DigitsLack(b, 'W');
    SplitWeekString(a, b);
    ParseIntOfIntToString(year);
    ParseIntOfDigits(b);
  }

  lemma SplitWeekString(a: string, b: string)
    requires 'W' !in a && 'W' !in b
    ensures Split(a + "-W" + b, "-W") == [a, b]
  {
    SplitFirstPair(a, '-', 'W', b);
    SplitNoSeparator(b, "-W");
    assert a + "-W" + b == a + ['-', 'W'] + b;
  }

  /** `getMondayFromWeekInput(weekValue)`. An empty value falls back to the
      Monday of today. Otherwise the result is the Monday of the week that
      holds 4 January of the parsed year plus `week - 1` weeks. `None`
      stands for the invalid date that a missing or non-numeric half
      produces. */
  function GetMondayFromWeekInput(weekValue: string, today: int): (r: Option<int>)
    ensures weekValue == "" ==> r == Some(GetMonday(today))
    ensures r.Some? ==> IsoWeekday(r.value) == 1
  {
    if weekValue == "" then Some(GetMonday(today))
    else
      var (year, week) := ParseWeekValue(weekValue);
      if year.None? || week.None? then None
      else Some(MondayOfIsoWeek(year.value, week.value))
  }

  /** A well-formed week value names week `week` of year `year`. */
  lemma {:induction false} WeekInputOfWeekString(year: int, week: nat, today: int)
    ensures GetMondayFromWeekInput(WeekString(year, week), today) == Some(MondayOfIsoWeek(year, week))
  {
    ParseWeekString(year, week);
    WeekInputOfParsed(WeekString(year, week), year, week, today);
  }

  lemma WeekInputOfParsed(weekValue: string, year: int, week: int, today: int)
    requires weekValue != "" && ParseWeekValue(weekValue) == (Some(year), Some(week))
    ensures GetMondayFromWeekInput(weekValue, today) == Some(MondayOfIsoWeek(year, week))
  {
  }

  /** Week 1 of 2024 starts on Monday 1 January 2024. */
  lemma FirstWeekOf2024()
    ensures MondayOfIsoWeek(2024, 1) == FromDate(Date(2024, 1, 1)) == 738885
  {
    assert YearStart(2024) == 738885;
    assert FromDate(Date(2024, 1, 4)) == 738888;
    assert Week1Monday(2024) == 738885;
    assert FromDate(Date(2024, 1, 1)) == 738885;
  }

  /** Week 1 of 2024 is written "2024-W01". */
  lemma WeekString2024W01()
    ensures WeekString(2024, 1) == "2024-W01"
  {
    Writes2024();
    Writes01();
  }

  lemma Writes2024()
    ensures IntToString(2024) == "2024"
  {
    assert NatToString(2) == "2";
    assert NatToString(20) == "20";
    assert NatToString(202) == "202";
    assert NatToString(2024) == "2024";
  }

  lemma Writes01()
    ensures PadStart(NatToString(1), 2, '0') == "01"
  {
    assert NatToString(1) == [DigitChar(1)] == "1";
    var r := PadStart("1", 2, '0');
    assert |r| == 2 && r[0] == '0' && r[1..] == "1";
    assert r == [r[0]] + r[1..];
  }

  /** The week string of any date leads to the Monday of the week with the
      same number in the date's calendar year. */
  lemma CurrentWeekInput(n: int, today: int)
    ensures GetMondayFromWeekInput(GetCurrentWeekString(n), today)
      == Some(MondayOfIsoWeek(ToDate(n).year, GetWeekNumber(n)))
  {
    WeekInputOfWeekString(ToDate(n).year, GetWeekNumber(n), today);
  }

  /** Round trip: when a date's ISO week-year is its calendar year (and that
      year is not one `new Date` reads as 19xx), the week string of the
      date leads back to the Monday of its week, at most six days before
      it. */
  lemma WeekStringRoundTrip(n: int, today: int)
    requires IsoWeekYear(n) == ToDate(n).year
    requires ToDate(n).year < 0 || ToDate(n).year > 99
    ensures GetMondayFromWeekInput(GetCurrentWeekString(n), today) == Some(MondayOf(n))
    ensures n - 6 <= MondayOf(n) <= n
  {
    var y, w := ToDate(n).year, GetWeekNumber(n);
    assert JsYear(y) == y;
    CurrentWeekInput(n, today);
    WeekNumberLocatesMonday(n);
    assert MondayOfIsoWeek(y, w) == MondayOf(n);
  }

  /** Because the week string takes the calendar year, a date in the last
      days of December that belongs to week 1 of the next year maps back to
      the first week of its own year: 30 December 2024 gives "2024-W01",
      whose Monday is 1 January 2024, 364 days earlier. */
  lemma CalendarYearWeekString(n: int)
    requires n == FromDate(Date(2024, 12, 30))
    ensures ToDate(n).year == 2024 && GetWeekNumber(n) == 1
    ensures MondayOf(n) == n
    ensures MondayOfIsoWeek(ToDate(n).year, GetWeekNumber(n)) == n - 364
  {
    Dec30In2024(n);
    FirstWeekOf2024();
  }

  lemma Dec30In2024(n: int)
    requires n == FromDate(Date(2024, 12, 30))
    ensures n == 739249 && YearOf(n) == 2024 && GetWeekNumber(n) == 1
  {
    assert n == 739249;
    assert YearStart(2024) == 738885 && YearStart(2025) == 739251 && YearStart(2026) == 739616;
    YearOfUnique(n, 2024);
    assert Thursday(n) == 739252;
    YearOfUnique(739252, 2025);
  }

  /** The same date through the functions themselves: its week value
      leads to the Monday 364 days before it. */
  lemma CalendarYearRoundTripMisses(n: int, today: int)
    requires n == FromDate(Date(2024, 12, 30))
    ensures GetMondayFromWeekInput(GetCurrentWeekString(n), today) == Some(n - 364)
  {
    CalendarYearWeekString(n);
    CurrentWeekInput(n, today);
  }

  /** A week string built from the ISO week-year instead of the calendar
      year leads back to the Monday of every date outside years 0 to 99. */
  lemma IsoWeekStringRoundTrip(n: int, today: int)
    requires IsoWeekYear(n) < 0 || IsoWeekYear(n) > 99
    ensures GetMondayFromWeekInput(WeekString(IsoWeekYear(n), GetWeekNumber(n)), today)
      == Some(MondayOf(n))
  {
    var y, w := IsoWeekYear(n), GetWeekNumber(n);
    assert JsYear(y) == y;
    WeekInputOfWeekString(y, w, today);
    WeekNumberLocatesMonday(n);
    assert MondayOfIsoWeek(y, w) == MondayOf(n);
  }

  /** Short Spanish day names, Sunday first, as `getDay()` indexes them. */
  const DayNames: seq<string> := ["Dom", "Lun", "Mar", "Mi\U{E9}", "Jue", "Vie", "S\U{E1}b"]

  /** `formatDate(date)`: `"<day name> <day of month>/<month>"`, numbers
      without zero padding. */
  function FormatDate(n: int): (s: string)
  {
    var d := ToDate(n);
    DayNames[JsWeekday(n)] + " " + NatToString(d.day) + "/" + NatToString(d.month)
  }

  /** The label reads back: splitting at the space gives the day name of
      the date's weekday, and the part after it splits at `/` into the day
      of the month and the month (1 to 12). */
  lemma {:induction false} FormatDateReadBack(n: int)
    ensures Split(FormatDate(n), " ") == [DayNames[JsWeekday(n)], NatToString(ToDate(n).day) + "/" + NatToString(ToDate(n).month)]
    ensures Split(NatToString(ToDate(n).day) + "/" + NatToString(ToDate(n).month), "/")
      == [NatToString(ToDate(n).day), NatToString(ToDate(n).month)]
    ensures ParseInt(NatToString(ToDate(n).day)) == Some(ToDate(n).day)
    ensures ParseInt(NatToString(ToDate(n).month)) == Some(ToDate(n).month)
    ensures 1 <= ToDate(n).month <= 12
  {
    var d := ToDate(n);
    var dayStr, monthStr := NatToString(d.day), NatToString(d.month);
    DigitsLack(dayStr, ' ');
    DigitsLack(dayStr, '/');
    DigitsLack(monthStr, ' ');
    DigitsLack(monthStr, '/');
    SplitLabel(DayNames[JsWeekday(n)], dayStr, monthStr);
    ParseIntOfIntToString(d.day);
    ParseIntOfIntToString(d.month);
  }

  /** Splitting `"<name> <day>/<month>"` at the space and then at the slash
      recovers the three parts when none of them holds the separators. */
  lemma SplitLabel(name: string, dayStr: string, monthStr: string)
    requires ' ' !in name
    requires ' ' !in dayStr && '/' !in dayStr && ' ' !in monthStr && '/' !in monthStr
    ensures Split(name + " " + dayStr + "/" + monthStr, " ") == [name, dayStr + "/" + monthStr]
    ensures Split(dayStr + "/" + monthStr, "/") == [dayStr, monthStr]
  {
    var rest := dayStr + "/" + monthStr;
    forall i | 0 <= i < |rest| ensures rest[i] != ' ' {
      if i < |dayStr| {
        assert rest[i] == dayStr[i];
      } else if i > |dayStr| {
        assert rest[i] == monthStr[i - |dayStr| - 1];
      }
    }
    assert name + " " + dayStr + "/" + monthStr == name + [' '] + rest;
    SplitFirstChar(name, ' ', rest);
    SplitNoSeparator(rest, " ");
    assert rest == dayStr + ['/'] + monthStr;
    SplitFirstChar(dayStr, '/', monthStr);
    SplitNoSeparator(monthStr, "/");
  }
}
