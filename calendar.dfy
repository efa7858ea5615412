/**
 * The proleptic Gregorian calendar as Python's `datetime` counts it: dates from
 * 0001-01-01 to 9999-12-31, numbered by ordinal (0001-01-01 is day 1, a Monday),
 * and `get_week_dates`, which turns an ISO (year, week) into the Monday and Sunday
 * of that week and the Monday's month.
 */
module Calendar {
  import opened Wrappers
  import opened Text

  datatype Date = Date(year: int, month: int, day: int)

  predicate IsLeap(y: int) {
    y % 4 == 0 && (y % 100 != 0 || y % 400 == 0)
  }

  function DaysInYear(y: int): int {
    if IsLeap(y) then 366 else 365
  }

  function DaysInMonth(y: int, m: int): int
    requires 1 <= m <= 12
  {
    if m == 2 then (if IsLeap(y) then 29 else 28)
    else if m == 4 || m == 6 || m == 9 || m == 11 then 30
    else 31
  }

  /** Days in the years before `y` (Python's `_days_before_year`). */
  function DaysBeforeYear(y: int): int {
    var p := y - 1;
    365 * p + p / 4 - p / 100 + p / 400
  }

  /** Days in the months of year `y` before month `m` (Python's `_days_before_month`); month 13 stands for the year's end. */
  function DaysBeforeMonth(y: int, m: int): int
    requires 1 <= m <= 13
  {
    var common := match m
      case 1 => 0 case 2 => 31 case 3 => 59 case 4 => 90 case 5 => 120 case 6 => 151
      case 7 => 181 case 8 => 212 case 9 => 243 case 10 => 273 case 11 => 304 case 12 => 334
      case _ => 365;
    common + (if m > 2 && IsLeap(y) then 1 else 0)
  }

  predicate ValidDate(d: Date) {
    1 <= d.year <= 9999 && 1 <= d.month <= 12 && 1 <= d.day <= DaysInMonth(d.year, d.month)
  }

  function ToOrdinal(d: Date): int
    requires 1 <= d.month <= 12
  {
    DaysBeforeYear(d.year) + DaysBeforeMonth(d.year, d.month) + d.day
  }

  /** The ordinal of 9999-12-31, the last date `datetime` can represent. */
  const MaxOrdinal := 3652059

  /** 0 for Monday through 6 for Sunday, as `datetime.weekday()`. */
  function Weekday(n: int): int {
    (n + 6) % 7
  }

  /** Euclidean division by 4, 100 and 400 grows by one exactly at the multiples. */
  lemma DivSteps(p: int)
    ensures (p + 1) / 4 == p / 4 + (if (p + 1) % 4 == 0 then 1 else 0)
    ensures (p + 1) / 100 == p / 100 + (if (p + 1) % 100 == 0 then 1 else 0)
    ensures (p + 1) / 400 == p / 400 + (if (p + 1) % 400 == 0 then 1 else 0)
  {
  }

  /** A multiple of 400 is a multiple of 100, and a multiple of 100 one of 4. */
  lemma MultipleChain(y: int)
    ensures y % 400 == 0 ==> y % 100 == 0
    ensures y % 100 == 0 ==> y % 4 == 0
  {
    if y % 400 == 0 {
      var z := 4 * (y / 400) - y / 100;
      assert 100 * z == y % 100;
      assert z == 0;
    }
    if y % 100 == 0 {
      var z := 25 * (y / 100) - y / 4;
      assert 4 * z == y % 4;
      assert z == 0;
    }
  }

  lemma YearStep(y: int)
    ensures DaysBeforeYear(y + 1) == DaysBeforeYear(y) + DaysInYear(y)
  {
    DivSteps(y - 1);
    MultipleChain(y);
  }

  lemma MonthStep(y: int, m: int)
    requires 1 <= m <= 12
    ensures DaysBeforeMonth(y, m + 1) == DaysBeforeMonth(y, m) + DaysInMonth(y, m)
  {
  }

  lemma YearEnd(y: int)
    ensures DaysBeforeMonth(y, 13) == DaysInYear(y)
  {
  }

  lemma {:induction false} DaysBeforeYearMonotone(a: int, b: int)
    requires a <= b
    ensures DaysBeforeYear(a) <= DaysBeforeYear(b)
    decreases b - a
  {
    if a < b {
      YearStep(a);
      DaysBeforeYearMonotone(a + 1, b);
    }
  }

  lemma DaysBeforeMonthMonotone(y: int, a: int, b: int)
    requires 1 <= a <= b <= 13
    ensures DaysBeforeMonth(y, a) <= DaysBeforeMonth(y, b)
  {
  }

  lemma MaxOrdinalIsLastDay()
    ensures ValidDate(Date(9999, 12, 31)) && ToOrdinal(Date(9999, 12, 31)) == MaxOrdinal
    ensures DaysBeforeYear(10000) == MaxOrdinal
  {
    YearEnd(9999);
    YearStep(9999);
  }

  /** The year holding day `n`, searched upwards from a year that starts before it. */
  function FindYear(n: int, y: int): (r: int)
    requires 1 <= y && DaysBeforeYear(y) < n <= MaxOrdinal
    ensures y <= r <= 9999
    ensures DaysBeforeYear(r) < n <= DaysBeforeYear(r + 1)
    decreases n - DaysBeforeYear(y)
  {
    YearStep(y);
    if n <= DaysBeforeYear(y + 1) then
      MaxOrdinalIsLastDay();
      assert y <= 9999 by { if y > 9999 { DaysBeforeYearMonotone(10000, y); } }
      y
    else FindYear(n, y + 1)
  }

  /** The month holding day `rem` of year `y`, searched upwards from month `m`. */
  function FindMonth(y: int, rem: int, m: int): (r: int)
    requires 1 <= m <= 12 && DaysBeforeMonth(y, m) < rem <= DaysBeforeMonth(y, 13)
    ensures m <= r <= 12
    ensures DaysBeforeMonth(y, r) < rem <= DaysBeforeMonth(y, r + 1)
    decreases 12 - m
  {
    if m == 12 || rem <= DaysBeforeMonth(y, m + 1) then m else FindMonth(y, rem, m + 1)
  }

  /** Python's `date.fromordinal(n)`: the date whose ordinal is `n`. */
  function FromOrdinal(n: int): (d: Date)
    requires 1 <= n <= MaxOrdinal
    ensures ValidDate(d) && ToOrdinal(d) == n
  {
    // 366 * (y0 - 1) <= n - 1 bounds the days before y0, so the search starts below the answer.
    var y0 := (n - 1) / 366 + 1;
    assert DaysBeforeYear(y0) < n;
    var y := FindYear(n, y0);
    YearEnd(y);
    YearStep(y);
    var rem := n - DaysBeforeYear(y);
    var m := FindMonth(y, rem, 1);
    MonthStep(y, m);
    Date(y, m, rem - DaysBeforeMonth(y, m))
  }

  /** Only one year's span holds a given ordinal. */
  lemma YearUnique(n: int, y1: int, y2: int)
    requires DaysBeforeYear(y1) < n <= DaysBeforeYear(y1 + 1)
    requires DaysBeforeYear(y2) < n <= DaysBeforeYear(y2 + 1)
    ensures y1 == y2
  {
    if y1 < y2 { DaysBeforeYearMonotone(y1 + 1, y2); }
    if y2 < y1 { DaysBeforeYearMonotone(y2 + 1, y1); }
  }

  lemma MonthUnique(y: int, rem: int, m1: int, m2: int)
    requires 1 <= m1 <= 12 && 1 <= m2 <= 12
    requires DaysBeforeMonth(y, m1) < rem <= DaysBeforeMonth(y, m1 + 1)
    requires DaysBeforeMonth(y, m2) < rem <= DaysBeforeMonth(y, m2 + 1)
    ensures m1 == m2
  {
    if m1 < m2 { DaysBeforeMonthMonotone(y, m1 + 1, m2); }
    if m2 < m1 { DaysBeforeMonthMonotone(y, m2 + 1, m1); }
  }

  /** A valid date's ordinal lies in its year's span, and its day of the year in its month's. */
  lemma DateSpans(d: Date)
    requires ValidDate(d)
    ensures DaysBeforeYear(d.year) < ToOrdinal(d) <= DaysBeforeYear(d.year + 1)
    ensures DaysBeforeMonth(d.year, d.month) < ToOrdinal(d) - DaysBeforeYear(d.year) <= DaysBeforeMonth(d.year, d.month + 1)
  {
    MonthStep(d.year, d.month);
    DaysBeforeMonthMonotone(d.year, d.month + 1, 13);
    YearEnd(d.year);
    YearStep(d.year);
  }

  /** Ordinals and valid dates are in one-to-one correspondence. */
  lemma FromToOrdinal(d: Date)
    requires ValidDate(d)
    ensures 1 <= ToOrdinal(d) <= MaxOrdinal
    ensures FromOrdinal(ToOrdinal(d)) == d
  {
    DateSpans(d);
    DaysBeforeYearMonotone(1, d.year);
    DaysBeforeYearMonotone(d.year + 1, 10000);
    MaxOrdinalIsLastDay();
    DateSpans(FromOrdinal(ToOrdinal(d)));
    YearUnique(ToOrdinal(d), d.year, FromOrdinal(ToOrdinal(d)).year);
    MonthUnique(d.year, ToOrdinal(d) - DaysBeforeYear(d.year), d.month, FromOrdinal(ToOrdinal(d)).month);
  }

  /** `strftime("%Y-%m-%d")`: month and day zero-padded, the year as its digits. */
  function FormatDate(d: Date): string {
    IntToString(d.year) + "-" + Pad2(d.month) + "-" + Pad2(d.day)
  }

  /** `datetime(year, 1, 4)` refuses a year outside 1..9999; a step past either end overflows. */
  datatype DateError = YearOutOfRange(year: int) | DateOutOfRange(ordinal: int)

  datatype WeekDates = WeekDates(startDate: string, endDate: string, month: int)

  /** The ordinal of the Monday of ISO week 1: the Monday on or before January 4. */
  function WeekOneMonday(year: int): int {
    var jan4 := DaysBeforeYear(year) + 4;
    jan4 - Weekday(jan4)
  }

  /** The ordinal of the Monday that `get_week_dates` computes, or the error it raises. */
  function WeekStart(year: int, week: int): (r: Result<int, DateError>)
    ensures r.Ok? ==> r.value == WeekOneMonday(year) + 7 * (week - 1)
    ensures r.Ok? ==> 1 <= r.value && r.value + 6 <= MaxOrdinal
  {
    if !(1 <= year <= 9999) then Err(YearOutOfRange(year))
    else
      var monday1 := WeekOneMonday(year);
      var target := monday1 + 7 * (week - 1);
      if monday1 < 1 then Err(DateOutOfRange(monday1))
      else if target < 1 || target > MaxOrdinal then Err(DateOutOfRange(target))
      else if target + 6 > MaxOrdinal then Err(DateOutOfRange(target + 6))
      else Ok(target)
  }

  /** `get_week_dates` fails exactly for a year `datetime` refuses or a week reaching past 0001-01-01 or 9999-12-31. */
  lemma WeekStartOk(year: int, week: int)
    ensures WeekStart(year, week).Ok? <==>
      1 <= year <= 9999 && 1 <= WeekOneMonday(year) + 7 * (week - 1) && WeekOneMonday(year) + 7 * (week - 1) + 6 <= MaxOrdinal
    ensures !(1 <= year <= 9999) ==> WeekStart(year, week) == Err(YearOutOfRange(year))
  {
  }

  /** `get_week_dates(year, week)`: the Monday and the Sunday of the week, and the Monday's month. */
  function GetWeekDates(year: int, week: int): (r: Result<WeekDates, DateError>)
    ensures r.Ok? <==> WeekStart(year, week).Ok?
    ensures r.Err? ==> r.error == WeekStart(year, week).error
  {
    var start := WeekStart(year, week);
    if start.Err? then Err(start.error)
    else
      var s := start.value;
      var monday := FromOrdinal(s);
      Ok(WeekDates(FormatDate(monday), FormatDate(FromOrdinal(s + 6)), monday.month))
  }

  /** Stepping back to the Monday on or before a day, then whole weeks, lands on a Monday. */
  lemma MondayOnOrBefore(x: int, k: int)
    ensures Weekday(x - Weekday(x) + 7 * k) == 0
    ensures Weekday(x - Weekday(x) + 7 * k + 6) == 6
  {
    var q := (x + 6) / 7;
    assert x + 6 == 7 * q + Weekday(x);
    assert x - Weekday(x) + 7 * k + 6 == 7 * (q + k);
    assert x - Weekday(x) + 7 * k + 6 + 6 == 7 * (q + k) + 6;
  }

  /** The Monday of week 1 and every whole week after it are Mondays, each followed six days later by a Sunday. */
  lemma WeeksFromWeekOne(year: int, k: int)
    ensures Weekday(WeekOneMonday(year) + 7 * k) == 0
    ensures Weekday(WeekOneMonday(year) + 7 * k + 6) == 6
  {
    MondayOnOrBefore(DaysBeforeYear(year) + 4, k);
  }

  /** Every week starts on a Monday and ends six days later, on a Sunday. */
  lemma WeekIsMondayToSunday(year: int, week: int)
    requires WeekStart(year, week).Ok?
    ensures Weekday(WeekStart(year, week).value) == 0
    ensures Weekday(WeekStart(year, week).value + 6) == 6
  {
    WeeksFromWeekOne(year, week - 1);
  }

  /**
   * What a successful `get_week_dates` returns: the text of a Monday and of the Sunday
   * six days later, the Monday being `week - 1` weeks after the Monday of week 1, and
   * the Monday's month.
   */
  lemma WeekDatesMeaning(year: int, week: int) returns (monday: Date, sunday: Date)
    requires GetWeekDates(year, week).Ok?
    ensures ValidDate(monday) && ValidDate(sunday)
    ensures ToOrdinal(monday) == WeekOneMonday(year) + 7 * (week - 1)
    ensures ToOrdinal(sunday) == ToOrdinal(monday) + 6
    ensures GetWeekDates(year, week).value == WeekDates(FormatDate(monday), FormatDate(sunday), monday.month)
  {
    monday := FromOrdinal(WeekStart(year, week).value);
    sunday := FromOrdinal(WeekStart(year, week).value + 6);
  }

  /** Week 1 is the week that holds January 4 (ISO 8601). */
  lemma WeekOneHoldsJanuaryFourth(year: int)
    requires 1 <= year <= 9999
    ensures WeekStart(year, 1).Ok?
    ensures WeekStart(year, 1).value <= ToOrdinal(Date(year, 1, 4)) <= WeekStart(year, 1).value + 6
  {
    DaysBeforeYearMonotone(1, year);
    DaysBeforeYearMonotone(year + 1, 10000);
    YearStep(year);
    MaxOrdinalIsLastDay();
  }

  /** Consecutive weeks are seven days apart. */
  lemma NextWeek(year: int, week: int)
    requires WeekStart(year, week).Ok? && WeekStart(year, week + 1).Ok?
    ensures WeekStart(year, week + 1).value == WeekStart(year, week).value + 7
  {
  }
}

/** Worked weeks of `get_week_dates`, date text included. */
module CalendarExamples {
  import opened Wrappers
  import opened Text
  import opened Calendar

  lemma FormatOf(d: Date, ys: string)
    requires 1000 <= d.year < 10000 && 1 <= d.month <= 12 && 1 <= d.day <= 31
    requires ys == [DigitChar(d.year / 1000), DigitChar(d.year / 100 % 10), DigitChar(d.year / 10 % 10), DigitChar(d.year % 10)]
    ensures FormatDate(d) == ys + "-" + Pad2(d.month) + "-" + Pad2(d.day)
  {
    NatToStringFourDigits(d.year);
  }

  lemma DateAt(d: Date, n: int)
    requires ValidDate(d) && ToOrdinal(d) == n
    ensures FromOrdinal(n) == d
  {
    FromToOrdinal(d);
  }

  lemma Ordinals2023W01()
    ensures WeekStart(2023, 1) == Ok(738522)
    ensures ToOrdinal(Date(2023, 1, 2)) == 738522 && ToOrdinal(Date(2023, 1, 8)) == 738528
  {
  }

  lemma Monday2023W01()
    ensures FromOrdinal(738522) == Date(2023, 1, 2)
  {
    Ordinals2023W01();
    DateAt(Date(2023, 1, 2), 738522);
  }

  lemma Sunday2023W01()
    ensures FromOrdinal(738528) == Date(2023, 1, 8)
  {
    Ordinals2023W01();
    DateAt(Date(2023, 1, 8), 738528);
  }

  lemma Text2023W01()
    ensures FormatDate(Date(2023, 1, 2)) == "2023-01-02" && FormatDate(Date(2023, 1, 8)) == "2023-01-08"
  {
    FormatOf(Date(2023, 1, 2), "2023");
    FormatOf(Date(2023, 1, 8), "2023");
  }

  /** The first week of 2023 runs from Monday 2 January to Sunday 8 January. */
  lemma Dates2023W01()
    ensures GetWeekDates(2023, 1) == Ok(WeekDates("2023-01-02", "2023-01-08", 1))
  {
    Ordinals2023W01();
    Monday2023W01();
    Sunday2023W01();
    Text2023W01();
  }

  lemma Ordinals2020W53()
    ensures WeekStart(2020, 53) == Ok(737787)
    ensures ToOrdinal(Date(2020, 12, 28)) == 737787 && ToOrdinal(Date(2021, 1, 3)) == 737793
  {
  }

  lemma Monday2020W53()
    ensures FromOrdinal(737787) == Date(2020, 12, 28)
  {
    Ordinals2020W53();
    DateAt(Date(2020, 12, 28), 737787);
  }

  lemma Sunday2020W53()
    ensures FromOrdinal(737793) == Date(2021, 1, 3)
  {
    Ordinals2020W53();
    DateAt(Date(2021, 1, 3), 737793);
  }

  lemma Text2020W53()
    ensures FormatDate(Date(2020, 12, 28)) == "2020-12-28" && FormatDate(Date(2021, 1, 3)) == "2021-01-03"
  {
    FormatOf(Date(2020, 12, 28), "2020");
    FormatOf(Date(2021, 1, 3), "2021");
  }

  /** Week 53 of 2020 ends in the next year; its month is the Monday's, December. */
  lemma Dates2020W53()
    ensures GetWeekDates(2020, 53) == Ok(WeekDates("2020-12-28", "2021-01-03", 12))
  {
    Ordinals2020W53();
    Monday2020W53();
    Sunday2020W53();
    Text2020W53();
  }

  /** The first week of 2021 follows directly after week 53 of 2020. */
  lemma After2020W53()
    ensures WeekStart(2021, 1) == Ok(737787 + 7)
  {
  }

  /**
   * 2021 has 52 ISO weeks, and nothing refuses week 53: it comes out as the first
   * week of 2022.
   */
  lemma Week53Of2021IsWeek1Of2022()
    ensures WeekStart(2021, 53) == WeekStart(2022, 1) == Ok(738158)
  {
  }
}
