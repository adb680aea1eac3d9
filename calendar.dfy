/**
 * The part of .NET's `DateTime` the game relies on: proleptic Gregorian dates with a time of
 * day, `AddDays`, `AddYears`, the `Year`/`Month`/`Day` properties and chronological comparison.
 * A date is converted to a day number (days since 0001-01-01, computed as .NET computes it) and
 * back; `AddDays` is moving the day number. Sub-second ticks are not modelled.
 */
module Calendar {
  import opened Wrappers

  predicate IsLeapYear(y: int)
  {
    y % 4 == 0 && (y % 100 != 0 || y % 400 == 0)
  }

  function DaysInYear(y: int): int
  {
    if IsLeapYear(y) then 366 else 365
  }

  /** Days in the months of year `y` that come before month `m`; month 13 stands for "after December". */
  function DaysBeforeMonth(y: int, m: int): int
    requires 1 <= m <= 13
  {
    var common :=
      if m == 1 then 0 else if m == 2 then 31 else if m == 3 then 59 else if m == 4 then 90
      else if m == 5 then 120 else if m == 6 then 151 else if m == 7 then 181
      else if m == 8 then 212 else if m == 9 then 243 else if m == 10 then 273
      else if m == 11 then 304 else if m == 12 then 334 else 365;
    if m > 2 && IsLeapYear(y) then common + 1 else common
  }

  function DaysInMonth(y: int, m: int): (n: int)
    requires 1 <= m <= 12
    ensures DaysBeforeMonth(y, m) + n == DaysBeforeMonth(y, m + 1)
    ensures 28 <= n <= 31
  {
    if m == 2 then (if IsLeapYear(y) then 29 else 28)
    else if m == 4 || m == 6 || m == 9 || m == 11 then 30
    else 31
  }

  datatype CivilDate = CivilDate(year: int, month: int, day: int)

  predicate IsValidDate(d: CivilDate)
  {
    1 <= d.month <= 12 && 1 <= d.day <= DaysInMonth(d.year, d.month)
  }

  /** A calendar date; the year range .NET supports (1 to 9999) is checked where dates are produced. */
  type Date = d: CivilDate | IsValidDate(d) witness CivilDate(1, 1, 1)

  type Hour = h: int | 0 <= h < 24
  type Minute = m: int | 0 <= m < 60
  type Second = s: int | 0 <= s < 60

  datatype DateTime = DateTime(date: Date, hour: Hour, minute: Minute, second: Second)

  /** `new DateTime(y, m, d, h, mi, s)`. */
  function At(y: int, m: int, d: int, h: Hour, mi: Minute, s: Second): DateTime
    requires IsValidDate(CivilDate(y, m, d))
  {
    DateTime(CivilDate(y, m, d), h, mi, s)
  }

  /** `new DateTime(y, m, d)`. */
  function Midnight(y: int, m: int, d: int): DateTime
    requires IsValidDate(CivilDate(y, m, d))
  {
    At(y, m, d, 0, 0, 0)
  }

  /** The years `DateTime` can represent. */
  predicate InRange(d: Date)
  {
    1 <= d.year <= 9999
  }

  // ---------------------------------------------------------------------------------------
  // Day numbers
  // ---------------------------------------------------------------------------------------

  /** Days from 0001-01-01 to the first day of year `y` (.NET's own closed form). */
  function DaysBeforeYear(y: int): int
  {
    var x := y - 1;
    365 * x + x / 4 - x / 100 + x / 400
  }

  /** Days from 0001-01-01 to 10000-01-01: the number of days `DateTime` can represent. */
  const MaxDayCount: int := DaysBeforeYear(10000)

  lemma DivStep(x: int, k: int)
    requires k == 4 || k == 100 || k == 400
    ensures (x + 1) / k == x / k + (if (x + 1) % k == 0 then 1 else 0)
  {
    if k == 4 {
      assert x == 4 * (x / 4) + x % 4;
    } else if k == 100 {
      assert x == 100 * (x / 100) + x % 100;
    } else {
      assert x == 400 * (x / 400) + x % 400;
    }
  }

  lemma DivisibilityChain(y: int)
    ensures y % 400 == 0 ==> y % 100 == 0
    ensures y % 100 == 0 ==> y % 4 == 0
  {
    if y % 400 == 0 {
      MultipleDivides(y / 400, 4, 100);
    }
    if y % 100 == 0 {
      MultipleDivides(y / 100, 25, 4);
    }
  }

  /** A multiple of `k * m` is a multiple of `m`. */
  lemma MultipleDivides(q: int, k: int, m: int)
    requires (k == 4 && m == 100) || (k == 25 && m == 4)
    ensures (k * m * q) % m == 0
  {
    var y := k * m * q;
    assert y == m * (k * q);
    assert y / m == k * q;
  }

  lemma DaysBeforeNextYear(y: int)
    ensures DaysBeforeYear(y + 1) == DaysBeforeYear(y) + DaysInYear(y)
  {
    DivStep(y - 1, 4);
    DivStep(y - 1, 100);
    DivStep(y - 1, 400);
    DivisibilityChain(y);
  }

  lemma {:induction false} DaysBeforeYearMonotone(a: int, b: int)
    requires a <= b
    ensures DaysBeforeYear(a) + 365 * (b - a) <= DaysBeforeYear(b)
    decreases b - a
  {
    if a < b {
      DaysBeforeYearMonotone(a, b - 1);
      DaysBeforeNextYear(b - 1);
    }
  }

  lemma DaysBeforeMonthMonotone(y: int, m: int, k: int)
    requires 1 <= m < k <= 13
    ensures DaysBeforeMonth(y, m) + DaysInMonth(y, m) <= DaysBeforeMonth(y, k)
  {
  }

  function DayNumber(d: Date): int
  {
    DaysBeforeYear(d.year) + DaysBeforeMonth(d.year, d.month) + d.day - 1
  }

  /** Dates from year 1 on have non-negative day numbers. */
  lemma DayNumberNonNegative(d: Date)
    requires 1 <= d.year
    ensures DayNumber(d) >= 0
  {
    DaysBeforeYearMonotone(1, d.year);
  }

  /** A date's day number lies within its year's span. */
  lemma DayNumberInYear(d: Date)
    ensures DaysBeforeYear(d.year) <= DayNumber(d) < DaysBeforeYear(d.year + 1)
  {
    DaysBeforeNextYear(d.year);
    DaysBeforeMonthMonotone(d.year, d.month, 13);
  }

  /** Finds the date `n` days after 1 January of year `y`, a year at a time. */
  function YearFrom(n: nat, y: int): CivilDate
    decreases n
  {
    if n < DaysInYear(y) then MonthFrom(y, n, 1)
    else YearFrom(n - DaysInYear(y), y + 1)
  }

  /** Finds the date `n` days after the first of month `m` of year `y`, a month at a time. */
  function MonthFrom(y: int, n: nat, m: int): CivilDate
    requires 1 <= m <= 12
    requires DaysBeforeMonth(y, m) + n < DaysInYear(y)
    decreases 12 - m
  {
    if n < DaysInMonth(y, m) then CivilDate(y, m, n + 1)
    else MonthFrom(y, n - DaysInMonth(y, m), m + 1)
  }

  lemma {:induction false} MonthFromSpec(y: int, n: nat, m: int)
    requires 1 <= m <= 12
    requires DaysBeforeMonth(y, m) + n < DaysInYear(y)
    ensures var d := MonthFrom(y, n, m);
      IsValidDate(d) && d.year == y &&
      DaysBeforeMonth(y, d.month) + d.day - 1 == DaysBeforeMonth(y, m) + n
    decreases 12 - m
  {
    if n >= DaysInMonth(y, m) {
      MonthFromSpec(y, n - DaysInMonth(y, m), m + 1);
    }
  }

  lemma {:induction false} YearFromSpec(n: nat, y: int)
    ensures var d := YearFrom(n, y);
      IsValidDate(d) && y <= d.year &&
      DayNumber(d) == DaysBeforeYear(y) + n
    decreases n
  {
    if n < DaysInYear(y) {
      MonthFromSpec(y, n, 1);
    } else {
      YearFromSpec(n - DaysInYear(y), y + 1);
      DaysBeforeNextYear(y);
    }
  }

  /** The date with day number `n`: the inverse of `DayNumber` on the years `DateTime` supports. */
  function FromDayNumber(n: nat): (d: Date)
    ensures DayNumber(d) == n
    ensures 1 <= d.year
    ensures n < MaxDayCount ==> d.year <= 9999
  {
    YearFromSpec(n, 1);
    var d: Date := YearFrom(n, 1);
    DayNumberBelowMax(d);
    d
  }

  /** Within `MaxDayCount` a day number belongs to a year before 10000. */
  lemma DayNumberBelowMax(d: Date)
    ensures DayNumber(d) < MaxDayCount ==> d.year <= 9999
  {
    if d.year > 9999 {
      DaysBeforeYearMonotone(10000, d.year);
      DayNumberInYear(d);
    }
  }

  lemma {:induction false} MonthFromAt(d: Date, k: int)
    requires 1 <= k <= d.month
    ensures var n := DaysBeforeMonth(d.year, d.month) - DaysBeforeMonth(d.year, k) + d.day - 1;
      n >= 0 && DaysBeforeMonth(d.year, k) + n < DaysInYear(d.year) && MonthFrom(d.year, n, k) == d
    decreases d.month - k
  {
    var y, n := d.year, DaysBeforeMonth(d.year, d.month) - DaysBeforeMonth(d.year, k) + d.day - 1;
    DaysBeforeMonthMonotone(y, d.month, 13);
    if k < d.month {
      DaysBeforeMonthMonotone(y, k, d.month);
      MonthFromAt(d, k + 1);
      assert n - DaysInMonth(y, k) == DaysBeforeMonth(y, d.month) - DaysBeforeMonth(y, k + 1) + d.day - 1;
    }
  }

  /** Counting from 1 January of its own year finds the date again. */
  lemma YearFromOwnYear(d: Date)
    ensures var n := DayNumber(d) - DaysBeforeYear(d.year); n >= 0 && YearFrom(n, d.year) == d
  {
    var n := DayNumber(d) - DaysBeforeYear(d.year);
    DayNumberInYear(d);
    DaysBeforeNextYear(d.year);
    MonthFromAt(d, 1);
    assert n == DaysBeforeMonth(d.year, d.month) + d.day - 1;
    assert n < DaysInYear(d.year);
  }

  /** An earlier year's count of days is the next year's count plus that year's length. */
  lemma YearFromEarlierYear(d: Date, y: int)
    requires y < d.year
    ensures var n := DayNumber(d) - DaysBeforeYear(y);
      n >= DaysInYear(y) && n - DaysInYear(y) == DayNumber(d) - DaysBeforeYear(y + 1)
  {
    DayNumberInYear(d);
    DaysBeforeNextYear(y);
    DaysBeforeYearMonotone(y + 1, d.year);
  }

  lemma {:induction false} YearFromAt(d: Date, y: int)
    requires y <= d.year
    ensures var n := DayNumber(d) - DaysBeforeYear(y); n >= 0 && YearFrom(n, y) == d
    decreases d.year - y
  {
    if y == d.year {
      YearFromOwnYear(d);
    } else {
      YearFromEarlierYear(d, y);
      YearFromAt(d, y + 1);
      var n := DayNumber(d) - DaysBeforeYear(y);
      assert YearFrom(n, y) == YearFrom(n - DaysInYear(y), y + 1);
    }
  }

  /** Every date from year 1 on is found again from its day number. */
  lemma DayNumberRoundTrip(d: Date)
    requires 1 <= d.year
    ensures DayNumber(d) >= 0
    ensures FromDayNumber(DayNumber(d)) == d
  {
    assert DaysBeforeYear(1) == 0;
    YearFromAt(d, 1);
    assert FromDayNumber(DayNumber(d)) == YearFrom(DayNumber(d), 1);
  }

  /** Day numbers order dates as their calendar fields do, year first. */
  lemma DayNumberOrder(a: Date, b: Date)
    ensures DayNumber(a) < DayNumber(b) <==>
      (if a.year != b.year then a.year < b.year
       else if a.month != b.month then a.month < b.month
       else a.day < b.day)
  {
    if a.year < b.year {
      EarlierYearEarlierDay(a, b);
    } else if b.year < a.year {
      EarlierYearEarlierDay(b, a);
    } else if a.month < b.month {
      EarlierMonthEarlierDay(a, b);
    } else if b.month < a.month {
      EarlierMonthEarlierDay(b, a);
    }
  }

  lemma EarlierYearEarlierDay(a: Date, b: Date)
    requires a.year < b.year
    ensures DayNumber(a) < DayNumber(b)
  {
    DayNumberInYear(a);
    DayNumberInYear(b);
    DaysBeforeYearMonotone(a.year + 1, b.year);
  }

  lemma EarlierMonthEarlierDay(a: Date, b: Date)
    requires a.year == b.year && a.month < b.month
    ensures DayNumber(a) < DayNumber(b)
  {
    DaysBeforeMonthMonotone(a.year, a.month, b.month);
  }

  /** Two dates with the same day number are the same date. */
  lemma DayNumberInjective(a: Date, b: Date)
    requires DayNumber(a) == DayNumber(b)
    ensures a == b
  {
    DayNumberOrder(a, b);
    DayNumberOrder(b, a);
  }

  // ---------------------------------------------------------------------------------------
  // Ordering
  // ---------------------------------------------------------------------------------------

  /** Seconds since 0001-01-01 00:00:00; `DateTime` compares its ticks. */
  function Ticks(t: DateTime): int
  {
    DayNumber(t.date) * 86400 + t.hour * 3600 + t.minute * 60 + t.second
  }

  /** `a < b` on `DateTime`. */
  predicate Before(a: DateTime, b: DateTime)
  {
    Ticks(a) < Ticks(b)
  }

  /** Chronological order compared field by field, from the year down to the second. */
  predicate FieldwiseBefore(a: DateTime, b: DateTime)
  {
    if a.date.year != b.date.year then a.date.year < b.date.year
    else if a.date.month != b.date.month then a.date.month < b.date.month
    else if a.date.day != b.date.day then a.date.day < b.date.day
    else if a.hour != b.hour then a.hour < b.hour
    else if a.minute != b.minute then a.minute < b.minute
    else a.second < b.second
  }

  /** Comparing ticks is comparing the calendar fields from the most significant down. */
  lemma BeforeIsFieldwise(a: DateTime, b: DateTime)
    ensures Before(a, b) <==> FieldwiseBefore(a, b)
  {
    DayNumberOrder(a.date, b.date);
    DayNumberOrder(b.date, a.date);
    if DayNumber(a.date) == DayNumber(b.date) {
      DayNumberInjective(a.date, b.date);
    }
  }

  // ---------------------------------------------------------------------------------------
  // Arithmetic
  // ---------------------------------------------------------------------------------------

  /** `t.AddDays(n)`: None where .NET throws because the result leaves years 1 to 9999. */
  function AddDays(t: DateTime, n: int): (r: Option<DateTime>)
    ensures r.Some? <==> 0 <= DayNumber(t.date) + n < MaxDayCount
    ensures r.Some? ==> InRange(r.value.date) && DayNumber(r.value.date) == DayNumber(t.date) + n
    ensures r.Some? ==> r.value.hour == t.hour && r.value.minute == t.minute && r.value.second == t.second
  {
    var k := DayNumber(t.date) + n;
    if 0 <= k < MaxDayCount then Some(t.(date := FromDayNumber(k))) else None
  }

  /** Adding `a` days and then `b` days is adding `a + b` days, when the first step is representable. */
  lemma AddDaysAdditive(t: DateTime, a: int, b: int)
    requires AddDays(t, a).Some?
    ensures AddDays(AddDays(t, a).value, b) == AddDays(t, a + b)
  {
    var t1 := AddDays(t, a).value;
    if AddDays(t, a + b).Some? {
      var u, v := AddDays(t1, b).value, AddDays(t, a + b).value;
      DayNumberInjective(u.date, v.date);
    }
  }

  /** The day after `d`, stepping the day, then the month, then the year. */
  function NextDay(d: Date): (r: Date)
    ensures DayNumber(r) == DayNumber(d) + 1
  {
    if d.day < DaysInMonth(d.year, d.month) then d.(day := d.day + 1)
    else if d.month < 12 then CivilDate(d.year, d.month + 1, 1)
    else
      DaysBeforeNextYear(d.year);
      CivilDate(d.year + 1, 1, 1)
  }

  /** `AddDays(1)` is the next calendar day at the same time, unless that day is past 9999-12-31. */
  lemma AddOneDay(t: DateTime)
    requires InRange(t.date)
    ensures AddDays(t, 1) == if NextDay(t.date).year <= 9999 then Some(t.(date := NextDay(t.date))) else None
  {
    var next := NextDay(t.date);
    DayNumberNonNegative(t.date);
    BelowMaxIffInRange(next);
    if next.year <= 9999 {
      var r := AddDays(t, 1).value;
      DayNumberInjective(r.date, next);
    }
  }

  /** From year 1 on, a day number is below `MaxDayCount` exactly when the year is at most 9999. */
  lemma BelowMaxIffInRange(d: Date)
    requires 1 <= d.year
    ensures DayNumber(d) < MaxDayCount <==> d.year <= 9999
  {
    DayNumberInYear(d);
    if d.year <= 9999 {
      DaysBeforeYearMonotone(d.year + 1, 10000);
    } else {
      DaysBeforeYearMonotone(10000, d.year);
    }
  }

  /** `AddDays(0)` returns the same moment for every representable date. */
  lemma AddZeroDays(t: DateTime)
    requires InRange(t.date)
    ensures AddDays(t, 0) == Some(t)
  {
    DayNumberRoundTrip(t.date);
    DaysBeforeYearMonotone(t.date.year + 1, 10000);
    DayNumberInYear(t.date);
    assert DayNumber(t.date) < MaxDayCount;
  }

  /** Advancing by a positive number of days moves strictly later. */
  lemma AddDaysMovesForward(t: DateTime, n: int)
    requires n > 0 && AddDays(t, n).Some?
    ensures Before(t, AddDays(t, n).value)
  {
  }

  /**
   * `t.AddYears(k)`: the same month, day and time in year `t.Year + k`, where 29 February becomes
   * 28 February when the target year is not a leap year. (.NET also throws when the target year
   * leaves 1 to 9999; the one caller, `GetAge`, always targets a representable year.)
   */
  function AddYears(t: DateTime, k: int): (r: DateTime)
    ensures r.date.year == t.date.year + k && r.date.month == t.date.month
    ensures r.hour == t.hour && r.minute == t.minute && r.second == t.second
    ensures r.date.day == t.date.day || (t.date.month == 2 && t.date.day == 29 && r.date.day == 28 && !IsLeapYear(r.date.year))
  {
    var y := t.date.year + k;
    var day := if t.date.month == 2 && t.date.day == 29 && !IsLeapYear(y) then 28 else t.date.day;
    t.(date := CivilDate(y, t.date.month, day))
  }
}
