/** Instants as .NET `DateTime` ticks: 100-nanosecond units counted from
    0001-01-01 00:00:00 in the proleptic Gregorian calendar. The module gives the
    calendar arithmetic the scheduler relies on (`AddDays`, `AddMonths`) and the
    rendering of an instant inside job comments. */
module Calendar {
  import opened Wrappers

  const TicksPerMillisecond: int := 10_000
  const TicksPerSecond: int := 10_000_000
  const TicksPerMinute: int := 600_000_000
  const TicksPerHour: int := 36_000_000_000
  const TicksPerDay: int := 864_000_000_000
  const MillisPerDay: int := 86_400_000

  /** Days from 0001-01-01 up to 10000-01-01 (the end of `DateTime`'s range). */
  const DaysTo10000: int := 3_652_059
  /** Ticks of 9999-12-31 23:59:59.9999999. */
  const MaxTicks: int := 3_155_378_975_999_999_999
  /** Bound on the milliseconds `DateTime.Add` accepts. */
  const MaxMillis: int := 315_537_897_600_000

  /** An instant; `DateTime`'s own range. */
  type DateTime = t: int | 0 <= t <= MaxTicks

  /** `DateTime.MinValue`, which is also `default(DateTime)`. */
  const MinValue: DateTime := 0
  /** `DateTime.MaxValue`. */
  const MaxValue: DateTime := MaxTicks

  datatype Date = Date(year: int, month: int, day: int)

  function Min(a: int, b: int): int { if a <= b then a else b }

  // ---------------------------------------------------------------------------
  // The Gregorian calendar

  predicate IsLeapYear(year: int) {
    year % 4 == 0 && (year % 100 != 0 || year % 400 == 0)
  }

  function DaysInYear(year: int): int {
    if IsLeapYear(year) then 366 else 365
  }

  function DaysInMonth(year: int, month: int): (n: int)
    requires 1 <= month <= 12
    ensures 28 <= n <= 31
  {
    if month == 2 then (if IsLeapYear(year) then 29 else 28)
    else if month == 4 || month == 6 || month == 9 || month == 11 then 30
    else 31
  }

  predicate ValidDate(d: Date) {
    1 <= d.year <= 9999 && 1 <= d.month <= 12 && 1 <= d.day <= DaysInMonth(d.year, d.month)
  }

  /** Days from 0001-01-01 to the first day of `year`. */
  function DaysBeforeYear(year: int): int
    requires 1 <= year
  {
    var p := year - 1;
    p * 365 + p / 4 - p / 100 + p / 400
  }

  /** Days from the first day of `year` to the first day of `month`
      (`month == 13` gives the length of the year). */
  function DaysBeforeMonth(year: int, month: int): int
    requires 1 <= month <= 13
  {
    var cumulative := [0, 31, 59, 90, 120, 151, 181, 212, 243, 273, 304, 334, 365];
    cumulative[month - 1] + (if month > 2 && IsLeapYear(year) then 1 else 0)
  }

  /** Days from 0001-01-01 to `d`. */
  function DayNumber(d: Date): int
    requires ValidDate(d)
  {
    DaysBeforeYear(d.year) + DaysBeforeMonth(d.year, d.month) + d.day - 1
  }

  lemma DaysBeforeMonthStep(year: int, month: int)
    requires 1 <= month <= 12
    ensures DaysBeforeMonth(year, month + 1) == DaysBeforeMonth(year, month) + DaysInMonth(year, month)
  {
  }

  lemma {:induction false} DaysBeforeMonthMonotone(year: int, a: int, b: int)
    requires 1 <= a <= b <= 13
    ensures DaysBeforeMonth(year, a) <= DaysBeforeMonth(year, b)
    decreases b - a
  {
    if a < b {
      DaysBeforeMonthStep(year, a);
      DaysBeforeMonthMonotone(year, a + 1, b);
    }
  }

  lemma QuotientStep4(p: int)
    ensures (p + 1) / 4 == p / 4 + (if (p + 1) % 4 == 0 then 1 else 0)
  {
  }

  lemma QuotientStep100(p: int)
    ensures (p + 1) / 100 == p / 100 + (if (p + 1) % 100 == 0 then 1 else 0)
  {
  }

  lemma QuotientStep400(p: int)
    ensures (p + 1) / 400 == p / 400 + (if (p + 1) % 400 == 0 then 1 else 0)
  {
  }

  /** Every multiple of 400 is one of 100, and every multiple of 100 one of 4. */
  lemma CenturyDivisors(year: int)
    ensures year % 400 == 0 ==> year % 100 == 0
    ensures year % 100 == 0 ==> year % 4 == 0
  {
    if year % 400 == 0 {
      var k := year / 400;
      assert year == 100 * (4 * k);
    }
    if year % 100 == 0 {
      var k := year / 100;
      assert year == 4 * (25 * k);
    }
  }

  lemma DaysBeforeYearDifference(year: int)
    requires 1 <= year
    ensures var p := year - 1;
      DaysBeforeYear(year + 1) - DaysBeforeYear(year) == 365 + (year / 4 - p / 4) - (year / 100 - p / 100) + (year / 400 - p / 400)
  {
  }

  lemma DaysBeforeYearStep(year: int)
    requires 1 <= year
    ensures DaysBeforeYear(year + 1) == DaysBeforeYear(year) + DaysInYear(year)
  {
    var p := year - 1;
    QuotientStep4(p);
    QuotientStep100(p);
    QuotientStep400(p);
    DaysBeforeYearDifference(year);
    CenturyDivisors(year);
  }

  lemma {:induction false} DaysBeforeYearGrows(a: int, b: int)
    requires 1 <= a <= b
    ensures DaysBeforeYear(a) + 365 * (b - a) <= DaysBeforeYear(b)
    decreases b - a
  {
    if a < b {
      DaysBeforeYearStep(a);
      DaysBeforeYearGrows(a + 1, b);
    }
  }

  lemma DaysTo10000IsEndOfYear9999()
    ensures DaysBeforeYear(10000) == DaysTo10000
    ensures MaxTicks == DaysTo10000 * TicksPerDay - 1
    ensures MaxMillis == DaysTo10000 * MillisPerDay
  {
  }

  // ---------------------------------------------------------------------------
  // From a day number back to a date

  /** The year holding day `n` of the years starting at `year`, and the day's
      offset within that year. */
  function YearFrom(n: int, year: int): (int, int)
    requires 0 <= n && 1 <= year
    decreases n
  {
    if n < DaysInYear(year) then (year, n) else YearFrom(n - DaysInYear(year), year + 1)
  }

  /** The last month among 1..`month` that starts on or before day `k` of `year`. */
  function MonthFrom(year: int, k: int, month: int): int
    requires 1 <= month <= 12
    decreases month
  {
    if month == 1 || DaysBeforeMonth(year, month) <= k then month else MonthFrom(year, k, month - 1)
  }

  /** The calendar date of day number `n`. */
  function DateOfDay(n: int): Date
    requires 0 <= n < DaysTo10000
  {
    var (y, k) := YearFrom(n, 1);
    var m := MonthFrom(y, k, 12);
    Date(y, m, k - DaysBeforeMonth(y, m) + 1)
  }

  lemma {:induction false} YearFromSound(n: int, year: int)
    requires 0 <= n && 1 <= year
    ensures var (y, k) := YearFrom(n, year);
      year <= y && 0 <= k < DaysInYear(y) && DaysBeforeYear(y) + k == DaysBeforeYear(year) + n
    decreases n
  {
    if n >= DaysInYear(year) {
      DaysBeforeYearStep(year);
      YearFromSound(n - DaysInYear(year), year + 1);
    }
  }

  lemma {:induction false} YearFromOf(year: int, y: int, k: int)
    requires 1 <= year <= y && 0 <= k < DaysInYear(y)
    ensures DaysBeforeYear(year) <= DaysBeforeYear(y)
    ensures YearFrom(DaysBeforeYear(y) - DaysBeforeYear(year) + k, year) == (y, k)
    decreases y - year
  {
    DaysBeforeYearGrows(year, y);
    if year < y {
      DaysBeforeYearStep(year);
      YearFromOf(year + 1, y, k);
    }
  }

  lemma {:induction false} MonthFromSound(year: int, k: int, month: int)
    requires 1 <= month <= 12 && 0 <= k < DaysBeforeMonth(year, month + 1)
    ensures var m := MonthFrom(year, k, month);
      1 <= m <= month && DaysBeforeMonth(year, m) <= k < DaysBeforeMonth(year, m + 1)
    decreases month
  {
    if month > 1 && k < DaysBeforeMonth(year, month) {
      MonthFromSound(year, k, month - 1);
    }
  }

  lemma {:induction false} MonthFromOf(year: int, m: int, k: int, month: int)
    requires 1 <= m <= month <= 12
    requires DaysBeforeMonth(year, m) <= k < DaysBeforeMonth(year, m + 1)
    ensures MonthFrom(year, k, month) == m
    decreases month
  {
    if m < month {
      DaysBeforeMonthMonotone(year, m + 1, month);
      MonthFromOf(year, m, k, month - 1);
    }
  }

  /** Every day number in range names a valid date, and that date's day number is `n`. */
  lemma DateOfDaySound(n: int)
    requires 0 <= n < DaysTo10000
    ensures ValidDate(DateOfDay(n)) && DayNumber(DateOfDay(n)) == n
  {
    YearFromSound(n, 1);
    var (y, k) := YearFrom(n, 1);
    if y >= 10000 {
      DaysBeforeYearGrows(10000, y);
      assert false;
    }
    DaysBeforeMonthStep(y, 12);
    MonthFromSound(y, k, 12);
    var m := MonthFrom(y, k, 12);
    DaysBeforeMonthStep(y, m);
  }

  /** Every valid date has a day number in range, and decoding it gives the date back. */
  lemma DayNumberRoundTrip(d: Date)
    requires ValidDate(d)
    ensures 0 <= DayNumber(d) < DaysTo10000
    ensures DateOfDay(DayNumber(d)) == d
  {
    var k := DaysBeforeMonth(d.year, d.month) + d.day - 1;
    DaysBeforeMonthStep(d.year, d.month);
    DaysBeforeMonthMonotone(d.year, d.month + 1, 13);
    DaysBeforeMonthStep(d.year, 12);
    YearFromOf(1, d.year, k);
    DaysBeforeYearStep(d.year);
    DaysBeforeYearGrows(d.year + 1, 10000);
    MonthFromOf(d.year, d.month, k, 12);
  }

  // ---------------------------------------------------------------------------
  // Instants

  function DatePart(t: DateTime): (d: Date)
    ensures ValidDate(d) && DayNumber(d) == t / TicksPerDay
  {
    DateOfDaySound(t / TicksPerDay);
    DateOfDay(t / TicksPerDay)
  }

  function TimeOfDay(t: DateTime): int {
    t % TicksPerDay
  }

  /** Inverse of (`DatePart`, `TimeOfDay`). */
  function FromDateAndTime(d: Date, timeOfDay: int): (t: DateTime)
    requires ValidDate(d) && 0 <= timeOfDay < TicksPerDay
    ensures DatePart(t) == d && TimeOfDay(t) == timeOfDay
  {
    DayNumberRoundTrip(d);
    var t := DayNumber(d) * TicksPerDay + timeOfDay;
    assert t / TicksPerDay == DayNumber(d);
    t
  }

  function AddTicks(t: DateTime, value: int): Option<DateTime> {
    if 0 <= t + value <= MaxTicks then Some(t + value) else None
  }

  /** `DateTime.AddDays` for a whole number of days. `None` stands for the
      ArgumentOutOfRangeException raised when the result leaves the range. */
  function AddDays(t: DateTime, days: int): (r: Option<DateTime>)
    ensures r.Some? <==> 0 <= t + days * TicksPerDay <= MaxTicks
    ensures r.Some? ==> r.value == t + days * TicksPerDay
    ensures r.Some? ==> TimeOfDay(r.value) == TimeOfDay(t)
    ensures r.Some? ==> DayNumber(DatePart(r.value)) == DayNumber(DatePart(t)) + days
  {
    var millis := days * MillisPerDay;
    if millis <= -MaxMillis || millis >= MaxMillis then None
    else AddTicks(t, millis * TicksPerMillisecond)
  }

  /** C#'s `/` on `int`: the quotient truncated toward zero. */
  function TruncatedDiv(a: int, b: int): int
    requires b > 0
  {
    if a >= 0 then a / b else -((-a) / b)
  }

  /** C#'s `%` on `int`: the remainder takes the sign of the dividend. */
  function TruncatedRem(a: int, b: int): int
    requires b > 0
  {
    a - b * TruncatedDiv(a, b)
  }

  /** The year and month `months` after the month of `d` (`DateTime.AddMonths`'s
      month arithmetic, including its handling of negative counts). */
  function ShiftMonth(d: Date, months: int): (int, int) {
    var i := d.month - 1 + months;
    if i >= 0 then (d.year + TruncatedDiv(i, 12), TruncatedRem(i, 12) + 1)
    else (d.year + TruncatedDiv(i - 11, 12), 12 + TruncatedRem(i + 1, 12))
  }

  /** `DateTime.AddMonths`: the date moves by whole months, the day of month is
      clamped to the target month's length and the time of day is kept. `None`
      stands for the ArgumentOutOfRangeException raised for a month count outside
      +-120000 or a resulting year outside 1..9999. */
  function AddMonths(t: DateTime, months: int): Option<DateTime> {
    if months < -120000 || months > 120000 then None
    else
      var d := DatePart(t);
      var (y, m) := ShiftMonth(d, months);
      if y < 1 || y > 9999 || m < 1 || m > 12 then None
      else
        assert 0 <= TimeOfDay(t) < TicksPerDay;
        Some(FromDateAndTime(Date(y, m, Min(d.day, DaysInMonth(y, m))), TimeOfDay(t)))
  }

  /** The month that follows the month of `d`, carrying into the next year. */
  function NextMonth(d: Date): (int, int) {
    if d.month == 12 then (d.year + 1, 1) else (d.year, d.month + 1)
  }

  /** The first day of the month after `d` comes after `d`, and every day of that
      month does too. */
  lemma NextMonthIsLater(d: Date, target: Date)
    requires ValidDate(d) && ValidDate(target)
    requires (target.year, target.month) == NextMonth(d)
    ensures DayNumber(d) < DayNumber(target)
  {
    DaysBeforeMonthStep(d.year, d.month);
    if d.month == 12 {
      DaysBeforeYearStep(d.year);
    }
  }

  lemma LaterDayLaterInstant(a: DateTime, b: DateTime)
    requires a / TicksPerDay < b / TicksPerDay
    ensures a < b
  {
  }

  /** Adding one month moves to the next calendar month (with year carry), keeps
      the time of day, clamps the day to the target month's length, lands strictly
      later, and fails only when the target year is past 9999. */
  lemma AddOneMonth(t: DateTime)
    ensures var d := DatePart(t); var (y, m) := NextMonth(d);
      && (AddMonths(t, 1).Some? <==> y <= 9999)
      && (AddMonths(t, 1).Some? ==>
            var r := AddMonths(t, 1).value;
            && DatePart(r) == Date(y, m, Min(d.day, DaysInMonth(y, m)))
            && TimeOfDay(r) == TimeOfDay(t)
            && t < r)
  {
    var d := DatePart(t);
    var (y, m) := NextMonth(d);
    assert ShiftMonth(d, 1) == (y, m);
    if y <= 9999 {
      var target := Date(y, m, Min(d.day, DaysInMonth(y, m)));
      var r := FromDateAndTime(target, TimeOfDay(t));
      assert AddMonths(t, 1) == Some(r);
      NextMonthIsLater(d, target);
      LaterDayLaterInstant(t, r);
    }
  }

  // ---------------------------------------------------------------------------
  // Rendering (the en-US general pattern "M/d/yyyy h:mm:ss tt")

  function DigitChar(n: int): char
    requires 0 <= n <= 9
  {
    "0123456789"[n]
  }

  /** Decimal digits of `n`, without leading zeros. */
  function Decimal(n: nat): string
    decreases n
  {
    if n < 10 then [DigitChar(n)] else Decimal(n / 10) + [DigitChar(n % 10)]
  }

  /** `s` left-padded with zeros to at least `width` characters. */
  function ZeroPadded(s: string, width: nat): string
    decreases width - |s|
  {
    if |s| >= width then s else ZeroPadded("0" + s, width)
  }

  function FormatDateTime(t: DateTime): string {
    var d := DatePart(t);
    var tod := TimeOfDay(t);
    var hour := tod / TicksPerHour;
    var minute := tod / TicksPerMinute % 60;
    var second := tod / TicksPerSecond % 60;
    var hour12 := if hour % 12 == 0 then 12 else hour % 12;
    Decimal(d.month) + "/" + Decimal(d.day) + "/" + ZeroPadded(Decimal(d.year), 4) + " "
      + Decimal(hour12) + ":" + ZeroPadded(Decimal(minute), 2) + ":" + ZeroPadded(Decimal(second), 2)
      + (if hour < 12 then " AM" else " PM")
  }
}
