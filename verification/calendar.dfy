/**
 * The proleptic Gregorian calendar on integer day numbers (days since
 * 1970-01-01), and local-time instants as integer milliseconds.
 *
 * Every calendar fact the date helpers rely on -- leap years, month lengths,
 * weekdays, adding days across month and year ends -- follows from the
 * bijection between valid civil dates and day numbers proved here.
 */
module Calendar {

  const MsPerDay: int := 86400000

  predicate IsLeapYear(year: int) {
    (year % 4 == 0 && year % 100 != 0) || year % 400 == 0
  }

  function DaysInYear(year: int): int {
    if IsLeapYear(year) then 366 else 365
  }

  function DaysInMonth(year: int, month: int): int
    requires 1 <= month <= 12
  {
    if month == 2 then (if IsLeapYear(year) then 29 else 28)
    else if month == 4 || month == 6 || month == 9 || month == 11 then 30
    else 31
  }

  /** Days of a common year before the first of `month`; month 13 stands for the whole year. */
  function CommonDaysBefore(month: int): int
    requires 1 <= month <= 13
  {
    if month <= 6 then
      (if month == 1 then 0 else if month == 2 then 31 else if month == 3 then 59
       else if month == 4 then 90 else if month == 5 then 120 else 151)
    else
      (if month == 7 then 181 else if month == 8 then 212 else if month == 9 then 243
       else if month == 10 then 273 else if month == 11 then 304 else if month == 12 then 334 else 365)
  }

  /** Days of `year` before the first of `month`; month 13 stands for the next new year. */
  function DaysBeforeMonth(year: int, month: int): int
    requires 1 <= month <= 13
  {
    CommonDaysBefore(month) + (if month > 2 && IsLeapYear(year) then 1 else 0)
  }

  /** Leap years among the years 1 .. year - 1 (counted negatively below year 1). */
  function LeapYearsBefore(year: int): int {
    (year - 1) / 4 - (year - 1) / 100 + (year - 1) / 400
  }

  /** The day number of January 1st of `year`. */
  function DaysBeforeYear(year: int): int {
    365 * (year - 1970) + LeapYearsBefore(year) - LeapYearsBefore(1970)
  }

  /** `y` starts a new multiple of `k` exactly when `k` divides it. */
  lemma MultipleStep(y: int, k: int)
    requires k == 4 || k == 100 || k == 400
    ensures y / k - (y - 1) / k == (if y % k == 0 then 1 else 0)
  {
    if k == 4 {
    } else if k == 100 {
    } else {
    }
  }

  /** A multiple of 400 is a multiple of 100, and a multiple of 100 is a multiple of 4. */
  lemma DivisorsChain(y: int)
    ensures y % 400 == 0 ==> y % 100 == 0
    ensures y % 100 == 0 ==> y % 4 == 0
  {
    MultipleOfMultiple(y, 100, 4);
    MultipleOfMultiple(y, 4, 25);
  }

  /** A multiple of `k * m` leaves no remainder modulo `k`. */
  lemma MultipleOfMultiple(y: int, k: int, m: int)
    requires (k == 100 && m == 4) || (k == 4 && m == 25)
    ensures y % (k * m) == 0 ==> y % k == 0
  {
    if y % (k * m) == 0 {
      var a := y / (k * m);
      var b := y / k;
      var r := y % k;
      assert y == k * m * a;
      assert y == k * b + r && 0 <= r < k;
      assert r == k * (m * a - b);
    }
  }

  /** Moving to the next year adds one leap year exactly when `year` is a leap year. */
  lemma LeapYearStep(year: int)
    ensures LeapYearsBefore(year + 1) == LeapYearsBefore(year) + (if IsLeapYear(year) then 1 else 0)
  {
    MultipleStep(year, 4);
    MultipleStep(year, 100);
    MultipleStep(year, 400);
    DivisorsChain(year);
  }

  lemma {:induction false} NextYearStart(year: int)
    ensures DaysBeforeYear(year + 1) == DaysBeforeYear(year) + DaysInYear(year)
  {
    LeapYearStep(year);
  }

  lemma NextMonthStart(year: int, month: int)
    requires 1 <= month <= 12
    ensures DaysBeforeMonth(year, month + 1) == DaysBeforeMonth(year, month) + DaysInMonth(year, month)
    ensures DaysBeforeMonth(year, 1) == 0 && DaysBeforeMonth(year, 13) == DaysInYear(year)
  {
  }

  /** Each year has at least 365 days, so later years start at least that much later. */
  lemma {:induction false} YearStartsGrow(a: int, b: int)
    requires a <= b
    ensures DaysBeforeYear(a) + 365 * (b - a) <= DaysBeforeYear(b)
    decreases b - a
  {
    if a < b {
      YearStartsGrow(a, b - 1);
      NextYearStart(b - 1);
    }
  }

  lemma MonthStartsGrow(year: int, a: int, b: int)
    requires 1 <= a <= b <= 13
    ensures DaysBeforeMonth(year, a) + 28 * (b - a) <= DaysBeforeMonth(year, b)
  {
  }

  datatype Date = Date(year: int, month: int, day: int)

  predicate ValidDate(d: Date) {
    1 <= d.month <= 12 && 1 <= d.day <= DaysInMonth(d.year, d.month)
  }

  /**
   * The day number of year/month/day. Months outside 1..12 and days outside the
   * month roll over into neighbouring months and years, as JavaScript's
   * `new Date(year, month - 1, day)` does.
   */
  function DayNumber(d: Date): (n: int)
    ensures ValidDate(d) ==> n == DaysBeforeYear(d.year) + DaysBeforeMonth(d.year, d.month) + d.day - 1
  {
    if 1 <= d.month <= 12 then DaysBeforeYear(d.year) + DaysBeforeMonth(d.year, d.month) + d.day - 1
    else
      var year := d.year + (d.month - 1) / 12;
      var month := (d.month - 1) % 12 + 1;
      DaysBeforeYear(year) + DaysBeforeMonth(year, month) + d.day - 1
  }

  /** Searches from `year` towards the year that contains day `n`. */
  function FindYear(n: int, year: int): (y: int)
    ensures DaysBeforeYear(y) <= n < DaysBeforeYear(y + 1)
    decreases if n < DaysBeforeYear(year) then 1 else 0,
              if n < DaysBeforeYear(year) then DaysBeforeYear(year) - n else n - DaysBeforeYear(year)
  {
    NextYearStart(year);
    NextYearStart(year - 1);
    if n < DaysBeforeYear(year) then FindYear(n, year - 1)
    else if n >= DaysBeforeYear(year + 1) then FindYear(n, year + 1)
    else year
  }

  /** Searches from `month` for the month of `year` holding the `dayOfYear`-th day (counted from 0). */
  function FindMonth(year: int, dayOfYear: int, month: int): (m: int)
    requires 1 <= month <= 12
    requires DaysBeforeMonth(year, month) <= dayOfYear < DaysInYear(year)
    ensures 1 <= m <= 12
    ensures DaysBeforeMonth(year, m) <= dayOfYear < DaysBeforeMonth(year, m + 1)
    decreases 12 - month
  {
    if dayOfYear < DaysBeforeMonth(year, month + 1) then month
    else FindMonth(year, dayOfYear, month + 1)
  }

  /** The calendar date of day number `n`. */
  function FromDayNumber(n: int): (d: Date)
    ensures ValidDate(d)
    ensures DayNumber(d) == n
  {
    var year := FindYear(n, 1970);
    var dayOfYear := n - DaysBeforeYear(year);
    NextYearStart(year);
    var month := FindMonth(year, dayOfYear, 1);
    NextMonthStart(year, month);
    Date(year, month, dayOfYear - DaysBeforeMonth(year, month) + 1)
  }

  /** Only one year contains a given day. */
  lemma YearIsUnique(n: int, y: int, z: int)
    requires DaysBeforeYear(y) <= n < DaysBeforeYear(y + 1)
    requires DaysBeforeYear(z) <= n < DaysBeforeYear(z + 1)
    ensures y == z
  {
    if y < z {
      YearStartsGrow(y + 1, z);
    } else if z < y {
      YearStartsGrow(z + 1, y);
    }
  }

  /** Day numbers and valid dates are in one-to-one correspondence. */
  lemma DateRoundTrip(d: Date)
    requires ValidDate(d)
    ensures FromDayNumber(DayNumber(d)) == d
  {
    SameNumberSameDate(d, FromDayNumber(DayNumber(d)));
  }

  /** Two valid dates with one day number are one date. */
  lemma SameNumberSameDate(d: Date, e: Date)
    requires ValidDate(d) && ValidDate(e) && DayNumber(d) == DayNumber(e)
    ensures d == e
  {
    var n := DayNumber(d);
    YearOfValid(d);
    YearOfValid(e);
    YearIsUnique(n, d.year, e.year);
    MonthOfValid(d);
    MonthOfValid(e);
    MonthIsUnique(d.year, n - DaysBeforeYear(d.year), d.month, e.month);
  }

  /** A valid date's day number lies in its year. */
  lemma YearOfValid(d: Date)
    requires ValidDate(d)
    ensures DaysBeforeYear(d.year) <= DayNumber(d) < DaysBeforeYear(d.year + 1)
  {
    NextYearStart(d.year);
    NextMonthStart(d.year, d.month);
    MonthStartsGrow(d.year, d.month + 1, 13);
  }

  /** A valid date's day of the year lies in its month. */
  lemma MonthOfValid(d: Date)
    requires ValidDate(d)
    ensures DaysBeforeMonth(d.year, d.month) <= DayNumber(d) - DaysBeforeYear(d.year) < DaysBeforeMonth(d.year, d.month + 1)
  {
    NextMonthStart(d.year, d.month);
  }

  /** Only one month of a year contains a given day of the year. */
  lemma MonthIsUnique(year: int, k: int, a: int, b: int)
    requires 1 <= a <= 12 && 1 <= b <= 12
    requires DaysBeforeMonth(year, a) <= k < DaysBeforeMonth(year, a + 1)
    requires DaysBeforeMonth(year, b) <= k < DaysBeforeMonth(year, b + 1)
    ensures a == b
  {
    if a < b {
      MonthStartsGrow(year, a + 1, b);
    } else if b < a {
      MonthStartsGrow(year, b + 1, a);
    }
  }

  lemma DayNumberInjective(d: Date, e: Date)
    requires ValidDate(d) && ValidDate(e)
    ensures DayNumber(d) == DayNumber(e) <==> d == e
  {
    if DayNumber(d) == DayNumber(e) {
      SameNumberSameDate(d, e);
    }
  }

  /** The next calendar day, by the calendar's own rules. */
  function NextDay(d: Date): (e: Date)
    requires ValidDate(d)
    ensures ValidDate(e)
  {
    if d.day < DaysInMonth(d.year, d.month) then Date(d.year, d.month, d.day + 1)
    else if d.month < 12 then Date(d.year, d.month + 1, 1)
    else Date(d.year + 1, 1, 1)
  }

  /** `n` days after `d`. */
  function AddDays(d: Date, n: int): Date {
    FromDayNumber(DayNumber(d) + n)
  }

  /** One day later is the next calendar day, across month ends, year ends and February 29th. */
  lemma AddOneDayIsNextDay(d: Date)
    requires ValidDate(d)
    ensures AddDays(d, 1) == NextDay(d)
  {
    NextDayNumber(d);
    DateRoundTrip(NextDay(d));
  }

  /** The next calendar day has the next day number. */
  lemma NextDayNumber(d: Date)
    requires ValidDate(d)
    ensures DayNumber(NextDay(d)) == DayNumber(d) + 1
  {
    if d.day < DaysInMonth(d.year, d.month) {
      NextDayInMonth(d);
    } else if d.month < 12 {
      NextMonthNumber(d.year, d.month);
    } else {
      NewYearNumber(d.year);
    }
  }

  lemma NextDayInMonth(d: Date)
    requires ValidDate(d) && d.day < DaysInMonth(d.year, d.month)
    ensures DayNumber(Date(d.year, d.month, d.day + 1)) == DayNumber(d) + 1
  {
    assert ValidDate(Date(d.year, d.month, d.day + 1));
  }

  /** The first of a month follows the last day of the month before it. */
  lemma NextMonthNumber(year: int, month: int)
    requires 1 <= month < 12
    ensures DayNumber(Date(year, month + 1, 1)) == DayNumber(Date(year, month, DaysInMonth(year, month))) + 1
  {
    NextMonthStart(year, month);
    assert ValidDate(Date(year, month + 1, 1));
    assert ValidDate(Date(year, month, DaysInMonth(year, month)));
  }

  /** January 1st follows December 31st. */
  lemma NewYearNumber(year: int)
    ensures DayNumber(Date(year + 1, 1, 1)) == DayNumber(Date(year, 12, 31)) + 1
  {
    NextYearStart(year);
    NextMonthStart(year, 12);
  }

  lemma AddDaysZero(d: Date)
    requires ValidDate(d)
    ensures AddDays(d, 0) == d
  {
    DateRoundTrip(d);
  }

  lemma AddDaysCompose(d: Date, a: int, b: int)
    ensures AddDays(AddDays(d, a), b) == AddDays(d, a + b)
  {
  }

  /** Adding `n >= 0` days is taking the next day `n` times. */
  function NextDays(d: Date, n: nat): (e: Date)
    requires ValidDate(d)
    ensures ValidDate(e)
  {
    if n == 0 then d else NextDay(NextDays(d, n - 1))
  }

  lemma {:induction false} AddDaysIsRepeatedNextDay(d: Date, n: nat)
    requires ValidDate(d)
    ensures AddDays(d, n) == NextDays(d, n)
  {
    NextDaysNumber(d, n);
    DateRoundTrip(NextDays(d, n));
  }

  /** Each next day adds one to the day number. */
  lemma {:induction false} NextDaysNumber(d: Date, n: nat)
    requires ValidDate(d)
    ensures DayNumber(NextDays(d, n)) == DayNumber(d) + n
  {
    if n > 0 {
      var p := NextDays(d, n - 1);
      NextDaysNumber(d, n - 1);
      NextDayNumber(p);
      assert NextDays(d, n) == NextDay(p);
    }
  }

  /** Day of the week of day number `n`, Sunday being 0; day 0 (1970-01-01) was a Thursday. */
  function Weekday(n: int): (w: int)
    ensures 0 <= w < 7
  {
    (n + 4) % 7
  }

  /** Weekdays follow each other in a seven-day cycle. */
  lemma WeekdayCycle(n: int)
    ensures Weekday(n + 1) == (Weekday(n) + 1) % 7
    ensures Weekday(n + 7) == Weekday(n)
  {
  }

  /** The calendar day of a local instant (milliseconds). */
  function DayOf(t: int): int {
    t / MsPerDay
  }

  /** The local midnight that starts day `n`. */
  function MidnightOf(n: int): int {
    n * MsPerDay
  }

  lemma InstantDay(t: int)
    ensures MidnightOf(DayOf(t)) <= t < MidnightOf(DayOf(t) + 1)
  {
  }

  lemma DayOfMidnight(n: int)
    ensures DayOf(MidnightOf(n)) == n
  {
    InstantDay(MidnightOf(n));
  }

  /** Moving an instant by whole days moves its calendar day by as many days. */
  lemma DayOfShift(t: int, n: int)
    ensures DayOf(t + n * MsPerDay) == DayOf(t) + n
  {
  }

  /** Comparing a midnight with an instant compares their calendar days. */
  lemma MidnightOrder(n: int, t: int)
    ensures MidnightOf(n) >= t ==> n >= DayOf(t)
    ensures MidnightOf(n) < t ==> n <= DayOf(t)
  {
    InstantDay(t);
  }
}
