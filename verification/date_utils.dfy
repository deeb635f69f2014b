/**
 * The date helpers of src/utils/dateUtils.js on top of dayjs: server strings
 * `YYYY-MM-DD`, human strings `ddd MMM D, YYYY`, adding days, and the
 * month-offset test.
 *
 * dayjs reads a `YYYY-MM-DD` string as local midnight through
 * `new Date(year, month - 1, day)`, so out-of-range months and days roll over
 * and years 0..99 are read as 1900..1999. Other non-empty strings are modelled
 * as the invalid date.
 */
module DateUtils {
  import opened Wrappers
  import opened Decimal
  import opened Calendar
  import opened JsValues

  const InvalidDateText: string := "Invalid Date"

  const WeekdayShortNames: seq<string> := ["Sun", "Mon", "Tue", "Wed", "Thu", "Fri", "Sat"]

  const MonthShortNames: seq<string> :=
    ["Jan", "Feb", "Mar", "Apr", "May", "Jun", "Jul", "Aug", "Sep", "Oct", "Nov", "Dec"]

  /** dayjs `YYYY`: `String(year)` padded with zeros to four characters. */
  function YearText(year: int): string {
    PadStart(IntToString(year), 4, '0')
  }

  /** dayjs `MM` and `DD`. */
  function TwoDigitText(n: nat): string {
    PadStart(NatToString(n), 2, '0')
  }

  /** The server format `YYYY-MM-DD` of a calendar date. */
  function ServerDateText(d: Date): string
    requires ValidDate(d)
  {
    YearText(d.year) + "-" + TwoDigitText(d.month) + "-" + TwoDigitText(d.day)
  }

  /** The human format `ddd MMM D, YYYY` of a calendar date. */
  function HumanDateText(d: Date): string
    requires ValidDate(d)
  {
    WeekdayShortNames[Weekday(DayNumber(d))] + " " + MonthShortNames[d.month - 1] + " "
      + NatToString(d.day) + ", " + YearText(d.year)
  }

  /** `dayjs(d).format('YYYY-MM-DD')`. */
  function FormatServer(d: JsDate): string {
    match d
    case InvalidDate => InvalidDateText
    case DateAt(t) => ServerDateText(FromDayNumber(DayOf(t)))
  }

  /** `dayjs(d).format('ddd MMM D, YYYY')`. */
  function FormatHuman(d: JsDate): string {
    match d
    case InvalidDate => InvalidDateText
    case DateAt(t) => HumanDateText(FromDayNumber(DayOf(t)))
  }

  /** Four digits, '-', two digits, '-', two digits. */
  predicate IsServerDateShape(s: string) {
    && |s| == 10
    && AllDigits(s[..4]) && s[4] == '-'
    && AllDigits(s[5..7]) && s[7] == '-'
    && AllDigits(s[8..])
  }

  /** The year, month and day digits of a server string, as written. */
  function ServerDateFields(s: string): Date
    requires IsServerDateShape(s)
  {
    Date(DigitsValue(s[..4]), DigitsValue(s[5..7]), DigitsValue(s[8..]))
  }

  /** The JavaScript `Date` constructor reads years 0..99 as 1900..1999. */
  function FullYear(year: int): int {
    if 0 <= year <= 99 then 1900 + year else year
  }

  /** `dayjs(s)` for a string: local midnight of the date it names. */
  function ParseDate(s: string): JsDate {
    if IsServerDateShape(s) then
      var f := ServerDateFields(s);
      DateAt(MidnightOf(DayNumber(Date(FullYear(f.year), f.month, f.day))))
    else InvalidDate
  }

  /** ToIntegerOrInfinity: drop the fraction towards zero. */
  function Truncate(x: real): int {
    if x >= 0.0 then x.Floor else -((-x).Floor)
  }

  /** `dayjs(v)` for the truthy values the helpers pass on. */
  function ToDayjs(v: JsValue): JsDate
    requires Truthy(v)
  {
    match v
    case Str(s) => ParseDate(s)
    case Num(n) => DateAt(Truncate(n))
    case DateObj(d) => d
  }

  /**
   * `dateUtils.addDays`: `dayjs(d).add(days, 'day')` moves the date by
   * `Math.round(days)` whole local days and keeps the time of day; a NaN day
   * count or an invalid date gives the invalid date.
   */
  function AddDaysTo(d: JsDate, days: Option<real>): (r: JsDate)
    ensures d.DateAt? && days.Some? ==> r.DateAt? && DayOf(r.ms) == DayOf(d.ms) + Round(days.value)
    ensures d.DateAt? && days.Some? ==> r.ms - MidnightOf(DayOf(r.ms)) == d.ms - MidnightOf(DayOf(d.ms))
    ensures !(d.DateAt? && days.Some?) ==> r == InvalidDate
  {
    if d.DateAt? && days.Some? then
      DayOfShift(d.ms, Round(days.value));
      DateAt(d.ms + Round(days.value) * MsPerDay)
    else InvalidDate
  }

  /** On the calendar, `addDays` moves the instant's date by the rounded count of days. */
  lemma AddDaysToShiftsCalendarDate(t: int, n: real)
    ensures AddDaysTo(DateAt(t), Some(n)).DateAt?
    ensures FromDayNumber(DayOf(AddDaysTo(DateAt(t), Some(n)).ms)) == AddDays(FromDayNumber(DayOf(t)), Round(n))
  {
    var r := AddDaysTo(DateAt(t), Some(n));
    assert DayOf(r.ms) == DayOf(t) + Round(n);
    ShiftedDayNumber(DayOf(t), Round(n));
  }

  lemma ShiftedDayNumber(day: int, k: int)
    ensures FromDayNumber(day + k) == AddDays(FromDayNumber(day), k)
  {
    assert DayNumber(FromDayNumber(day)) == day;
  }

  /** Adding zero days leaves the instant where it is. */
  lemma AddDaysToZero(t: int)
    ensures AddDaysTo(DateAt(t), Some(0.0)) == DateAt(t)
  {
  }

  /** Whole day counts compose: adding `a` days and then `b` days is adding `a + b` days. */
  lemma AddDaysToCompose(t: int, a: int, b: int)
    ensures AddDaysTo(AddDaysTo(DateAt(t), Some(a as real)), Some(b as real)) == AddDaysTo(DateAt(t), Some((a + b) as real))
  {
    assert Round(a as real) == a && Round(b as real) == b && Round((a + b) as real) == a + b;
  }

  /**
   * Fractional counts do not compose, because each call rounds: half a day
   * twice moves two days, while one day moves one.
   */
  lemma HalfDaysDoNotCompose(t: int)
    ensures AddDaysTo(AddDaysTo(DateAt(t), Some(0.5)), Some(0.5)) == DateAt(t + 2 * MsPerDay)
    ensures AddDaysTo(DateAt(t), Some(1.0)) == DateAt(t + MsPerDay)
  {
    assert Round(0.5) == 1 && Round(1.0) == 1;
  }

  /** `dateUtils.serverStringToObject`. */
  function ServerStringToObject(v: JsValue): (r: JsValue)
    ensures !Truthy(v) ==> r == v
    ensures Truthy(v) ==> r.DateObj?
  {
    if Truthy(v) then DateObj(ToDayjs(v)) else v
  }

  /** `dateUtils.serverStringToHumanString`. */
  function ServerStringToHumanString(v: JsValue): (r: JsValue)
    ensures !Truthy(v) ==> r == v
    ensures Truthy(v) ==> r.Str?
  {
    if Truthy(v) then Str(FormatHuman(ToDayjs(v))) else v
  }

  /** `dateUtils.objectToServerString`. */
  function ObjectToServerString(v: JsValue): (r: JsValue)
    ensures !Truthy(v) ==> r == v
    ensures Truthy(v) ==> r.Str?
  {
    if Truthy(v) then Str(FormatServer(ToDayjs(v))) else v
  }

  /**
   * `dateUtils.isMonthOffset` with `now` the current instant: the value's month
   * is `offset` months after now's month within now's year. Months are compared
   * by number, so an offset never reaches into another year.
   */
  function IsMonthOffset(v: JsValue, offset: int, now: int): (r: bool)
    ensures !Truthy(v) ==> r
  {
    if !Truthy(v) then true
    else
      match ToDayjs(v)
      case InvalidDate => false
      case DateAt(t) =>
        var field := FromDayNumber(DayOf(t));
        var current := FromDayNumber(DayOf(now));
        field.year == current.year && field.month - 1 == current.month - 1 + offset
  }

  /** Months counted from year 0, so that consecutive months differ by one across a year boundary. */
  function MonthIndex(d: Date): int {
    d.year * 12 + (d.month - 1)
  }

  /**
   * The month-offset test as evidently intended: the value's month is `offset`
   * months after now's month, counting across year boundaries.
   */
  function IsMonthOffsetAcrossYears(v: JsValue, offset: int, now: int): (r: bool)
    ensures !Truthy(v) ==> r
  {
    if !Truthy(v) then true
    else
      match ToDayjs(v)
      case InvalidDate => false
      case DateAt(t) => MonthIndex(FromDayNumber(DayOf(t))) == MonthIndex(FromDayNumber(DayOf(now))) + offset
  }

  /** `dateUtils.isCurrentMonth`; for offset 0 both month-offset tests agree. */
  function IsCurrentMonth(v: JsValue, now: int): (r: bool)
    ensures r == IsMonthOffset(v, 0, now)
  {
    MonthOffsetTestsAgreeWithinYear(v, 0, now);
    IsMonthOffsetAcrossYears(v, 0, now)
  }

  // ---------------------------------------------------------------------------
  // Properties

  /** A two-digit field renders as exactly two digits that read back as its value. */
  lemma TwoDigitTextReads(n: nat)
    requires n < 100
    ensures |TwoDigitText(n)| == 2 && AllDigits(TwoDigitText(n))
    ensures DigitsValue(TwoDigitText(n)) == n
  {
    assert Pow10(2) == 100;
    PaddedIsFixedWidth(n, 2);
    PaddedValue(n, 2);
  }

  lemma YearTextReads(year: int)
    requires 0 <= year <= 9999
    ensures |YearText(year)| == 4 && AllDigits(YearText(year))
    ensures DigitsValue(YearText(year)) == year
  {
    assert Pow10(4) == 10000;
    PaddedIsFixedWidth(year, 4);
    PaddedValue(year, 4);
  }

  /** The three parts of a server string, taken apart. */
  lemma ServerTextParts(a: string, b: string, c: string)
    requires |a| == 4 && |b| == 2 && |c| == 2
    ensures var s := a + "-" + b + "-" + c;
      |s| == 10 && s[..4] == a && s[4] == '-' && s[5..7] == b && s[7] == '-' && s[8..] == c
  {
  }

  /**
   * `objectToServerString` writes zero-padded `YYYY-MM-DD`: for a date in years
   * 0..9999 the text has the server shape and its digits are the date's own
   * year, month and day.
   */
  lemma ServerDateTextIsZeroPadded(d: Date)
    requires ValidDate(d) && 0 <= d.year <= 9999
    ensures IsServerDateShape(ServerDateText(d))
    ensures ServerDateFields(ServerDateText(d)) == d
  {
    YearTextReads(d.year);
    TwoDigitTextReads(d.month);
    TwoDigitTextReads(d.day);
    ServerTextParts(YearText(d.year), TwoDigitText(d.month), TwoDigitText(d.day));
  }

  /** Re-rendering the digits of a server string gives the same text. */
  lemma ServerDateTextOfFields(s: string)
    requires IsServerDateShape(s) && ValidDate(ServerDateFields(s))
    ensures ServerDateText(ServerDateFields(s)) == s
  {
    YearFieldText(s[..4]);
    TwoDigitFieldText(s[5..7]);
    TwoDigitFieldText(s[8..]);
    assert s == s[..4] + "-" + s[5..7] + "-" + s[8..];
  }

  /** Four digits are the year text of their own value. */
  lemma YearFieldText(t: string)
    requires |t| == 4 && AllDigits(t)
    ensures YearText(DigitsValue(t)) == t
  {
    PaddedIsFixedWidth(DigitsValue(t), 4);
    FixedWidthOfDigits(t);
  }

  /** Two digits are the two-digit text of their own value. */
  lemma TwoDigitFieldText(t: string)
    requires |t| == 2 && AllDigits(t)
    ensures TwoDigitText(DigitsValue(t)) == t
  {
    PaddedIsFixedWidth(DigitsValue(t), 2);
    FixedWidthOfDigits(t);
  }

  /** A server string for a real calendar date in years 100..9999 is read as that date's local midnight. */
  lemma ParseServerDate(s: string)
    requires IsServerDateShape(s) && ValidDate(ServerDateFields(s)) && ServerDateFields(s).year >= 100
    ensures ParseDate(s) == DateAt(MidnightOf(DayNumber(ServerDateFields(s))))
  {
  }

  /** A server string for a real date in years 100..9999 is shown as that date's `ddd MMM D, YYYY` text. */
  lemma HumanStringOfServerDate(s: string)
    requires IsServerDateShape(s) && ValidDate(ServerDateFields(s)) && ServerDateFields(s).year >= 100
    ensures ServerStringToHumanString(Str(s)) == Str(HumanDateText(ServerDateFields(s)))
  {
    ParseServerDate(s);
    FormatMidnight(ServerDateFields(s));
  }

  /**
   * Round trip: `objectToServerString(serverStringToObject(s)) == s` for every
   * server string naming a real calendar date in years 100..9999.
   */
  lemma ServerStringRoundTrip(s: string)
    requires IsServerDateShape(s) && ValidDate(ServerDateFields(s)) && ServerDateFields(s).year >= 100
    ensures ObjectToServerString(ServerStringToObject(Str(s))) == Str(s)
  {
    var f := ServerDateFields(s);
    ParseServerDate(s);
    DayOfMidnight(DayNumber(f));
    DateRoundTrip(f);
    ServerDateTextOfFields(s);
  }

  /**
   * The other round trip: writing an instant in years 100..9999 as a server
   * string and reading it back gives the midnight that starts its day.
   */
  lemma InstantRoundTrip(t: int)
    requires 100 <= FromDayNumber(DayOf(t)).year <= 9999
    ensures ServerStringToObject(ObjectToServerString(DateObj(DateAt(t)))) == DateObj(DateAt(MidnightOf(DayOf(t))))
  {
    var d := FromDayNumber(DayOf(t));
    ServerDateTextIsZeroPadded(d);
  }

  /** The value of a two- or four-digit field, digit by digit. */
  lemma FieldDigits(s: string)
    requires (|s| == 2 || |s| == 4) && AllDigits(s)
    ensures |s| == 2 ==> DigitsValue(s) == 10 * DigitValue(s[0]) + DigitValue(s[1])
    ensures |s| == 4 ==>
      DigitsValue(s) == 1000 * DigitValue(s[0]) + 100 * DigitValue(s[1]) + 10 * DigitValue(s[2]) + DigitValue(s[3])
  {
    assert s[..|s| - 1][..|s| - 2] == s[..|s| - 2];
    if |s| == 4 {
      assert s[..2][..1] == s[..1];
      assert s[..3][..2] == s[..2];
    }
  }

  /** The calendar date a server string names, from its digits. */
  lemma FieldsOf(s: string, d: Date)
    requires IsServerDateShape(s)
    requires DigitsValue(s[..4]) == d.year && DigitsValue(s[5..7]) == d.month && DigitsValue(s[8..]) == d.day
    ensures ServerDateFields(s) == d
  {
  }

  /** Formatting the midnight that starts a valid date gives that date's server text. */
  lemma FormatMidnight(d: Date)
    requires ValidDate(d)
    ensures FormatServer(DateAt(MidnightOf(DayNumber(d)))) == ServerDateText(d)
    ensures FormatHuman(DateAt(MidnightOf(DayNumber(d)))) == HumanDateText(d)
  {
    DayOfMidnight(DayNumber(d));
    DateRoundTrip(d);
  }

  lemma YearText2023()
    ensures YearText(2023) == "2023"
  {
    assert NatToString(2023) == "2023";
  }

  lemma YearText1950()
    ensures YearText(1950) == "1950"
  {
    assert NatToString(1950) == "1950";
  }

  /** "2023-02-30" has the server shape and names February 30th, 2023. */
  lemma February30Fields(s: string)
    requires s == "2023-02-30"
    ensures IsServerDateShape(s) && ServerDateFields(s) == Date(2023, 2, 30)
  {
    assert s[..4] == "2023" && s[5..7] == "02" && s[8..] == "30";
    FieldDigits(s[..4]);
    FieldDigits(s[5..7]);
    FieldDigits(s[8..]);
  }

  /** February 30th, 2023 is the day March 2nd, 2023. */
  lemma February30IsMarch2(d: Date, e: Date)
    requires d == Date(2023, 2, 30) && e == Date(2023, 3, 2)
    ensures ValidDate(e) && DayNumber(d) == DayNumber(e)
  {
  }

  lemma March2Text(d: Date)
    requires d == Date(2023, 3, 2)
    ensures ServerDateText(d) == "2023-03-02"
  {
    YearText2023();
    SingleDigitText(3, '3');
    SingleDigitText(2, '2');
    ServerTextFromParts(d, "2023", "03", "02");
  }

  /** The server text of a date, assembled from the texts of its parts. */
  lemma ServerTextFromParts(d: Date, y: string, m: string, dd: string)
    requires ValidDate(d) && YearText(d.year) == y && TwoDigitText(d.month) == m && TwoDigitText(d.day) == dd
    ensures ServerDateText(d) == y + "-" + m + "-" + dd
  {
  }

  /** A month or day below ten is written with a leading zero. */
  lemma SingleDigitText(n: nat, c: char)
    requires n < 10 && c == DigitChar(n)
    ensures TwoDigitText(n) == ['0', c]
  {
    assert NatToString(n) == [c];
  }

  /** A day that does not exist rolls over: "2023-02-30" is written back as "2023-03-02". */
  lemma RollOverExample(s: string)
    requires s == "2023-02-30"
    ensures ObjectToServerString(ServerStringToObject(Str(s))) == Str("2023-03-02")
  {
    var e := Date(2023, 3, 2);
    ParseFebruary30(s, e);
    FormatMidnight(e);
    March2Text(e);
  }

  /** "2023-02-30" is read as the midnight that starts March 2nd, 2023. */
  lemma ParseFebruary30(s: string, e: Date)
    requires s == "2023-02-30" && e == Date(2023, 3, 2)
    ensures ValidDate(e) && ServerStringToObject(Str(s)) == DateObj(DateAt(MidnightOf(DayNumber(e))))
  {
    February30Fields(s);
    February30IsMarch2(Date(2023, 2, 30), e);
  }

  lemma Year50Fields(s: string)
    requires s == "0050-01-01"
    ensures IsServerDateShape(s) && ServerDateFields(s) == Date(50, 1, 1)
  {
    assert s[..4] == "0050" && s[5..7] == "01" && s[8..] == "01";
    FieldDigits(s[..4]);
    FieldDigits(s[5..7]);
    FieldDigits(s[8..]);
  }

  lemma January1st1950Text(d: Date)
    requires d == Date(1950, 1, 1)
    ensures ServerDateText(d) == "1950-01-01"
  {
    YearText1950();
    SingleDigitText(1, '1');
    ServerTextFromParts(d, "1950", "01", "01");
  }

  /** Years written with two significant digits are read as 19xx: "0050-01-01" comes back as "1950-01-01". */
  lemma TwoDigitYearExample(s: string)
    requires s == "0050-01-01"
    ensures ObjectToServerString(ServerStringToObject(Str(s))) == Str("1950-01-01")
  {
    var d := Date(1950, 1, 1);
    Year50Fields(s);
    assert FullYear(50) == 1950;
    FormatMidnight(d);
    January1st1950Text(d);
  }

  /** January 1st, 2023 was a Sunday. */
  lemma January1st2023Weekday(d: Date)
    requires d == Date(2023, 1, 1)
    ensures Weekday(DayNumber(d)) == 0
  {
    assert DayNumber(d) == 19358;
  }

  lemma HumanTextExample(d: Date)
    requires d == Date(2023, 1, 1)
    ensures HumanDateText(d) == "Sun Jan 1, 2023"
  {
    January1st2023Weekday(d);
    YearText2023();
    assert NatToString(1) == "1";
  }

  lemma January1st2023Fields(s: string)
    requires s == "2023-01-01"
    ensures IsServerDateShape(s) && ServerDateFields(s) == Date(2023, 1, 1)
  {
    assert s[..4] == "2023" && s[5..7] == "01" && s[8..] == "01";
    FieldDigits(s[..4]);
    FieldDigits(s[5..7]);
    FieldDigits(s[8..]);
  }

  /** The human format names the weekday: "2023-01-01" is "Sun Jan 1, 2023". */
  lemma HumanStringExample(s: string)
    requires s == "2023-01-01"
    ensures ServerStringToHumanString(Str(s)) == Str("Sun Jan 1, 2023")
  {
    var d := Date(2023, 1, 1);
    January1st2023Fields(s);
    assert ParseDate(s) == DateAt(MidnightOf(DayNumber(d)));
    FormatMidnight(d);
    HumanTextExample(d);
  }

  /**
   * For a server string naming a real date in years 100..9999,
   * `isMonthOffset` holds exactly when the date lies in now's year and its
   * month is now's month plus `offset`.
   */
  lemma MonthOffsetMeaning(s: string, offset: int, now: int)
    requires IsServerDateShape(s) && ValidDate(ServerDateFields(s)) && ServerDateFields(s).year >= 100
    ensures var f := ServerDateFields(s);
            var current := FromDayNumber(DayOf(now));
            IsMonthOffset(Str(s), offset, now) <==> f.year == current.year && f.month == current.month + offset
  {
    var f := ServerDateFields(s);
    ParseServerDate(s);
    DayOfMidnight(DayNumber(f));
    DateRoundTrip(f);
  }

  /** No wrap-around: an offset that leaves now's year matches nothing, not even next January. */
  lemma MonthOffsetNeverWraps(v: JsValue, offset: int, now: int)
    requires Truthy(v)
    requires var m := FromDayNumber(DayOf(now)).month + offset; m < 1 || m > 12
    ensures !IsMonthOffset(v, offset, now)
  {
  }

  /** `isCurrentMonth` is the month offset 0: same year and same month as now. */
  lemma CurrentMonthMeaning(s: string, now: int)
    requires IsServerDateShape(s) && ValidDate(ServerDateFields(s)) && ServerDateFields(s).year >= 100
    ensures var f := ServerDateFields(s);
            var current := FromDayNumber(DayOf(now));
            IsCurrentMonth(Str(s), now) <==> f.year == current.year && f.month == current.month
  {
    MonthOffsetMeaning(s, 0, now);
  }

  /**
   * With the corrected test, a server string naming a real date in years
   * 100..9999 is at month offset `offset` exactly when its month index is now's
   * plus `offset`.
   */
  lemma MonthOffsetAcrossYearsMeaning(s: string, offset: int, now: int)
    requires IsServerDateShape(s) && ValidDate(ServerDateFields(s)) && ServerDateFields(s).year >= 100
    ensures var f := ServerDateFields(s);
            IsMonthOffsetAcrossYears(Str(s), offset, now) <==> MonthIndex(f) == MonthIndex(FromDayNumber(DayOf(now))) + offset
  {
    var f := ServerDateFields(s);
    ParseServerDate(s);
    DayOfMidnight(DayNumber(f));
    DateRoundTrip(f);
  }

  /** Where the target month lies in now's year, the test as written and the corrected one agree. */
  lemma MonthOffsetTestsAgreeWithinYear(v: JsValue, offset: int, now: int)
    requires 1 <= FromDayNumber(DayOf(now)).month + offset <= 12
    ensures IsMonthOffset(v, offset, now) == IsMonthOffsetAcrossYears(v, offset, now)
  {
    if Truthy(v) && ToDayjs(v).DateAt? {
      MonthIndexWithinYear(FromDayNumber(DayOf(ToDayjs(v).ms)), FromDayNumber(DayOf(now)), offset);
    }
  }

  lemma MonthIndexWithinYear(f: Date, c: Date, offset: int)
    requires 1 <= f.month <= 12 && 1 <= c.month + offset <= 12
    ensures MonthIndex(f) == MonthIndex(c) + offset <==> f.year == c.year && f.month == c.month + offset
  {
  }

  lemma January10th2024Fields(s: string)
    requires s == "2024-01-10"
    ensures IsServerDateShape(s) && ServerDateFields(s) == Date(2024, 1, 10)
  {
    assert s[..4] == "2024" && s[5..7] == "01" && s[8..] == "10";
    FieldDigits(s[..4]);
    FieldDigits(s[5..7]);
    FieldDigits(s[8..]);
  }

  /**
   * In December the test as written never finds next month: a January date of
   * the following year is not at offset 1, while the corrected test says it is.
   */
  lemma NextMonthMissedInDecember(s: string, now: int)
    requires IsServerDateShape(s) && ValidDate(ServerDateFields(s)) && ServerDateFields(s).year >= 100
    requires var current := FromDayNumber(DayOf(now));
             current.month == 12 && ServerDateFields(s) == Date(current.year + 1, 1, ServerDateFields(s).day)
    ensures !IsMonthOffset(Str(s), 1, now)
    ensures IsMonthOffsetAcrossYears(Str(s), 1, now)
  {
    MonthOffsetMeaning(s, 1, now);
    MonthOffsetAcrossYearsMeaning(s, 1, now);
  }

  /** The day of the midnight of a real date is that date. */
  lemma MidnightDate(now: int, today: Date)
    requires ValidDate(today) && now == MidnightOf(DayNumber(today))
    ensures FromDayNumber(DayOf(now)) == today
  {
    DayOfMidnight(DayNumber(today));
    DateRoundTrip(today);
  }

  /**
   * On December 15th, 2023 the test as written says January 10th, 2024 is not
   * next month; the corrected test says it is.
   */
  lemma NextMonthInDecember(s: string, now: int, today: Date)
    requires s == "2024-01-10" && today == Date(2023, 12, 15) && now == MidnightOf(DayNumber(today))
    ensures !IsMonthOffset(Str(s), 1, now)
    ensures IsMonthOffsetAcrossYears(Str(s), 1, now)
  {
    January10th2024Fields(s);
    MidnightDate(now, today);
    NextMonthMissedInDecember(s, now);
  }
}
