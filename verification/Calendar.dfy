/**
  Day numbers of the proleptic Gregorian calendar, after drizzled/calendar.cc
  and drizzled/calendar.h.

  The source computes a Julian Day Number from a date with one closed formula
  and a date from a day number with nested truncating divisions.  Both are
  modelled with the widths of the source: years, months and days are 32-bit
  unsigned, and `year + 4800` is an unsigned 32-bit addition, so it wraps.  Day
  numbers are unbounded: in the source they are 64-bit signed.

  The reference they are measured against is `CountedDay`, which only counts:
  the days of all earlier years, of all earlier months, and of the month.
 */
module Calendar {

  const TWO_TO_THE_32: int := 0x1_0000_0000

  type uint32 = x: int | 0 <= x < TWO_TO_THE_32

  const JULIAN_DAY_NUMBER_AT_ABSOLUTE_DAY_ONE: int := 1721425
  const UNIX_EPOCH_MIN_YEARS: int := 1970
  const UNIX_EPOCH_MAX_YEARS: int := 2038
  const UNIX_EPOCH_DAY: int := 2440588
  const CALENDAR_YY_PART_YEAR: int := 70

  /** The last year for which `year + 4800` does not wrap. */
  const LAST_YEAR: int := 0xFFFF_FFFF - 4800

  datatype Date = Date(year: int, month: int, day: int)

  // ---------------------------------------------------------------- C arithmetic

  /** Division of C: the quotient is truncated toward zero. */
  function Quot(a: int, b: int): int
    requires b > 0
  {
    if a >= 0 then a / b else -((-a) / b)
  }

  function Rem(a: int, b: int): int
    requires b > 0
  {
    a - b * Quot(a, b)
  }

  /** Conversion of C from floating point: truncated toward zero. */
  function Trunc(x: real): int {
    if x >= 0.0 then x.Floor else -((-x).Floor)
  }

  function ToUint32(a: int): uint32 {
    a % TWO_TO_THE_32
  }

  // ---------------------------------------------------------------- lengths of years and months

  function DaysInYear(year: uint32): int {
    if year % 2 == 1 then 365
    else if year % 4 == 0 && (year % 100 != 0 || (year % 400 == 0 && year != 0)) then 366
    else 365
  }

  predicate IsLeapYear(year: uint32) {
    DaysInYear(year) == 366
  }

  const LEAP_DAYS_IN_MONTH: seq<int> := [31, 29, 31, 30, 31, 30, 31, 31, 30, 31, 30, 31]
  const NORMAL_DAYS_IN_MONTH: seq<int> := [31, 28, 31, 30, 31, 30, 31, 31, 30, 31, 30, 31]

  function DaysInMonth(year: uint32, month: int): (days: int)
    requires 1 <= month <= 12
    ensures 28 <= days <= 31
  {
    if IsLeapYear(year) then LEAP_DAYS_IN_MONTH[month - 1] else NORMAL_DAYS_IN_MONTH[month - 1]
  }

  /** A date of the calendar: year 1 or later, a month and a day of that month. */
  predicate OnCalendar(date: Date) {
    && 1 <= date.year < TWO_TO_THE_32
    && 1 <= date.month <= 12
    && 1 <= date.day <= DaysInMonth(date.year, date.month)
  }

  /** `is_valid_gregorian_date`; a month outside 1..12 indexes past the table. */
  predicate IsValidGregorianDate(year: uint32, month: uint32, day: uint32)
    requires 1 <= month <= 12
  {
    if year < 1 then false
    else if month != 2 then day <= NORMAL_DAYS_IN_MONTH[month - 1]
    else day <= DaysInMonth(year, 2)
  }

  // ---------------------------------------------------------------- conversions

  /** `julian_day_number_from_gregorian_date` */
  function DayNumber(year: uint32, month: uint32, day: uint32): int
    requires 1 <= month <= 12
  {
    var a := (14 - month) / 12;
    var y := ToUint32(year + 4800) - a;
    var m := month + 12 * a - 3;
    day + Quot(153 * m + 2, 5) + 365 * y + Quot(y, 4) - Quot(y, 100) + Quot(y, 400) - 32045
  }

  /** Position in the 400-year cycle: cycles, centuries, leap cycles, years, days. */
  datatype Numeral = Numeral(g: int, c: int, b: int, a: int, da: int)

  /** The first half of `gregorian_date_from_julian_day_number` */
  function NumeralOf(j: int): Numeral {
    var g := Quot(j, 146097);
    var dg := Rem(j, 146097);
    var c := Quot((Quot(dg, 36524) + 1) * 3, 4);
    var dc := dg - c * 36524;
    var b := Quot(dc, 1461);
    var db := Rem(dc, 1461);
    var a := Quot((Quot(db, 365) + 1) * 3, 4);
    var da := db - a * 365;
    Numeral(g, c, b, a, da)
  }

  /** The second half: renumber years from January and find the month. */
  function DateOfNumeral(n: Numeral): Date {
    var y := n.g * 400 + n.c * 100 + n.b * 4 + n.a;
    var m := Quot(n.da * 5 + 308, 153) - 2;
    var d := n.da - Quot((m + 4) * 153, 5) + 122;
    Date(ToUint32(y - 4800 + Quot(m + 2, 12)),
         ToUint32(Rem(m + 2, 12) + 1),
         ToUint32(Trunc(d as real + 1.5)))
  }

  /** `gregorian_date_from_julian_day_number` */
  function DateFromDayNumber(julianDay: int): Date {
    DateOfNumeral(NumeralOf(julianDay + 32044))
  }

  function AbsoluteToJulian(absoluteDay: int): int {
    absoluteDay + JULIAN_DAY_NUMBER_AT_ABSOLUTE_DAY_ONE
  }

  /** `gregorian_date_from_absolute_day_number` */
  function DateFromAbsoluteDay(absoluteDay: int): Date {
    DateFromDayNumber(AbsoluteToJulian(absoluteDay))
  }

  /** `day_of_week` */
  function DayOfWeek(dayNumber: int, sundayFirst: bool): uint32 {
    var tmp := ToUint32(Rem(dayNumber, 7));
    if sundayFirst then (if tmp == 6 then 0 else ToUint32(tmp + 1)) else tmp
  }

  // ---------------------------------------------------------------- the counted reference

  function DaysBeforeYear(year: uint32): int
    requires 1 <= year
    decreases year
  {
    if year == 1 then 0 else DaysBeforeYear(year - 1) + DaysInYear(year - 1)
  }

  function DaysBeforeMonth(year: uint32, month: int): int
    requires 1 <= month <= 12
    decreases month
  {
    if month == 1 then 0 else DaysBeforeMonth(year, month - 1) + DaysInMonth(year, month - 1)
  }

  /** The position of a date in the calendar, 0001-01-01 being day 1. */
  function CountedDay(date: Date): int
    requires OnCalendar(date)
  {
    DaysBeforeYear(date.year) + DaysBeforeMonth(date.year, date.month) + date.day
  }

  /** The next date of the calendar. */
  function Tomorrow(date: Date): Date
    requires OnCalendar(date)
  {
    if date.day < DaysInMonth(date.year, date.month) then Date(date.year, date.month, date.day + 1)
    else if date.month < 12 then Date(date.year, date.month + 1, 1)
    else Date(date.year + 1, 1, 1)
  }

  lemma FirstIsOnCalendar(year: uint32, month: int)
    requires 1 <= year && 1 <= month <= 12
    ensures DaysInMonth(year, month) >= 28 && OnCalendar(Date(year, month, 1))
    ensures DaysInMonth(year, 12) == 31
  {
    assert LEAP_DAYS_IN_MONTH[month - 1] >= 28 && NORMAL_DAYS_IN_MONTH[month - 1] >= 28;
  }

  lemma TomorrowIsCounted(date: Date)
    requires OnCalendar(date) && date.year <= LAST_YEAR && date != Date(LAST_YEAR, 12, 31)
    ensures OnCalendar(Tomorrow(date)) && Tomorrow(date).year <= LAST_YEAR
    ensures CountedDay(Tomorrow(date)) == CountedDay(date) + 1
  {
    FirstIsOnCalendar(date.year, date.month);
    hide DaysInMonth, DaysInYear;
    if date.day == DaysInMonth(date.year, date.month) {
      if date.month == 12 {
        YearIsTwelveMonths(date.year);
        FirstIsOnCalendar(date.year + 1, 1);
      } else {
        FirstIsOnCalendar(date.year, date.month + 1);
      }
    }
  }

  lemma YearIsTwelveMonths(year: uint32)
    ensures DaysBeforeMonth(year, 12) + 31 == DaysInYear(year)
  {
    MonthOffsets(year);
  }

  lemma MonthOffsets(year: uint32)
    ensures DaysBeforeMonth(year, 1) == 0
    ensures DaysBeforeMonth(year, 2) == 31
    ensures forall m :: 3 <= m <= 12 ==>
      DaysBeforeMonth(year, m) == (153 * (m - 3) + 2) / 5 + DaysInYear(year) - 306
  {
    var leap := DaysInYear(year) - 365;
    assert DaysBeforeMonth(year, 3) == 59 + leap;
    assert DaysBeforeMonth(year, 4) == 90 + leap;
    assert DaysBeforeMonth(year, 5) == 120 + leap;
    assert DaysBeforeMonth(year, 6) == 151 + leap;
    assert DaysBeforeMonth(year, 7) == 181 + leap;
    assert DaysBeforeMonth(year, 8) == 212 + leap;
    assert DaysBeforeMonth(year, 9) == 243 + leap;
    assert DaysBeforeMonth(year, 10) == 273 + leap;
    assert DaysBeforeMonth(year, 11) == 304 + leap;
    assert DaysBeforeMonth(year, 12) == 334 + leap;
  }

  /** The leap-day terms of the formula count the leap days of all earlier years. */
  lemma {:induction false} YearsInClosedForm(year: uint32)
    requires 1 <= year
    ensures DaysBeforeYear(year) == YearDays(year - 1)
    decreases year
  {
    if year == 1 {
    } else {
      YearsInClosedForm(year - 1);
      LeapDayStep(year - 1);
    }
  }

  lemma LeapDayStep(y: uint32)
    requires 1 <= y
    ensures YearDays(y) == YearDays(y - 1) + DaysInYear(y)
  {
    DivStep(y, 4);
    DivStep(y, 100);
    DivStep(y, 400);
    LeapRule(y);
    hide DaysInYear;
  }

  lemma LeapRule(y: uint32)
    requires 1 <= y
    ensures DaysInYear(y) == 365 + (if y % 4 == 0 then 1 else 0) - (if y % 100 == 0 then 1 else 0) + (if y % 400 == 0 then 1 else 0)
  {
    FourHundredths(y);
    Hundredths(y);
    Fourths(y);
  }

  lemma FourHundredths(y: int)
    ensures y % 400 == 0 ==> y % 100 == 0
  {
    if y % 400 == 0 {
      assert y == 100 * (4 * (y / 400));
    }
  }

  lemma Hundredths(y: int)
    ensures y % 100 == 0 ==> y % 4 == 0
  {
    if y % 100 == 0 {
      assert y == 4 * (25 * (y / 100));
    }
  }

  lemma Fourths(y: int)
    ensures y % 4 == 0 ==> y % 2 == 0
  {
    if y % 4 == 0 {
      assert y == 2 * (2 * (y / 4));
    }
  }

  lemma DivStep(y: int, n: int)
    requires 1 <= y && n in {4, 100, 400}
    ensures y / n == (y - 1) / n + (if y % n == 0 then 1 else 0)
  {
  }

  /**
    Law: the closed formula numbers the days of the calendar consecutively,
    exactly for the years whose `year + 4800` does not wrap.
   */
  lemma DayNumberCountsDays(date: Date)
    requires OnCalendar(date)
    ensures DayNumber(date.year, date.month, date.day) == AbsoluteToJulian(CountedDay(date))
       <==> date.year <= LAST_YEAR
  {
    if date.year <= LAST_YEAR {
      DayNumberUnwrapped(date);
    } else {
      DayNumberWrapped(date);
    }
  }

  /** The days of `y` whole years, as the formula counts them. */
  function YearDays(y: int): int
    requires 0 <= y
  {
    365 * y + y / 4 - y / 100 + y / 400
  }

  lemma TwelveCycles(y: int)
    requires 0 <= y
    ensures YearDays(y + 4800) == YearDays(y) + 1753164
  {
    assert (y + 4800) / 4 == y / 4 + 1200;
    assert (y + 4800) / 100 == y / 100 + 48;
    assert (y + 4800) / 400 == y / 400 + 12;
  }

  /** The formula with the months renumbered from March. */
  lemma DayNumberFromMarch(year: uint32, month: int, day: uint32)
    requires 1 <= month <= 12 && 1 <= year <= LAST_YEAR
    ensures month <= 2 ==> DayNumber(year, month, day) == day + (153 * (month + 9) + 2) / 5 + YearDays(year + 4799) - 32045
    ensures month >= 3 ==> DayNumber(year, month, day) == day + (153 * (month - 3) + 2) / 5 + YearDays(year + 4800) - 32045
  {
    assert ToUint32(year + 4800) == year + 4800;
    if month <= 2 {
      assert (14 - month) / 12 == 1;
    } else {
      assert (14 - month) / 12 == 0;
    }
  }

  lemma DayNumberUnwrapped(date: Date)
    requires OnCalendar(date) && date.year <= LAST_YEAR
    ensures DayNumber(date.year, date.month, date.day) == AbsoluteToJulian(CountedDay(date))
  {
    hide DayNumber, DaysBeforeYear, DaysBeforeMonth;
    var y := date.year;
    YearsInClosedForm(y);
    MonthOffsets(y);
    DayNumberFromMarch(y, date.month, date.day);
    TwelveCycles(y - 1);
    TwelveCycles(y);
    LeapDayStep(y);
  }

  lemma DayNumberWrapped(date: Date)
    requires OnCalendar(date) && date.year > LAST_YEAR
    ensures DayNumber(date.year, date.month, date.day) < 2_000_000
    ensures AbsoluteToJulian(CountedDay(date)) > 2_000_000
  {
    assert CountedDay(date) > 2_000_000 by {
      YearsInClosedForm(date.year);
      MonthOffsets(date.year);
    }
    var a := (14 - date.month) / 12;
    var y := ToUint32(date.year + 4800) - a;
    assert -1 <= y <= 4799;
    assert Quot(y, 4) <= 1200 && Quot(y, 100) >= 0 && Quot(y, 400) <= 12;
    assert Quot(153 * (date.month + 12 * a - 3) + 2, 5) <= 337;
    hide Quot, CountedDay;
  }

  // ---------------------------------------------------------------- the inverse

  /**
    A year that starts in March ends with a leap day when the January that
    follows belongs to a leap year.
   */
  predicate EndsWithLeapDay(marchYear: int) {
    (marchYear + 1) % 4 == 0 && ((marchYear + 1) % 100 != 0 || (marchYear + 1) % 400 == 0)
  }

  /** Day `day` of month `m` (March is 0) lies inside that month of the year. */
  predicate InMarchMonth(marchYear: int, m: int, day: int) {
    && 0 <= m <= 11 && 1 <= day
    && (m < 11 ==> (153 * m + 2) / 5 + day <= (153 * (m + 1) + 2) / 5)
    && (m == 11 ==> day <= 28 || (day == 29 && EndsWithLeapDay(marchYear)))
  }

  lemma CycleDigits(j: int, g: int, dg: int)
    requires 0 <= g && 0 <= dg < 146097 && j == 146097 * g + dg
    ensures Quot(j, 146097) == g && Rem(j, 146097) == dg
  {
  }

  lemma CenturyDigit(dg: int, c: int, dc: int)
    requires 0 <= c <= 3 && 0 <= dc <= 36524 && (dc == 36524 ==> c == 3) && dg == 36524 * c + dc
    ensures Quot((Quot(dg, 36524) + 1) * 3, 4) == c
  {
    assert dg / 36524 == if dc == 36524 then 4 else c;
  }

  lemma LeapCycleDigit(dc: int, b: int, db: int)
    requires 0 <= b <= 24 && 0 <= db < 1461 && dc == 1461 * b + db
    ensures Quot(dc, 1461) == b && Rem(dc, 1461) == db
  {
  }

  lemma YearDigit(db: int, a: int, da: int)
    requires 0 <= a <= 3 && 0 <= da <= 365 && (da == 365 ==> a == 3) && db == 365 * a + da
    ensures Quot((Quot(db, 365) + 1) * 3, 4) == a
  {
    assert db / 365 == if da == 365 then 4 else a;
  }

  /** The nested divisions read a mixed-radix numeral back digit by digit. */
  lemma Digits(n: Numeral, j: int)
    requires 0 <= n.g && 0 <= n.c <= 3 && 0 <= n.b <= 24 && 0 <= n.a <= 3 && 0 <= n.da <= 365
    requires n.da == 365 ==> n.a == 3 && (n.b < 24 || n.c == 3)
    requires j == 146097 * n.g + 36524 * n.c + 1461 * n.b + 365 * n.a + n.da
    ensures NumeralOf(j) == n
  {
    hide Quot, Rem;
    var db := 365 * n.a + n.da;
    var dc := 1461 * n.b + db;
    var dg := 36524 * n.c + dc;
    CycleDigits(j, n.g, dg);
    CenturyDigit(dg, n.c, dc);
    LeapCycleDigit(dc, n.b, db);
    YearDigit(db, n.a, n.da);
  }

  lemma QuotientOf(x: int, n: int, q: int, r: int)
    requires n in {4, 100, 400} && x == n * q + r && 0 <= r < n
    ensures x / n == q && x % n == r
  {
    if n == 4 {
    } else if n == 100 {
    } else {
    }
  }

  lemma YearDigits(y: int) returns (g: int, c: int, b: int, a: int)
    requires 0 <= y
    ensures 0 <= g && 0 <= c <= 3 && 0 <= b <= 24 && 0 <= a <= 3
    ensures y == 400 * g + 100 * c + 4 * b + a
    ensures YearDays(y) == 146097 * g + 36524 * c + 1461 * b + 365 * a
    ensures EndsWithLeapDay(y) <==> a == 3 && (b < 24 || c == 3)
  {
    g := y / 400;
    var r := y % 400;
    c := r / 100;
    var s := r % 100;
    b, a := s / 4, s % 4;
    assert y == 400 * g + 100 * c + 4 * b + a;
    QuotientOf(y, 100, 4 * g + c, 4 * b + a);
    QuotientOf(y, 4, 100 * g + 25 * c + b, a);
    NextYearDigits(y, g, c, b, a);
  }

  lemma NextYearDigits(y: int, g: int, c: int, b: int, a: int)
    requires 0 <= g && 0 <= c <= 3 && 0 <= b <= 24 && 0 <= a <= 3
    requires y == 400 * g + 100 * c + 4 * b + a
    ensures EndsWithLeapDay(y) <==> a == 3 && (b < 24 || c == 3)
  {
    if a < 3 {
      QuotientOf(y + 1, 4, 100 * g + 25 * c + b, a + 1);
    } else if b < 24 {
      QuotientOf(y + 1, 4, 100 * g + 25 * c + b + 1, 0);
      QuotientOf(y + 1, 100, 4 * g + c, 4 * b + 4);
    } else {
      QuotientOf(y + 1, 4, 100 * g + 25 * c + 25, 0);
      QuotientOf(y + 1, 100, 4 * g + c + 1, 0);
      if c < 3 {
        QuotientOf(y + 1, 400, g, 100 * c + 100);
      } else {
        QuotientOf(y + 1, 400, g + 1, 0);
      }
    }
  }

  lemma MarchMonthInverse(m: int, day: int, da: int)
    requires 0 <= m <= 11 && 1 <= day
    requires m < 11 ==> (153 * m + 2) / 5 + day <= (153 * (m + 1) + 2) / 5
    requires m == 11 ==> day <= 29
    requires da == (153 * m + 2) / 5 + day - 1
    ensures (da * 5 + 308) / 153 - 2 == m
    ensures da - (m + 4) * 153 / 5 + 122 == day - 1
    ensures 0 <= da <= 365 && day <= 31
    ensures da == 365 <==> m == 11 && day == 29
  {
    var table := [0, 31, 61, 92, 122, 153, 184, 214, 245, 275, 306, 337];
    assert (153 * m + 2) / 5 == table[m];
    assert (m + 4) * 153 / 5 == table[m] + 122;
  }

  /** The rounding of the last step adds one day. */
  lemma RoundUp(d: int)
    requires 0 <= d <= 31
    ensures ToUint32(Trunc(d as real + 1.5)) == d + 1
  {
    assert (d as real + 1.5).Floor == d + 1;
  }

  lemma MonthFits(m: int)
    requires -2 <= m <= 11
    ensures ToUint32(Rem(m + 2, 12) + 1) == (m + 2) % 12 + 1
  {
  }

  lemma DateOfNumeralIs(n: Numeral, y: int, m: int, day: int)
    requires 0 <= m <= 11 && 1 <= day <= 31 && 0 <= n.da
    requires (n.da * 5 + 308) / 153 - 2 == m && n.da - (m + 4) * 153 / 5 + 122 == day - 1
    requires y == 400 * n.g + 100 * n.c + 4 * n.b + n.a
    ensures DateOfNumeral(n) == Date(ToUint32(y - 4800 + (m + 2) / 12), (m + 2) % 12 + 1, day)
  {
    RoundUp(day - 1);
    MonthFits(m);
    hide ToUint32;
  }

  /** Every day of a March year is read back from its number. */
  lemma InverseFromMarch(y: int, m: int, day: int)
    requires 0 <= y <= LAST_YEAR + 4800 && InMarchMonth(y, m, day)
    ensures var j := YearDays(y) + (153 * m + 2) / 5 + day - 1;
      DateOfNumeral(NumeralOf(j)) == Date(ToUint32(y - 4800 + (m + 2) / 12), (m + 2) % 12 + 1, day)
  {
    hide NumeralOf, DateOfNumeral, YearDays;
    var da := (153 * m + 2) / 5 + day - 1;
    MarchMonthInverse(m, day, da);
    var g, c, b, a := YearDigits(y);
    var n := Numeral(g, c, b, a, da);
    assert NumeralOf(YearDays(y) + da) == n by {
      Digits(n, YearDays(y) + da);
    }
    DateOfNumeralIs(n, y, m, day);
  }

  /**
    Law: a date of the calendar comes back from its day number, up to the last
    year that does not wrap.
   */
  lemma DateRoundTrip(date: Date)
    requires OnCalendar(date) && date.year <= LAST_YEAR
    ensures DateFromDayNumber(DayNumber(date.year, date.month, date.day)) == date
  {
    hide DayNumber, NumeralOf, DateOfNumeral, YearDays, InMarchMonth;
    var y, m := MarchOf(date);
    InverseFromMarch(y, m, date.day);
  }

  /** The March year and March month of a date. */
  lemma MarchOf(date: Date) returns (y: int, m: int)
    requires OnCalendar(date) && date.year <= LAST_YEAR
    ensures 0 <= y <= LAST_YEAR + 4800 && InMarchMonth(y, m, date.day)
    ensures DayNumber(date.year, date.month, date.day) + 32044 == YearDays(y) + (153 * m + 2) / 5 + date.day - 1
    ensures ToUint32(y - 4800 + (m + 2) / 12) == date.year && (m + 2) % 12 + 1 == date.month
  {
    hide DayNumber, YearDays, InMarchMonth;
    y, m := if date.month <= 2 then date.year + 4799 else date.year + 4800,
            if date.month <= 2 then date.month + 9 else date.month - 3;
    InMarchMonthOf(date);
    assert DayNumber(date.year, date.month, date.day) + 32044 == YearDays(y) + (153 * m + 2) / 5 + date.day - 1 by {
      DayNumberFromMarch(date.year, date.month, date.day);
    }
    JanuaryFromMarch(date.year, date.month, y, m);
  }

  lemma JanuaryFromMarch(year: uint32, month: int, y: int, m: int)
    requires 1 <= month <= 12
    requires y == if month <= 2 then year + 4799 else year + 4800
    requires m == if month <= 2 then month + 9 else month - 3
    ensures ToUint32(y - 4800 + (m + 2) / 12) == year && (m + 2) % 12 + 1 == month
  {
  }

  lemma InMarchMonthOf(date: Date)
    requires OnCalendar(date)
    ensures date.month <= 2 ==> InMarchMonth(date.year + 4799, date.month + 9, date.day)
    ensures date.month >= 3 ==> InMarchMonth(date.year + 4800, date.month - 3, date.day)
  {
    hide InMarchMonth;
    MarchMonth(date);
  }

  lemma SameRemainders(y: int)
    ensures (y + 4800) % 4 == y % 4 && (y + 4800) % 100 == y % 100 && (y + 4800) % 400 == y % 400
  {
    assert y + 4800 == 4 * (y / 4 + 1200) + y % 4;
    assert y + 4800 == 100 * (y / 100 + 48) + y % 100;
    assert y + 4800 == 400 * (y / 400 + 12) + y % 400;
  }

  lemma MarchMonth(date: Date)
    requires OnCalendar(date)
    ensures InMarchMonth(if date.month <= 2 then date.year + 4799 else date.year + 4800,
                         if date.month <= 2 then date.month + 9 else date.month - 3, date.day)
  {
    SameRemainders(date.year);
    var table := [0, 31, 61, 92, 122, 153, 184, 214, 245, 275, 306, 337];
    assert forall m :: 0 <= m <= 11 ==> (153 * m + 2) / 5 == table[m];
  }

  lemma CountedDayIsPositive(date: Date)
    requires OnCalendar(date)
    ensures CountedDay(date) >= 1
  {
    YearsInClosedForm(date.year);
    MonthOffsets(date.year);
  }

  // ---------------------------------------------------------------- every day number

  const LAST_DAY: int := DayNumber(LAST_YEAR, 12, 31)

  /** Every number from 0001-01-01 to the last day is the number of a date. */
  lemma {:induction false} DateWithNumber(jd: int) returns (date: Date)
    requires 1721426 <= jd <= LAST_DAY
    ensures OnCalendar(date) && date.year <= LAST_YEAR
    ensures DayNumber(date.year, date.month, date.day) == jd
    decreases jd
  {
    if jd == 1721426 {
      date := Date(1, 1, 1);
    } else {
      var yesterday := DateWithNumber(jd - 1);
      DayNumberUnwrapped(yesterday);
      TomorrowIsCounted(yesterday);
      date := Tomorrow(yesterday);
      DayNumberUnwrapped(date);
    }
  }

  lemma DayNumberIsBounded(year: uint32, month: uint32, day: uint32)
    requires 1 <= month <= 12 && day <= 31
    ensures DayNumber(year, month, day) <= LAST_DAY
  {
    var a := (14 - month) / 12;
    var y := ToUint32(year + 4800) - a;
    var m := month + 12 * a - 3;
    var z := LAST_YEAR + 4800;
    assert Quot(z, 4) == 1073741823 && Quot(z, 100) == 42949672 && Quot(z, 400) == 10737418;
    assert LAST_DAY == 31 + 275 + 365 * z + 1073741823 - 42949672 + 10737418 - 32045;
    assert Quot(153 * m + 2, 5) <= (if a == 1 then 337 else 275);
    if y < z {
      YearDaysGrow(y, z);
    }
  }

  lemma YearDaysGrow(y: int, z: int)
    requires -1 <= y < z
    ensures 365 * y + Quot(y, 4) - Quot(y, 100) + Quot(y, 400) + 365 <= YearDays(z)
  {
    if y >= 0 {
      assert z / 4 - y / 4 >= z / 100 - y / 100 by {
        CenturiesGrowSlower(y, z);
      }
      assert z / 400 >= y / 400;
    }
  }

  lemma CenturiesGrowSlower(y: int, z: int)
    requires 0 <= y <= z
    ensures z / 100 - y / 100 <= z / 4 - y / 4
  {
    assert z / 100 == z / 4 / 25;
    assert y / 100 == y / 4 / 25;
  }

  /**
    Law: a day number from 0001-01-01 on yields a date of the calendar that maps
    back to it, exactly up to the last day of the last year that does not wrap.
   */
  lemma DayNumberRoundTrip(jd: int)
    requires 1721426 <= jd
    ensures var date := DateFromDayNumber(jd);
      && (jd <= LAST_DAY ==> OnCalendar(date))
      && (OnCalendar(date) ==> (DayNumber(date.year, date.month, date.day) == jd <==> jd <= LAST_DAY))
  {
    var date := DateFromDayNumber(jd);
    if jd <= LAST_DAY {
      var expected := DateWithNumber(jd);
      DateRoundTrip(expected);
    } else if OnCalendar(date) {
      DayNumberIsBounded(date.year, date.month, date.day);
    }
  }

  /** Law: absolute days are the counted days, so absolute day 1 is 0001-01-01. */
  lemma AbsoluteDays(date: Date)
    requires OnCalendar(date) && date.year <= LAST_YEAR
    ensures DateFromAbsoluteDay(CountedDay(date)) == date
    ensures CountedDay(date) == 1 <==> date == Date(1, 1, 1)
  {
    DateRoundTrip(date);
    DayNumberUnwrapped(date);
    hide DayNumber, DateFromDayNumber;
    if date != Date(1, 1, 1) {
      CountedInOrder(Date(1, 1, 1), date);
    }
  }

  // ---------------------------------------------------------------- the wrapped years

  /** The year the formula works with when `year + 4800` wraps, plus 4800. */
  function ShadowYear(year: uint32): int {
    ToUint32(year + 4800)
  }

  /** The dates of wrapped years that do not survive the conversion. */
  predicate LostByWrapping(date: Date)
    requires OnCalendar(date)
  {
    && date.year > LAST_YEAR
    && var s := ShadowYear(date.year);
       || (s == 0 && date.month <= 2)
       || (date.month == 2 && date.day == 29 && s % 100 == 0 && s % 400 != 0)
  }

  lemma WrappedFromMarch(year: uint32, month: int, day: uint32)
    requires 1 <= month <= 12 && year > LAST_YEAR
    ensures var s := ShadowYear(year);
      && 0 <= s == year + 4800 - TWO_TO_THE_32
      && (month <= 2 && s >= 1 ==> DayNumber(year, month, day) == day + (153 * (month + 9) + 2) / 5 + YearDays(s - 1) - 32045)
      && (month >= 3 ==> DayNumber(year, month, day) == day + (153 * (month - 3) + 2) / 5 + YearDays(s) - 32045)
      && (month <= 2 && s == 0 ==> DayNumber(year, month, day) == day + (153 * (month + 9) + 2) / 5 - 365 - 32045)
  {
    if month <= 2 {
      assert (14 - month) / 12 == 1;
    } else {
      assert (14 - month) / 12 == 0;
    }
  }

  lemma ShadowMonth(date: Date)
    requires OnCalendar(date) && date.year > LAST_YEAR && !LostByWrapping(date)
    ensures var s := ShadowYear(date.year);
      && (date.month <= 2 ==> InMarchMonth(s - 1, date.month + 9, date.day))
      && (date.month >= 3 ==> InMarchMonth(s, date.month - 3, date.day))
  {
    var y, s := date.year, ShadowYear(date.year);
    assert s == y + 4800 - TWO_TO_THE_32;
    assert s % 4 == y % 4;
  }

  lemma WrappedReadBack(date: Date)
    requires OnCalendar(date) && date.year > LAST_YEAR && !LostByWrapping(date)
    ensures DateFromDayNumber(DayNumber(date.year, date.month, date.day)) == date
  {
    hide DayNumber, NumeralOf, DateOfNumeral, YearDays, InMarchMonth, LostByWrapping;
    var y, m := ShadowMarchOf(date);
    InverseFromMarch(y, m, date.day);
  }

  lemma ShadowMarchOf(date: Date) returns (y: int, m: int)
    requires OnCalendar(date) && date.year > LAST_YEAR && !LostByWrapping(date)
    ensures 0 <= y <= LAST_YEAR + 4800 && InMarchMonth(y, m, date.day)
    ensures DayNumber(date.year, date.month, date.day) + 32044 == YearDays(y) + (153 * m + 2) / 5 + date.day - 1
    ensures ToUint32(y - 4800 + (m + 2) / 12) == date.year && (m + 2) % 12 + 1 == date.month
  {
    var s := ShadowYear(date.year);
    ShadowMonth(date);
    if date.month <= 2 {
      y, m := s - 1, date.month + 9;
    } else {
      y, m := s, date.month - 3;
    }
    ShadowNumber(date, s, y, m);
    ShadowJanuary(date.year, s, date.month, y, m);
  }

  lemma ShadowNumber(date: Date, s: int, y: int, m: int)
    requires OnCalendar(date) && date.year > LAST_YEAR && s == ShadowYear(date.year) && 0 <= y
    requires y == if date.month <= 2 then s - 1 else s
    requires m == if date.month <= 2 then date.month + 9 else date.month - 3
    ensures DayNumber(date.year, date.month, date.day) + 32044 == YearDays(y) + (153 * m + 2) / 5 + date.day - 1
    ensures s == date.year + 4800 - TWO_TO_THE_32
  {
    WrappedFromMarch(date.year, date.month, date.day);
  }

  lemma ShadowJanuary(year: uint32, s: int, month: int, y: int, m: int)
    requires 1 <= month <= 12 && s == year + 4800 - TWO_TO_THE_32
    requires y == if month <= 2 then s - 1 else s
    requires m == if month <= 2 then month + 9 else month - 3
    ensures ToUint32(y - 4800 + (m + 2) / 12) == year && (m + 2) % 12 + 1 == month
  {
  }

  lemma WrappedLoss(date: Date)
    requires OnCalendar(date) && LostByWrapping(date)
    ensures DateFromDayNumber(DayNumber(date.year, date.month, date.day)) != date
  {
    if ShadowYear(date.year) == 0 && date.month <= 2 {
      WrappedLossInFirstYear(date);
    } else {
      WrappedLossOfLeapDay(date);
    }
  }

  lemma WrappedLossInFirstYear(date: Date)
    requires OnCalendar(date) && date.year > LAST_YEAR && ShadowYear(date.year) == 0 && date.month <= 2
    ensures DateFromDayNumber(DayNumber(date.year, date.month, date.day)) != date
  {
    hide DayNumber, NumeralOf, DateOfNumeral;
    WrappedFromMarch(date.year, date.month, date.day);
    BeforeTheFirstCycle(DayNumber(date.year, date.month, date.day) + 32044, date.month, date.day);
  }

  /** A leap day that the shadow year lacks comes back as the first of March. */
  lemma WrappedLossOfLeapDay(date: Date)
    requires OnCalendar(date) && date.year > LAST_YEAR && date.month == 2 && date.day == 29
    requires ShadowYear(date.year) % 100 == 0 && ShadowYear(date.year) % 400 != 0
    ensures DateFromDayNumber(DayNumber(date.year, date.month, date.day)) == Date(date.year, 3, 1)
  {
    hide DayNumber, NumeralOf, DateOfNumeral, YearDays;
    var s := ShadowYear(date.year);
    ShadowFirstOfMarch(date.year);
    assert InMarchMonth(s, 0, 1);
    InverseFromMarch(s, 0, 1);
  }

  lemma ShadowFirstOfMarch(year: uint32)
    requires year > LAST_YEAR && ShadowYear(year) % 100 == 0 && ShadowYear(year) % 400 != 0
    ensures var s := ShadowYear(year);
      && DayNumber(year, 2, 29) + 32044 == YearDays(s) + (153 * 0 + 2) / 5 + 1 - 1
      && ToUint32(s - 4800 + (0 + 2) / 12) == year
  {
    hide DayNumber, YearDays, ToUint32;
    var s := ShadowYear(year);
    WrappedFromMarch(year, 2, 29);
    assert s >= 1;
    ShadowLeapDay(s);
    ShadowBack(year, s);
  }

  lemma ShadowBack(year: uint32, s: int)
    requires s == year + 4800 - TWO_TO_THE_32
    ensures ToUint32(s - 4800) == year
  {
  }

  lemma ShadowLeapDay(s: int)
    requires 1 <= s < 4800 && s % 100 == 0 && s % 400 != 0
    ensures 29 + 337 + YearDays(s - 1) - 1 == YearDays(s)
  {
    assert s % 4 == 0;
    assert s / 4 == (s - 1) / 4 + 1 && s / 100 == (s - 1) / 100 + 1 && s / 400 == (s - 1) / 400;
  }

  lemma BeforeTheFirstCycle(j: int, month: int, day: int)
    requires 1 <= month <= 2 && 1 <= day <= 31 && (month == 2 ==> day <= 29)
    requires j == day + (153 * (month + 9) + 2) / 5 - 366
    ensures DateOfNumeral(NumeralOf(j)).month != month || DateOfNumeral(NumeralOf(j)).day != day
  {
    assert j == if month == 1 then day - 60 else day - 29;
    NumeralBeforeTheFirstCycle(j);
    var n := NumeralOf(j);
    if month == 1 {
      if day <= 28 {
        NegativeDay(n, -2, day + 1);
      } else {
        NegativeDay(n, -1, day - 29);
      }
    } else {
      if day <= 28 {
        NegativeDay(n, -1, day + 2);
      } else {
        NegativeDay(n, 0, 0);
      }
    }
  }

  lemma NumeralBeforeTheFirstCycle(j: int)
    requires -59 <= j <= 0
    ensures NumeralOf(j) == Numeral(0, 0, 0, 0, j)
  {
    hide Quot, Rem;
    SmallQuots(j);
    assert (0 + 1) * 3 == 3;
  }

  lemma SmallQuots(j: int)
    requires -59 <= j <= 0
    ensures Quot(j, 146097) == Quot(j, 36524) == Quot(j, 1461) == Quot(j, 365) == Quot(3, 4) == 0
    ensures Rem(j, 146097) == Rem(j, 1461) == j
  {
  }

  lemma NegativeDay(n: Numeral, m: int, d: int)
    requires -59 <= n.da <= 0 && -2 <= m <= 0 && 0 <= d <= 31
    requires (n.da * 5 + 308) / 153 - 2 == m && n.da - (m + 4) * 153 / 5 + 122 == d
    ensures DateOfNumeral(n).month == m + 3 && DateOfNumeral(n).day == d + 1
  {
    RoundUp(d);
    MonthFits(m);
    hide ToUint32;
  }

  /** Law: exactly which dates survive the conversion there and back. */
  lemma DateRoundTripExact(date: Date)
    requires OnCalendar(date)
    ensures DateFromDayNumber(DayNumber(date.year, date.month, date.day)) == date <==> !LostByWrapping(date)
  {
    if date.year <= LAST_YEAR {
      DateRoundTrip(date);
    } else if LostByWrapping(date) {
      WrappedLoss(date);
    } else {
      WrappedReadBack(date);
    }
  }

  // ---------------------------------------------------------------- order, successor, weekday

  predicate Before(d: Date, e: Date) {
    d.year < e.year || (d.year == e.year && (d.month < e.month || (d.month == e.month && d.day < e.day)))
  }

  lemma NextWeekday(n: int, sundayFirst: bool)
    requires 0 <= n
    ensures DayOfWeek(n + 1, sundayFirst) == (DayOfWeek(n, sundayFirst) + 1) % 7
  {
    WeekdayOf(n);
    WeekdayOf(n + 1);
    hide Rem, ToUint32;
    assert (n + 1) % 7 == if n % 7 == 6 then 0 else n % 7 + 1;
  }

  lemma WeekdayOf(n: int)
    requires 0 <= n
    ensures ToUint32(Rem(n, 7)) == n % 7
    ensures n % 7 < 6 ==> ToUint32(n % 7 + 1) == n % 7 + 1
  {
  }

  /** Law: the next date has the next number and the next weekday. */
  lemma TomorrowIsNext(date: Date, sundayFirst: bool)
    requires OnCalendar(date) && date.year <= LAST_YEAR && date != Date(LAST_YEAR, 12, 31)
    ensures OnCalendar(Tomorrow(date)) && Before(date, Tomorrow(date))
    ensures var next := Tomorrow(date);
      var today, tomorrow := DayNumber(date.year, date.month, date.day), DayNumber(next.year, next.month, next.day);
      tomorrow == today + 1 && DayOfWeek(tomorrow, sundayFirst) == (DayOfWeek(today, sundayFirst) + 1) % 7
  {
    hide DayNumber, DayOfWeek, CountedDay, Tomorrow, Before, DaysInYear;
    TomorrowIsCounted(date);
    TomorrowIsLater(date);
    ConsecutiveNumbers(date, Tomorrow(date));
    NextWeekday(DayNumber(date.year, date.month, date.day), sundayFirst);
  }

  lemma TomorrowIsLater(date: Date)
    requires OnCalendar(date) && date.year <= LAST_YEAR && date != Date(LAST_YEAR, 12, 31)
    ensures Before(date, Tomorrow(date))
  {
    hide OnCalendar, DaysInMonth;
  }

  lemma ConsecutiveNumbers(date: Date, next: Date)
    requires OnCalendar(date) && OnCalendar(next) && date.year <= LAST_YEAR && next.year <= LAST_YEAR
    requires CountedDay(next) == CountedDay(date) + 1
    ensures DayNumber(next.year, next.month, next.day) == DayNumber(date.year, date.month, date.day) + 1
    ensures DayNumber(date.year, date.month, date.day) >= 0
  {
    hide DayNumber, CountedDay, OnCalendar;
    DayNumberUnwrapped(date);
    DayNumberUnwrapped(next);
    CountedDayIsPositive(date);
  }

  lemma {:induction false} EarlierMonths(year: uint32, m: int, n: int)
    requires 1 <= m < n <= 12
    ensures DaysBeforeMonth(year, m) + DaysInMonth(year, m) <= DaysBeforeMonth(year, n)
    decreases n
  {
    if m + 1 < n {
      EarlierMonths(year, m, n - 1);
    }
  }

  lemma {:induction false} EarlierYears(y: uint32, z: uint32)
    requires 1 <= y < z
    ensures DaysBeforeYear(y) + DaysInYear(y) <= DaysBeforeYear(z)
    decreases z
  {
    if y + 1 < z {
      EarlierYears(y, z - 1);
    }
  }

  lemma CountedInOrder(d: Date, e: Date)
    requires OnCalendar(d) && OnCalendar(e) && Before(d, e)
    ensures CountedDay(d) < CountedDay(e)
  {
    if d.year < e.year {
      EarlierYears(d.year, e.year);
      YearIsTwelveMonths(d.year);
      if d.month < 12 {
        EarlierMonths(d.year, d.month, 12);
      }
      MonthOffsets(e.year);
    } else if d.month < e.month {
      EarlierMonths(d.year, d.month, e.month);
    }
  }

  /** Law: day numbers order dates exactly as (year, month, day) does. */
  lemma DayNumberInOrder(d: Date, e: Date)
    requires OnCalendar(d) && OnCalendar(e) && d.year <= LAST_YEAR && e.year <= LAST_YEAR
    ensures Before(d, e) <==> DayNumber(d.year, d.month, d.day) < DayNumber(e.year, e.month, e.day)
  {
    DayNumberUnwrapped(d);
    DayNumberUnwrapped(e);
    if Before(d, e) {
      CountedInOrder(d, e);
    } else if d != e {
      assert Before(e, d);
      CountedInOrder(e, d);
    }
  }

  /**
    Law: consecutive January firsts are `days_in_year_gregorian` apart.  Up to the
    last unwrapped year the exceptions are year 0, which the length function calls
    a common year, and the last year itself; behind it they are the years whose
    shadow year has another length.
   */
  lemma JanuaryFirsts(year: uint32)
    requires year + 1 < TWO_TO_THE_32
    ensures DayNumber(year + 1, 1, 1) - DayNumber(year, 1, 1) == DaysInYear(year)
       <==> if year <= LAST_YEAR then year != 0 && year != LAST_YEAR else DaysInYear(ShadowYear(year)) == DaysInYear(year)
  {
    if year < LAST_YEAR {
      if year != 0 {
        DayNumberUnwrapped(Date(year, 1, 1));
        DayNumberUnwrapped(Date(year + 1, 1, 1));
      }
    } else if year == LAST_YEAR {
      LastJanuaryFirst();
    } else {
      ShadowJanuaryFirsts(year);
    }
  }

  lemma LastJanuaryFirst()
    ensures DayNumber(LAST_YEAR + 1, 1, 1) < DayNumber(LAST_YEAR, 1, 1)
  {
    DayNumberWrapped(Date(LAST_YEAR + 1, 1, 1));
    DayNumberUnwrapped(Date(LAST_YEAR, 1, 1));
    CountedInOrder(Date(5000, 1, 1), Date(LAST_YEAR, 1, 1));
    DayNumberUnwrapped(Date(5000, 1, 1));
    assert DayNumber(5000, 1, 1) > 2_000_000;
  }

  lemma ShadowJanuaryFirsts(year: uint32)
    requires LAST_YEAR < year < TWO_TO_THE_32 - 1
    ensures DayNumber(year + 1, 1, 1) - DayNumber(year, 1, 1) == DaysInYear(ShadowYear(year))
  {
    var s := ShadowYear(year);
    WrappedFromMarch(year, 1, 1);
    WrappedFromMarch(year + 1, 1, 1);
    hide DayNumber;
    if s > 0 {
      LeapStep(s);
    }
  }

  /** The leap-day terms grow by one exactly in a leap year. */
  lemma LeapStep(s: int)
    requires 1 <= s < 4800
    ensures YearDays(s) - YearDays(s - 1) == DaysInYear(s)
  {
    assert s / 4 == (s - 1) / 4 + if s % 4 == 0 then 1 else 0;
    assert s / 100 == (s - 1) / 100 + if s % 100 == 0 then 1 else 0;
    assert s / 400 == (s - 1) / 400 + if s % 400 == 0 then 1 else 0;
    assert s % 2 == 1 ==> s % 4 != 0;
    assert s % 100 == 0 ==> s % 4 == 0;
    assert s % 400 == 0 ==> s % 100 == 0;
  }

  /** Law: the validity test accepts the dates of the calendar and every day 0. */
  lemma ValidityTest(year: uint32, month: uint32, day: uint32)
    requires 1 <= month <= 12
    ensures IsValidGregorianDate(year, month, day) <==> OnCalendar(Date(year, month, day)) || (year >= 1 && day == 0)
  {
    assert LEAP_DAYS_IN_MONTH[month - 1] == NORMAL_DAYS_IN_MONTH[month - 1] || month == 2;
  }

  // ---------------------------------------------------------------- the UNIX epoch

  predicate InUnixEpochRange(year: uint32, month: uint32, day: uint32, hour: uint32, minute: uint32, second: uint32) {
    if month == 0 || day == 0 then false
    else if UNIX_EPOCH_MIN_YEARS <= year < UNIX_EPOCH_MAX_YEARS then true
    else if year < UNIX_EPOCH_MIN_YEARS then false
    else if year == UNIX_EPOCH_MAX_YEARS then
      if month > 1 then false
      else if day > 19 then false
      else if day < 19 then true
      else ToUint32(hour * 60 * 60 + minute * 60 + second) <= 3 * 60 * 60 + 14 * 60 + 7
    else false
  }

  /** Seconds since 1970-01-01T00:00:00. */
  function UnixTime(date: Date, hour: int, minute: int, second: int): int
    requires OnCalendar(date)
  {
    (DayNumber(date.year, date.month, date.day) - UNIX_EPOCH_DAY) * 86400 + hour * 3600 + minute * 60 + second
  }

  /** Law: the range test is the 31-bit test on the computed UNIX time. */
  lemma EpochRangeIsArithmetic(date: Date, hour: int, minute: int, second: int)
    requires OnCalendar(date) && 0 <= hour < 24 && 0 <= minute < 60 && 0 <= second < 60
    ensures InUnixEpochRange(date.year, date.month, date.day, hour, minute, second)
       <==> 0 <= UnixTime(date, hour, minute, second) < 0x8000_0000
  {
    if date.year > LAST_YEAR {
      DayNumberWrapped(date);
      return;
    }
    EpochDays(date);
    hide DayNumber, DaysInMonth;
    assert 0 <= hour * 3600 + minute * 60 + second < 86400;
  }

  /** The first and the last day of the range. */
  lemma EpochDays(date: Date)
    requires OnCalendar(date) && date.year <= LAST_YEAR
    ensures var n := DayNumber(date.year, date.month, date.day) - UNIX_EPOCH_DAY;
      && (n < 0 <==> Before(date, Date(1970, 1, 1)))
      && (n < 24855 <==> Before(date, Date(2038, 1, 19)))
      && (n > 24855 <==> Before(Date(2038, 1, 19), date))
  {
    assert DayNumber(1970, 1, 1) == UNIX_EPOCH_DAY && DayNumber(2038, 1, 19) == UNIX_EPOCH_DAY + 24855;
    hide DayNumber, Before;
    DayNumberInOrder(date, Date(1970, 1, 1));
    DayNumberInOrder(date, Date(2038, 1, 19));
    DayNumberInOrder(Date(2038, 1, 19), date);
  }

  // ---------------------------------------------------------------- periods

  /** `year_month_to_months`; the subtraction of 1 is unsigned. */
  function YearMonthToMonths(yearMonth: uint32): uint32 {
    if yearMonth == 0 then 0
    else
      var years := yearMonth / 100;
      var full := if years < CALENDAR_YY_PART_YEAR then years + 2000 else if years < 100 then years + 1900 else years;
      ToUint32(full * 12 + yearMonth % 100 - 1)
  }

  function MonthsToYearMonth(months: uint32): uint32 {
    if months == 0 then 0
    else
      var years := months / 12;
      var full := if years < 100 then (if years < CALENDAR_YY_PART_YEAR then years + 2000 else years + 1900) else years;
      ToUint32(full * 100 + months % 12 + 1)
  }

  /** Law: exactly the zero period and full periods with a month 1..12 survive. */
  lemma PeriodRoundTrip(yearMonth: uint32)
    ensures MonthsToYearMonth(YearMonthToMonths(yearMonth)) == yearMonth
       <==> yearMonth == 0 || (yearMonth / 100 >= 100 && 1 <= yearMonth % 100 <= 12)
  {
    var years, month := yearMonth / 100, yearMonth % 100;
    assert yearMonth == 100 * years + month;
    if yearMonth != 0 && years >= 100 {
      assert YearMonthToMonths(yearMonth) == years * 12 + month - 1;
      if 1 <= month <= 12 {
        assert (years * 12 + month - 1) / 12 == years;
      } else {
        BadMonth(years, month);
      }
    } else if yearMonth != 0 {
      ShortYear(yearMonth);
    }
  }

  lemma BadMonth(years: int, month: int)
    requires 100 <= years && 0 <= month <= 99 && !(1 <= month <= 12) && 100 * years + month < TWO_TO_THE_32
    ensures MonthsToYearMonth(years * 12 + month - 1) != 100 * years + month
  {
    var y, m := (years * 12 + month - 1) / 12, (years * 12 + month - 1) % 12;
    assert 12 * y + m == years * 12 + month - 1;
    assert y == years - 1 || (years + 1 <= y <= years + 8);
  }

  lemma ShortYear(yearMonth: uint32)
    requires 0 < yearMonth && yearMonth / 100 < 100
    ensures MonthsToYearMonth(YearMonthToMonths(yearMonth)) > 10000 > yearMonth
  {
  }
}
