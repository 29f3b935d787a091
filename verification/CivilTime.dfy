/**
 Unix seconds to calendar date and time.

 The reference is the calendar itself: year and month lengths summed one by one.
 `CivilFromDays` is the program's chain of divisions, and the results below tie
 the two together for every day count, including the negative ones where the
 program is off by a day.
 */
module CivilTime {

  // ----- The Gregorian calendar -----

  datatype Date = Date(year: int, month: int, day: int)

  predicate Leap(y: int) { y % 400 == 0 || (y % 4 == 0 && y % 100 != 0) }

  function YearLength(y: int): int { if Leap(y) then 366 else 365 }

  function DaysInMonth(y: int, m: int): int
  {
    if m in {1, 3, 5, 7, 8, 10, 12} then 31
    else if m in {4, 6, 9, 11} then 30
    else if m == 2 then if Leap(y) then 29 else 28
    else 0
  }

  predicate Real(d: Date) { 1 <= d.month <= 12 && 1 <= d.day <= DaysInMonth(d.year, d.month) }

  /** Days from 1 January of year 0 to 1 January of `y`, adding up whole years. */
  function DaysBeforeYear(y: int): int
    decreases if y >= 0 then y else -y
  {
    if y == 0 then 0
    else if y > 0 then DaysBeforeYear(y - 1) + YearLength(y - 1)
    else DaysBeforeYear(y + 1) - YearLength(y)
  }

  /** Days from 1 January to the first of month `m`, adding up whole months. */
  function DaysBeforeMonth(y: int, m: int): int
    decreases m
  {
    if m <= 1 then 0 else DaysBeforeMonth(y, m - 1) + DaysInMonth(y, m - 1)
  }

  /** Days since 1 January of year 0. */
  function DayNumber(d: Date): int
  {
    DaysBeforeYear(d.year) + DaysBeforeMonth(d.year, d.month) + d.day - 1
  }

  predicate Before(a: Date, b: Date)
  {
    a.year < b.year
    || (a.year == b.year && (a.month < b.month || (a.month == b.month && a.day < b.day)))
  }

  lemma {:induction false} YearsAscend(y: int, z: int)
    requires y <= z
    ensures DaysBeforeYear(y) + 365 * (z - y) <= DaysBeforeYear(z)
    decreases z - y
  {
    if y < z { YearsAscend(y + 1, z); }
  }

  lemma {:induction false} MonthsAscend(y: int, m: int, n: int)
    requires 1 <= m < n <= 13
    ensures DaysBeforeMonth(y, m) + DaysInMonth(y, m) <= DaysBeforeMonth(y, n)
    decreases n - m
  {
    if m + 1 < n { MonthsAscend(y, m, n - 1); }
  }

  lemma {:induction false} MonthTable(y: int)
    ensures DaysBeforeMonth(y, 1) == 0
    ensures DaysBeforeMonth(y, 2) == 31
    ensures DaysBeforeMonth(y, 3) == 31 + DaysInMonth(y, 2)
    ensures forall m :: 3 <= m <= 12 ==> DaysBeforeMonth(y, m) == DaysBeforeMonth(y, 3) + (153 * (m - 3) + 2) / 5
    ensures DaysBeforeMonth(y, 13) == YearLength(y)
  {
  }

  /** Day numbers order real dates as the calendar does. */
  lemma DayNumberAscends(a: Date, b: Date)
    requires Real(a) && Real(b) && Before(a, b)
    ensures DayNumber(a) < DayNumber(b)
  {
    if a.year < b.year {
      if a.month < 12 { MonthsAscend(a.year, a.month, 13); }
      MonthTable(a.year);
      assert DayNumber(a) < DaysBeforeYear(a.year) + YearLength(a.year) == DaysBeforeYear(a.year + 1);
      YearsAscend(a.year + 1, b.year);
      if b.month > 1 { MonthsAscend(b.year, 1, b.month); }
    } else if a.month < b.month {
      MonthsAscend(a.year, a.month, b.month);
    }
  }

  lemma DayNumberIsInjective(a: Date, b: Date)
    requires Real(a) && Real(b) && DayNumber(a) == DayNumber(b)
    ensures a == b
  {
    if Before(a, b) {
      DayNumberAscends(a, b);
    } else if Before(b, a) {
      DayNumberAscends(b, a);
    }
  }

  lemma FoursStep(x: int)
    ensures (x + 4) / 4 == (x + 3) / 4 + if x % 4 == 0 then 1 else 0
  {
  }

  lemma HundredsStep(x: int)
    ensures (x + 100) / 100 == (x + 99) / 100 + if x % 100 == 0 then 1 else 0
  {
  }

  lemma FourHundredsStep(x: int)
    ensures (x + 400) / 400 == (x + 399) / 400 + if x % 400 == 0 then 1 else 0
  {
  }

  lemma MultiplesStep(x: int)
    ensures (x + 4) / 4 == (x + 3) / 4 + if x % 4 == 0 then 1 else 0
    ensures (x + 100) / 100 == (x + 99) / 100 + if x % 100 == 0 then 1 else 0
    ensures (x + 400) / 400 == (x + 399) / 400 + if x % 400 == 0 then 1 else 0
  {
    FoursStep(x);
    HundredsStep(x);
    FourHundredsStep(x);
  }

  lemma LeapCount(x: int)
    ensures YearLength(x) == 365 + (if x % 4 == 0 then 1 else 0) - (if x % 100 == 0 then 1 else 0)
                             + (if x % 400 == 0 then 1 else 0)
  {
  }

  /** Days before year `y` by counting multiples of 4, 100 and 400. */
  function ClosedDays(y: int): int { 365 * y + (y + 3) / 4 - (y + 99) / 100 + (y + 399) / 400 }

  lemma ClosedStep(y: int)
    ensures ClosedDays(y + 1) == ClosedDays(y) + YearLength(y)
  {
    MultiplesStep(y);
    LeapCount(y);
  }

  lemma {:induction false} DaysBeforeYearClosed(y: int)
    ensures DaysBeforeYear(y) == ClosedDays(y)
    decreases if y >= 0 then y else -y
  {
    if y > 0 {
      DaysBeforeYearClosed(y - 1);
      ClosedStep(y - 1);
    } else if y < 0 {
      DaysBeforeYearClosed(y + 1);
      ClosedStep(y);
    }
  }

  // ----- The program's arithmetic -----

  const UNIX_EPOCH_Z: int := 719_468

  function Era(z: int): int { (if z >= 0 then z else z - 146_096) / 146_097 }

  function DayOfEra(z: int): (r: int)
    ensures 0 <= r
  {
    z - Era(z) * 146_097
  }

  function YearOfEra(dayOfEra: int): int
  {
    (dayOfEra - dayOfEra / 1_460 + dayOfEra / 36_524 - dayOfEra / 146_096) / 365
  }

  /** Days of an era before its March-based year `y`. */
  function EraDays(y: int): int { 365 * y + y / 4 - y / 100 }

  /** The date `dayOfYear` days after 1 March of `year`, by the five-month cycle of month lengths. */
  function FromMarch(year: int, dayOfYear: int): Date
  {
    var monthPart := (5 * dayOfYear + 2) / 153;
    var day := dayOfYear - (153 * monthPart + 2) / 5 + 1;
    var month := monthPart + if monthPart < 10 then 3 else -9;
    Date(year + if month <= 2 then 1 else 0, month, day)
  }

  function DateInEra(era: int, dayOfEra: int): Date
  {
    var yearOfEra := YearOfEra(dayOfEra);
    FromMarch(yearOfEra + era * 400, dayOfEra - EraDays(yearOfEra))
  }

  /** The date of day `z` counted from 1 March of year 0. */
  function CivilFromDays(z: int): Date
  {
    DateInEra(Era(z), DayOfEra(z))
  }

  /** Split a day of an era into centuries, four-year cycles, years and a day of the year. */
  lemma SplitEra(d: int) returns (c: int, q: int, k: int, r: int)
    requires 0 <= d <= 146_096
    ensures 0 <= c <= 3 && 0 <= q <= 24 && 0 <= k <= 3 && 0 <= r <= 365
    ensures d == 36_524 * c + 1_461 * q + 365 * k + r
    ensures r == 365 ==> k == 3 && (q < 24 || c == 3)
    ensures d / 36_524 - d / 146_096 == c
  {
    c := if d == 146_096 then 3 else d / 36_524;
    var inCentury := d - 36_524 * c;
    q := if inCentury == 36_524 then 24 else inCentury / 1_461;
    var inCycle := inCentury - 1_461 * q;
    k := if inCycle == 1_460 then 3 else inCycle / 365;
    r := inCycle - 365 * k;
  }

  lemma EraDaysOfSplit(c: int, q: int, k: int)
    requires 0 <= q <= 24 && 0 <= k <= 3
    ensures EraDays(100 * c + 4 * q + k) == 36_524 * c + 1_461 * q + 365 * k
  {
    var y := 100 * c + 4 * q + k;
    assert y / 4 == 25 * c + q;
    assert y / 100 == c;
  }

  /** The first era: the division chain finds the year, whose length depends on the February at its end. */
  lemma YearOfFirstEra(doe: int)
    requires 0 <= doe < 146_097
    ensures 0 <= YearOfEra(doe) < 400
    ensures 0 <= doe - EraDays(YearOfEra(doe)) < YearLength(YearOfEra(doe) + 1)
  {
    var c, q, k, r := SplitEra(doe);
    EraDaysOfSplit(c, q, k);
    var y := 100 * c + 4 * q + k;
    var t := 24 * c + q + 365 * k + r;
    assert doe / 1_460 == 25 * c + q + t / 1_460;
    assert 0 <= r - t / 1_460 <= 364;
    assert YearOfEra(doe) == (365 * y + (r - t / 1_460)) / 365 == y;
    if r == 365 {
      assert y + 1 == 100 * c + 4 * (q + 1);
    }
  }

  /** One era too far: the year lands in the second cycle. */
  lemma YearOfSecondEra(doe: int)
    requires 146_097 <= doe < 292_193
    ensures 400 <= YearOfEra(doe) < 800
    ensures 0 <= doe - EraDays(YearOfEra(doe)) <= 366
  {
    var f := doe - 146_096;
    var c, q, k, r := SplitEra(f);
    EraDaysOfSplit(c, q, k);
    var y := 100 * c + 4 * q + k;
    var carry := SecondEraCarry(f, c, q, k, r);
    assert YearOfEra(doe) == (146_000 + 365 * y + r - 1 - carry) / 365;
    EraDaysShift(y);
    if r - 1 - carry >= 0 {
      assert YearOfEra(doe) == 400 + y;
    } else {
      assert YearOfEra(doe) == 399 + y;
      EraDaysShift(y - 1);
    }
  }

  lemma SecondEraCarry(f: int, c: int, q: int, k: int, r: int) returns (carry: int)
    requires 0 <= c <= 3 && 0 <= q <= 24 && 0 <= k <= 3 && 0 <= r <= 365
    requires f == 36_524 * c + 1_461 * q + 365 * k + r
    ensures 0 <= carry <= 1 && (r <= 1 ==> carry == 0)
    ensures (146_096 + f) / 1_460 == 100 + 25 * c + q + carry
    ensures (146_096 + f) / 36_524 == 4 + f / 36_524
    ensures (146_096 + f) / 146_096 == 1 + f / 146_096
  {
    var t := 24 * c + q + 365 * k + r;
    carry := (t + 96) / 1_460;
    assert 146_096 + f == 1_460 * (100 + 25 * c + q) + (t + 96);
  }

  lemma EraDaysShift(y: int)
    ensures EraDays(y + 400) == EraDays(y) + 146_096
    ensures 365 <= EraDays(y + 1) - EraDays(y) <= 366
  {
    assert (y + 400) / 4 == y / 4 + 100;
    assert (y + 400) / 100 == y / 100 + 4;
  }

  // ----- Correctness of the date -----

  lemma MarchFirst(y: int)
    ensures DayNumber(Date(y, 3, 1)) == 365 * y + y / 4 - y / 100 + y / 400 + 60
  {
    DaysBeforeYearClosed(y);
    MultiplesStep(y);
    LeapCount(y);
    MonthTable(y);
    assert (y + 4) / 4 == y / 4 + 1 && (y + 100) / 100 == y / 100 + 1 && (y + 400) / 400 == y / 400 + 1;
  }

  lemma FromMarchDayNumber(year: int, doy: int)
    requires 0 <= doy <= 366
    ensures DayNumber(FromMarch(year, doy)) == DayNumber(Date(year, 3, 1)) + doy
  {
    var monthPart := (5 * doy + 2) / 153;
    assert 0 <= monthPart <= 11;
    MonthTable(year);
    if monthPart < 10 {
      assert DaysBeforeMonth(year, monthPart + 3) == DaysBeforeMonth(year, 3) + (153 * monthPart + 2) / 5;
    } else {
      MonthTable(year + 1);
      DaysBeforeYearClosed(year);
      DaysBeforeYearClosed(year + 1);
      ClosedStep(year);
    }
  }

  lemma FromMarchIsReal(year: int, doy: int)
    requires 0 <= doy <= 366
    ensures Real(FromMarch(year, doy)) <==> doy < YearLength(year + 1)
  {
  }

  /** The month cycle keeps the day count, and is a real date except past the end of February. */
  lemma FromMarchCounts(year: int, doy: int)
    requires 0 <= doy <= 366
    ensures DayNumber(FromMarch(year, doy)) == DayNumber(Date(year, 3, 1)) + doy
    ensures Real(FromMarch(year, doy)) <==> doy < YearLength(year + 1)
  {
    FromMarchDayNumber(year, doy);
    FromMarchIsReal(year, doy);
  }

  lemma EraIsFloor(z: int)
    ensures z >= 0 ==> 0 <= DayOfEra(z) < 146_097
    ensures z < 0 && z % 146_097 == 146_096 ==> DayOfEra(z) == 146_096
    ensures z < 0 && z % 146_097 != 146_096 ==> 146_097 <= DayOfEra(z) < 292_193
  {
    var e := z / 146_097;
    assert z == 146_097 * e + z % 146_097;
    if z < 0 {
      assert Era(z) == if z % 146_097 == 146_096 then e else e - 1;
    }
  }

  /** The date computed from an era, a year of the era and a day of the year counts all three. */
  lemma EraDateCounts(era: int, yoe: int, doy: int)
    requires 0 <= yoe < 800 && 0 <= doy <= 366
    ensures DayNumber(FromMarch(yoe + era * 400, doy))
         == 146_097 * era + EraDays(yoe) + doy + 60 + if yoe < 400 then 0 else 1
    ensures Real(FromMarch(yoe + era * 400, doy)) <==> doy < YearLength(yoe + 1)
  {
    var year := yoe + era * 400;
    FromMarchCounts(year, doy);
    MarchFirst(year);
    CycleDays(yoe, era);
    LeapRepeats(yoe + 1, era);
    assert year + 1 == (yoe + 1) + era * 400;
  }

  lemma DateInRightEra(era: int, doe: int)
    requires 0 <= doe < 146_097
    ensures Real(DateInEra(era, doe)) && DayNumber(DateInEra(era, doe)) == era * 146_097 + doe + 60
  {
    YearOfFirstEra(doe);
    var yoe := YearOfEra(doe);
    EraDateCounts(era, yoe, doe - EraDays(yoe));
  }

  lemma DateInLowEra(era: int, doe: int)
    requires 146_097 <= doe < 292_193
    ensures DayNumber(DateInEra(era, doe)) == era * 146_097 + doe + 61
  {
    YearOfSecondEra(doe);
    var yoe, doy := YearOfEra(doe), doe - EraDays(YearOfEra(doe));
    EraDateCounts(era, yoe, doy);
    assert DateInEra(era, doe) == FromMarch(yoe + era * 400, doy);
  }

  /** The computed date counts `z` days from 1 March of year 0, or `z + 1` when the era is one too low. */
  lemma CivilDayNumber(z: int)
    ensures z >= 0 || z % 146_097 == 146_096 ==>
              Real(CivilFromDays(z)) && DayNumber(CivilFromDays(z)) == z + 60
    ensures !(z >= 0 || z % 146_097 == 146_096) ==> DayNumber(CivilFromDays(z)) == z + 61
  {
    EraIsFloor(z);
    if DayOfEra(z) < 146_097 {
      DateInRightEra(Era(z), DayOfEra(z));
    } else {
      DateInLowEra(Era(z), DayOfEra(z));
    }
  }

  lemma RemaindersRepeat(y: int, era: int)
    ensures (y + era * 400) % 400 == y % 400
    ensures (y + era * 400) % 100 == y % 100
    ensures (y + era * 400) % 4 == y % 4
  {
    CycleDays(y, era);
  }

  lemma LeapRepeats(y: int, era: int)
    ensures Leap(y + era * 400) == Leap(y)
  {
    RemaindersRepeat(y, era);
  }

  lemma CycleDays(y: int, era: int)
    ensures (y + era * 400) / 4 == y / 4 + 100 * era
    ensures (y + era * 400) / 100 == y / 100 + 4 * era
    ensures (y + era * 400) / 400 == y / 400 + era
  {
  }

  /** For every day from 1 March of year 0 the program finds the one real date with that day number. */
  lemma CivilIsTheDate(z: int, d: Date)
    requires z >= 0
    ensures d == CivilFromDays(z) <==> Real(d) && DayNumber(d) == z + 60
  {
    CivilDayNumber(z);
    if Real(d) && DayNumber(d) == z + 60 {
      DayNumberIsInjective(d, CivilFromDays(z));
    }
  }

  /** Exactly which day counts the program converts correctly. */
  lemma CivilIsCorrectIff(z: int)
    ensures (Real(CivilFromDays(z)) && DayNumber(CivilFromDays(z)) == z + 60)
       <==> (z >= 0 || z % 146_097 == 146_096)
  {
    CivilDayNumber(z);
  }

  /** Two days before 1 March of year 0 is 28 February, but the program answers 29 February. */
  lemma CivilIsWrongTwoDaysEarlier()
    ensures CivilFromDays(-2) == Date(0, 2, 29)
    ensures DayNumber(Date(0, 2, 28)) == -2 + 60
  {
    assert Era(-2) == -2 && DayOfEra(-2) == 292_192;
    assert YearOfEra(292_192) == 799 && EraDays(799) == 291_827;
    MonthTable(0);
  }

  /** The last sixty-one wrong or early days: all of January and February of year 0 is still reached. */
  lemma DaysOfYearZero(z: int)
    requires -61 <= z < 0
    ensures CivilFromDays(z).year == 0 && Real(CivilFromDays(z))
  {
    if z == -1 {
      assert Era(z) == -1 && DayOfEra(z) == 146_096;
      assert YearOfEra(146_096) == 399 && EraDays(399) == 145_731;
      FromMarchCounts(-1, 365);
    } else {
      assert Era(z) == -2 && DayOfEra(z) == z + 292_194;
      assert YearOfEra(z + 292_194) == 799 && EraDays(799) == 291_827;
      FromMarchCounts(-1, z + 367);
    }
  }

  lemma FromMarchFields(year: int, doy: int)
    requires 0 <= doy <= 366
    ensures 1 <= FromMarch(year, doy).month <= 12 && 1 <= FromMarch(year, doy).day
  {
  }

  lemma CivilFields(z: int)
    ensures 1 <= CivilFromDays(z).month <= 12 && 1 <= CivilFromDays(z).day
  {
    EraIsFloor(z);
    var doe := DayOfEra(z);
    if doe < 146_097 { YearOfFirstEra(doe); } else { YearOfSecondEra(doe); }
    FromMarchFields(YearOfEra(doe) + Era(z) * 400, doe - EraDays(YearOfEra(doe)));
  }

  lemma {:induction false} MonthsCount(y: int, m: int)
    requires 1 <= m <= 12
    ensures DaysBeforeMonth(y, m) >= 0
  {
    if m > 1 { MonthsAscend(y, 1, m); }
  }

  lemma EarlyDayCounts(z: int)
    requires -61 <= z < 0
    ensures DayNumber(CivilFromDays(z)) == z + if z == -1 then 60 else 61
  {
    assert z % 146_097 == z + 146_097;
    CivilDayNumber(z);
  }

  /** A year starts where its first day is counted: real dates before it have fewer days, all others as many. */
  lemma {:induction false} YearsSplit(d: Date, y: int)
    requires Real(d)
    ensures d.year >= y <==> DayNumber(d) >= DaysBeforeYear(y)
  {
    if d.year >= y {
      MonthsCount(d.year, d.month);
      YearsAscend(y, d.year);
    } else {
      EndOfYear(d);
      YearsAscend(d.year + 1, y);
    }
  }

  /** Day numbers of real dates tell whether the year is negative or has five digits. */
  lemma YearOfDayNumber(d: Date)
    requires Real(d)
    ensures d.year >= 0 <==> DayNumber(d) >= 0
    ensures d.year <= 9_999 <==> DayNumber(d) < 3_652_425
  {
    YearsSplit(d, 0);
    YearsSplit(d, 10_000);
    DaysBeforeYearClosed(10_000);
  }

  lemma VeryEarlyYear(z: int)
    requires z < -61
    ensures CivilFromDays(z).year < 0
  {
    var d := CivilFromDays(z);
    CivilDayNumber(z);
    CivilFields(z);
    MonthsCount(d.year, d.month);
    if d.year >= 0 { YearsAscend(0, d.year); }
  }

  /** Which years the computed dates have: negative before day -61, and five digits from day 3652365 on. */
  lemma YearOfDay(z: int)
    ensures CivilFromDays(z).year >= 0 <==> z >= -61
    ensures CivilFromDays(z).year <= 9_999 <==> z <= 3_652_364
  {
    if z >= 0 {
      CivilDayNumber(z);
      YearOfDayNumber(CivilFromDays(z));
    } else if z >= -61 {
      DaysOfYearZero(z);
    } else {
      VeryEarlyYear(z);
    }
  }

  /** A real date comes before the next year. */
  lemma EndOfYear(d: Date)
    requires Real(d)
    ensures DayNumber(d) < DaysBeforeYear(d.year + 1)
  {
    if d.month < 12 { MonthsAscend(d.year, d.month, 13); }
    MonthTable(d.year);
  }

  // ----- Date and time of day -----

  datatype DateTime = DateTime(date: Date, hour: int, minute: int, second: int)

  predicate RealTime(t: DateTime)
  {
    Real(t.date) && 0 <= t.hour <= 23 && 0 <= t.minute <= 59 && 0 <= t.second <= 59
  }

  /** Seconds since 1 January 1970, read off the calendar. */
  function ToUnix(t: DateTime): int
  {
    (DayNumber(t.date) - 60 - UNIX_EPOCH_Z) * 86_400 + t.hour * 3_600 + t.minute * 60 + t.second
  }

  function AtTime(date: Date, daySeconds: int): DateTime
  {
    DateTime(date, daySeconds / 3_600, daySeconds % 3_600 / 60, daySeconds % 60)
  }

  function FromUnix(seconds: int): DateTime
  {
    AtTime(CivilFromDays(seconds / 86_400 + UNIX_EPOCH_Z), seconds % 86_400)
  }

  /** Timestamps from 1 March of year 0 on, where the day count is not negative. */
  predicate SinceYearZero(seconds: int) { seconds / 86_400 + UNIX_EPOCH_Z >= 0 }

  lemma AtTimeCounts(date: Date, daySeconds: int)
    requires Real(date) && 0 <= daySeconds < 86_400
    ensures RealTime(AtTime(date, daySeconds))
    ensures ToUnix(AtTime(date, daySeconds)) == (DayNumber(date) - 60 - UNIX_EPOCH_Z) * 86_400 + daySeconds
  {
  }

  lemma AtTimeInverse(t: DateTime, inDay: int)
    requires RealTime(t) && inDay == t.hour * 3_600 + t.minute * 60 + t.second
    ensures 0 <= inDay < 86_400
    ensures AtTime(t.date, inDay) == t
  {
    assert inDay / 3_600 == t.hour;
    assert inDay % 3_600 == t.minute * 60 + t.second;
    assert inDay % 60 == t.second by {
      assert inDay == (t.hour * 60 + t.minute) * 60 + t.second;
    }
  }

  /** Converting a timestamp to calendar form and back is the identity. */
  lemma UnixRoundTrip(seconds: int)
    requires SinceYearZero(seconds)
    ensures RealTime(FromUnix(seconds))
    ensures ToUnix(FromUnix(seconds)) == seconds
  {
    var days := seconds / 86_400;
    CivilDayNumber(days + UNIX_EPOCH_Z);
    AtTimeCounts(CivilFromDays(days + UNIX_EPOCH_Z), seconds % 86_400);
  }

  /** So is converting a real date and time to seconds and back. */
  lemma CalendarRoundTrip(t: DateTime)
    requires RealTime(t) && DayNumber(t.date) >= 60
    ensures SinceYearZero(ToUnix(t))
    ensures FromUnix(ToUnix(t)) == t
  {
    var days, inDay := DayNumber(t.date) - 60 - UNIX_EPOCH_Z, t.hour * 3_600 + t.minute * 60 + t.second;
    AtTimeInverse(t, inDay);
    SplitSeconds(days, inDay);
    CivilIsTheDate(days + UNIX_EPOCH_Z, t.date);
  }

  lemma SplitSeconds(days: int, inDay: int)
    requires 0 <= inDay < 86_400
    ensures (days * 86_400 + inDay) / 86_400 == days
    ensures (days * 86_400 + inDay) % 86_400 == inDay
  {
  }

  predicate Earlier(a: DateTime, b: DateTime)
  {
    Before(a.date, b.date)
    || (a.date == b.date
        && (a.hour < b.hour
            || (a.hour == b.hour && (a.minute < b.minute || (a.minute == b.minute && a.second < b.second)))))
  }

  lemma EarlierMeansFewerSeconds(a: DateTime, b: DateTime)
    requires RealTime(a) && RealTime(b) && Earlier(a, b)
    ensures ToUnix(a) < ToUnix(b)
  {
    if Before(a.date, b.date) {
      DayNumberAscends(a.date, b.date);
    }
  }

  /** A later timestamp gives a later calendar time. */
  lemma FromUnixIsMonotone(s: int, t: int)
    requires SinceYearZero(s) && s < t
    ensures Earlier(FromUnix(s), FromUnix(t))
  {
    UnixRoundTrip(s);
    UnixRoundTrip(t);
    var a, b := FromUnix(s), FromUnix(t);
    if Earlier(b, a) {
      EarlierMeansFewerSeconds(b, a);
    }
  }
}
