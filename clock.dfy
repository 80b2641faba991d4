/**
 * java.time.LocalDateTime as the core uses it: a count of seconds on the local wall-clock line,
 * counted from 1970-01-01T00:00, with the calendar fields the scheduler reads and the range
 * checks that make ofEpochSecond, plusHours and minusDays throw.
 */
module Clock {
  import opened Wrappers

  type DateTime = int

  const SecondsPerHour: int := 3600
  const SecondsPerDay: int := 86400

  /** Epoch days of LocalDate.MIN (-999999999-01-01) and LocalDate.MAX (+999999999-12-31). */
  const MinEpochDay: int := -365243219162
  const MaxEpochDay: int := 365241780471

  /** The date-times a LocalDateTime can hold. */
  predicate InRange(t: DateTime) {
    MinEpochDay * SecondsPerDay <= t < (MaxEpochDay + 1) * SecondsPerDay
  }

  function EpochDay(t: DateTime): int {
    t / SecondsPerDay
  }

  /** getHour: the hour of the day, 0..23. */
  function HourOf(t: DateTime): (h: int)
    ensures 0 <= h < 24
    ensures SecondsPerHour * h <= t - EpochDay(t) * SecondsPerDay < SecondsPerHour * (h + 1)
  {
    (t % SecondsPerDay) / SecondsPerHour
  }

  /** The (year, month, day) of an epoch day, by the proleptic Gregorian calendar. */
  datatype Civil = Civil(year: int, month: int, day: int)

  /** The Gregorian leap-year rule of LocalDate. */
  predicate IsLeapYear(y: int) {
    y % 4 == 0 && (y % 100 != 0 || y % 400 == 0)
  }

  function DaysInMonth(y: int, m: int): int {
    if m == 2 then (if IsLeapYear(y) then 29 else 28)
    else if m == 4 || m == 6 || m == 9 || m == 11 then 30
    else 31
  }

  /** A date LocalDate can hold: a month 1..12 and a day within that month. */
  predicate ValidDate(c: Civil) {
    1 <= c.month <= 12 && 1 <= c.day <= DaysInMonth(c.year, c.month)
  }

  /**
   * The calendar counts 400-year eras from March 1 of year 0, so that February, with its leap
   * day, ends each year. YearStart(y) is the number of days from the start of an era to March 1
   * of its year y.
   */
  function YearStart(y: int): int {
    365 * y + y / 4 - y / 100 + y / 400
  }

  /** The year that starts in March of y ends with February of y + 1, so it is long when y + 1 is leap. */
  lemma YearLength(y: int)
    requires y >= 0
    ensures YearStart(y + 1) - YearStart(y) == if IsLeapYear(y + 1) then 366 else 365
  {
    var n := y + 1;
    assert n / 4 - y / 4 == if n % 4 == 0 then 1 else 0;
    assert n / 100 - y / 100 == if n % 100 == 0 then 1 else 0;
    assert n / 400 - y / 400 == if n % 400 == 0 then 1 else 0;
    if n % 400 == 0 {
      assert n == 100 * (4 * (n / 400));
    }
    if n % 100 == 0 {
      assert n == 4 * (25 * (n / 100));
    }
  }

  lemma {:induction false} YearStartGrows(a: int, b: int)
    requires 0 <= a <= b
    ensures YearStart(b) - YearStart(a) >= 365 * (b - a)
    decreases b - a
  {
    if a < b {
      YearStartGrows(a, b - 1);
      YearLength(b - 1);
    }
  }

  /** Whole eras change neither the leap rule nor the year within the era. */
  lemma LeapYearOfEra(era: int, y: int)
    ensures IsLeapYear(era * 400 + y) == IsLeapYear(y)
  {
    ShiftMod4(era * 100, y);
    ShiftMod100(era * 4, y);
    ShiftMod400(era, y);
  }

  lemma ShiftMod4(k: int, y: int)
    ensures (4 * k + y) % 4 == y % 4
  {
    assert 4 * k + y == 4 * (k + y / 4) + y % 4;
  }

  lemma ShiftMod100(k: int, y: int)
    ensures (100 * k + y) % 100 == y % 100
  {
    assert 100 * k + y == 100 * (k + y / 100) + y % 100;
  }

  lemma ShiftMod400(k: int, y: int)
    ensures (400 * k + y) % 400 == y % 400
  {
    assert 400 * k + y == 400 * (k + y / 400) + y % 400;
  }

  lemma YearStartMonotone(a: int, b: int)
    requires 0 <= a <= b
    ensures YearStart(a) <= YearStart(b)
  {
    YearStartGrows(a, b);
  }

  /** The year of an era whose March-to-February span holds day doe, searched upwards from y. */
  function FindYear(doe: int, y: int): (r: int)
    requires 0 <= y < 400 && YearStart(y) <= doe < 146097
    ensures y <= r < 400 && YearStart(r) <= doe < YearStart(r + 1)
    decreases 400 - y
  {
    if doe < YearStart(y + 1) then y
    else FindYear(doe, y + 1)
  }

  /** The year (0..399) of an era that holds its day doe; no year is longer than 366 days, so doe / 366 is a start. */
  function YearOfEra(doe: int): (y: int)
    requires 0 <= doe < 146097
    ensures 0 <= y < 400 && YearStart(y) <= doe < YearStart(y + 1)
  {
    var y0 := doe / 366;
    assert YearStart(y0) <= doe;
    FindYear(doe, y0)
  }

  /** Only one year of an era holds a given day. */
  lemma YearOfEraUnique(doe: int, y: int)
    requires 0 <= doe < 146097 && 0 <= y && YearStart(y) <= doe < YearStart(y + 1)
    ensures YearOfEra(doe) == y
  {
    var r := YearOfEra(doe);
    if r < y {
      YearStartMonotone(r + 1, y);
    } else if y < r {
      YearStartMonotone(y + 1, r);
    }
  }

  /** Days from March 1 to the first day of the month mp months later (0..11). */
  function MonthStart(mp: int): int {
    (153 * mp + 2) / 5
  }

  /** The length of the month mp months after March: February, the last, has 29 days in a long year. */
  function MarchMonthLength(mp: int, leap: bool): int {
    if mp == 11 then (if leap then 29 else 28) else MonthStart(mp + 1) - MonthStart(mp)
  }

  /** Day doy of a March-based year falls in month (5 * doy + 2) / 153, within that month's length. */
  lemma MonthOfDayOfYear(doy: int, leap: bool)
    requires 0 <= doy < (if leap then 366 else 365)
    ensures var mp := (5 * doy + 2) / 153;
      0 <= mp < 12 && MonthStart(mp) <= doy && doy - MonthStart(mp) < MarchMonthLength(mp, leap)
  {
    var mp := (5 * doy + 2) / 153;
    assert 0 <= mp < 12;
    assert MonthStart(mp) <= doy < MonthStart(mp + 1) by {
      if mp == 0 { } else if mp == 1 { } else if mp == 2 { } else if mp == 3 { }
      else if mp == 4 { } else if mp == 5 { } else if mp == 6 { } else if mp == 7 { }
      else if mp == 8 { } else if mp == 9 { } else if mp == 10 { } else { }
    }
  }

  /** The month mp months after March is civil month m, of the same length. */
  lemma MonthLength(mp: int, y: int)
    requires 0 <= mp < 12
    ensures var m := if mp < 10 then mp + 3 else mp - 9;
      DaysInMonth(y, m) == MarchMonthLength(mp, IsLeapYear(y))
  {
    if mp == 0 { } else if mp == 1 { } else if mp == 2 { } else if mp == 3 { }
    else if mp == 4 { } else if mp == 5 { } else if mp == 6 { } else if mp == 7 { }
    else if mp == 8 { } else if mp == 9 { } else if mp == 10 { } else { }
  }

  /** The day-of-year of a day within a month gives that month back. */
  lemma MonthIndex(mp: int, day: int)
    requires 0 <= mp < 12 && 1 <= day <= MarchMonthLength(mp, true)
    ensures (5 * (MonthStart(mp) + day - 1) + 2) / 153 == mp
  {
    if mp == 0 { } else if mp == 1 { } else if mp == 2 { } else if mp == 3 { }
    else if mp == 4 { } else if mp == 5 { } else if mp == 6 { } else if mp == 7 { }
    else if mp == 8 { } else if mp == 9 { } else if mp == 10 { } else { }
  }

  /** The date of day doy (0 = March 1) of the March-based year yoe of an era. */
  function CivilOfYearDay(era: int, yoe: int, doy: int): Civil {
    var mp := (5 * doy + 2) / 153;
    var m := if mp < 10 then mp + 3 else mp - 9;
    Civil(yoe + era * 400 + (if m <= 2 then 1 else 0), m, doy - MonthStart(mp) + 1)
  }

  /** The date of day doe (0 = 0000-03-01 of the era) of an era of 400 years. */
  function CivilOfEraDay(era: int, doe: int): Civil
    requires 0 <= doe < 146097
  {
    var yoe := YearOfEra(doe);
    CivilOfYearDay(era, yoe, doe - YearStart(yoe))
  }

  /** The civil date of an epoch day (LocalDate.ofEpochDay), counting eras from 0000-03-01. */
  function CivilFromDays(days: int): Civil {
    var z := days + 719468;
    var era := z / 146097;
    CivilOfEraDay(era, z - era * 146097)
  }

  /** CivilFromDays once the era and the day of the era are known. */
  lemma CivilFromParts(days: int, era: int, doe: int)
    requires 0 <= doe < 146097 && days + 719468 == era * 146097 + doe
    ensures CivilFromDays(days) == CivilOfEraDay(era, doe)
  {
    assert (days + 719468) / 146097 == era;
  }

  /** The epoch day of a civil date (LocalDate.toEpochDay), computed the other way round. */
  function DaysFromCivil(c: Civil): int {
    var y := if c.month <= 2 then c.year - 1 else c.year;
    var era := y / 400;
    var yoe := y - era * 400;
    var mp := if c.month > 2 then c.month - 3 else c.month + 9;
    era * 146097 + YearStart(yoe) + MonthStart(mp) + c.day - 1 - 719468
  }

  /** The date of a day of a year of an era is a valid date. */
  lemma ValidYearDay(era: int, yoe: int, doy: int)
    requires 0 <= yoe && 0 <= doy < YearStart(yoe + 1) - YearStart(yoe)
    ensures ValidDate(CivilOfYearDay(era, yoe, doy))
  {
    YearLength(yoe);
    var leap := IsLeapYear(yoe + 1);
    MonthOfDayOfYear(doy, leap);
    var mp := (5 * doy + 2) / 153;
    var m := if mp < 10 then mp + 3 else mp - 9;
    var year := yoe + era * 400 + (if m <= 2 then 1 else 0);
    MonthLength(mp, year);
    if mp == 11 {
      LeapYearOfEra(era, yoe + 1);
      assert year == era * 400 + (yoe + 1);
    }
  }

  /** ... and its epoch day is that day again. */
  lemma DaysOfYearDay(era: int, yoe: int, doy: int)
    requires 0 <= yoe < 400 && 0 <= doy < YearStart(yoe + 1) - YearStart(yoe)
    ensures DaysFromCivil(CivilOfYearDay(era, yoe, doy)) == era * 146097 + YearStart(yoe) + doy - 719468
  {
    YearLength(yoe);
    MonthOfDayOfYear(doy, IsLeapYear(yoe + 1));
    var c := CivilOfYearDay(era, yoe, doy);
    var y := if c.month <= 2 then c.year - 1 else c.year;
    assert y == era * 400 + yoe;
    assert y / 400 == era;
  }

  /** Every day of an era is a valid date. */
  lemma ValidEraDay(era: int, doe: int)
    requires 0 <= doe < 146097
    ensures ValidDate(CivilOfEraDay(era, doe))
  {
    var yoe := YearOfEra(doe);
    ValidYearDay(era, yoe, doe - YearStart(yoe));
  }

  /** ... whose epoch day is that day of the era again. */
  lemma EraDayDays(era: int, doe: int)
    requires 0 <= doe < 146097
    ensures DaysFromCivil(CivilOfEraDay(era, doe)) == era * 146097 + doe - 719468
  {
    var yoe := YearOfEra(doe);
    DaysOfYearDay(era, yoe, doe - YearStart(yoe));
  }

  /** Every epoch day is a valid date. */
  lemma CivilFromDaysValid(days: int)
    ensures ValidDate(CivilFromDays(days))
  {
    var era := (days + 719468) / 146097;
    var doe := days + 719468 - era * 146097;
    CivilFromParts(days, era, doe);
    ValidEraDay(era, doe);
  }

  /** A valid date is a day of its March-based year of the era, and the month index inverts. */
  lemma DayOfYearOfDate(c: Civil)
    requires ValidDate(c)
    ensures var y := if c.month <= 2 then c.year - 1 else c.year;
      var era := y / 400;
      var yoe := y - era * 400;
      var mp := if c.month > 2 then c.month - 3 else c.month + 9;
      var doy := MonthStart(mp) + c.day - 1;
      && 0 <= yoe < 400 && 0 <= doy < YearStart(yoe + 1) - YearStart(yoe)
      && CivilOfYearDay(era, yoe, doy) == c
  {
    var y := if c.month <= 2 then c.year - 1 else c.year;
    var era := y / 400;
    var yoe := y - era * 400;
    var mp := if c.month > 2 then c.month - 3 else c.month + 9;
    MonthLength(mp, c.year);
    YearLength(yoe);
    if mp == 11 {
      LeapYearOfEra(era, yoe + 1);
      assert c.year == era * 400 + (yoe + 1);
    }
    MonthIndex(mp, c.day);
  }

  /** Day doy of year yoe is a day of the era that falls in year yoe. */
  lemma EraDayYear(yoe: int, doy: int)
    requires 0 <= yoe < 400 && 0 <= doy < YearStart(yoe + 1) - YearStart(yoe)
    ensures 0 <= YearStart(yoe) + doy < 146097 && YearOfEra(YearStart(yoe) + doy) == yoe
  {
    YearStartGrows(yoe + 1, 400);
    YearOfEraUnique(YearStart(yoe) + doy, yoe);
  }

  /** ... so its date is the date of that day of the era. */
  lemma EraDayDate(era: int, yoe: int, doy: int, doe: int)
    requires 0 <= yoe < 400 && 0 <= doy < YearStart(yoe + 1) - YearStart(yoe) && doe == YearStart(yoe) + doy
    ensures 0 <= doe < 146097 && CivilOfEraDay(era, doe) == CivilOfYearDay(era, yoe, doy)
  {
    EraDayYear(yoe, doy);
  }

  /** The date of a day of a year of an era is the date of that epoch day. */
  lemma DateOfEraDay(c: Civil, era: int, yoe: int, doy: int, days: int)
    requires 0 <= yoe < 400 && 0 <= doy < YearStart(yoe + 1) - YearStart(yoe)
    requires CivilOfYearDay(era, yoe, doy) == c && days == era * 146097 + YearStart(yoe) + doy - 719468
    ensures CivilFromDays(days) == c
  {
    EraDayDate(era, yoe, doy, YearStart(yoe) + doy);
    CivilFromParts(days, era, YearStart(yoe) + doy);
  }

  /** A valid date survives the trip to its epoch day and back. */
  lemma CivilRoundTrip(c: Civil)
    requires ValidDate(c)
    ensures CivilFromDays(DaysFromCivil(c)) == c
  {
    DayOfYearOfDate(c);
    var y := if c.month <= 2 then c.year - 1 else c.year;
    var era := y / 400;
    var yoe := y - era * 400;
    var mp := if c.month > 2 then c.month - 3 else c.month + 9;
    var doy := MonthStart(mp) + c.day - 1;
    DateOfEraDay(c, era, yoe, doy, DaysFromCivil(c));
  }

  /** An epoch day survives the trip to its date and back. */
  lemma DaysRoundTrip(days: int)
    ensures DaysFromCivil(CivilFromDays(days)) == days
  {
    var z := days + 719468;
    var era := z / 146097;
    var doe := z - era * 146097;
    CivilFromParts(days, era, doe);
    EraDayDays(era, doe);
  }

  /** getMonthValue, 1..12. */
  function MonthOf(t: DateTime): (m: int)
    ensures 1 <= m <= 12
  {
    CivilFromDaysValid(EpochDay(t));
    CivilFromDays(EpochDay(t)).month
  }

  /** A date-time on the date c has c's month. */
  lemma MonthOfDate(t: DateTime, c: Civil)
    requires ValidDate(c) && EpochDay(t) == DaysFromCivil(c)
    ensures MonthOf(t) == c.month
  {
    CivilRoundTrip(c);
  }

  /** getYear. */
  function YearOf(t: DateTime): int {
    CivilFromDays(EpochDay(t)).year
  }

  /** getYear on any day of a valid date is that date's year. */
  lemma YearOfDate(t: DateTime, c: Civil)
    requires ValidDate(c) && EpochDay(t) == DaysFromCivil(c)
    ensures YearOf(t) == c.year
  {
    CivilRoundTrip(c);
  }

  /** A date-time moved by a number of seconds, or None where LocalDateTime throws. */
  function Plus(t: DateTime, seconds: int): (r: Option<DateTime>)
    ensures r.Some? <==> InRange(t + seconds)
    ensures r.Some? ==> r.value == t + seconds
  {
    if InRange(t + seconds) then Some(t + seconds) else None
  }

  /** plusHours. */
  function PlusHours(t: DateTime, hours: int): (r: Option<DateTime>)
    ensures r.Some? ==> r.value - t == hours * SecondsPerHour
  {
    Plus(t, hours * SecondsPerHour)
  }

  /** minusDays. */
  function MinusDays(t: DateTime, days: int): (r: Option<DateTime>)
    ensures r.Some? ==> t - r.value == days * SecondsPerDay
  {
    Plus(t, -days * SecondsPerDay)
  }

  /** LocalDateTime.ofEpochSecond(s, 0, UTC): the seconds count itself, if LocalDateTime can hold it. */
  function OfEpochSecond(s: int): (r: Option<DateTime>)
    ensures r.Some? <==> InRange(s)
  {
    Plus(0, s)
  }

  /**
   * The services' parseIso8601: the parsed date-time, or the caller's "now" when the text does not
   * parse. `parse` stands for LocalDateTime.parse with ISO_DATE_TIME, None where it throws.
   */
  function ParseIso8601(parse: string -> Option<DateTime>, text: string, now: DateTime): (r: DateTime)
    ensures parse(text).Some? ==> r == parse(text).value
    ensures parse(text).None? ==> r == now
  {
    match parse(text)
    case Some(t) => t
    case None => now
  }

  lemma UnixEpochIsJanuaryFirst1970()
    ensures CivilFromDays(0) == Civil(1970, 1, 1)
  {
    assert DaysFromCivil(Civil(1970, 1, 1)) == 0;
    CivilRoundTrip(Civil(1970, 1, 1));
  }

  lemma JuneFirst2024()
    ensures CivilFromDays(19875) == Civil(2024, 6, 1)
  {
    assert DaysFromCivil(Civil(2024, 6, 1)) == 19875;
    CivilRoundTrip(Civil(2024, 6, 1));
  }

  lemma LeapDay2000()
    ensures CivilFromDays(11016) == Civil(2000, 2, 29)
  {
    assert DaysFromCivil(Civil(2000, 2, 29)) == 11016;
    CivilRoundTrip(Civil(2000, 2, 29));
  }
}
