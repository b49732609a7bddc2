/** The proleptic Gregorian calendar behind the archive's timestamps: the closed-form conversion
    `civil_from_days` (crates/db/src/backup.rs:700-717), proved against a day count that only knows
    which years are leap years and how long each month is. */
module Calendar {

  datatype Date = Date(year: int, month: int, day: int)

  // ---------- The reference: what a calendar is ----------

  predicate Leap(y: int) {
    y % 4 == 0 && (y % 100 != 0 || y % 400 == 0)
  }

  function DaysInMonth(y: int, m: int): int {
    if m == 2 then if Leap(y) then 29 else 28
    else if m == 4 || m == 6 || m == 9 || m == 11 then 30
    else 31
  }

  /** A date of section 5.7 of RFC 3339: the day fits the month, leap years included. */
  predicate ValidDate(t: Date) {
    1 <= t.month <= 12 && 1 <= t.day <= DaysInMonth(t.year, t.month)
  }

  /** The day after a date, by carrying from day to month to year. */
  function NextDay(t: Date): Date {
    if t.day < DaysInMonth(t.year, t.month) then Date(t.year, t.month, t.day + 1)
    else if t.month < 12 then Date(t.year, t.month + 1, 1)
    else Date(t.year + 1, 1, 1)
  }

  /** Calendar order. */
  predicate Earlier(s: Date, t: Date) {
    s.year < t.year || (s.year == t.year && (s.month < t.month || (s.month == t.month && s.day < t.day)))
  }

  /** Leap years before year `y`, counted from year 1. */
  function LeapsBefore(y: int): int {
    (y - 1) / 4 - (y - 1) / 100 + (y - 1) / 400
  }

  /** Days of year `y` before month `m`. */
  function DaysBeforeMonth(y: int, m: int): int
    requires 1 <= m <= 13
    decreases m
  {
    if m == 1 then 0 else DaysBeforeMonth(y, m - 1) + DaysInMonth(y, m - 1)
  }

  /** Days from 1970-01-01 to a date, by counting years, months and days. */
  function DayNumber(t: Date): int
    requires ValidDate(t)
  {
    365 * (t.year - 1970) + LeapsBefore(t.year) - 477 + DaysBeforeMonth(t.year, t.month) + t.day - 1
  }

  lemma LeapsBeforeStep(y: int)
    ensures LeapsBefore(y + 1) == LeapsBefore(y) + if Leap(y) then 1 else 0
  {
    Passed(y);
    MultiplesNest(y);
  }

  /** A multiple goes by exactly in the years it divides. */
  lemma Passed(y: int)
    ensures y / 4 == (y - 1) / 4 + if y % 4 == 0 then 1 else 0
    ensures y / 100 == (y - 1) / 100 + if y % 100 == 0 then 1 else 0
    ensures y / 400 == (y - 1) / 400 + if y % 400 == 0 then 1 else 0
  {}

  lemma MultiplesNest(y: int)
    ensures y % 400 == 0 ==> y % 100 == 0
    ensures y % 100 == 0 ==> y % 4 == 0
  {
    if y % 400 == 0 { OfFourHundred(y, y / 400); }
    if y % 100 == 0 { OfHundred(y, y / 100); }
  }

  lemma OfFourHundred(y: int, q: int)
    requires y == 400 * q
    ensures y % 100 == 0 && y % 400 == 0
  {}

  lemma OfHundred(y: int, q: int)
    requires y == 100 * q
    ensures y % 4 == 0
  {}

  lemma MonthStarts(y: int)
    ensures DaysBeforeMonth(y, 1) == 0 && DaysBeforeMonth(y, 2) == 31
    ensures var f := if Leap(y) then 60 else 59;
            && DaysBeforeMonth(y, 3) == f && DaysBeforeMonth(y, 4) == f + 31
            && DaysBeforeMonth(y, 5) == f + 61 && DaysBeforeMonth(y, 6) == f + 92
            && DaysBeforeMonth(y, 7) == f + 122 && DaysBeforeMonth(y, 8) == f + 153
            && DaysBeforeMonth(y, 9) == f + 184 && DaysBeforeMonth(y, 10) == f + 214
            && DaysBeforeMonth(y, 11) == f + 245 && DaysBeforeMonth(y, 12) == f + 275
            && DaysBeforeMonth(y, 13) == f + 306
  {
    assert DaysBeforeMonth(y, 3) == if Leap(y) then 60 else 59;
    assert DaysBeforeMonth(y, 5) == DaysBeforeMonth(y, 3) + 61;
    assert DaysBeforeMonth(y, 7) == DaysBeforeMonth(y, 5) + 61;
    assert DaysBeforeMonth(y, 9) == DaysBeforeMonth(y, 7) + 62;
    assert DaysBeforeMonth(y, 11) == DaysBeforeMonth(y, 9) + 61;
  }

  lemma {:induction false} LeapsBeforeIsMonotone(y: int, z: int)
    requires y <= z
    ensures LeapsBefore(y) <= LeapsBefore(z)
    decreases z - y
  {
    if y < z {
      LeapsBeforeStep(y);
      LeapsBeforeIsMonotone(y + 1, z);
    }
  }

  lemma {:induction false} MonthsAreDisjoint(y: int, m: int, n: int)
    requires 1 <= m <= n <= 13
    ensures DaysBeforeMonth(y, m) <= DaysBeforeMonth(y, n)
    ensures m < n ==> DaysBeforeMonth(y, m) + DaysInMonth(y, m) <= DaysBeforeMonth(y, n)
    decreases n - m
  {
    if m < n {
      assert DaysBeforeMonth(y, m + 1) == DaysBeforeMonth(y, m) + DaysInMonth(y, m);
      MonthsAreDisjoint(y, m + 1, n);
    }
  }

  /** The count respects the order of dates, so no two dates share a number. */
  lemma DayNumberIsMonotone(s: Date, t: Date)
    requires ValidDate(s) && ValidDate(t) && Earlier(s, t)
    ensures DayNumber(s) < DayNumber(t)
  {
    if s.year < t.year {
      MonthsAreDisjoint(s.year, s.month, 13);
      MonthsAreDisjoint(t.year, 1, t.month);
      YearLength(s.year);
      assert DaysInMonth(s.year, 12) == 31;
      LeapsBeforeStep(s.year);
      LeapsBeforeIsMonotone(s.year + 1, t.year);
    } else {
      MonthsAreDisjoint(s.year, s.month, t.month);
    }
  }

  lemma YearLength(y: int)
    ensures DaysBeforeMonth(y, 1) == 0
    ensures DaysBeforeMonth(y, 13) == 365 + if Leap(y) then 1 else 0
  {
    MonthStarts(y);
  }

  /** The count goes up by one from a date to the next. */
  lemma DayNumberCounts(t: Date)
    requires ValidDate(t)
    ensures ValidDate(NextDay(t)) && DayNumber(NextDay(t)) == DayNumber(t) + 1
  {
    MonthStarts(t.year);
    LeapsBeforeStep(t.year);
    assert t.month == 12 ==> DaysBeforeMonth(t.year + 1, 1) == 0;
  }

  // ---------- The conversion ----------

  function YearOfEra(dayOfEra: int): int {
    (dayOfEra - dayOfEra / 1460 + dayOfEra / 36_524 - dayOfEra / 146_096) / 365
  }

  /** `civil_from_days`: the date for a count of days since 1970-01-01. */
  function CivilFromDays(days: int): Date {
    var shifted := days + 719_468;
    CivilInEra(shifted / 146_097, shifted % 146_097)
  }

  /** The rest of the conversion, once the 400-year era is split off. */
  function CivilInEra(era: int, dayOfEra: int): Date {
    var yearOfEra := YearOfEra(dayOfEra);
    var year := yearOfEra + era * 400;
    var dayOfYear := dayOfEra - (365 * yearOfEra + yearOfEra / 4 - yearOfEra / 100);
    OfMarchYear(year, dayOfYear)
  }

  /** A day of a year that starts in March, as a month and a day. */
  function OfMarchYear(year: int, dayOfYear: int): Date {
    var marchMonth := (5 * dayOfYear + 2) / 153;
    var day := dayOfYear - (153 * marchMonth + 2) / 5 + 1;
    var month := if marchMonth < 10 then marchMonth + 3 else marchMonth - 9;
    Date(if month <= 2 then year + 1 else year, month, day)
  }

  /** A day of a 400-year era as century, four-year cycle, year and day, years starting in March. */
  datatype InEra = InEra(century: int, cycle: int, year: int, day: int)

  predicate ValidInEra(p: InEra) {
    && 0 <= p.century < 4 && 0 <= p.cycle < 25 && 0 <= p.year < 4
    && 0 <= p.day < 366
    && (p.day == 365 ==> p.year == 3 && (p.cycle == 24 ==> p.century == 3))
  }

  function Split(dayOfEra: int): InEra
    requires 0 <= dayOfEra < 146_097
  {
    var c := if dayOfEra / 36_524 < 4 then dayOfEra / 36_524 else 3;
    var inCentury := dayOfEra - 36_524 * c;
    var q := inCentury / 1461;
    var inCycle := inCentury - 1461 * q;
    var t := if inCycle / 365 < 4 then inCycle / 365 else 3;
    InEra(c, q, t, inCycle - 365 * t)
  }

  lemma SplitIsValid(dayOfEra: int)
    requires 0 <= dayOfEra < 146_097
    ensures var p := Split(dayOfEra);
            ValidInEra(p) && dayOfEra == 36_524 * p.century + 1461 * p.cycle + 365 * p.year + p.day
  {}

  /** The four divisions of `year_of_era` cancel exactly the leap days that went by. */
  lemma YearOfEraIsYear(dayOfEra: int, p: InEra)
    requires ValidInEra(p)
    requires dayOfEra == 36_524 * p.century + 1461 * p.cycle + 365 * p.year + p.day
    ensures YearOfEra(dayOfEra) == 100 * p.century + 4 * p.cycle + p.year
  {
    var u := if 24 * p.century + p.cycle + 365 * p.year + p.day >= 1460 then 1 else 0;
    assert dayOfEra / 1460 == 25 * p.century + p.cycle + u;
    var last := if p.cycle == 24 && p.year == 3 && p.day == 365 then 1 else 0;
    assert dayOfEra / 36_524 == p.century + last;
    assert dayOfEra / 146_096 == last;
    assert 0 <= p.day - u < 365;
  }

  /** A day of a March-based year as a month and a day. */
  lemma MarchMonthIsMonth(y: int, dayOfYear: int)
    requires 0 <= dayOfYear < 365 || (dayOfYear == 365 && Leap(y + 1))
    ensures var t := OfMarchYear(y, dayOfYear);
            && ValidDate(t)
            && DaysBeforeMonth(t.year, t.month) + t.day - 1
               == if t.year == y then dayOfYear + (if Leap(y) then 60 else 59) else dayOfYear - 306
  {
    MonthStarts(y);
    MonthStarts(y + 1);
    var mm := (5 * dayOfYear + 2) / 153;
    assert 0 <= mm < 12;
    if mm == 0 {} else if mm == 1 {} else if mm == 2 {} else if mm == 3 {} else if mm == 4 {} else if mm == 5 {}
    else if mm == 6 {} else if mm == 7 {} else if mm == 8 {} else if mm == 9 {} else if mm == 10 {} else {}
  }

  /** A day of an era as a day of a numbered year, and the count up to that year's first of March. */
  lemma EraIsYears(era: int, p: InEra)
    requires ValidInEra(p)
    ensures var y := 400 * era + 100 * p.century + 4 * p.cycle + p.year;
            && 365 * y + LeapsBefore(y + 1) == 146_097 * era + 36_524 * p.century + 1461 * p.cycle + 365 * p.year
            && (p.day == 365 ==> Leap(y + 1))
  {
    var y := 400 * era + 100 * p.century + 4 * p.cycle + p.year;
    assert y / 4 == 100 * era + 25 * p.century + p.cycle;
    assert y / 100 == 4 * era + p.century;
    assert y / 400 == era;
    if p.day == 365 { LeapAtCycleEnd(era, p); }
  }

  lemma LeapAtCycleEnd(era: int, p: InEra)
    requires ValidInEra(p) && p.day == 365
    ensures Leap(400 * era + 100 * p.century + 4 * p.cycle + p.year + 1)
  {
    var y := 400 * era + 100 * p.century + 4 * p.cycle + p.year + 1;
    if p.cycle == 24 {
      OfFourHundred(y, era + 1);
      OfHundred(y, 4 * (era + 1));
    } else {
      LeapWithinCentury(y, 4 * era + p.century, p.cycle + 1);
    }
  }

  lemma LeapWithinCentury(y: int, century: int, cycle: int)
    requires y == 100 * century + 4 * cycle && 0 < cycle < 25
    ensures Leap(y)
  {
    assert y % 100 == 4 * cycle;
    OfFour(y, 25 * century + cycle);
  }

  lemma OfFour(y: int, q: int)
    requires y == 4 * q
    ensures y % 4 == 0
  {}

  lemma CivilInEraByYear(era: int, dayOfEra: int, p: InEra)
    requires ValidInEra(p)
    requires dayOfEra == 36_524 * p.century + 1461 * p.cycle + 365 * p.year + p.day
    ensures CivilInEra(era, dayOfEra) == OfMarchYear(400 * era + 100 * p.century + 4 * p.cycle + p.year, p.day)
  {
    YearOfEraIsYear(dayOfEra, p);
    var yearOfEra := YearOfEra(dayOfEra);
    assert yearOfEra / 4 == 25 * p.century + p.cycle;
    assert yearOfEra / 100 == p.century;
    assert dayOfEra - (365 * yearOfEra + yearOfEra / 4 - yearOfEra / 100) == p.day;
  }

  lemma OfMarchYearCount(era: int, p: InEra)
    requires ValidInEra(p)
    ensures var t := OfMarchYear(400 * era + 100 * p.century + 4 * p.cycle + p.year, p.day);
            && ValidDate(t)
            && DayNumber(t) == 146_097 * era + 36_524 * p.century + 1461 * p.cycle + 365 * p.year + p.day - 719_468
  {
    var y := 400 * era + 100 * p.century + 4 * p.cycle + p.year;
    EraIsYears(era, p);
    MarchMonthIsMonth(y, p.day);
    LeapsBeforeStep(y);
  }

  /** Every day count converts to a valid date, and counting up to that date gives the count back. */
  lemma CivilFromDaysInvertsTheCount(days: int)
    ensures ValidDate(CivilFromDays(days))
    ensures DayNumber(CivilFromDays(days)) == days
  {
    var era, dayOfEra := (days + 719_468) / 146_097, (days + 719_468) % 146_097;
    var p := Split(dayOfEra);
    SplitIsValid(dayOfEra);
    CivilInEraByYear(era, dayOfEra, p);
    OfMarchYearCount(era, p);
  }

  /** Two valid dates with one number are one date. */
  lemma DayNumberIsInjective(s: Date, t: Date)
    requires ValidDate(s) && ValidDate(t) && DayNumber(s) == DayNumber(t)
    ensures s == t
  {
    if Earlier(s, t) { DayNumberIsMonotone(s, t); }
    if Earlier(t, s) { DayNumberIsMonotone(t, s); }
  }

  lemma NextNumberIsNextDay(s: Date, t: Date)
    requires ValidDate(s) && ValidDate(t) && DayNumber(t) == DayNumber(s) + 1
    ensures t == NextDay(s)
  {
    DayNumberCounts(s);
    DayNumberIsInjective(t, NextDay(s));
  }

  lemma EpochIsNumberZero(t: Date)
    requires ValidDate(t)
    ensures t == Date(1970, 1, 1) <==> DayNumber(t) == 0
  {
    assert DaysBeforeMonth(1970, 1) == 0;
    if DayNumber(t) == 0 { DayNumberIsInjective(t, Date(1970, 1, 1)); }
  }

  /** `civil_from_days` is the proleptic Gregorian calendar: the epoch is day zero and no other day,
      and one day more is the calendar's next day. */
  lemma CivilFromDaysIsTheCalendar(days: int)
    ensures CivilFromDays(days) == Date(1970, 1, 1) <==> days == 0
    ensures ValidDate(CivilFromDays(days))
    ensures CivilFromDays(days + 1) == NextDay(CivilFromDays(days))
  {
    CivilFromDaysInvertsTheCount(days);
    CivilFromDaysInvertsTheCount(days + 1);
    EpochIsNumberZero(CivilFromDays(days));
    NextNumberIsNextDay(CivilFromDays(days), CivilFromDays(days + 1));
  }

  /** It is a bijection from day counts to valid dates, with the count as its inverse. */
  lemma CivilFromDaysIsABijection(days: int, t: Date)
    requires ValidDate(t)
    ensures CivilFromDays(days) == t <==> days == DayNumber(t)
  {
    CivilFromDaysInvertsTheCount(days);
    CivilFromDaysInvertsTheCount(DayNumber(t));
    DayNumberIsInjective(CivilFromDays(DayNumber(t)), t);
  }

  /** Later days have later dates. */
  lemma CivilFromDaysIsMonotone(a: int, b: int)
    requires a < b
    ensures Earlier(CivilFromDays(a), CivilFromDays(b))
  {
    CivilFromDaysInvertsTheCount(a);
    CivilFromDaysInvertsTheCount(b);
    var s, t := CivilFromDays(a), CivilFromDays(b);
    if Earlier(t, s) { DayNumberIsMonotone(t, s); }
  }
}
