/** Civil dates from day numbers, against the proleptic Gregorian calendar counted day by day. */
module Civil {
  import opened Bytes

  datatype Date = Date(year: int, month: int, day: int)

  // ----- the calendar -----

  predicate IsLeap(y: int) {
    y % 4 == 0 && (y % 100 != 0 || y % 400 == 0)
  }

  function YearLength(y: int): int {
    if IsLeap(y) then 366 else 365
  }

  function MonthLength(y: int, m: int): int {
    if m == 2 then (if IsLeap(y) then 29 else 28)
    else if m == 4 || m == 6 || m == 9 || m == 11 then 30
    else 31
  }

  predicate IsDate(d: Date) {
    1 <= d.month <= 12 && 1 <= d.day <= MonthLength(d.year, d.month)
  }

  function Next(d: Date): Date {
    if d.day < MonthLength(d.year, d.month) then d.(day := d.day + 1)
    else if d.month < 12 then Date(d.year, d.month + 1, 1)
    else Date(d.year + 1, 1, 1)
  }

  /** Days from the first of January 1970 to the first of January of a year, added up year by year. */
  function DaysBeforeYear(y: int): int
    decreases if y < 1970 then 1970 - y else y - 1970
  {
    if y == 1970 then 0
    else if y > 1970 then DaysBeforeYear(y - 1) + YearLength(y - 1)
    else DaysBeforeYear(y + 1) - YearLength(y)
  }

  /** Days of a year before a month, added up month by month. */
  function DaysBeforeMonth(y: int, m: int): int
    decreases m
  {
    if m <= 1 then 0 else DaysBeforeMonth(y, m - 1) + MonthLength(y, m - 1)
  }

  /** The day number of a date: days since 1970-01-01. */
  function DayNumber(d: Date): int {
    DaysBeforeYear(d.year) + DaysBeforeMonth(d.year, d.month) + d.day - 1
  }

  /** A date of the calendar and its day number. */
  predicate Dated(d: Date, days: int) {
    var date := IsDate(d);
    date && DayNumber(d) == days
  }

  // ----- the conversion -----

  /** The 400-year era, rounded down. */
  function Era(z: int): int {
    Truncated(if z >= 0 then z else z - 146_096, 146_097)
  }

  function DayOfEra(z: int): int {
    z - Era(z) * 146_097
  }

  function CivilFromDays(days: int): Date {
    var z := days + 719_468;
    DateInEra(Era(z), DayOfEra(z))
  }

  /** The year of a 400-year era, and the day of that year, both counted from the first of March. */
  function YearOfEra(doe: int): int {
    Truncated(doe - Truncated(doe, 1_460) + Truncated(doe, 36_524) - Truncated(doe, 146_096), 365)
  }

  function DayOfYear(doe: int, yoe: int): int {
    doe - (365 * yoe + Truncated(yoe, 4) - Truncated(yoe, 100))
  }

  function DateInEra(era: int, doe: int): Date {
    var yoe := YearOfEra(doe);
    var y := yoe + era * 400;
    var doy := DayOfYear(doe, yoe);
    var mp := Truncated(5 * doy + 2, 153);
    var day := doy - Truncated(153 * mp + 2, 5) + 1;
    var month := mp + if mp < 10 then 3 else -9;
    var year := y + if month <= 2 then 1 else 0;
    Date(year, month, day)
  }

  // ----- the day count in closed form -----

  /** Leap days before a year, counted from year 1. */
  function LeapsBefore(y: int): int {
    (y - 1) / 4 - (y - 1) / 100 + (y - 1) / 400
  }

  lemma LeapStep(y: int)
    ensures LeapsBefore(y + 1) == LeapsBefore(y) + if IsLeap(y) then 1 else 0
  {
    StepOfDivision(y, 4);
    StepOfDivision(y, 100);
    StepOfDivision(y, 400);
    HundredsAndFours(y);
  }

  lemma HundredsAndFours(y: int)
    ensures y % 400 == 0 ==> y % 100 == 0
    ensures y % 100 == 0 ==> y % 4 == 0
  {
    if y % 400 == 0 {
      Multiple(y, 100, 4 * (y / 400));
    }
    if y % 100 == 0 {
      Multiple(y, 4, 25 * (y / 100));
    }
  }

  lemma Multiple(y: int, n: int, k: int)
    requires (n == 4 || n == 100) && y == n * k
    ensures y % n == 0
  {
  }

  lemma StepOfDivision(y: int, n: int)
    requires n == 4 || n == 100 || n == 400
    ensures y / n == (y - 1) / n + if y % n == 0 then 1 else 0
  {
  }

  lemma {:induction false} DaysBeforeYearClosed(y: int)
    ensures DaysBeforeYear(y) == 365 * (y - 1970) + LeapsBefore(y) - 477
    decreases if y < 1970 then 1970 - y else y - 1970
  {
    if y > 1970 {
      DaysBeforeYearClosed(y - 1);
      LeapStep(y - 1);
    } else if y < 1970 {
      DaysBeforeYearClosed(y + 1);
      LeapStep(y);
    }
  }

  lemma {:induction false} YearsAddUp(y: int, later: int)
    requires y < later
    ensures DaysBeforeYear(y) + YearLength(y) <= DaysBeforeYear(later)
    decreases later - y
  {
    DaysBeforeYearClosed(later);
    DaysBeforeYearClosed(later - 1);
    LeapStep(later - 1);
    if y + 1 == later {
    } else {
      YearsAddUp(y, later - 1);
    }
  }

  lemma {:induction false} MonthsAddUp(y: int, m: int, later: int)
    requires 1 <= m < later <= 13
    ensures DaysBeforeMonth(y, m) + MonthLength(y, m) <= DaysBeforeMonth(y, later)
  {
    if m + 1 == later {
    } else {
      MonthsAddUp(y, m, later - 1);
    }
  }

  lemma TwelveMonths(y: int)
    ensures DaysBeforeMonth(y, 3) == 59 + (if IsLeap(y) then 1 else 0)
    ensures DaysBeforeMonth(y, 13) == YearLength(y)
  {
  }

  /** Day numbers follow the calendar order. */
  lemma DayNumberAscends(a: Date, b: Date)
    requires IsDate(a) && IsDate(b)
    requires a.year < b.year || (a.year == b.year && (a.month < b.month || (a.month == b.month && a.day < b.day)))
    ensures DayNumber(a) < DayNumber(b)
  {
    if a.year < b.year {
      YearsAddUp(a.year, b.year);
      TwelveMonths(a.year);
      MonthsAddUp(a.year, a.month, 13);
      if b.month > 1 {
        MonthsAddUp(b.year, 1, b.month);
      }
    } else if a.month < b.month {
      MonthsAddUp(a.year, a.month, b.month);
    }
  }

  lemma DayNumberInjective(a: Date, b: Date)
    requires IsDate(a) && IsDate(b) && DayNumber(a) == DayNumber(b)
    ensures a == b
  {
    if a != b {
      if a.year < b.year || (a.year == b.year && (a.month < b.month || (a.month == b.month && a.day < b.day))) {
        DayNumberAscends(a, b);
      } else {
        DayNumberAscends(b, a);
      }
    }
  }

  lemma NextCounts(d: Date)
    requires IsDate(d)
    ensures IsDate(Next(d)) && DayNumber(Next(d)) == DayNumber(d) + 1
  {
    if d.day == MonthLength(d.year, d.month) && d.month == 12 {
      TwelveMonths(d.year);
      assert DaysBeforeMonth(d.year, 13) == DaysBeforeMonth(d.year, 12) + MonthLength(d.year, 12);
      DaysBeforeYearClosed(d.year);
      DaysBeforeYearClosed(d.year + 1);
      LeapStep(d.year);
    }
  }

  // ----- the era arithmetic -----

  /**
   A day of a 400-year era that starts on the first of March, as centuries, four-year groups, years and
   days. A year has a 366th day only as the last of its group, unless the century skips it.
   */
  datatype EraDay = EraDay(century: int, group: int, year: int, day: int) {
    predicate Valid() {
      && 0 <= century <= 3 && 0 <= group <= 24 && 0 <= year <= 3 && 0 <= day <= 365
      && (day == 365 ==> year == 3 && (group < 24 || century == 3))
    }

    function Number(): int {
      36_524 * century + 1_461 * group + 365 * year + day
    }

    function YearOfEra(): int {
      100 * century + 4 * group + year
    }
  }

  function Split(doe: int): (e: EraDay)
    requires 0 <= doe < 146_097
    ensures e.Valid() && e.Number() == doe
  {
    var c := if doe / 36_524 < 3 then doe / 36_524 else 3;
    var r := doe - 36_524 * c;
    var q := r / 1_461;
    var r' := r - 1_461 * q;
    var s := if r' / 365 < 3 then r' / 365 else 3;
    EraDay(c, q, s, r' - 365 * s)
  }

  /** Whether a day of an era falls past the end of its share of 1460-day groups. */
  function Carry(e: EraDay): int {
    (24 * e.century + e.group + 365 * e.year + e.day) / 1_460
  }

  lemma CarryBounds(e: EraDay)
    requires e.Valid()
    ensures 0 <= e.day - Carry(e) < 365
  {
  }

  lemma SplitByGroups(e: EraDay)
    requires e.Valid()
    ensures e.Number() / 1_460 == 25 * e.century + e.group + Carry(e)
  {
    var rest := 24 * e.century + e.group + 365 * e.year + e.day;
    assert e.Number() == 1_460 * (25 * e.century + e.group) + rest;
  }

  lemma SplitByCenturies(e: EraDay)
    requires e.Valid()
    ensures e.Number() / 36_524 - e.Number() / 146_096 == e.century
  {
  }

  lemma SplitIntoYear(e: EraDay)
    requires e.Valid()
    ensures YearOfEra(e.Number()) == e.YearOfEra()
  {
    SplitByGroups(e);
    SplitByCenturies(e);
    CarryBounds(e);
  }

  lemma SplitIntoDay(e: EraDay)
    requires e.Valid()
    ensures DayOfYear(e.Number(), e.YearOfEra()) == e.day
  {
  }

  /** The date of a month counted from March and a day, in a year that starts in March. */
  function MarchDate(y: int, mp: int, day: int): Date {
    if mp < 10 then Date(y, mp + 3, day) else Date(y + 1, mp - 9, day)
  }

  function MonthStart(mp: int): int {
    (153 * mp + 2) / 5
  }

  function MonthOf(doy: int): int {
    (5 * doy + 2) / 153
  }

  lemma MonthTable(doy: int)
    requires 0 <= doy <= 365
    ensures var mp := MonthOf(doy);
            && 0 <= mp <= 11 && MonthStart(mp) <= doy
            && (mp <= 10 ==> doy < MonthStart(mp + 1))
  {
  }

  lemma MonthStep(mp: int)
    requires 0 <= mp <= 10
    ensures MonthStart(0) == 0 && MonthStart(10) == 306 && MonthStart(11) == 337
    ensures MonthStart(mp + 1) == MonthStart(mp) + if mp == 1 || mp == 3 || mp == 6 || mp == 8 then 30 else 31
  {
  }

  /** The date that the parts of an era day stand for. */
  function DateOfParts(era: int, e: EraDay): Date {
    MarchDate(era * 400 + e.YearOfEra(), MonthOf(e.day), e.day - MonthStart(MonthOf(e.day)) + 1)
  }

  lemma DateByParts(era: int, e: EraDay)
    requires e.Valid()
    ensures DateInEra(era, e.Number()) == DateOfParts(era, e)
  {
    SplitIntoYear(e);
    SplitIntoDay(e);
    MonthTable(e.day);
  }

  /** The first of March of a year, in closed form. */
  lemma FirstOfMarch(era: int, e: EraDay)
    requires e.Valid() && e.day == 0
    ensures var y := era * 400 + e.YearOfEra();
            DaysBeforeYear(y) + DaysBeforeMonth(y, 3) == era * 146_097 + e.Number() - 719_468
  {
    var y := era * 400 + e.YearOfEra();
    DaysBeforeYearClosed(y);
    LeapStep(y);
    TwelveMonths(y);
    assert y / 4 == 100 * era + 25 * e.century + e.group;
    assert y / 100 == 4 * era + e.century;
    assert y / 400 == era;
  }

  lemma {:induction false} MonthStarts(y: int, mp: int)
    requires 0 <= mp <= 9
    ensures DaysBeforeMonth(y, mp + 3) == DaysBeforeMonth(y, 3) + MonthStart(mp)
  {
    MonthStep(0);
    if mp == 0 {
    } else {
      MonthStarts(y, mp - 1);
      MonthStep(mp - 1);
    }
  }

  /** January and February end the March-based year. */
  lemma MonthStartsAfterNewYear(y: int, mp: int)
    requires 10 <= mp <= 11
    ensures DaysBeforeYear(y + 1) + DaysBeforeMonth(y + 1, mp - 9)
              == DaysBeforeYear(y) + DaysBeforeMonth(y, 3) + MonthStart(mp)
  {
  }

  lemma MarchDateCounts(y: int, doy: int, days: int)
    requires 0 <= doy <= 365 && (doy == 365 ==> IsLeap(y + 1))
    requires days == DaysBeforeYear(y) + DaysBeforeMonth(y, 3) + doy
    ensures Dated(MarchDate(y, MonthOf(doy), doy - MonthStart(MonthOf(doy)) + 1), days)
  {
    var mp := MonthOf(doy);
    MonthTable(doy);
    MonthStep(if mp <= 10 then mp else 10);
    if mp >= 10 {
      MonthStartsAfterNewYear(y, mp);
    } else {
      MonthStarts(y, mp);
    }
  }

  lemma LastDayIsLeap(era: int, e: EraDay)
    requires e.Valid() && e.day == 365
    ensures IsLeap(era * 400 + e.YearOfEra() + 1)
  {
    var y := era * 400 + e.YearOfEra() + 1;
    assert y == era * 400 + 100 * e.century + 4 * (e.group + 1);
    if e.group == 24 {
      assert y == (era + 1) * 400;
    }
  }

  lemma PartsCount(era: int, e: EraDay, days: int)
    requires e.Valid() && days == era * 146_097 + e.Number() - 719_468
    ensures Dated(DateOfParts(era, e), days)
  {
    if e.day == 365 {
      LastDayIsLeap(era, e);
    }
    FirstOfMarch(era, e.(day := 0));
    MarchDateCounts(era * 400 + e.YearOfEra(), e.day, days);
  }

  lemma DateInEraCounts(era: int, e: EraDay, days: int)
    requires e.Valid() && days == era * 146_097 + e.Number() - 719_468
    ensures Dated(DateInEra(era, e.Number()), days)
  {
    DateByParts(era, e);
    PartsCount(era, e, days);
  }

  lemma DateInEraCountsDays(era: int, doe: int, days: int)
    requires 0 <= doe < 146_097 && days + 719_468 == era * 146_097 + doe
    ensures Dated(DateInEra(era, doe), days)
  {
    DateInEraCounts(era, Split(doe), days);
  }

  /** The era of a day number, rounded down, and the day of that era. */
  lemma EraOf(days: int) returns (era: int, doe: int)
    ensures 0 <= doe < 146_097 && days + 719_468 == era * 146_097 + doe
    ensures CivilFromDays(days) == DateInEra(era, doe)
  {
    era, doe := Era(days + 719_468), DayOfEra(days + 719_468);
  }

  /** Every day number maps to a valid date whose day number it is. */
  lemma CivilIsInverse(days: int)
    ensures Dated(CivilFromDays(days), days)
  {
    var era, doe := EraOf(days);
    DateInEraCountsDays(era, doe, days);
  }

  /** Every valid date comes back from its day number. */
  lemma CivilOfDayNumber(d: Date)
    requires IsDate(d)
    ensures CivilFromDays(DayNumber(d)) == d
  {
    CivilIsInverse(DayNumber(d));
    DayNumberInjective(CivilFromDays(DayNumber(d)), d);
  }

  lemma NextByNumber(d: Date, e: Date)
    requires IsDate(d) && IsDate(e) && DayNumber(e) == DayNumber(d) + 1
    ensures e == Next(d)
  {
    NextCounts(d);
    DayNumberInjective(e, Next(d));
  }

  /** One day more is the next calendar day. */
  lemma CivilStepsThroughCalendar(days: int)
    ensures CivilFromDays(days + 1) == Next(CivilFromDays(days))
  {
    CivilIsInverse(days);
    CivilIsInverse(days + 1);
    NextByNumber(CivilFromDays(days), CivilFromDays(days + 1));
  }

  /** Day zero is the first of January 1970. */
  lemma CivilOfDayZero(days: int)
    requires days == 0
    ensures CivilFromDays(days) == Date(1970, 1, 1)
  {
    var epoch := Date(1970, 1, 1);
    assert DayNumber(epoch) == days;
    CivilOfDayNumber(epoch);
  }
}
