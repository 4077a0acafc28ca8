/** The proleptic Gregorian calendar. Days are counted from Monday 0001-01-01, day 0. */
module Calendar {

  datatype Date = Date(year: int, month: int, day: int)

  predicate IsLeap(year: int) {
    year % 4 == 0 && (year % 100 != 0 || year % 400 == 0)
  }

  /** A century year the calendar skips, such as 2100. */
  predicate SkippedCentury(year: int) {
    year % 100 == 0 && year % 400 != 0
  }

  function YearStart(year: int): int {
    var past := year - 1;
    365 * past + past / 4 - past / 100 + past / 400
  }

  /** Days of the year before month `month`; month 13 stands for the end of the year. */
  function MonthStart(leap: bool, month: int): int
    requires 1 <= month <= 13
  {
    (if month == 1 then 0 else if month == 2 then 31 else if month == 3 then 59
     else if month == 4 then 90 else if month == 5 then 120 else if month == 6 then 151
     else if month == 7 then 181 else if month == 8 then 212 else if month == 9 then 243
     else if month == 10 then 273 else if month == 11 then 304 else if month == 12 then 334 else 365)
    + (if leap && month > 2 then 1 else 0)
  }

  function DaysIn(leap: bool, month: int): int
    requires 1 <= month <= 12
  {
    MonthStart(leap, month + 1) - MonthStart(leap, month)
  }

  predicate ValidDate(date: Date) {
    1 <= date.month <= 12 && 1 <= date.day <= DaysIn(IsLeap(date.year), date.month)
  }

  function DayOf(date: Date): int
    requires ValidDate(date)
  {
    YearStart(date.year) + MonthStart(IsLeap(date.year), date.month) + date.day - 1
  }

  function YearFrom(year: int, day: int): (r: int)
    requires YearStart(year) <= day
    ensures YearStart(r) <= day < YearStart(r + 1)
    decreases day - YearStart(year)
  {
    YearLength(year);
    if day < YearStart(year + 1) then year else YearFrom(year + 1, day)
  }

  function YearOf(day: int): (r: int)
    ensures YearStart(r) <= day < YearStart(r + 1)
  {
    YearFrom(if day >= 0 then day / 366 + 1 else day / 365, day)
  }

  function MonthFrom(leap: bool, month: int, dayOfYear: int): (r: int)
    requires 1 <= month <= 12
    requires MonthStart(leap, month) <= dayOfYear < MonthStart(leap, 13)
    ensures 1 <= r <= 12 && MonthStart(leap, r) <= dayOfYear < MonthStart(leap, r + 1)
    decreases 12 - month
  {
    if dayOfYear < MonthStart(leap, month + 1) then month else MonthFrom(leap, month + 1, dayOfYear)
  }

  function DateOf(day: int): (r: Date)
    ensures ValidDate(r) && DayOf(r) == day
  {
    var year := YearOf(day);
    YearLength(year);
    var dayOfYear := day - YearStart(year);
    var month := MonthFrom(IsLeap(year), 1, dayOfYear);
    Date(year, month, dayOfYear - MonthStart(IsLeap(year), month) + 1)
  }

  // ------------------------------------------------------------------ its laws

  lemma YearLength(year: int)
    ensures YearStart(year + 1) == YearStart(year) + (if IsLeap(year) then 366 else 365)
  {
    var past := year - 1;
    DivStep4(past);
    DivStep100(past);
    DivStep400(past);
    LeapRule(year);
    assert YearStart(year + 1) == 365 * year + year / 4 - year / 100 + year / 400;
  }

  lemma DivStep4(n: int)
    ensures (n + 1) / 4 == n / 4 + (if (n + 1) % 4 == 0 then 1 else 0)
  {
  }

  lemma DivStep100(n: int)
    ensures (n + 1) / 100 == n / 100 + (if (n + 1) % 100 == 0 then 1 else 0)
  {
  }

  lemma DivStep400(n: int)
    ensures (n + 1) / 400 == n / 400 + (if (n + 1) % 400 == 0 then 1 else 0)
  {
  }

  /** Years divisible by 400 are divisible by 100, and those by 4. */
  lemma LeapRule(year: int)
    ensures (if IsLeap(year) then 1 else 0) ==
      (if year % 4 == 0 then 1 else 0) - (if year % 100 == 0 then 1 else 0) + (if year % 400 == 0 then 1 else 0)
  {
    if year % 400 == 0 {
      FourHundredIsHundred(year, year / 400);
    } else if year % 100 == 0 {
      HundredIsFour(year, year / 100);
    }
  }

  lemma FourHundredIsHundred(year: int, q: int)
    requires year == 400 * q
    ensures year % 100 == 0 && year % 4 == 0
  {
    assert year == 100 * (4 * q);
    assert year == 4 * (100 * q);
  }

  lemma HundredIsFour(year: int, q: int)
    requires year == 100 * q
    ensures year % 4 == 0
  {
    assert year == 4 * (25 * q);
  }

  lemma {:induction false} YearsGrow(early: int, late: int)
    requires early <= late
    ensures 365 * (late - early) <= YearStart(late) - YearStart(early) <= 366 * (late - early)
    decreases late - early
  {
    if early < late {
      YearLength(late - 1);
      YearsGrow(early, late - 1);
    }
  }

  predicate Before(a: Date, b: Date) {
    a.year < b.year || (a.year == b.year && (a.month < b.month || (a.month == b.month && a.day < b.day)))
  }

  lemma MonthsGrow(leap: bool, early: int, late: int)
    requires 1 <= early < late <= 13
    ensures MonthStart(leap, early) + 28 <= MonthStart(leap, late)
  {
  }

  /** Days follow dates: the order of dates is the order of days. */
  lemma DaysFollowDates(a: Date, b: Date)
    requires ValidDate(a) && ValidDate(b)
    ensures Before(a, b) <==> DayOf(a) < DayOf(b)
  {
    if Before(a, b) {
      EarlierDateEarlierDay(a, b);
    } else if a != b {
      EarlierDateEarlierDay(b, a);
    }
  }

  lemma EarlierDateEarlierDay(a: Date, b: Date)
    requires ValidDate(a) && ValidDate(b) && Before(a, b)
    ensures DayOf(a) < DayOf(b)
  {
    YearLength(a.year);
    if a.year < b.year { YearsGrow(a.year + 1, b.year); }
    if a.month < 12 { MonthsGrow(IsLeap(a.year), a.month + 1, 13); }
    if a.month + 1 < b.month { MonthsGrow(IsLeap(a.year), a.month + 1, b.month); }
  }

  /** A day has one date, so `DateOf` inverts `DayOf`. */
  lemma SameDaySameDate(a: Date, b: Date)
    requires ValidDate(a) && ValidDate(b) && DayOf(a) == DayOf(b)
    ensures a == b
  {
    DaysFollowDates(a, b);
    DaysFollowDates(b, a);
  }

  lemma DayInItsYear(date: Date)
    requires ValidDate(date)
    ensures YearStart(date.year) <= DayOf(date) < YearStart(date.year + 1)
  {
    YearLength(date.year);
    if date.month < 12 { MonthsGrow(IsLeap(date.year), date.month + 1, 13); }
  }
}
