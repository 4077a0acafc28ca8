/** `CronSchedule`: field sets, the search for the next fire, and what the five-year bound costs. */
module Cron {
  import opened Values
  import opened Calendar

  /** Microseconds of a minute. */
  const MINUTE := 60_000_000
  /** Five times 366 days, in minutes; a day has 1440. */
  const WINDOW := 366 * 5 * 1440

  /** The parsed fields; `domAny` and `dowAny` say that the text of the field was a bare star. */
  datatype Schedule = Schedule(minutes: set<int>, hours: set<int>, dom: set<int>, months: set<int>, dow: set<int>,
                               domAny: bool, dowAny: bool)

  ghost predicate Within(values: set<int>, low: int, high: int) {
    (exists v :: v in values) && forall v :: v in values ==> low <= v <= high
  }

  /** What parsing guarantees of every accepted expression (`FieldParser.ParseSchedule`). */
  ghost predicate WellFormed(s: Schedule) {
    && Within(s.minutes, 0, 59) && Within(s.hours, 0, 23) && Within(s.dom, 1, 31)
    && Within(s.months, 1, 12) && Within(s.dow, 0, 6)
  }

  /** What a clock on the wall shows; weekday 0 is Monday. */
  datatype Reading = Reading(date: Date, weekday: int, hour: int, minute: int)

  /** A time zone shows a reading for each UTC minute: any function, so any history of gaps and folds. */
  type Zone = int -> Reading

  /** Day-of-month and day-of-week combine by OR once both are restricted. */
  predicate DayMatches(s: Schedule, local: Reading) {
    var domHit := local.date.day in s.dom;
    var dowHit := (local.weekday + 1) % 7 in s.dow;
    if s.domAny && s.dowAny then true
    else if s.domAny then dowHit
    else if s.dowAny then domHit
    else domHit || dowHit
  }

  predicate Matches(s: Schedule, local: Reading) {
    local.date.month in s.months && DayMatches(s, local) && local.hour in s.hours && local.minute in s.minutes
  }

  /** What a schedule lists, field by field. With two bare stars every day will do; with one, the
      other field decides; with none, a listed day or a listed weekday is enough. */
  predicate Lists(s: Schedule, local: Reading) {
    && local.date.month in s.months && local.hour in s.hours && local.minute in s.minutes
    && (s.domAny && !s.dowAny ==> (local.weekday + 1) % 7 in s.dow)
    && (!s.domAny && s.dowAny ==> local.date.day in s.dom)
    && (!s.domAny && !s.dowAny ==> local.date.day in s.dom || (local.weekday + 1) % 7 in s.dow)
  }

  /** The UTC minutes whose local reading matches. */
  function Hits(s: Schedule, zone: Zone): int -> bool {
    (minute: int) => Matches(s, zone(minute))
  }

  /** The least hit in `start..end`. */
  function FirstHit(hits: int -> bool, start: int, end: int): (r: Option<int>)
    ensures r.Some? ==> start <= r.value < end && hits(r.value)
    ensures forall m :: start <= m < end && (r.None? || m < r.value) ==> !hits(m)
    decreases end - start
  {
    if start >= end then None
    else if hits(start) then Some(start)
    else FirstHit(hits, start + 1, end)
  }

  /** The next fire after `minute`, searched for five years. */
  function Next(hits: int -> bool, minute: int): Option<int> {
    FirstHit(hits, minute + 1, minute + 1 + WINDOW)
  }

  datatype CronError = NaiveAnchor | NoFire

  /** An anchor without a time zone, or an instant in microseconds. */
  datatype Moment = Naive | Aware(micros: int)

  /** The answer of a search from `anchor`: the first minute after it that the schedule lists, within
      five times 366 days, or the failure to find one. */
  ghost predicate IsFirstListed(s: Schedule, zone: Zone, anchor: int, r: Result<int, CronError>) {
    && (r.Success? ==> anchor < r.value <= anchor + 5 * 366 * 24 * 60 && Lists(s, zone(r.value)))
    && (r.Failure? ==> r.error == NoFire)
    && (forall m :: anchor < m <= anchor + 5 * 366 * 24 * 60 && (r.Success? ==> m < r.value) ==> !Lists(s, zone(m)))
  }

  lemma HitsAreListed(s: Schedule, zone: Zone, minute: int)
    ensures Hits(s, zone)(minute) <==> Lists(s, zone(minute))
  {
  }

  lemma NextIsFirstListed(s: Schedule, zone: Zone, anchor: int)
    ensures var next := Next(Hits(s, zone), anchor);
      IsFirstListed(s, zone, anchor, if next.Some? then Success(next.value) else Failure(NoFire))
  {
    var next := Next(Hits(s, zone), anchor);
    if next.Some? { HitsAreListed(s, zone, next.value); }
    forall m | anchor < m <= anchor + 5 * 366 * 24 * 60 && (next.Some? ==> m < next.value) ensures !Lists(s, zone(m)) {
      HitsAreListed(s, zone, m);
      assert !Hits(s, zone)(m);
    }
  }

  method NextAfter(s: Schedule, zone: Zone, moment: Moment) returns (r: Result<int, CronError>)
    ensures moment.Naive? ==> r == Failure(NaiveAnchor)
    ensures moment.Aware? ==>
      var next := Next(Hits(s, zone), moment.micros / MINUTE);
      r == if next.Some? then Success(next.value) else Failure(NoFire)
    ensures moment.Aware? ==> IsFirstListed(s, zone, moment.micros / 60_000_000, r)
  {
    if moment.Naive? { return Failure(NaiveAnchor); }
    NextIsFirstListed(s, zone, moment.micros / MINUTE);
    var candidate := moment.micros / MINUTE + 1;
    var deadline := candidate + 366 * 5 * 1440;
    ghost var hits, first := Hits(s, zone), candidate;
    while candidate < deadline
      invariant first <= candidate <= deadline
      invariant FirstHit(hits, first, deadline) == FirstHit(hits, candidate, deadline)
    {
      var local := zone(candidate);
      if local.date.month in s.months && DayMatches(s, local) && local.hour in s.hours && local.minute in s.minutes
      {
        return Success(candidate);
      }
      candidate := candidate + 1;
    }
    return Failure(NoFire);
  }

  // -------------------------------------------------------- the search is a cursor

  /** A later anchor never fires earlier, and all anchors before a fire find that fire. */
  lemma NextIsMonotone(hits: int -> bool, early: int, late: int)
    requires early <= late
    requires Next(hits, early).Some?
    ensures late < Next(hits, early).value ==> Next(hits, late) == Next(hits, early)
    ensures Next(hits, late).Some? ==> Next(hits, early).value <= Next(hits, late).value
  {
  }

  /** The fire reached from `minute` by asking `n` times. */
  function Fire(hits: int -> bool, minute: int, n: nat): Option<int>
    decreases n
  {
    if n == 0 then Some(minute)
    else
      var next := Next(hits, minute);
      if next.None? then None else Fire(hits, next.value, n - 1)
  }

  /** From the anchor and from every hit before `hit` the search finds something. */
  ghost predicate NeverGivesUp(hits: int -> bool, anchor: int, hit: int) {
    forall m :: anchor <= m < hit && (m == anchor || hits(m)) ==> Next(hits, m).Some?
  }

  lemma NextIsOnTheWay(hits: int -> bool, anchor: int, hit: int)
    requires anchor < hit && hits(hit) && NeverGivesUp(hits, anchor, hit)
    ensures var next := Next(hits, anchor);
      next.Some? && anchor < next.value <= hit && hits(next.value) && NeverGivesUp(hits, next.value, hit)
  {
  }

  /** The first `n` answers: each is a hit, and each lies after the one before. */
  ghost predicate Ascend(hits: int -> bool, anchor: int, n: nat) {
    && (forall k :: 0 <= k <= n ==> Fire(hits, anchor, k).Some?)
    && (forall k :: 0 < k <= n ==> hits(Fire(hits, anchor, k).value))
    && (forall j, k :: 0 <= j < k <= n ==> Fire(hits, anchor, j).value < Fire(hits, anchor, k).value)
  }

  lemma NoAnswerYet(hits: int -> bool, anchor: int)
    ensures Fire(hits, anchor, 0) == Some(anchor) && Ascend(hits, anchor, 0)
  {
  }

  lemma OneMoreAnswer(hits: int -> bool, anchor: int, next: int, n: nat)
    requires Next(hits, anchor) == Some(next) && Ascend(hits, next, n)
    ensures Fire(hits, anchor, n + 1) == Fire(hits, next, n) && Ascend(hits, anchor, n + 1)
  {
    assert forall k :: 0 < k <= n + 1 ==> Fire(hits, anchor, k) == Fire(hits, next, k - 1);
    assert Fire(hits, next, 0) == Some(next);
  }

  /** Asking again and again visits every hit, without repeat: unless the search gives up on the way,
      each matching minute after the anchor is reached, and the answers up to it are ever later hits. */
  lemma {:induction false} EveryHitIsReached(hits: int -> bool, anchor: int, hit: int) returns (n: nat)
    requires anchor < hit && hits(hit) && NeverGivesUp(hits, anchor, hit)
    ensures n > 0 && Fire(hits, anchor, n) == Some(hit) && Ascend(hits, anchor, n)
    decreases hit - anchor
  {
    NextIsOnTheWay(hits, anchor, hit);
    var next := Next(hits, anchor).value;
    if next == hit {
      n := 0;
      NoAnswerYet(hits, next);
    } else {
      n := EveryHitIsReached(hits, next, hit);
    }
    OneMoreAnswer(hits, anchor, next, n);
    n := n + 1;
  }

  /** A repeated wall minute fires at both of its instants: both readings match, and they follow
      each other unless another fire falls between. */
  lemma FoldFiresTwice(s: Schedule, zone: Zone, first: int, second: int)
    requires first < second <= first + WINDOW && zone(first) == zone(second)
    requires Hits(s, zone)(first)
    ensures Hits(s, zone)(second)
    ensures Next(Hits(s, zone), first - 1) == Some(first)
    ensures var next := Next(Hits(s, zone), first); next.Some? && next.value <= second
  {
  }

  // ------------------------------------------------- the five-year bound, in UTC

  /** UTC clocks show the Gregorian date of the day and the time within it. */
  ghost predicate IsUtc(zone: Zone) {
    forall minute :: ShowsUtc(zone(minute), minute)
  }

  ghost predicate ShowsUtc(local: Reading, minute: int) {
    && ValidDate(local.date) && DayOf(local.date) == minute / 1440
    && local.weekday == minute / 1440 % 7
    && local.hour == minute % 1440 / 60
    && local.minute == minute % 60
  }

  lemma UtcExists() returns (zone: Zone)
    ensures IsUtc(zone)
  {
    zone := (minute: int) => Reading(DateOf(minute / 1440), minute / 1440 % 7, minute % 1440 / 60, minute % 60);
  }

  /** Some day of some month in the fields exists in every year. */
  ghost predicate HasOrdinaryDate(s: Schedule) {
    exists month, day :: month in s.months && day in s.dom && 1 <= month <= 12 && 1 <= day <= DaysIn(false, month)
  }

  /** ... in leap years. */
  ghost predicate HasLeapDate(s: Schedule) {
    exists month, day :: month in s.months && day in s.dom && 1 <= month <= 12 && 1 <= day <= DaysIn(true, month)
  }

  /** The caller's check: a restricted day-of-week, two bare stars, or an ordinary date. */
  ghost predicate FiresEveryYear(s: Schedule) {
    !s.dowAny || s.domAny || HasOrdinaryDate(s)
  }

  /** A date that matches by month, day and weekday. */
  predicate DateHit(s: Schedule, date: Date)
    requires ValidDate(date)
  {
    date.month in s.months && DayMatches(s, Reading(date, DayOf(date) % 7, 0, 0))
  }

  /** The UTC minute at which clocks in UTC show this date and time. */
  function MinuteOf(date: Date, hour: int, m: int): int
    requires ValidDate(date)
  {
    DayOf(date) * 1440 + hour * 60 + m
  }

  lemma ReadingOf(zone: Zone, date: Date, hour: int, minute: int)
    requires IsUtc(zone) && ValidDate(date) && 0 <= hour < 24 && 0 <= minute < 60
    ensures zone(MinuteOf(date, hour, minute)) == Reading(date, DayOf(date) % 7, hour, minute)
  {
    var day := DayOf(date);
    var at := MinuteOf(date, hour, minute);
    MinuteParts(day, hour, minute);
    assert ShowsUtc(zone(at), at);
    SameDaySameDate(zone(at).date, date);
  }

  lemma MinuteParts(day: int, hour: int, minute: int)
    requires 0 <= hour < 24 && 0 <= minute < 60
    ensures var at := day * 1440 + hour * 60 + minute;
      at / 1440 == day && at % 1440 / 60 == hour && at % 60 == minute
  {
    var at := day * 1440 + hour * 60 + minute;
    assert 0 <= hour * 60 + minute < 1440;
    assert at / 1440 == day;
    assert at % 1440 == hour * 60 + minute;
    assert at == (day * 24 + hour) * 60 + minute;
  }

  lemma MinuteInWindow(minute: int, day: int, hour: int, m: int)
    requires 0 <= hour < 24 && 0 <= m < 60
    requires (minute + 1) / 1440 < day <= (minute + 1) / 1440 + 1829
    ensures minute < day * 1440 + hour * 60 + m < minute + 1 + WINDOW
  {
  }

  ghost function Pick(values: set<int>): (v: int)
    requires exists v :: v in values
    ensures v in values
  {
    var v :| v in values; v
  }

  lemma TimeOfDateIsHit(s: Schedule, zone: Zone, date: Date, hour: int, m: int)
    requires WellFormed(s) && IsUtc(zone) && ValidDate(date) && DateHit(s, date) && hour in s.hours && m in s.minutes
    ensures Hits(s, zone)(MinuteOf(date, hour, m))
  {
    ReadingOf(zone, date, hour, m);
  }

  /** The search may use every whole day of a span of 1829 days. */
  lemma DateHitIsFound(s: Schedule, zone: Zone, minute: int, date: Date)
    requires WellFormed(s) && IsUtc(zone) && ValidDate(date) && DateHit(s, date)
    requires (minute + 1) / 1440 < DayOf(date) <= (minute + 1) / 1440 + 1829
    ensures Next(Hits(s, zone), minute).Some?
  {
    var hour, m := Pick(s.hours), Pick(s.minutes);
    MinuteInWindow(minute, DayOf(date), hour, m);
    TimeOfDateIsHit(s, zone, date, hour, m);
  }

  lemma FoundIsDateHit(s: Schedule, zone: Zone, minute: int) returns (date: Date)
    requires IsUtc(zone) && Next(Hits(s, zone), minute).Some?
    ensures ValidDate(date) && DateHit(s, date)
    ensures (minute + 1) / 1440 <= DayOf(date) <= (minute + WINDOW) / 1440
  {
    var at := Next(Hits(s, zone), minute).value;
    assert ShowsUtc(zone(at), at);
    date := zone(at).date;
  }

  /** The seven days from the first of a month carry all weekdays. */
  lemma MonthHasWeekday(year: int, month: int, dow: int) returns (date: Date)
    requires 1 <= month <= 12 && 0 <= dow <= 6
    ensures ValidDate(date) && date.year == year && date.month == month && (DayOf(date) % 7 + 1) % 7 == dow
  {
    var first := Date(year, month, 1);
    MonthsGrow(IsLeap(year), month, month + 1);
    var shift := (dow - DayOf(first) - 1) % 7;
    date := first.(day := 1 + shift);
    assert DayOf(date) == DayOf(first) + shift;
    WeekdayShift(DayOf(first), dow);
  }

  lemma WeekdayShift(day: int, dow: int)
    requires 0 <= dow <= 6
    ensures ((day + (dow - day - 1) % 7) % 7 + 1) % 7 == dow
  {
  }

  lemma EveryYearHasDateHit(s: Schedule, year: int) returns (date: Date)
    requires WellFormed(s) && FiresEveryYear(s)
    ensures ValidDate(date) && date.year == year && DateHit(s, date)
  {
    if !s.dowAny || s.domAny {
      var month, dow := Pick(s.months), Pick(s.dow);
      date := MonthHasWeekday(year, month, dow);
    } else {
      var month, day :| month in s.months && day in s.dom && 1 <= month <= 12 && 1 <= day <= DaysIn(false, month);
      date := Date(year, month, day);
      assert DaysIn(false, month) <= DaysIn(true, month);
    }
  }

  lemma EveryYearIsEnough(s: Schedule, zone: Zone, minute: int)
    requires WellFormed(s) && IsUtc(zone) && FiresEveryYear(s)
    ensures Next(Hits(s, zone), minute).Some?
  {
    var today := (minute + 1) / 1440;
    var year := YearOf(today);
    var date := EveryYearHasDateHit(s, year + 1);
    DayInItsYear(date);
    YearLength(year);
    YearLength(year + 1);
    DateHitIsFound(s, zone, minute, date);
  }

  /** Without an ordinary date only February 29 can match. */
  lemma OnlyLeapDay(s: Schedule, date: Date)
    requires WellFormed(s) && !FiresEveryYear(s) && ValidDate(date) && DateHit(s, date)
    ensures HasLeapDate(s) && date == Date(date.year, 2, 29) && IsLeap(date.year)
  {
    assert date.day <= DaysIn(true, date.month);
    assert date.day > DaysIn(false, date.month);
  }

  lemma LeapDayIsHit(s: Schedule, year: int)
    requires WellFormed(s) && !FiresEveryYear(s) && HasLeapDate(s) && IsLeap(year)
    ensures ValidDate(Date(year, 2, 29)) && DateHit(s, Date(year, 2, 29))
    ensures DayOf(Date(year, 2, 29)) == YearStart(year) + 59
  {
    var month, day :| month in s.months && day in s.dom && 1 <= month <= 12 && 1 <= day <= DaysIn(true, month);
    assert day > DaysIn(false, month);
  }

  /** From the last minute of 2096-02-29 the next February 29 is almost eight years away. */
  const BEFORE_2100: int := DayOf(Date(2096, 3, 1)) * 1440 - 1

  lemma NoLeapDayAround2100(s: Schedule, zone: Zone)
    requires WellFormed(s) && IsUtc(zone) && !FiresEveryYear(s)
    ensures Next(Hits(s, zone), BEFORE_2100) == None
  {
    if Next(Hits(s, zone), BEFORE_2100).Some? {
      var date := FoundIsDateHit(s, zone, BEFORE_2100);
      OnlyLeapDay(s, date);
      NoLeapYearNear2100(date.year);
    }
  }

  lemma NoLeapYearNear2100(year: int)
    requires IsLeap(year)
    ensures YearStart(year) + 59 < DayOf(Date(2096, 3, 1)) || YearStart(year) + 59 > DayOf(Date(2096, 3, 1)) + 1830
  {
    if year <= 2096 {
      YearsGrow(year, 2096);
    } else {
      assert year >= 2104;
      YearsGrow(2104, year);
    }
  }

  /** Main result: in UTC the five-year search succeeds from every anchor exactly for the schedules
      that pass the caller's check. */
  lemma FiveYearsSufficeExactly(s: Schedule, zone: Zone)
    requires WellFormed(s) && IsUtc(zone)
    ensures (forall minute :: Next(Hits(s, zone), minute).Some?) <==> FiresEveryYear(s)
  {
    if FiresEveryYear(s) {
      forall minute ensures Next(Hits(s, zone), minute).Some? { EveryYearIsEnough(s, zone, minute); }
    } else {
      NoLeapDayAround2100(s, zone);
    }
  }

  /** The calendar skips no century in the five years from `first`. */
  ghost predicate FiveRegularYears(first: int) {
    forall y :: first <= y <= first + 4 ==> !SkippedCentury(y)
  }

  /** The next February 29 on or after a day of year `current`, when five years hold no skipped century. */
  lemma NextLeapDay(day: int, current: int) returns (year: int)
    requires YearStart(current) <= day < YearStart(current + 1)
    requires FiveRegularYears(current)
    ensures IsLeap(year) && day <= YearStart(year) + 59 < day + 1600
  {
    year := NextFourth(current);
    if year == current && day > YearStart(current) + 59 { year := FourLater(current); }
    RegularFourthIsLeap(current, year);
    if year == current { SameFebruary(day, YearStart(year)); } else { LaterFebruary(day, current, year); }
  }

  function FourLater(year: int): (r: int)
    requires year % 4 == 0
    ensures r == year + 4 && r % 4 == 0
  {
    year + 4
  }

  lemma SameFebruary(day: int, start: int)
    requires start <= day <= start + 59
    ensures day <= start + 59 < day + 1600
  {
  }

  lemma RegularFourthIsLeap(current: int, year: int)
    requires FiveRegularYears(current) && current <= year <= current + 4 && year % 4 == 0
    ensures IsLeap(year)
  {
    LeapUnlessSkipped(year);
  }

  lemma LaterFebruary(day: int, current: int, year: int)
    requires YearStart(current) <= day < YearStart(current + 1) && current < year <= current + 4
    ensures day <= YearStart(year) + 59 < day + 1600
  {
    YearsGrow(current, year);
    YearsGrow(current + 1, year);
    Between(day, YearStart(current), YearStart(current + 1), YearStart(year), year - current);
  }

  lemma Between(day: int, start: int, next: int, later: int, years: int)
    requires start <= day < next <= later && later - start <= 366 * years && years <= 4
    ensures day <= later + 59 < day + 1600
  {
  }

  function NextFourth(year: int): (r: int)
    ensures year <= r <= year + 3 && r % 4 == 0
  {
    year + (4 - year % 4) % 4
  }

  lemma LeapUnlessSkipped(year: int)
    requires year % 4 == 0 && !SkippedCentury(year)
    ensures IsLeap(year)
  {
  }

  /** Some scheduled time of some February 29 lies in the search window. */
  ghost predicate LeapMinuteAhead(s: Schedule, minute: int) {
    exists year, hour, m :: IsLeap(year) && hour in s.hours && m in s.minutes
      && minute < MinuteOf(Date(year, 2, 29), hour, m) <= minute + WINDOW
  }

  /** For each anchor, a schedule of February 29 alone is found exactly when a scheduled time of a
      February 29 lies in the window. */
  lemma LeapDayIsFoundExactly(s: Schedule, zone: Zone, minute: int)
    requires WellFormed(s) && IsUtc(zone) && HasLeapDate(s) && !FiresEveryYear(s)
    ensures Next(Hits(s, zone), minute).Some? <==> LeapMinuteAhead(s, minute)
  {
    if Next(Hits(s, zone), minute).Some? {
      LeapDayFoundIsAhead(s, zone, minute, Next(Hits(s, zone), minute).value);
    } else if LeapMinuteAhead(s, minute) {
      var year, hour, m :| IsLeap(year) && hour in s.hours && m in s.minutes
        && minute < MinuteOf(Date(year, 2, 29), hour, m) <= minute + WINDOW;
      LeapMinuteIsHit(s, zone, year, hour, m);
      assert false;
    }
  }

  lemma LeapMinuteIsHit(s: Schedule, zone: Zone, year: int, hour: int, m: int)
    requires WellFormed(s) && IsUtc(zone) && HasLeapDate(s) && !FiresEveryYear(s)
    requires IsLeap(year) && hour in s.hours && m in s.minutes
    ensures Hits(s, zone)(MinuteOf(Date(year, 2, 29), hour, m))
  {
    LeapDayIsHit(s, year);
    TimeOfDateIsHit(s, zone, Date(year, 2, 29), hour, m);
  }

  lemma LeapDayFoundIsAhead(s: Schedule, zone: Zone, minute: int, at: int)
    requires WellFormed(s) && IsUtc(zone) && !FiresEveryYear(s)
    requires Hits(s, zone)(at) && minute < at <= minute + WINDOW
    ensures LeapMinuteAhead(s, minute)
  {
    var local := zone(at);
    assert ShowsUtc(local, at);
    OnlyLeapDay(s, local.date);
    MinuteOfParts(at);
    assert at == MinuteOf(Date(local.date.year, 2, 29), local.hour, local.minute);
  }

  lemma MinuteOfParts(at: int)
    ensures at == at / 1440 * 1440 + at % 1440 / 60 * 60 + at % 60
  {
    MinuteParts(at / 1440, at % 1440 / 60, at % 1440 % 60);
  }

  /** `0 0 29 2 *`. */
  const LEAP_DAYS := Schedule({0}, {0}, {29}, {2}, {0, 1, 2, 3, 4, 5, 6}, false, true)

  lemma LeapDaysAreLeapDays(s: Schedule)
    requires s == LEAP_DAYS
    ensures WellFormed(s) && HasLeapDate(s) && !FiresEveryYear(s)
  {
    assert 0 in s.minutes && 0 in s.hours && 29 in s.dom && 2 in s.months && 0 in s.dow;
    assert DaysIn(true, 2) == 29 && DaysIn(false, 2) == 28;
  }

  /** A concrete schedule for which the five-year search fails: from the end of February 29, 2096. */
  lemma LeapDaysFailAround2100(zone: Zone)
    requires IsUtc(zone)
    ensures WellFormed(LEAP_DAYS) && HasLeapDate(LEAP_DAYS) && Next(Hits(LEAP_DAYS, zone), BEFORE_2100) == None
  {
    LeapDaysAreLeapDays(LEAP_DAYS);
    NoLeapDayAround2100(LEAP_DAYS, zone);
  }

  /** That is the case from any anchor whose next day opens five years without a skipped century. */
  lemma LeapDayIsFound(s: Schedule, zone: Zone, minute: int)
    requires WellFormed(s) && IsUtc(zone) && HasLeapDate(s)
    requires FiveRegularYears(YearOf((minute + 1) / 1440 + 1))
    ensures Next(Hits(s, zone), minute).Some?
  {
    if FiresEveryYear(s) {
      EveryYearIsEnough(s, zone, minute);
    } else {
      LeapDayIsFoundFrom(s, zone, minute, YearOf((minute + 1) / 1440 + 1));
    }
  }

  lemma LeapDayIsFoundFrom(s: Schedule, zone: Zone, minute: int, current: int)
    requires WellFormed(s) && IsUtc(zone) && HasLeapDate(s) && !FiresEveryYear(s)
    requires YearStart(current) <= (minute + 1) / 1440 + 1 < YearStart(current + 1) && FiveRegularYears(current)
    ensures Next(Hits(s, zone), minute).Some?
  {
    var year := NextLeapDay((minute + 1) / 1440 + 1, current);
    LeapDayIsHit(s, year);
    DateHitIsFound(s, zone, minute, Date(year, 2, 29));
  }

  /** Some anchor finds a fire exactly when the fields name a day that exists; otherwise, as for
      February 31, the search fails from everywhere. */
  lemma CanFireExactly(s: Schedule, zone: Zone)
    requires WellFormed(s) && IsUtc(zone)
    ensures (exists minute :: Next(Hits(s, zone), minute).Some?) <==> FiresEveryYear(s) || HasLeapDate(s)
  {
    if FiresEveryYear(s) {
      EveryYearIsEnough(s, zone, 0);
    } else if HasLeapDate(s) {
      LeapDayIsHit(s, 2004);
      var minute := (DayOf(Date(2004, 2, 29)) - 1) * 1440 - 1;
      DateHitIsFound(s, zone, minute, Date(2004, 2, 29));
    } else {
      forall minute ensures Next(Hits(s, zone), minute).None? {
        if Next(Hits(s, zone), minute).Some? {
          var date := FoundIsDateHit(s, zone, minute);
          OnlyLeapDay(s, date);
        }
      }
    }
  }

  // ------------------------------------------------------------ the four day rules

  /** Every minute a schedule fires at, in terms of its fields. */
  lemma FiresByFields(s: Schedule, zone: Zone, minute: int)
    ensures var local := zone(minute);
      var timed := local.date.month in s.months && local.hour in s.hours && local.minute in s.minutes;
      var fires := Hits(s, zone)(minute);
      && (s.domAny && s.dowAny ==> (fires <==> timed))
      && (s.domAny && !s.dowAny ==> (fires <==> timed && (local.weekday + 1) % 7 in s.dow))
      && (!s.domAny && s.dowAny ==> (fires <==> timed && local.date.day in s.dom))
      && (!s.domAny && !s.dowAny ==> (fires <==> timed && (local.date.day in s.dom || (local.weekday + 1) % 7 in s.dow)))
  {
    HitsAreListed(s, zone, minute);
  }

  /** `0 9 * * 1`: Mondays at nine. */
  const MONDAYS := Schedule({0}, {9}, set d | 1 <= d <= 31, set m | 1 <= m <= 12, {1}, true, false)

  lemma SecondMonday()
    ensures DayOf(Date(2024, 1, 8)) == 738_892 && DayOf(Date(2024, 1, 2)) == 738_886
  {
    assert YearStart(2024) == 738_885;
  }

  lemma FirstListedIsNext(s: Schedule, zone: Zone, anchor: int, at: int)
    requires anchor < at <= anchor + WINDOW && Lists(s, zone(at))
    requires forall m :: anchor < m < at ==> !Lists(s, zone(m))
    ensures Next(Hits(s, zone), anchor) == Some(at)
  {
    NextIsFirstListed(s, zone, anchor);
  }

  /** From the minute before nine on Tuesday 2024-01-02 the answer is nine on Monday 2024-01-08. */
  lemma MondaysFireOnMonday(zone: Zone)
    requires IsUtc(zone)
    ensures Next(Hits(MONDAYS, zone), MinuteOf(Date(2024, 1, 2), 8, 59)) == Some(MinuteOf(Date(2024, 1, 8), 9, 0))
  {
    SecondMonday();
    MondaysFrom(MONDAYS, zone, 738_886 * 1440 + 539, 738_892 * 1440 + 540);
  }

  lemma MondaysFrom(s: Schedule, zone: Zone, anchor: int, monday: int)
    requires IsUtc(zone) && anchor == 738_886 * 1440 + 539 && monday == 738_892 * 1440 + 540
    requires s.minutes == {0} && s.hours == {9} && s.dow == {1} && s.domAny && !s.dowAny && forall m :: 1 <= m <= 12 ==> m in s.months
    ensures Next(Hits(s, zone), anchor) == Some(monday)
  {
    assert Lists(s, zone(monday)) by {
      assert ShowsUtc(zone(monday), monday);
      MinuteParts(738_892, 9, 0);
    }
    forall m | anchor < m < monday ensures !Lists(s, zone(m)) { NoMondayBefore(s, zone, m); }
    FirstListedIsNext(s, zone, anchor, monday);
  }

  lemma NoMondayBefore(s: Schedule, zone: Zone, m: int)
    requires IsUtc(zone) && 738_886 * 1440 + 539 < m < 738_892 * 1440 + 540
    requires s.minutes == {0} && s.hours == {9} && s.dow == {1} && s.domAny && !s.dowAny
    ensures !Lists(s, zone(m))
  {
    assert ShowsUtc(zone(m), m);
    var day := m / 1440;
    assert 738_886 <= day <= 738_892;
    if day == 738_892 {
      MinuteOfParts(m);
    } else {
      OtherDaysOfThatWeek(day);
    }
  }

  lemma OtherDaysOfThatWeek(day: int)
    requires 738_886 <= day < 738_892
    ensures (day % 7 + 1) % 7 != 1
  {
  }
}
