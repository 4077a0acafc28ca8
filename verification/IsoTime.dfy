/** `datetime.isoformat` of UTC instants, and why comparing the texts compares the instants. The job
    table stores its leases as such texts and lets SQL compare them. */
module IsoTime {
  import opened Calendar

  /** Microseconds since 0001-01-01T00:00+00:00, in the years `datetime` knows. */
  predicate Representable(t: int) {
    0 <= t < YearStart(10000) * 86_400_000_000
  }

  function Sign(m: int, n: int): int {
    if m < n then -1 else if m == n then 0 else 1
  }

  /** Lexicographic comparison by code point, a proper prefix first: negative, zero or positive. */
  function Compare(a: string, b: string): int {
    if a == [] then Sign(0, |b|)
    else if b == [] then 1
    else if a[0] != b[0] then Sign(a[0] as int, b[0] as int)
    else Compare(a[1..], b[1..])
  }

  predicate TextLess(a: string, b: string) {
    Compare(a, b) < 0
  }

  predicate TextAtMost(a: string, b: string) {
    Compare(a, b) <= 0
  }

  /** `n` in `width` decimal digits. */
  function Pad(n: nat, width: nat): (text: string)
    ensures |text| == width
  {
    if width == 0 then "" else Pad(n / 10, width - 1) + ['0' + (n % 10) as char]
  }

  function DateText(day: nat): (text: string)
    ensures |text| == 10
  {
    var date := DateOf(day);
    Pad(date.year, 4) + "-" + Pad(date.month, 2) + "-" + Pad(date.day, 2)
  }

  function ClockText(second: nat): (text: string)
    ensures |text| == 8
  {
    Pad(second / 3600, 2) + ":" + Pad(second / 60 % 60, 2) + ":" + Pad(second % 60, 2)
  }

  /** The fraction is left out when it is zero. */
  function FractionText(micros: nat): string {
    (if micros == 0 then "" else "." + Pad(micros, 6)) + "+00:00"
  }

  function Iso(t: nat): string {
    DateText(t / 86_400_000_000) + ("T" + ClockText(t / 1_000_000 % 86_400) + FractionText(t % 1_000_000))
  }

  // --------------------------------------------------------------------- fields

  /** The number that a text of decimal digits stands for. */
  function NumberIn(text: string): nat {
    if text == [] then 0
    else
      var last := text[|text| - 1];
      10 * NumberIn(text[..|text| - 1]) + if '0' <= last <= '9' then (last - '0') as nat else 0
  }

  /** A padded number reads as itself. */
  lemma {:induction false} PadReads(n: nat, width: nat)
    requires n < Power10(width)
    ensures NumberIn(Pad(n, width)) == n && forall i :: 0 <= i < width ==> '0' <= Pad(n, width)[i] <= '9'
  {
    if width > 0 {
      PadReads(n / 10, width - 1);
      assert Pad(n, width)[..width - 1] == Pad(n / 10, width - 1);
    }
  }

  lemma DateTextShows(date: Date)
    requires ValidDate(date) && date.year >= 1 && DayOf(date) >= 0
    ensures DateText(DayOf(date)) == Pad(date.year, 4) + "-" + Pad(date.month, 2) + "-" + Pad(date.day, 2)
  {
    SameDaySameDate(DateOf(DayOf(date)), date);
  }

  lemma ClockTextShows(hour: nat, minute: nat, second: nat, clock: nat)
    requires hour < 24 && minute < 60 && second < 60 && clock == hour * 3600 + minute * 60 + second
    ensures clock < 86_400 && ClockText(clock) == Pad(hour, 2) + ":" + Pad(minute, 2) + ":" + Pad(second, 2)
  {
    ClockOfParts(hour, minute, second);
  }

  lemma IsoInParts(t: nat, day: nat, clock: nat, micros: nat)
    requires t == (day * 86_400 + clock) * 1_000_000 + micros && clock < 86_400 && micros < 1_000_000
    ensures Iso(t) == DateText(day) + ("T" + ClockText(clock) + FractionText(micros))
  {
    InstantOfParts(day, clock, micros);
  }

  /** The text of an instant shows its date, its time of day and, unless zero, its microseconds. */
  lemma IsoShowsFields(t: nat, date: Date, hour: nat, minute: nat, second: nat, micros: nat, dateText: string, clockText: string)
    requires ValidDate(date) && date.year >= 1 && DayOf(date) >= 0
    requires hour < 24 && minute < 60 && second < 60 && micros < 1_000_000
    requires t == (DayOf(date) * 86_400 + (hour * 3600 + minute * 60 + second)) * 1_000_000 + micros
    requires dateText == Pad(date.year, 4) + "-" + Pad(date.month, 2) + "-" + Pad(date.day, 2)
    requires clockText == Pad(hour, 2) + ":" + Pad(minute, 2) + ":" + Pad(second, 2)
    ensures Iso(t) == dateText + ("T" + clockText + ((if micros == 0 then "" else "." + Pad(micros, 6)) + "+00:00"))
  {
    DateTextShows(date);
    ClockTextShows(hour, minute, second, hour * 3600 + minute * 60 + second);
    IsoInParts(t, DayOf(date), hour * 3600 + minute * 60 + second, micros);
  }

  lemma InstantOfParts(day: nat, clock: nat, micros: nat)
    requires clock < 86_400 && micros < 1_000_000
    ensures var t := (day * 86_400 + clock) * 1_000_000 + micros;
      t / 86_400_000_000 == day && t / 1_000_000 % 86_400 == clock && t % 1_000_000 == micros
  {
    var t := (day * 86_400 + clock) * 1_000_000 + micros;
    assert t / 1_000_000 == day * 86_400 + clock;
    InstantParts(t);
  }

  lemma ClockOfParts(hour: nat, minute: nat, second: nat)
    requires hour < 24 && minute < 60 && second < 60
    ensures var clock := hour * 3600 + minute * 60 + second;
      clock < 86_400 && clock / 3600 == hour && clock / 60 % 60 == minute && clock % 60 == second
  {
    var clock := hour * 3600 + minute * 60 + second;
    assert clock / 60 == hour * 60 + minute;
  }

  // ---------------------------------------------------------------------- order

  /** The first verdict that is not a tie. */
  function Then(first: int, second: int): int {
    if first != 0 then first else second
  }

  /** Beginnings of one length decide first, the rest breaks their ties. */
  lemma {:induction false} CompareByParts(a: string, b: string, x: string, y: string)
    requires |a| == |b|
    ensures Compare(a + x, b + y) == Then(Compare(a, b), Compare(x, y))
  {
    if a == [] {
      assert a + x == x && b + y == y;
    } else {
      assert (a + x)[1..] == a[1..] + x && (b + y)[1..] == b[1..] + y;
      CompareByParts(a[1..], b[1..], x, y);
    }
  }

  lemma {:induction false} EqualCompare(a: string, b: string)
    ensures Compare(a, b) == 0 <==> a == b
  {
    if a != [] && b != [] {
      EqualCompare(a[1..], b[1..]);
      assert a == [a[0]] + a[1..] && b == [b[0]] + b[1..];
    }
  }

  /** Of two texts exactly one is less, or they are equal, from whichever side they are compared. */
  lemma {:induction false} CompareIsAntisymmetric(a: string, b: string)
    ensures Compare(a, b) == -Compare(b, a)
    ensures TextLess(a, b) <==> !TextAtMost(b, a)
  {
    if a != [] && b != [] { CompareIsAntisymmetric(a[1..], b[1..]); }
  }

  /** A common text between two fields changes nothing. */
  lemma CompareAround(a: string, b: string, separator: string, x: string, y: string)
    requires |a| == |b|
    ensures Compare(a + separator + x, b + separator + y) == Then(Compare(a, b), Compare(x, y))
  {
    CompareByParts(a + separator, b + separator, x, y);
    CompareByParts(a, b, separator, separator);
    EqualCompare(separator, separator);
  }

  function Power10(n: nat): nat {
    if n == 0 then 1 else 10 * Power10(n - 1)
  }

  lemma {:induction false} ComparePads(m: nat, n: nat, width: nat)
    requires m < Power10(width) && n < Power10(width)
    ensures Compare(Pad(m, width), Pad(n, width)) == Sign(m, n)
  {
    if width > 0 {
      ComparePads(m / 10, n / 10, width - 1);
      var c, d := '0' + (m % 10) as char, '0' + (n % 10) as char;
      CompareByParts(Pad(m / 10, width - 1), Pad(n / 10, width - 1), [c], [d]);
      assert Compare([c], [d]) == Sign(m % 10, n % 10);
    }
  }

  lemma Powers()
    ensures Power10(2) == 100 && Power10(4) == 10_000 && Power10(6) == 1_000_000
  {
  }

  lemma CompareDates(a: nat, b: nat)
    requires a < YearStart(10000) && b < YearStart(10000)
    ensures Compare(DateText(a), DateText(b)) == Sign(a, b)
  {
    var left, right := DateOf(a), DateOf(b);
    YearIsInRange(a);
    YearIsInRange(b);
    Powers();
    ComparePads(left.year, right.year, 4);
    ComparePads(left.month, right.month, 2);
    ComparePads(left.day, right.day, 2);
    CompareAround(Pad(left.year, 4), Pad(right.year, 4), "-", Pad(left.month, 2), Pad(right.month, 2));
    CompareAround(Pad(left.year, 4) + "-" + Pad(left.month, 2), Pad(right.year, 4) + "-" + Pad(right.month, 2), "-",
                  Pad(left.day, 2), Pad(right.day, 2));
    DaysFollowDates(left, right);
    DaysFollowDates(right, left);
  }

  lemma YearIsInRange(day: nat)
    requires day < YearStart(10000)
    ensures 1 <= DateOf(day).year < 10000 && DateOf(day).month < 100 && 0 < DateOf(day).day < 100
  {
  }

  lemma CompareClocks(a: nat, b: nat)
    requires a < 86_400 && b < 86_400
    ensures Compare(ClockText(a), ClockText(b)) == Sign(a, b)
  {
    var h, m, s := a / 3600, a / 60 % 60, a % 60;
    var h', m', s' := b / 3600, b / 60 % 60, b % 60;
    Powers();
    ComparePads(h, h', 2);
    ComparePads(m, m', 2);
    ComparePads(s, s', 2);
    CompareAround(Pad(h, 2), Pad(h', 2), ":", Pad(m, 2), Pad(m', 2));
    CompareAround(Pad(h, 2) + ":" + Pad(m, 2), Pad(h', 2) + ":" + Pad(m', 2), ":", Pad(s, 2), Pad(s', 2));
    ClockParts(a);
    ClockParts(b);
  }

  lemma ClockParts(second: nat)
    ensures second == second / 3600 * 3600 + second / 60 % 60 * 60 + second % 60
  {
  }

  /** A plus sign sorts before a full stop, so leaving a zero fraction out keeps the order. */
  lemma CompareFractions(a: nat, b: nat)
    requires a < 1_000_000 && b < 1_000_000
    ensures Compare(FractionText(a), FractionText(b)) == Sign(a, b)
  {
    Powers();
    ComparePads(a, b, 6);
    if a > 0 && b > 0 {
      CompareByParts("." + Pad(a, 6), "." + Pad(b, 6), "+00:00", "+00:00");
      CompareByParts(".", ".", Pad(a, 6), Pad(b, 6));
      EqualCompare("+00:00", "+00:00");
      EqualCompare(".", ".");
    } else if a == 0 && b == 0 {
      EqualCompare(FractionText(a), FractionText(b));
    } else {
      assert FractionText(a)[0] == if a == 0 then '+' else '.';
      assert FractionText(b)[0] == if b == 0 then '+' else '.';
    }
  }

  /** Texts of three parts compare part by part. */
  lemma CompareThreeParts(a: string, b: string, c: string, x: string, y: string, z: string)
    requires |a| == |x| && |b| == |y|
    ensures Compare(a + ("T" + b + c), x + ("T" + y + z)) == Then(Compare(a, x), Then(Compare(b, y), Compare(c, z)))
  {
    CompareByParts("T" + b, "T" + y, c, z);
    CompareByParts("T", "T", b, y);
    EqualCompare("T", "T");
    CompareByParts(a, x, "T" + b + c, "T" + y + z);
  }

  /** Comparing the stored texts is comparing the instants. */
  lemma TextOrderIsTimeOrder(t: nat, u: nat)
    requires Representable(t) && Representable(u)
    ensures TextLess(Iso(t), Iso(u)) <==> t < u
    ensures Iso(t) == Iso(u) <==> t == u
  {
    var day, clock, micros := t / 86_400_000_000, t / 1_000_000 % 86_400, t % 1_000_000;
    var day', clock', micros' := u / 86_400_000_000, u / 1_000_000 % 86_400, u % 1_000_000;
    CompareDates(day, day');
    CompareClocks(clock, clock');
    CompareFractions(micros, micros');
    CompareThreeParts(DateText(day), ClockText(clock), FractionText(micros),
                      DateText(day'), ClockText(clock'), FractionText(micros'));
    assert Compare(Iso(t), Iso(u)) == Then(Sign(day, day'), Then(Sign(clock, clock'), Sign(micros, micros')));
    InstantParts(t);
    InstantParts(u);
    EqualCompare(Iso(t), Iso(u));
  }

  lemma InstantParts(t: nat)
    ensures t == t / 86_400_000_000 * 86_400_000_000 + t / 1_000_000 % 86_400 * 1_000_000 + t % 1_000_000
  {
  }
}
