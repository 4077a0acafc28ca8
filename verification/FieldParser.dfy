/** Parsing of cron fields (`_parse_field`, `CronSchedule.__init__`). */
module FieldParser {
  import opened Values
  import opened Cron

  /** `str.split(separator)`. */
  function Split(s: string, separator: char): (parts: seq<string>)
    ensures parts != []
  {
    if s == [] then [""]
    else
      var rest := Split(s[1..], separator);
      if s[0] == separator then [""] + rest else [[s[0]] + rest[0]] + rest[1..]
  }

  /** `str.split(separator, 1)` when the separator occurs: the text before and after it. */
  function Cut(s: string, separator: char): Option<(string, string)> {
    if s == [] then None
    else if s[0] == separator then Some(("", s[1..]))
    else
      var rest := Cut(s[1..], separator);
      if rest.None? then None else Some(([s[0]] + rest.value.0, rest.value.1))
  }

  /** ASCII digits, with single underscores between digits. */
  function Digits(s: string): Option<nat> {
    var n := |s|;
    if n == 0 || !('0' <= s[n - 1] <= '9') then None
    else
      var last := (s[n - 1] - '0') as nat;
      if n == 1 then Some(last)
      else
        var rest := Digits(if s[n - 2] == '_' then s[..n - 2] else s[..n - 1]);
        if rest.None? then None else Some(10 * rest.value + last)
  }

  /** `int(text)` for text without blanks. */
  function ParseInt(s: string): Option<int> {
    var unsigned := Digits(if s != [] && s[0] in "+-" then s[1..] else s);
    if unsigned.None? then None
    else
      var value: int := unsigned.value;
      Some(if s[0] == '-' then -value else value)
  }

  /** One comma-separated part: `start`, `start + step`, ... up to `end`. */
  datatype Range = Range(start: int, end: int, step: int)

  function ParseBounds(text: string, low: int, high: int): Option<(int, int)> {
    if text == "*" || text == "" then Some((low, high))
    else
      var cut := Cut(text, '-');
      if cut.Some? then
        var start, end := ParseInt(cut.value.0), ParseInt(cut.value.1);
        if start.Some? && end.Some? then Some((start.value, end.value)) else None
      else
        var value := ParseInt(text);
        if value.Some? then Some((value.value, value.value)) else None
  }

  function ParsePart(part: string, low: int, high: int): Option<Range> {
    var cut := Cut(part, '/');
    var step := if cut.Some? then ParseInt(cut.value.1) else Some(1);
    if step.None? || step.value < 1 then None
    else
      var bounds := ParseBounds(if cut.Some? then cut.value.0 else part, low, high);
      if bounds.None? then None
      else
        var (start, end) := bounds.value;
        if start < low || end > high || start > end then None else Some(Range(start, end, step.value))
  }

  /** How the parts of a field are read. */
  type PartReader = string -> Option<Range>

  function ReaderFor(low: int, high: int): PartReader {
    (part: string) => ParsePart(part, low, high)
  }

  predicate InRange(v: int, r: Range) {
    r.step > 0 && r.start <= v <= r.end && (v - r.start) % r.step == 0
  }

  predicate AllReadable(parts: seq<string>, read: PartReader) {
    forall i :: 0 <= i < |parts| ==> read(parts[i]).Some?
  }

  /** Some part of the field names `v`. */
  predicate Named(parts: seq<string>, read: PartReader, v: int) {
    exists i :: 0 <= i < |parts| && read(parts[i]).Some? && InRange(v, read(parts[i]).value)
  }

  /** The values a field stands for; in the day-of-week field 7 is another name of 0. */
  predicate Means(parts: seq<string>, low: int, high: int, v: int) {
    var read := ReaderFor(low, high);
    if high == 7 then v != 7 && (Named(parts, read, v) || (v == 0 && Named(parts, read, 7)))
    else Named(parts, read, v)
  }

  /** The loop of `_parse_field`: the union of the parts, unless one is bad. */
  method CollectParts(parts: seq<string>, read: PartReader) returns (r: Option<set<int>>)
    ensures r.Some? <==> AllReadable(parts, read)
    ensures r.Some? ==> forall v :: v in r.value <==> Named(parts, read, v)
  {
    var values: set<int> := {};
    for n := 0 to |parts|
      invariant forall i :: 0 <= i < n ==> read(parts[i]).Some?
      invariant forall v :: v in values <==> Named(parts[..n], read, v)
    {
      var part := read(parts[n]);
      if part.None? { return None; }
      NamedOneMore(parts, n, read, part.value);
      values := values + Elements(part.value);
    }
    assert parts[..|parts|] == parts;
    return Some(values);
  }

  /** `_parse_field`: fails exactly when some part is bad, and otherwise returns the union of the
      parts, which is never empty. */
  method ParseField(spec: string, low: int, high: int) returns (r: Option<set<int>>)
    requires 0 <= low <= high
    ensures r.Some? <==> AllReadable(Split(spec, ','), ReaderFor(low, high))
    ensures r.Some? ==> forall v :: v in r.value <==> Means(Split(spec, ','), low, high, v)
    ensures r.Some? ==> Within(r.value, if high == 7 then 0 else low, if high == 7 then 6 else high)
  {
    var parts, read := Split(spec, ','), ReaderFor(low, high);
    r := CollectParts(parts, read);
    if r.Some? {
      PartsAreInBounds(low, high);
      NamedSomething(parts, read, low, high);
      if high == 7 { r := Some(FoldSunday(r.value)); }
    }
  }

  /** `range(start, end + 1, step)`. */
  function Elements(range: Range): (r: set<int>)
    ensures forall v :: v in r <==> InRange(v, range)
  {
    set v | range.start <= v <= range.end && InRange(v, range)
  }

  function FoldSunday(values: set<int>): (r: set<int>)
    ensures forall v :: v in r <==> v != 7 && (v in values || (v == 0 && 7 in values))
    ensures (exists v :: v in values) ==> exists v :: v in r
  {
    var r := set v | v in values :: if v == 7 then 0 else v;
    assert forall v :: v in values ==> (if v == 7 then 0 else v) in r;
    r
  }

  lemma NamedOneMore(parts: seq<string>, n: nat, read: PartReader, range: Range)
    requires n < |parts| && read(parts[n]) == Some(range)
    ensures forall v :: Named(parts[..n + 1], read, v) <==> Named(parts[..n], read, v) || InRange(v, range)
  {
  }

  ghost predicate Bounded(read: PartReader, low: int, high: int) {
    forall part :: read(part).Some? ==>
      low <= read(part).value.start <= read(part).value.end <= high && read(part).value.step > 0
  }

  lemma PartsAreInBounds(low: int, high: int)
    ensures Bounded(ReaderFor(low, high), low, high)
  {
  }

  /** Named values are in bounds, and the start of the first part is one. */
  lemma NamedSomething(parts: seq<string>, read: PartReader, low: int, high: int)
    requires Bounded(read, low, high) && parts != [] && read(parts[0]).Some?
    ensures forall v :: Named(parts, read, v) ==> low <= v <= high
    ensures exists v :: Named(parts, read, v)
  {
    assert InRange(read(parts[0]).value.start, read(parts[0]).value);
    assert Named(parts, read, read(parts[0]).value.start);
  }

  /** Every part of every field can be read. */
  predicate Readable(fields: seq<string>)
    requires |fields| == 5
  {
    && AllReadable(Split(fields[0], ','), ReaderFor(0, 59))
    && AllReadable(Split(fields[1], ','), ReaderFor(0, 23))
    && AllReadable(Split(fields[2], ','), ReaderFor(1, 31))
    && AllReadable(Split(fields[3], ','), ReaderFor(1, 12))
    && AllReadable(Split(fields[4], ','), ReaderFor(0, 7))
  }

  /** `CronSchedule.__init__`, given the blank-separated fields. Every accepted expression is
      well-formed, which is all the search needs. */
  method ParseSchedule(fields: seq<string>) returns (r: Option<Schedule>)
    ensures r.Some? <==> |fields| == 5 && Readable(fields)
    ensures r.Some? ==>
      && WellFormed(r.value)
      && (forall v :: v in r.value.minutes <==> Means(Split(fields[0], ','), 0, 59, v))
      && (forall v :: v in r.value.hours <==> Means(Split(fields[1], ','), 0, 23, v))
      && (forall v :: v in r.value.dom <==> Means(Split(fields[2], ','), 1, 31, v))
      && (forall v :: v in r.value.months <==> Means(Split(fields[3], ','), 1, 12, v))
      && (forall v :: v in r.value.dow <==> Means(Split(fields[4], ','), 0, 7, v))
      && r.value.domAny == (fields[2] == "*") && r.value.dowAny == (fields[4] == "*")
  {
    if |fields| != 5 { return None; }
    var minutes := ParseField(fields[0], 0, 59);
    if minutes.None? { return None; }
    var hours := ParseField(fields[1], 0, 23);
    if hours.None? { return None; }
    var dom := ParseField(fields[2], 1, 31);
    if dom.None? { return None; }
    var months := ParseField(fields[3], 1, 12);
    if months.None? { return None; }
    var dow := ParseField(fields[4], 0, 7);
    if dow.None? { return None; }
    return Some(Schedule(minutes.value, hours.value, dom.value, months.value, dow.value, fields[2] == "*", fields[4] == "*"));
  }

  // ------------------------------------------------------- what a field text means

  /** Decimal digits. */
  function Show(n: nat): string {
    if n < 10 then ['0' + n as char] else Show(n / 10) + ['0' + (n % 10) as char]
  }

  /** The forms of a part: a star, a number, or a span, each with or without a step. */
  datatype Span = Star | One(n: nat) | Between(a: nat, b: nat)

  function ShowSpan(span: Span): string {
    match span
    case Star => "*"
    case One(n) => Show(n)
    case Between(a, b) => Show(a) + "-" + Show(b)
  }

  function ShowPart(span: Span, step: Option<nat>): string {
    ShowSpan(span) + if step.Some? then "/" + Show(step.value) else ""
  }

  predicate AllDigits(s: string) {
    s != [] && forall i :: 0 <= i < |s| ==> '0' <= s[i] <= '9'
  }

  lemma {:induction false} ShownReads(n: nat)
    ensures AllDigits(Show(n)) && Digits(Show(n)) == Some(n)
  {
    if n >= 10 {
      ShownReads(n / 10);
      assert Show(n)[..|Show(n)| - 1] == Show(n / 10);
    }
  }

  lemma NumberReads(n: nat)
    ensures AllDigits(Show(n)) && ParseInt(Show(n)) == Some(n as int)
  {
    ShownReads(n);
    assert Show(n)[0] !in "+-";
  }

  lemma {:induction false} CutAt(a: string, separator: char, b: string)
    requires separator !in a
    ensures Cut(a + [separator] + b, separator) == Some((a, b))
  {
    var s := a + [separator] + b;
    if a == [] {
      assert s[1..] == b;
    } else {
      assert s[1..] == a[1..] + [separator] + b;
      assert a[0] in a;
      CutAt(a[1..], separator, b);
      assert a == [a[0]] + a[1..];
    }
  }

  lemma {:induction false} NoCut(s: string, separator: char)
    requires separator !in s
    ensures Cut(s, separator).None?
  {
    if s != [] {
      assert s[0] in s;
      NoCut(s[1..], separator);
    }
  }

  /** Where a span starts and ends. */
  function Ends(span: Span, low: int, high: int): (int, int) {
    match span
    case Star => (low, high)
    case One(n) => (n, n)
    case Between(a, b) => (a, b)
  }

  lemma DigitsAreNoSeparators(s: string)
    requires AllDigits(s)
    ensures '/' !in s && '-' !in s && ',' !in s && s != "*"
  {
    assert s[0] != '*';
  }

  lemma SpanReads(span: Span, low: int, high: int)
    ensures ParseBounds(ShowSpan(span), low, high) == Some(Ends(span, low, high))
    ensures '/' !in ShowSpan(span)
  {
    match span
    case Star =>
    case One(n) =>
      NumberReads(n);
      DigitsAreNoSeparators(Show(n));
      NoCut(Show(n), '-');
    case Between(a, b) =>
      NumberReads(a);
      NumberReads(b);
      DigitsAreNoSeparators(Show(a));
      DigitsAreNoSeparators(Show(b));
      CutAt(Show(a), '-', Show(b));
      assert ShowSpan(span)[|Show(a)|] == '-';
      assert ShowSpan(span)[0] == Show(a)[0];
  }

  predicate IsDigit(c: char) {
    '0' <= c <= '9'
  }

  /** A digit, or an underscore after a digit. */
  predicate Fits(s: string, i: nat)
    requires i < |s|
  {
    IsDigit(s[i]) || (s[i] == '_' && i > 0 && IsDigit(s[i - 1]))
  }

  /** Digits, with a single underscore allowed between two of them. */
  predicate Grouped(s: string) {
    s != "" && IsDigit(s[|s| - 1]) && forall i :: 0 <= i < |s| ==> Fits(s, i)
  }

  function WithoutUnderscores(s: string): string {
    if s == "" then "" else WithoutUnderscores(s[..|s| - 1]) + (if s[|s| - 1] == '_' then "" else [s[|s| - 1]])
  }

  /** What `Digits` reads before the last digit. */
  function BeforeLast(s: string): string
    requires |s| > 1
  {
    if s[|s| - 2] == '_' then s[..|s| - 2] else s[..|s| - 1]
  }

  lemma BeforeLastIsGrouped(s: string)
    requires |s| > 1 && IsDigit(s[|s| - 1])
    ensures Grouped(s) <==> Grouped(BeforeLast(s))
  {
    var t := BeforeLast(s);
    assert forall i :: 0 <= i < |t| ==> (Fits(t, i) <==> Fits(s, i));
    assert Fits(s, |s| - 1);
    if Grouped(s) {
      assert Fits(s, |s| - 2);
      assert t != "" && IsDigit(t[|t| - 1]);
    }
    if Grouped(t) {
      assert Fits(s, |s| - 2);
      forall i | 0 <= i < |s| ensures Fits(s, i) {
        if i < |t| { assert Fits(t, i); }
      }
    }
  }

  lemma BeforeLastKeepsDigits(s: string)
    requires |s| > 1 && IsDigit(s[|s| - 1])
    ensures WithoutUnderscores(s) == WithoutUnderscores(BeforeLast(s)) + [s[|s| - 1]]
  {
    var t := s[..|s| - 1];
    if s[|s| - 2] == '_' {
      assert t[..|t| - 1] == BeforeLast(s);
      assert WithoutUnderscores(t) == WithoutUnderscores(BeforeLast(s));
    }
  }

  /** A text is a number exactly when it is grouped so, and the underscores do not change its value. */
  lemma {:induction false} NumbersAreGrouped(s: string)
    ensures Digits(s).Some? <==> Grouped(s)
    ensures Grouped(s) ==> AllDigits(WithoutUnderscores(s)) && Digits(s) == Digits(WithoutUnderscores(s))
    decreases |s|
  {
    if |s| == 1 {
      assert IsDigit(s[0]) ==> Fits(s, 0);
      assert s[..0] == "";
      assert IsDigit(s[0]) ==> WithoutUnderscores(s) == s;
    } else if |s| > 1 && IsDigit(s[|s| - 1]) {
      NumbersAreGrouped(BeforeLast(s));
      BeforeLastIsGrouped(s);
      BeforeLastKeepsDigits(s);
      if Grouped(s) { LastDigit(WithoutUnderscores(BeforeLast(s)), s[|s| - 1]); }
    }
  }

  lemma LastDigit(s: string, c: char)
    requires AllDigits(s) && IsDigit(c)
    ensures AllDigits(s + [c])
    ensures Digits(s).Some? ==> Digits(s + [c]) == Some(10 * Digits(s).value + (c - '0') as nat)
  {
    var t := s + [c];
    if s != "" { assert t[..|t| - 1] == s && t[|t| - 2] == s[|s| - 1]; }
  }

  /** One sign may stand before a number; a minus negates it. */
  lemma SignedNumber(sign: char, s: string)
    requires sign in "+-" && (s == "" || s[0] !in "+-")
    ensures ParseInt([sign] + s) == match ParseInt(s) case None => None case Some(n) => Some(if sign == '-' then -n else n)
  {
    var signed := [sign] + s;
    assert signed[1..] == s && signed[0] == sign;
    if s == "" { assert Digits(s).None?; }
  }

  /** Every part is read as it is written: from its start in steps up to its end, a missing step being
      one; and it is refused exactly when the step is zero or the span is empty or out of bounds. */
  lemma PartReads(span: Span, step: Option<nat>, low: int, high: int)
    ensures var (start, end) := Ends(span, low, high);
      var k := if step.Some? then step.value else 1;
      ParsePart(ShowPart(span, step), low, high) ==
        if k < 1 || start < low || end > high || start > end then None else Some(Range(start, end, k))
  {
    var text := ShowSpan(span);
    SpanReads(span, low, high);
    if step.Some? {
      NumberReads(step.value);
      CutAt(text, '/', Show(step.value));
      assert ShowPart(span, step) == text + ['/'] + Show(step.value);
    } else {
      assert ShowPart(span, step) == text;
      NoCut(text, '/');
    }
  }

  /** A part with an unreadable number, alone, in a span or as the step, is refused. */
  lemma UnreadableIsRefused(a: string, b: string, low: int, high: int)
    requires '/' !in a && '-' !in a && ParseInt(a).None?
    ensures a != "*" && a != "" ==> ParsePart(a, low, high).None? && ParsePart(a + ['/'] + b, low, high).None?
    ensures '/' !in b ==> ParsePart(b + ['/'] + a, low, high).None? && ParsePart(a + ['-'] + b, low, high).None?
    ensures '/' !in b && '-' !in b ==> ParsePart(b + ['-'] + a, low, high).None?
  {
    NoCut(a, '/');
    NoCut(a, '-');
    CutAt(a, '/', b);
    CutAt(a, '-', b);
    if '/' !in b {
      CutAt(b, '/', a);
      NoCut(a + ['-'] + b, '/');
      NoCut(b + ['-'] + a, '/');
    }
    if '-' !in b { CutAt(b, '-', a); }
  }

  /** A range holds its start and every step-th value after it, up to its end. */
  lemma RangeSteps(v: int, r: Range)
    requires r.step > 0
    ensures InRange(v, r) <==> v <= r.end && exists k: nat :: v == r.start + k * r.step
  {
    if InRange(v, r) {
      var k := (v - r.start) / r.step;
      assert v - r.start == r.step * k + (v - r.start) % r.step;
      assert v == r.start + k * r.step;
    }
    if k: nat :| v == r.start + k * r.step {
      StepsDivide(k, r.step);
    }
  }

  lemma StepsDivide(k: nat, step: int)
    requires step > 0
    ensures k * step >= 0 && (k * step) % step == 0
  {
    var x := k * step;
    Positive(k, step);
    OnlyRemainder(step, k, x / step, x % step);
  }

  lemma {:induction false} Positive(k: nat, step: int)
    requires step > 0
    ensures k * step >= k
  {
    if k > 0 {
      Positive(k - 1, step);
      assert k * step == (k - 1) * step + step;
    }
  }

  lemma WholeSteps(step: int, more: int)
    requires step > 0
    ensures more >= 1 ==> step * more >= step
    ensures more <= -1 ==> step * more <= -step
  {
    if more >= 1 {
      Positive(more - 1, step);
      assert step * more == (more - 1) * step + step;
    } else if more <= -1 {
      Positive(-more - 1, step);
      assert step * more == -((-more - 1) * step) - step;
    }
  }

  /** A multiple leaves no remainder. */
  lemma OnlyRemainder(step: int, k: int, quotient: int, rest: int)
    requires 0 <= rest < step && k * step == step * quotient + rest
    ensures rest == 0
  {
    assert step * (k - quotient) == step * k - step * quotient;
    WholeSteps(step, k - quotient);
  }

  // `*/15` of the minutes names the quarters of the hour.
  lemma Quarters(v: int)
    ensures ParsePart("*/15", 0, 59) == Some(Range(0, 59, 15))
    ensures InRange(v, Range(0, 59, 15)) <==> v == 0 || v == 15 || v == 30 || v == 45
  {
    PartReads(Star, Some(15), 0, 59);
    assert Show(15) == "15";
    assert ShowPart(Star, Some(15)) == "*/15";
  }

  /** A list of parts is split at its commas. */
  lemma {:induction false} SplitAt(a: string, separator: char, b: string)
    requires separator !in a
    ensures Split(a + [separator] + b, separator) == [a] + Split(b, separator)
    ensures Split(a, separator) == [a]
  {
    var s := a + [separator] + b;
    if a == [] {
      assert s[1..] == b;
    } else {
      assert s[1..] == a[1..] + [separator] + b;
      assert a[0] in a;
      SplitAt(a[1..], separator, b);
      assert a == [a[0]] + a[1..];
    }
  }

  /** Sunday goes by two names, the other days by one. */
  lemma SundayHasTwoNames(parts: seq<string>, v: int)
    ensures Means(parts, 0, 7, 0) <==> Named(parts, ReaderFor(0, 7), 0) || Named(parts, ReaderFor(0, 7), 7)
    ensures v != 0 && v != 7 ==> (Means(parts, 0, 7, v) <==> Named(parts, ReaderFor(0, 7), v))
    ensures !Means(parts, 0, 7, 7)
  {
  }
}
