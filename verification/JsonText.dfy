/** How `json.dumps` writes strings and integers and `json.loads` reads them (sections 6 and 7 of RFC 8259,
    non-ASCII characters left as they are). */
module JsonText {
  import opened Values

  /** What a file is made of. The hexadecimal digits of a digest or a fingerprint stay symbolic, so
      they count as one unit. */
  datatype Unit = Char(c: char) | Symbol(text: Text)

  type Units = seq<Unit>

  const QUOTE: Unit := Char('"')
  const BREAK: Unit := Char('\n')
  const SEPARATOR: Units := [Char(','), Char(' ')]
  const COLON: Units := [Char(':'), Char(' ')]

  function Chars(s: string): (r: Units)
    ensures |r| == |s|
    ensures forall i :: 0 <= i < |s| ==> r[i] == Char(s[i])
  {
    seq(|s|, i requires 0 <= i < |s| => Char(s[i]))
  }

  lemma Join(a: Units, b: Units, c: Units)
    ensures a + b + c == a + (b + c)
  {
  }

  // -------------------------------------------------------------------- strings

  function HexDigit(n: nat): char
    requires n < 16
  {
    if n < 10 then '0' + n as char else 'a' + (n - 10) as char
  }

  function HexValue(u: Unit): (r: Option<nat>)
    ensures r.Some? ==> r.value < 16
  {
    if u.Symbol? then None
    else if '0' <= u.c <= '9' then Some((u.c - '0') as nat)
    else if 'a' <= u.c <= 'f' then Some((u.c - 'a') as nat + 10)
    else if 'A' <= u.c <= 'F' then Some((u.c - 'A') as nat + 10)
    else None
  }

  function Escaped(c: char): Units {
    [Char('\\'), Char(c)]
  }

  function EscapeChar(c: char): Units {
    if c == '"' || c == '\\' then Escaped(c)
    else if c == '\n' then Escaped('n')
    else if c == '\r' then Escaped('r')
    else if c == '\t' then Escaped('t')
    else if c == 8 as char then Escaped('b')
    else if c == 12 as char then Escaped('f')
    else if c < ' ' then Escaped('u') + [Char('0'), Char('0'), Char(HexDigit(c as nat / 16)), Char(HexDigit(c as nat % 16))]
    else [Char(c)]
  }

  function Escape(s: string): Units {
    if s == [] then [] else EscapeChar(s[0]) + Escape(s[1..])
  }

  /** Four hexadecimal digits; surrogates are no characters here. */
  function ReadHex(units: Units): Option<char>
    requires |units| == 4
  {
    var a, b, c, d := HexValue(units[0]), HexValue(units[1]), HexValue(units[2]), HexValue(units[3]);
    if a.None? || b.None? || c.None? || d.None? then None
    else
      var code := 4096 * a.value + 256 * b.value + 16 * c.value + d.value;
      if 0xD800 <= code < 0xE000 then None else Some(code as char)
  }

  /** Reads one character of a string literal: the character and how many units it took. */
  function ReadChar(units: Units): Option<(char, nat)> {
    if units == [] || units[0].Symbol? || units[0] == QUOTE || units[0].c < ' ' then None
    else if units[0].c != '\\' then Some((units[0].c, 1))
    else if |units| < 2 || units[1].Symbol? then None
    else match units[1].c
      case '"' => Some(('"', 2))
      case '\\' => Some(('\\', 2))
      case '/' => Some(('/', 2))
      case 'n' => Some(('\n', 2))
      case 'r' => Some(('\r', 2))
      case 't' => Some(('\t', 2))
      case 'b' => Some((8 as char, 2))
      case 'f' => Some((12 as char, 2))
      case 'u' =>
        if |units| < 6 then None
        else
          var c := ReadHex(units[2..6]);
          if c.None? then None else Some((c.value, 6))
      case _ => None
  }

  /** Reads string characters up to the closing quote: the string, and what follows the quote. */
  function ReadString(units: Units): (r: Option<(string, Units)>)
    ensures r.Some? ==> |r.value.1| < |units|
    decreases |units|
  {
    if units == [] then None
    else if units[0] == QUOTE then Some(("", units[1..]))
    else
      var first := ReadChar(units);
      if first.None? || first.value.1 == 0 || first.value.1 > |units| then None
      else
        var rest := ReadString(units[first.value.1..]);
        if rest.None? then None else Some(([first.value.0] + rest.value.0, rest.value.1))
  }

  lemma CharReadsBack(c: char, rest: Units)
    ensures var text := EscapeChar(c);
      && text != [] && text[0] != QUOTE
      && ReadChar(text + rest) == Some((c, |text|))
  {
    var text := EscapeChar(c);
    if |text| == 6 { assert (text + rest)[2..6] == text[2..6]; }
  }

  /** One written character in front of a literal is read, and the reader goes on behind it. */
  lemma FirstCharReads(text: Units, c: char, tail: Units)
    requires text != [] && text[0] != QUOTE && ReadChar(text + tail) == Some((c, |text|))
    ensures var rest := ReadString(tail);
      ReadString(text + tail) == if rest.None? then None else Some(([c] + rest.value.0, rest.value.1))
  {
    assert (text + tail)[|text|..] == tail;
  }

  /** No control character, line breaks included, is written raw. */
  predicate Printable(units: Units) {
    forall i :: 0 <= i < |units| && units[i].Char? ==> units[i].c >= ' '
  }

  lemma WrittenCharReads(c: char, tail: Units)
    ensures var rest := ReadString(tail);
      ReadString(EscapeChar(c) + tail) == if rest.None? then None else Some(([c] + rest.value.0, rest.value.1))
  {
    CharReadsBack(c, tail);
    FirstCharReads(EscapeChar(c), c, tail);
  }

  lemma EscapeInParts(s: string, tail: Units)
    requires s != []
    ensures Escape(s) + tail == EscapeChar(s[0]) + (Escape(s[1..]) + tail)
  {
  }

  /** A written string reads back as itself wherever it stands in a line. */
  lemma {:induction false} StringReadsBack(s: string, rest: Units)
    ensures ReadString(Escape(s) + ([QUOTE] + rest)) == Some((s, rest))
  {
    var tail := [QUOTE] + rest;
    if s == [] {
      assert Escape(s) + tail == tail && tail[1..] == rest;
    } else {
      StringReadsBack(s[1..], rest);
      EscapeInParts(s, tail);
      WrittenCharReads(s[0], Escape(s[1..]) + tail);
      assert s == [s[0]] + s[1..];
    }
  }

  lemma CharIsPrintable(c: char)
    ensures Printable(EscapeChar(c)) && forall i :: 0 <= i < |EscapeChar(c)| ==> EscapeChar(c)[i].Char?
  {
  }

  lemma {:induction false} EscapeIsPrintable(s: string)
    ensures Printable(Escape(s)) && forall i :: 0 <= i < |Escape(s)| ==> Escape(s)[i].Char?
  {
    if s != [] {
      CharIsPrintable(s[0]);
      EscapeIsPrintable(s[1..]);
    }
  }

  /** What stands between the quotes, and the closing quote. */
  function Quoted(text: Text): Units {
    (if text.Plain? then Escape(text.chars) else [Symbol(text)]) + [QUOTE]
  }

  /** Reads a literal behind its opening quote. */
  function ReadLiteral(units: Units): (r: Option<(Text, Units)>)
    ensures r.Some? ==> |r.value.1| < |units|
  {
    if |units| >= 2 && units[0].Symbol? && units[1] == QUOTE then Some((units[0].text, units[2..]))
    else
      var s := ReadString(units);
      if s.None? then None else Some((Plain(s.value.0), s.value.1))
  }

  lemma LiteralOfChars(units: Units)
    requires units != [] && units[0].Char?
    ensures var s := ReadString(units);
      ReadLiteral(units) == if s.None? then None else Some((Plain(s.value.0), s.value.1))
  {
  }

  lemma PlainReadsBack(s: string, rest: Units)
    ensures ReadLiteral(Escape(s) + ([QUOTE] + rest)) == Some((Plain(s), rest))
  {
    StringReadsBack(s, rest);
    EscapeIsPrintable(s);
    LiteralOfChars(Escape(s) + ([QUOTE] + rest));
  }

  lemma SymbolReadsBack(text: Text, rest: Units)
    ensures ReadLiteral([Symbol(text)] + ([QUOTE] + rest)) == Some((text, rest))
  {
    assert ([Symbol(text)] + ([QUOTE] + rest))[2..] == rest;
  }

  lemma LiteralReadsBack(text: Text, rest: Units)
    ensures ReadLiteral(Quoted(text) + rest) == Some((text, rest))
  {
    var written := if text.Plain? then Escape(text.chars) else [Symbol(text)];
    Join(written, [QUOTE], rest);
    if text.Plain? { PlainReadsBack(text.chars, rest); } else { SymbolReadsBack(text, rest); }
  }

  lemma LiteralIsPrintable(text: Text)
    ensures Printable(Quoted(text))
  {
    if text.Plain? { EscapeIsPrintable(text.chars); }
  }

  // -------------------------------------------------------------------- numbers

  predicate IsDigit(u: Unit) {
    u.Char? && '0' <= u.c <= '9'
  }

  function Decimal(n: nat): Units {
    if n < 10 then [Char('0' + n as char)] else Decimal(n / 10) + [Char('0' + (n % 10) as char)]
  }

  function ValueOf(digits: Units): nat {
    if digits == [] then 0
    else
      var last := digits[|digits| - 1];
      10 * ValueOf(digits[..|digits| - 1]) + if IsDigit(last) then (last.c - '0') as nat else 0
  }

  function DigitRun(units: Units): (n: nat)
    ensures n <= |units|
  {
    if units == [] || !IsDigit(units[0]) then 0 else 1 + DigitRun(units[1..])
  }

  /** A natural number without leading zeros. */
  function ReadNatural(units: Units): (r: Option<(nat, Units)>)
    ensures r.Some? ==> |r.value.1| < |units|
  {
    var n := DigitRun(units);
    if n == 0 then None
    else if units[0] == Char('0') then Some((0, units[1..]))
    else Some((ValueOf(units[..n]), units[n..]))
  }

  function DumpNumber(n: int): Units {
    if n < 0 then [Char('-')] + Decimal(-n) else Decimal(n)
  }

  function ReadNumber(units: Units): (r: Option<(int, Units)>)
    ensures r.Some? ==> |r.value.1| < |units|
  {
    if units != [] && units[0] == Char('-') then
      var n := ReadNatural(units[1..]);
      if n.None? then None else Some((-(n.value.0 as int), n.value.1))
    else
      var n := ReadNatural(units);
      if n.None? then None else Some((n.value.0, n.value.1))
  }

  predicate EndsNumber(rest: Units) {
    rest == [] || !IsDigit(rest[0])
  }

  lemma {:induction false} DecimalIsCanonical(n: nat)
    ensures Decimal(n) != [] && ValueOf(Decimal(n)) == n
    ensures forall i :: 0 <= i < |Decimal(n)| ==> IsDigit(Decimal(n)[i])
    ensures Decimal(n)[0] == Char('0') ==> Decimal(n) == [Char('0')] && n == 0
  {
    if n < 10 {
      assert Decimal(n)[..0] == [];
    } else {
      DecimalIsCanonical(n / 10);
      var last := Char('0' + (n % 10) as char);
      assert (Decimal(n / 10) + [last])[..|Decimal(n / 10)|] == Decimal(n / 10);
    }
  }

  lemma {:induction false} DigitRunIs(digits: Units, rest: Units)
    requires (forall i :: 0 <= i < |digits| ==> IsDigit(digits[i])) && EndsNumber(rest)
    ensures DigitRun(digits + rest) == |digits|
  {
    if digits == [] {
      assert digits + rest == rest;
    } else {
      assert (digits + rest)[1..] == digits[1..] + rest;
      DigitRunIs(digits[1..], rest);
    }
  }

  lemma NaturalReadsBack(n: nat, rest: Units)
    requires EndsNumber(rest)
    ensures ReadNatural(Decimal(n) + rest) == Some((n, rest))
  {
    var digits := Decimal(n);
    DecimalIsCanonical(n);
    DigitRunIs(digits, rest);
    assert (digits + rest)[..|digits|] == digits && (digits + rest)[|digits|..] == rest;
  }

  lemma NumberReadsBack(n: int, rest: Units)
    requires EndsNumber(rest)
    ensures ReadNumber(DumpNumber(n) + rest) == Some((n, rest))
  {
    if n < 0 {
      NaturalReadsBack(-n, rest);
      SignedReads(Decimal(-n) + rest, -n, rest);
      Join([Char('-')], Decimal(-n), rest);
    } else {
      UnsignedReads(n, rest);
    }
  }

  lemma UnsignedReads(n: nat, rest: Units)
    requires EndsNumber(rest)
    ensures ReadNumber(Decimal(n) + rest) == Some((n as int, rest))
  {
    DecimalIsCanonical(n);
    NaturalReadsBack(n, rest);
    assert (Decimal(n) + rest)[0] == Decimal(n)[0];
  }

  lemma SignedReads(units: Units, n: nat, rest: Units)
    requires ReadNatural(units) == Some((n, rest))
    ensures ReadNumber([Char('-')] + units) == Some((-(n as int), rest))
  {
    assert ([Char('-')] + units)[1..] == units;
  }

  lemma NumberStarts(n: int)
    ensures Printable(DumpNumber(n)) && DumpNumber(n) != []
    ensures DumpNumber(n)[0] == Char('-') || IsDigit(DumpNumber(n)[0])
  {
    DecimalIsCanonical(if n < 0 then -n else n);
  }
}
