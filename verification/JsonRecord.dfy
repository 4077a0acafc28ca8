/** How `json.dumps` writes records and `json.loads` reads them (sections 2 to 5 of RFC 8259): a record is
    one line, reads back as itself, and has no beginning that reads as JSON. */
module JsonRecord {
  import opened Values
  import opened JsonText

  // --------------------------------------------------------------------- writer

  /** The order in which the fields of a dictionary are written, whatever it is. */
  type Order = Record -> seq<string>

  predicate Lists(keys: seq<string>, fields: Record) {
    && (forall i :: 0 <= i < |keys| ==> keys[i] in fields)
    && (forall k :: k in fields ==> k in keys)
    && (forall i, j :: 0 <= i < j < |keys| ==> keys[i] != keys[j])
  }

  ghost predicate ListsAll(order: Order) {
    forall fields: Record :: Lists(order(fields), fields)
  }

  /** Some order exists. */
  lemma SomeOrderListsAll() returns (order: Order)
    ensures ListsAll(order)
  {
    order := (fields: Record) => KeysOf(fields.Keys);
    forall fields: Record ensures Lists(order(fields), fields) {
      assert forall k :: k in fields <==> k in KeysOf(fields.Keys);
    }
  }

  ghost function KeysOf(keys: set<string>): (r: seq<string>)
    ensures forall k :: k in r <==> k in keys
    ensures forall i, j :: 0 <= i < j < |r| ==> r[i] != r[j]
  {
    if keys == {} then []
    else
      var k :| k in keys;
      [k] + KeysOf(keys - {k})
  }

  function DumpScalar(value: Json): Units
    requires !value.List? && !value.Object?
  {
    match value
    case Null => Chars("null")
    case Bool(truth) => if truth then Chars("true") else Chars("false")
    case Number(n) => DumpNumber(n)
    case Str(text) => [QUOTE] + Quoted(text)
  }

  function Dump(order: Order, value: Json): Units
    decreases value
  {
    match value
    case List(items) => [Char('[')] + DumpItems(order, items, 0) + [Char(']')]
    case Object(fields) =>
      var keys := order(fields);
      [Char('{')] + (if Lists(keys, fields) then DumpMembers(order, fields, keys) else []) + [Char('}')]
    case _ => DumpScalar(value)
  }

  function DumpItems(order: Order, items: seq<Json>, i: nat): Units
    requires i <= |items|
    decreases List(items), |items| - i
  {
    if i == |items| then []
    else Dump(order, items[i]) + (if i + 1 == |items| then [] else SEPARATOR + DumpItems(order, items, i + 1))
  }

  function MemberText(key: string, value: Units): Units {
    [QUOTE] + Quoted(Plain(key)) + COLON + value
  }

  function DumpMembers(order: Order, fields: Record, keys: seq<string>): Units
    requires forall i :: 0 <= i < |keys| ==> keys[i] in fields
    decreases Object(fields), |keys|
  {
    if keys == [] then []
    else
      MemberText(keys[0], Dump(order, fields[keys[0]]))
      + (if |keys| == 1 then [] else SEPARATOR + DumpMembers(order, fields, keys[1..]))
  }

  // --------------------------------------------------------------------- reader

  predicate IsBlank(u: Unit) {
    u == Char(' ') || u == Char('\t') || u == Char('\n') || u == Char('\r')
  }

  function SkipBlanks(units: Units): (r: Units)
    ensures |r| <= |units|
    ensures r != [] ==> !IsBlank(r[0])
  {
    if units != [] && IsBlank(units[0]) then SkipBlanks(units[1..]) else units
  }

  function ReadScalar(units: Units): (r: Option<(Json, Units)>)
    ensures r.Some? ==> |r.value.1| < |units|
  {
    if Chars("null") <= units then Some((Null, units[4..]))
    else if Chars("true") <= units then Some((Bool(true), units[4..]))
    else if Chars("false") <= units then Some((Bool(false), units[5..]))
    else
      var n := ReadNumber(units);
      if n.None? then None else Some((Number(n.value.0), n.value.1))
  }

  /** Reads one value that starts at the first unit: the value, and what follows it. */
  function ReadValue(units: Units): (r: Option<(Json, Units)>)
    ensures r.Some? ==> |r.value.1| < |units|
    decreases |units|, 0
  {
    if units == [] then None
    else if units[0] == QUOTE then
      var text := ReadLiteral(units[1..]);
      if text.None? then None else Some((Str(text.value.0), text.value.1))
    else if units[0] == Char('[') then
      var inner := SkipBlanks(units[1..]);
      if inner != [] && inner[0] == Char(']') then Some((List([]), inner[1..]))
      else
        var items := ReadItems(inner);
        if items.None? then None else Some((List(items.value.0), items.value.1))
    else if units[0] == Char('{') then
      var inner := SkipBlanks(units[1..]);
      if inner != [] && inner[0] == Char('}') then Some((Object(map[]), inner[1..]))
      else
        var members := ReadMembers(inner);
        if members.None? then None else Some((Object(members.value.0), members.value.1))
    else ReadScalar(units)
  }

  /** Items up to the closing bracket. */
  function ReadItems(units: Units): (r: Option<(seq<Json>, Units)>)
    ensures r.Some? ==> |r.value.1| < |units|
    decreases |units|, 1
  {
    var first := ReadValue(units);
    if first.None? then None else MoreItems(first.value.0, SkipBlanks(first.value.1))
  }

  /** What follows an item. */
  function MoreItems(item: Json, after: Units): (r: Option<(seq<Json>, Units)>)
    ensures r.Some? ==> |r.value.1| < |after|
    decreases |after|, 0
  {
    if after == [] then None
    else if after[0] == Char(']') then Some(([item], after[1..]))
    else if after[0] != Char(',') then None
    else
      var more := ReadItems(SkipBlanks(after[1..]));
      if more.None? then None else Some(([item] + more.value.0, more.value.1))
  }

  /** One key with its value. */
  function ReadMember(units: Units): (r: Option<(string, Json, Units)>)
    ensures r.Some? ==> |r.value.2| < |units|
    decreases |units|, 1
  {
    if units == [] || units[0] != QUOTE then None
    else
      var key := ReadLiteral(units[1..]);
      if key.None? || !key.value.0.Plain? then None else ReadAfterKey(key.value.0.chars, SkipBlanks(key.value.1))
  }

  function ReadAfterKey(key: string, colon: Units): (r: Option<(string, Json, Units)>)
    ensures r.Some? ==> |r.value.2| < |colon|
    decreases |colon|, 0
  {
    if colon == [] || colon[0] != Char(':') then None
    else
      var value := ReadValue(SkipBlanks(colon[1..]));
      if value.None? then None else Some((key, value.value.0, value.value.1))
  }

  /** Members up to the closing brace. */
  function ReadMembers(units: Units): (r: Option<(Record, Units)>)
    ensures r.Some? ==> |r.value.1| < |units|
    decreases |units|, 2
  {
    var first := ReadMember(units);
    if first.None? then None else MoreMembers(first.value.0, first.value.1, SkipBlanks(first.value.2))
  }

  /** What follows a member; of several members with one key the last counts. */
  function MoreMembers(key: string, value: Json, after: Units): (r: Option<(Record, Units)>)
    ensures r.Some? ==> |r.value.1| < |after|
    decreases |after|, 0
  {
    if after == [] then None
    else if after[0] == Char('}') then Some((map[key := value], after[1..]))
    else if after[0] != Char(',') then None
    else
      var more := ReadMembers(SkipBlanks(after[1..]));
      if more.None? then None else Some((map[key := value] + more.value.0, more.value.1))
  }

  /** `json.loads`. */
  function Loads(units: Units): Option<Json> {
    var value := ReadValue(SkipBlanks(units));
    if value.Some? && SkipBlanks(value.value.1) == [] then Some(value.value.0) else None
  }

  // ----------------------------------------------------------- records are lines

  lemma PrintableJoin(a: Units, b: Units)
    requires Printable(a) && Printable(b)
    ensures Printable(a + b)
  {
  }

  lemma ScalarIsPrintable(value: Json)
    requires !value.List? && !value.Object?
    ensures Printable(DumpScalar(value))
  {
    match value
    case Number(n) => NumberStarts(n);
    case Str(text) =>
      LiteralIsPrintable(text);
      PrintableJoin([QUOTE], Quoted(text));
    case _ =>
  }

  /** Nothing that is written contains a line break. */
  lemma {:induction false} DumpIsPrintable(order: Order, value: Json)
    ensures Printable(Dump(order, value))
    decreases value
  {
    match value
    case List(items) =>
      ItemsArePrintable(order, items, 0);
      PrintableAround(Char('['), DumpItems(order, items, 0), Char(']'));
    case Object(fields) =>
      var keys := order(fields);
      if Lists(keys, fields) {
        MembersArePrintable(order, fields, keys);
        PrintableAround(Char('{'), DumpMembers(order, fields, keys), Char('}'));
      }
    case _ => ScalarIsPrintable(value);
  }

  lemma PrintableAround(before: Unit, units: Units, after: Unit)
    requires Printable([before]) && Printable(units) && Printable([after])
    ensures Printable([before] + units + [after])
  {
    PrintableJoin([before], units);
    PrintableJoin([before] + units, [after]);
  }

  lemma {:induction false} ItemsArePrintable(order: Order, items: seq<Json>, i: nat)
    requires i <= |items|
    ensures Printable(DumpItems(order, items, i))
    decreases List(items), |items| - i
  {
    if i < |items| {
      DumpIsPrintable(order, items[i]);
      ItemsArePrintable(order, items, i + 1);
      PrintableJoin(SEPARATOR, DumpItems(order, items, i + 1));
    }
  }

  lemma MemberIsPrintable(key: string, value: Units)
    requires Printable(value)
    ensures Printable(MemberText(key, value))
  {
    LiteralIsPrintable(Plain(key));
    PrintableJoin([QUOTE], Quoted(Plain(key)));
    PrintableJoin([QUOTE] + Quoted(Plain(key)), COLON);
    PrintableJoin([QUOTE] + Quoted(Plain(key)) + COLON, value);
  }

  lemma {:induction false} MembersArePrintable(order: Order, fields: Record, keys: seq<string>)
    requires forall i :: 0 <= i < |keys| ==> keys[i] in fields
    ensures Printable(DumpMembers(order, fields, keys))
    decreases Object(fields), |keys|
  {
    if keys != [] {
      DumpIsPrintable(order, fields[keys[0]]);
      MemberIsPrintable(keys[0], Dump(order, fields[keys[0]]));
      if |keys| > 1 {
        MembersArePrintable(order, fields, keys[1..]);
        PrintableJoin(SEPARATOR, DumpMembers(order, fields, keys[1..]));
        PrintableJoin(MemberText(keys[0], Dump(order, fields[keys[0]])), SEPARATOR + DumpMembers(order, fields, keys[1..]));
      }
    }
  }

  // ----------------------------------------------------------- values read back

  /** A written value starts with neither a blank nor a closing bracket. */
  lemma DumpStarts(order: Order, value: Json)
    ensures var text := Dump(order, value);
      text != [] && !IsBlank(text[0]) && text[0] != Char(']') && text[0] != Char('}')
  {
    if value.Number? { NumberStarts(value.number); }
  }

  lemma WordReadsBack(value: Json, rest: Units)
    requires value.Null? || value.Bool?
    ensures ReadValue(DumpScalar(value) + rest) == Some((value, rest))
  {
    var text := DumpScalar(value);
    assert (text + rest)[..|text|] == text && (text + rest)[|text|..] == rest;
    assert Chars("null")[0] == Char('n') && Chars("true")[0] == Char('t') && Chars("false")[0] == Char('f');
  }

  lemma NumberValueReadsBack(n: int, rest: Units)
    requires EndsNumber(rest)
    ensures ReadValue(DumpNumber(n) + rest) == Some((Number(n), rest))
  {
    NumberStarts(n);
    NumberReadsBack(n, rest);
    assert Chars("null")[0] == Char('n') && Chars("true")[0] == Char('t') && Chars("false")[0] == Char('f');
  }

  lemma QuoteOpens(units: Units)
    ensures var text := ReadLiteral(units);
      ReadValue([QUOTE] + units) == if text.None? then None else Some((Str(text.value.0), text.value.1))
  {
    assert ([QUOTE] + units)[1..] == units;
  }

  lemma StrReadsBack(text: Text, rest: Units)
    ensures ReadValue([QUOTE] + Quoted(text) + rest) == Some((Str(text), rest))
  {
    QuoteOpens(Quoted(text) + rest);
    LiteralReadsBack(text, rest);
    assert [QUOTE] + Quoted(text) + rest == [QUOTE] + (Quoted(text) + rest);
  }

  lemma SkipNothing(units: Units)
    requires units != [] && !IsBlank(units[0])
    ensures SkipBlanks(units) == units && SkipBlanks([Char(' ')] + units) == units
  {
    assert ([Char(' ')] + units)[1..] == units;
  }

  lemma SkipAroundComma(more: Units)
    requires more != [] && !IsBlank(more[0])
    ensures SkipBlanks(SEPARATOR + more) == SEPARATOR + more && SkipBlanks((SEPARATOR + more)[1..]) == more
  {
    SkipNothing(SEPARATOR + more);
    assert (SEPARATOR + more)[1..] == [Char(' ')] + more;
    SkipNothing(more);
  }

  lemma LastItem(item: Json, rest: Units)
    ensures MoreItems(item, SkipBlanks([Char(']')] + rest)) == Some(([item], rest))
  {
    SkipNothing([Char(']')] + rest);
    assert ([Char(']')] + rest)[1..] == rest;
  }

  lemma NextItem(item: Json, more: Units, items: seq<Json>, rest: Units)
    requires more != [] && !IsBlank(more[0]) && ReadItems(more) == Some((items, rest))
    ensures MoreItems(item, SkipBlanks(SEPARATOR + more)) == Some(([item] + items, rest))
  {
    SkipAroundComma(more);
  }

  /** Every value reads back as itself, whatever follows it. */
  lemma {:induction false} ValueReadsBack(order: Order, value: Json, rest: Units)
    requires ListsAll(order) && (value.Number? ==> EndsNumber(rest))
    ensures ReadValue(Dump(order, value) + rest) == Some((value, rest))
    decreases value
  {
    match value
    case List(items) => ListReadsBack(order, items, rest);
    case Object(fields) => ObjectReadsBack(order, fields, rest);
    case Str(text) => StrReadsBack(text, rest);
    case Number(n) => NumberValueReadsBack(n, rest);
    case _ => WordReadsBack(value, rest);
  }

  lemma BracketOpens(inner: Units)
    requires inner != [] && !IsBlank(inner[0])
    ensures ReadValue([Char('[')] + inner) ==
      if inner[0] == Char(']') then Some((List([]), inner[1..]))
      else if ReadItems(inner).None? then None
      else Some((List(ReadItems(inner).value.0), ReadItems(inner).value.1))
  {
    SkipNothing(inner);
    assert ([Char('[')] + inner)[1..] == inner;
  }

  lemma {:induction false} ListReadsBack(order: Order, items: seq<Json>, rest: Units)
    requires ListsAll(order)
    ensures ReadValue(Dump(order, List(items)) + rest) == Some((List(items), rest))
    decreases List(items), |items| + 1
  {
    var inner := DumpItems(order, items, 0) + ([Char(']')] + rest);
    assert Dump(order, List(items)) + rest == [Char('[')] + inner;
    if items == [] {
      assert inner == [Char(']')] + rest && inner[1..] == rest;
    } else {
      ItemsReadBack(order, items, 0, rest);
      ItemsStart(order, items, 0);
      assert items[0..] == items;
    }
    BracketOpens(inner);
  }

  lemma ItemsStart(order: Order, items: seq<Json>, i: nat)
    requires i < |items|
    ensures var text := DumpItems(order, items, i);
      text != [] && !IsBlank(text[0]) && text[0] != Char(']')
  {
    DumpStarts(order, items[i]);
  }

  lemma Regroup(a: Units, b: Units, c: Units, d: Units)
    ensures a + (b + c) + d == a + (b + (c + d))
  {
  }

  lemma ItemsInParts(order: Order, items: seq<Json>, i: nat, closing: Units)
    requires i < |items|
    ensures DumpItems(order, items, i) + closing ==
      Dump(order, items[i]) + if i + 1 == |items| then closing else SEPARATOR + (DumpItems(order, items, i + 1) + closing)
  {
    if i + 1 < |items| {
      Regroup(Dump(order, items[i]), SEPARATOR, DumpItems(order, items, i + 1), closing);
    } else {
      assert DumpItems(order, items, i) == Dump(order, items[i]);
    }
  }

  lemma FromItem(items: seq<Json>, i: nat)
    requires i < |items|
    ensures items[i..] == [items[i]] + items[i + 1..] && (i + 1 == |items| ==> items[i..] == [items[i]])
  {
  }

  lemma MoreStarts(order: Order, items: seq<Json>, i: nat, closing: Units)
    requires i < |items|
    ensures var more := DumpItems(order, items, i) + closing; more != [] && !IsBlank(more[0])
  {
    ItemsStart(order, items, i);
  }

  lemma {:induction false} ItemsReadBack(order: Order, items: seq<Json>, i: nat, rest: Units)
    requires ListsAll(order) && i < |items|
    ensures ReadItems(DumpItems(order, items, i) + ([Char(']')] + rest)) == Some((items[i..], rest))
    decreases List(items), |items| - i
  {
    var closing := [Char(']')] + rest;
    ItemsInParts(order, items, i, closing);
    FromItem(items, i);
    if i + 1 == |items| {
      ValueReadsBack(order, items[i], closing);
      LastItem(items[i], rest);
    } else {
      var more := DumpItems(order, items, i + 1) + closing;
      ValueReadsBack(order, items[i], SEPARATOR + more);
      ItemsReadBack(order, items, i + 1, rest);
      MoreStarts(order, items, i + 1, closing);
      NextItem(items[i], more, items[i + 1..], rest);
    }
  }

  lemma AfterKeyReads(key: string, text: Units, value: Json, rest: Units)
    requires text != [] && !IsBlank(text[0]) && ReadValue(text + rest) == Some((value, rest))
    ensures ReadAfterKey(key, SkipBlanks(COLON + (text + rest))) == Some((key, value, rest))
  {
    SkipNothing(COLON + (text + rest));
    assert (COLON + (text + rest))[1..] == [Char(' ')] + (text + rest);
    SkipNothing(text + rest);
  }

  lemma MemberReads(key: string, after: Units)
    ensures ReadMember([QUOTE] + (Quoted(Plain(key)) + after)) == ReadAfterKey(key, SkipBlanks(after))
  {
    LiteralReadsBack(Plain(key), after);
    assert ([QUOTE] + (Quoted(Plain(key)) + after))[1..] == Quoted(Plain(key)) + after;
  }

  lemma LastMember(key: string, value: Json, rest: Units)
    ensures MoreMembers(key, value, SkipBlanks([Char('}')] + rest)) == Some((map[key := value], rest))
  {
    SkipNothing([Char('}')] + rest);
    assert ([Char('}')] + rest)[1..] == rest;
  }

  lemma NextMember(key: string, value: Json, more: Units, fields: Record, rest: Units)
    requires more != [] && !IsBlank(more[0]) && ReadMembers(more) == Some((fields, rest))
    ensures MoreMembers(key, value, SkipBlanks(SEPARATOR + more)) == Some((map[key := value] + fields, rest))
  {
    SkipAroundComma(more);
  }

  function Restricted(fields: Record, keys: seq<string>): Record {
    map k | k in fields && k in keys :: fields[k]
  }

  lemma BraceOpens(inner: Units)
    requires inner != [] && !IsBlank(inner[0])
    ensures ReadValue([Char('{')] + inner) ==
      if inner[0] == Char('}') then Some((Object(map[]), inner[1..]))
      else if ReadMembers(inner).None? then None
      else Some((Object(ReadMembers(inner).value.0), ReadMembers(inner).value.1))
  {
    SkipNothing(inner);
    assert ([Char('{')] + inner)[1..] == inner;
  }

  lemma {:induction false} ObjectReadsBack(order: Order, fields: Record, rest: Units)
    requires ListsAll(order)
    ensures ReadValue(Dump(order, Object(fields)) + rest) == Some((Object(fields), rest))
    decreases Object(fields), |order(fields)| + 1
  {
    var keys := order(fields);
    assert Lists(keys, fields);
    var inner := DumpMembers(order, fields, keys) + ([Char('}')] + rest);
    assert Dump(order, Object(fields)) + rest == [Char('{')] + inner;
    if keys == [] {
      assert inner == [Char('}')] + rest && inner[1..] == rest;
      assert fields == map[];
    } else {
      MembersReadBack(order, fields, keys, rest);
      assert Restricted(fields, keys) == fields;
      MembersStart(order, fields, keys, [Char('}')] + rest);
    }
    BraceOpens(inner);
  }

  lemma MemberInParts(key: string, value: Units, rest: Units)
    ensures MemberText(key, value) + rest == [QUOTE] + (Quoted(Plain(key)) + (COLON + (value + rest)))
    ensures (MemberText(key, value) + rest)[0] == QUOTE
  {
    Regroup([QUOTE] + Quoted(Plain(key)), COLON, value, rest);
    assert MemberText(key, value) == [QUOTE] + Quoted(Plain(key)) + (COLON + value);
  }

  lemma MembersInParts(order: Order, fields: Record, keys: seq<string>, closing: Units)
    requires keys != [] && forall i :: 0 <= i < |keys| ==> keys[i] in fields
    ensures DumpMembers(order, fields, keys) + closing ==
      MemberText(keys[0], Dump(order, fields[keys[0]]))
      + (if |keys| == 1 then closing else SEPARATOR + (DumpMembers(order, fields, keys[1..]) + closing))
  {
    var first := MemberText(keys[0], Dump(order, fields[keys[0]]));
    if |keys| > 1 {
      Regroup(first, SEPARATOR, DumpMembers(order, fields, keys[1..]), closing);
    } else {
      assert DumpMembers(order, fields, keys) == first;
    }
  }

  lemma MembersStart(order: Order, fields: Record, keys: seq<string>, closing: Units)
    requires keys != [] && forall i :: 0 <= i < |keys| ==> keys[i] in fields
    ensures var text := DumpMembers(order, fields, keys) + closing; text != [] && text[0] == QUOTE
  {
  }

  lemma MemberReadsBack(order: Order, fields: Record, key: string, rest: Units)
    requires ListsAll(order) && key in fields && EndsNumber(rest)
    ensures ReadMember(MemberText(key, Dump(order, fields[key])) + rest) == Some((key, fields[key], rest))
    decreases Object(fields), 0
  {
    DumpStarts(order, fields[key]);
    ValueReadsBack(order, fields[key], rest);
    AfterKeyReads(key, Dump(order, fields[key]), fields[key], rest);
    var after := COLON + (Dump(order, fields[key]) + rest);
    MemberReads(key, after);
    MemberInParts(key, Dump(order, fields[key]), rest);
  }

  lemma OneKeyMore(fields: Record, keys: seq<string>)
    requires keys != [] && (forall i :: 0 <= i < |keys| ==> keys[i] in fields)
    ensures Restricted(fields, keys) == map[keys[0] := fields[keys[0]]] + Restricted(fields, keys[1..])
  {
    assert keys == [keys[0]] + keys[1..];
  }

  lemma {:induction false} MembersReadBack(order: Order, fields: Record, keys: seq<string>, rest: Units)
    requires ListsAll(order) && keys != [] && forall i :: 0 <= i < |keys| ==> keys[i] in fields
    requires forall i, j :: 0 <= i < j < |keys| ==> keys[i] != keys[j]
    ensures ReadMembers(DumpMembers(order, fields, keys) + ([Char('}')] + rest)) == Some((Restricted(fields, keys), rest))
    decreases Object(fields), |keys|
  {
    var key, closing := keys[0], [Char('}')] + rest;
    MembersInParts(order, fields, keys, closing);
    OneKeyMore(fields, keys);
    if |keys| == 1 {
      MemberReadsBack(order, fields, key, closing);
      LastMember(key, fields[key], rest);
      assert map[key := fields[key]] + Restricted(fields, keys[1..]) == map[key := fields[key]];
    } else {
      var more := DumpMembers(order, fields, keys[1..]) + closing;
      MemberReadsBack(order, fields, key, SEPARATOR + more);
      MembersReadBack(order, fields, keys[1..], rest);
      MembersStart(order, fields, keys[1..], closing);
      NextMember(key, fields[key], more, Restricted(fields, keys[1..]), rest);
    }
  }

  /** Every record written in any order of its fields reads back as itself. */
  lemma RecordReadsBack(order: Order, record: Record)
    requires ListsAll(order)
    ensures Loads(Dump(order, Object(record))) == Some(Object(record))
  {
    var text := Dump(order, Object(record));
    DumpStarts(order, Object(record));
    SkipNothing(text);
    assert text + [] == text;
    ValueReadsBack(order, Object(record), []);
  }

  // ------------------------------------------------ no beginning reads as a record

  lemma {:induction false} SkipStable(units: Units, more: Units)
    requires SkipBlanks(units) != []
    ensures SkipBlanks(units + more) == SkipBlanks(units) + more
    decreases |units|
  {
    if units != [] && IsBlank(units[0]) {
      assert (units + more)[1..] == units[1..] + more;
      SkipStable(units[1..], more);
    }
  }

  /** What has been read is read again when more text follows. */
  lemma CharStable(units: Units, more: Units)
    requires ReadChar(units).Some?
    ensures ReadChar(units + more) == ReadChar(units) && 0 < ReadChar(units).value.1 <= |units|
  {
    if |units| >= 6 { assert (units + more)[2..6] == units[2..6]; }
  }

  lemma {:induction false} StringStable(units: Units, more: Units)
    requires ReadString(units).Some?
    ensures ReadString(units + more) == Some((ReadString(units).value.0, ReadString(units).value.1 + more))
    decreases |units|
  {
    if units[0] == QUOTE {
      assert (units + more)[1..] == units[1..] + more;
    } else {
      CharStable(units, more);
      var n := ReadChar(units).value.1;
      assert (units + more)[n..] == units[n..] + more;
      StringStable(units[n..], more);
    }
  }

  lemma LiteralStable(units: Units, more: Units)
    requires ReadLiteral(units).Some?
    ensures ReadLiteral(units + more) == Some((ReadLiteral(units).value.0, ReadLiteral(units).value.1 + more))
  {
    if |units| >= 2 && units[0].Symbol? && units[1] == QUOTE {
      assert (units + more)[2..] == units[2..] + more;
    } else {
      StringStable(units, more);
    }
  }

  lemma {:induction false} RunStable(units: Units, more: Units)
    requires DigitRun(units) < |units|
    ensures DigitRun(units + more) == DigitRun(units)
    decreases |units|
  {
    if IsDigit(units[0]) {
      assert (units + more)[1..] == units[1..] + more;
      RunStable(units[1..], more);
    }
  }

  lemma NaturalStable(units: Units, more: Units)
    requires ReadNatural(units).Some? && ReadNatural(units).value.1 != []
    ensures ReadNatural(units + more) == Some((ReadNatural(units).value.0, ReadNatural(units).value.1 + more))
  {
    var n := DigitRun(units);
    if units[0] == Char('0') {
      assert (units + more)[1..] == units[1..] + more;
      assert IsDigit((units + more)[0]);
    } else {
      RunStable(units, more);
      assert (units + more)[..n] == units[..n] && (units + more)[n..] == units[n..] + more;
    }
  }

  lemma NumberStable(units: Units, more: Units)
    requires ReadNumber(units).Some? && ReadNumber(units).value.1 != []
    ensures ReadNumber(units + more) == Some((ReadNumber(units).value.0, ReadNumber(units).value.1 + more))
  {
    if units[0] == Char('-') {
      assert (units + more)[1..] == units[1..] + more;
      NaturalStable(units[1..], more);
    } else {
      NaturalStable(units, more);
    }
  }

  lemma ScalarStable(units: Units, more: Units)
    requires ReadScalar(units).Some? && (ReadScalar(units).value.0.Number? ==> ReadScalar(units).value.1 != [])
    ensures ReadScalar(units + more) == Some((ReadScalar(units).value.0, ReadScalar(units).value.1 + more))
  {
    if ReadScalar(units).value.0.Number? {
      NumberStable(units, more);
      assert units[0] == Char('-') || IsDigit(units[0]);
      assert (units + more)[0] == units[0];
      assert Chars("null")[0] == Char('n') && Chars("true")[0] == Char('t') && Chars("false")[0] == Char('f');
    } else {
      var n := |units| - |ReadScalar(units).value.1|;
      assert (units + more)[..n] == units[..n] && (units + more)[n..] == units[n..] + more;
    }
  }

  lemma {:induction false} ValueStable(units: Units, more: Units)
    requires ReadValue(units).Some? && (ReadValue(units).value.0.Number? ==> ReadValue(units).value.1 != [])
    ensures ReadValue(units + more) == Some((ReadValue(units).value.0, ReadValue(units).value.1 + more))
    decreases |units|, 0
  {
    assert (units + more)[0] == units[0] && (units + more)[1..] == units[1..] + more;
    if units[0] == QUOTE {
      LiteralStable(units[1..], more);
    } else if units[0] == Char('[') {
      var inner := SkipBlanks(units[1..]);
      SkipStable(units[1..], more);
      if inner[0] == Char(']') { assert (inner + more)[1..] == inner[1..] + more; } else { ItemsStable(inner, more); }
    } else if units[0] == Char('{') {
      var inner := SkipBlanks(units[1..]);
      SkipStable(units[1..], more);
      if inner[0] == Char('}') { assert (inner + more)[1..] == inner[1..] + more; } else { MembersStable(inner, more); }
    } else {
      ScalarStable(units, more);
    }
  }

  lemma {:induction false} ItemsStable(units: Units, more: Units)
    requires ReadItems(units).Some?
    ensures ReadItems(units + more) == Some((ReadItems(units).value.0, ReadItems(units).value.1 + more))
    decreases |units|, 1
  {
    var (item, rest) := ReadValue(units).value;
    ValueStable(units, more);
    SkipStable(rest, more);
    MoreItemsStable(item, SkipBlanks(rest), more);
  }

  lemma {:induction false} MoreItemsStable(item: Json, after: Units, more: Units)
    requires MoreItems(item, after).Some?
    ensures MoreItems(item, after + more) == Some((MoreItems(item, after).value.0, MoreItems(item, after).value.1 + more))
    decreases |after|, 0
  {
    assert (after + more)[1..] == after[1..] + more;
    if after[0] == Char(',') {
      SkipStable(after[1..], more);
      ItemsStable(SkipBlanks(after[1..]), more);
    }
  }

  lemma {:induction false} MemberStable(units: Units, more: Units)
    requires ReadMember(units).Some? && ReadMember(units).value.2 != []
    ensures var (key, value, rest) := ReadMember(units).value;
      ReadMember(units + more) == Some((key, value, rest + more))
    decreases |units|, 1
  {
    var (key, rest) := ReadLiteral(units[1..]).value;
    assert (units + more)[1..] == units[1..] + more;
    LiteralStable(units[1..], more);
    SkipStable(rest, more);
    AfterKeyStable(key.chars, SkipBlanks(rest), more);
  }

  lemma {:induction false} AfterKeyStable(key: string, colon: Units, more: Units)
    requires ReadAfterKey(key, colon).Some? && ReadAfterKey(key, colon).value.2 != []
    ensures var (k, value, rest) := ReadAfterKey(key, colon).value;
      ReadAfterKey(key, colon + more) == Some((k, value, rest + more))
    decreases |colon|, 0
  {
    assert (colon + more)[1..] == colon[1..] + more;
    SkipStable(colon[1..], more);
    ValueStable(SkipBlanks(colon[1..]), more);
  }

  lemma {:induction false} MembersStable(units: Units, more: Units)
    requires ReadMembers(units).Some?
    ensures ReadMembers(units + more) == Some((ReadMembers(units).value.0, ReadMembers(units).value.1 + more))
    decreases |units|, 2
  {
    var (key, value, rest) := ReadMember(units).value;
    MemberStable(units, more);
    SkipStable(rest, more);
    MoreMembersStable(key, value, SkipBlanks(rest), more);
  }

  lemma {:induction false} MoreMembersStable(key: string, value: Json, after: Units, more: Units)
    requires MoreMembers(key, value, after).Some?
    ensures MoreMembers(key, value, after + more) ==
      Some((MoreMembers(key, value, after).value.0, MoreMembers(key, value, after).value.1 + more))
    decreases |after|, 0
  {
    assert (after + more)[1..] == after[1..] + more;
    if after[0] == Char(',') {
      SkipStable(after[1..], more);
      MembersStable(SkipBlanks(after[1..]), more);
    }
  }

  lemma NothingReadsEarly(text: Units, value: Json, n: nat)
    requires text != [] && text[0] == Char('{') && ReadValue(text) == Some((value, [])) && 0 < n < |text|
    ensures ReadValue(text[..n]).None?
  {
    var beginning, more := text[..n], text[n..];
    assert beginning + more == text;
    if ReadValue(beginning).Some? { ValueStable(beginning, more); }
  }

  /** The beginning of a written record is no JSON, wherever it stops. */
  lemma BeginningIsNoJson(order: Order, record: Record, n: nat)
    requires ListsAll(order) && n < |Dump(order, Object(record))|
    ensures Loads(Dump(order, Object(record))[..n]) == None
  {
    var text := Dump(order, Object(record));
    assert text + [] == text;
    ValueReadsBack(order, Object(record), []);
    if n > 0 {
      NothingReadsEarly(text, Object(record), n);
      SkipNothing(text[..n]);
    }
  }

  // --------------------------------------------------------------- the punctuation

  lemma OneField(keys: seq<string>, key: string, value: Json)
    requires keys != [key]
    ensures !Lists(keys, map[key := value])
  {
    if keys == [] {
      assert key !in keys;
    } else if |keys| == 1 {
      assert keys[0] != key;
    } else if keys[0] == key && keys[1] == key {
      assert keys[0] == keys[1];
    }
  }

  lemma NoField(keys: seq<string>, fields: Record)
    requires keys != [] && fields == map[]
    ensures !Lists(keys, fields)
  {
    assert keys[0] !in fields;
  }

  /** Values as they stand in the file: words, strings in quotes, lists in brackets, dictionaries in
      braces, with a comma or a colon and a blank between. */
  lemma WrittenForms(order: Order, key: string, s: string, a: Json, b: Json)
    requires ListsAll(order)
    ensures Dump(order, Null) == Chars("null") && Dump(order, Bool(true)) == Chars("true") && Dump(order, Bool(false)) == Chars("false")
    ensures Dump(order, Str(Plain(s))) == [Char('"')] + (Escape(s) + [Char('"')])
    ensures Dump(order, List([])) == [Char('['), Char(']')] && Dump(order, Object(map[])) == [Char('{'), Char('}')]
    ensures Dump(order, List([a, b])) ==
      [Char('[')] + (Dump(order, a) + ([Char(','), Char(' ')] + Dump(order, b))) + [Char(']')]
    ensures Dump(order, Object(map[key := a])) ==
      [Char('{')] + ([Char('"')] + (Escape(key) + [Char('"')]) + [Char(':'), Char(' ')] + Dump(order, a)) + [Char('}')]
  {
    TwoItems(order, a, b);
    OneMember(order, key, a);
    EmptyMembers(order);
  }

  lemma EmptyMembers(order: Order)
    requires ListsAll(order)
    ensures Dump(order, Object(map[])) == [Char('{'), Char('}')]
  {
    var none: Record := map[];
    assert Lists(order(none), none);
    if order(none) != [] { NoField(order(none), none); }
  }

  lemma TwoItems(order: Order, a: Json, b: Json)
    ensures DumpItems(order, [a, b], 0) == Dump(order, a) + ([Char(','), Char(' ')] + Dump(order, b))
  {
    assert DumpItems(order, [a, b], 1) == Dump(order, b);
  }

  lemma OneMember(order: Order, key: string, a: Json)
    requires ListsAll(order)
    ensures var fields := map[key := a];
      order(fields) == [key] && DumpMembers(order, fields, [key]) ==
        [Char('"')] + (Escape(key) + [Char('"')]) + [Char(':'), Char(' ')] + Dump(order, a)
  {
    var fields := map[key := a];
    assert Lists(order(fields), fields);
    if order(fields) != [key] { OneField(order(fields), key, a); }
    assert DumpMembers(order, fields, [key]) == MemberText(key, Dump(order, fields[key]));
  }

  /** The short escapes; every other control character is written by its code. */
  lemma WrittenEscapes(c: char)
    ensures Escape("\n") == [Char('\\'), Char('n')] && EscapeChar('"') == [Char('\\'), Char('"')]
    ensures c >= ' ' && c != '"' && c != '\\' ==> EscapeChar(c) == [Char(c)]
  {
    assert Escape("\n") == EscapeChar('\n') + Escape("");
  }
}
