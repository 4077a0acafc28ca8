/** The keyed audit chain: redaction, sealing a record, and independent verification
    (`redact`, `AuditLog._append_once`, `verify_chain`). */
module AuditChain {
  import opened Values

  const SENSITIVE: set<string> := {"password", "token", "secret", "authorization", "api_key", "cookie"}
  const RESERVED: set<string> := {"hash", "previous_hash", "chain", "key_id"}
  const KEYED_ALGORITHM: Json := Str(Plain("hmac-sha256"))
  const REDACTED: Json := Str(Plain("[REDACTED]"))
  const ZERO: Json := Str(Hex(Zero))

  // ---------------------------------------------------------------- redaction

  function LowerChar(c: char): char {
    if 'A' <= c <= 'Z' then c - 'A' + 'a' else c
  }

  function Lower(s: string): (r: string)
    ensures |r| == |s|
    ensures forall i :: 0 <= i < |s| ==> r[i] == LowerChar(s[i])
  {
    if s == [] then [] else [LowerChar(s[0])] + Lower(s[1..])
  }

  function Redact(value: Json): Json {
    match value
    case Object(fields) => Object(RedactFields(fields))
    case List(items) => List(seq(|items|, i requires 0 <= i < |items| => Redact(items[i])))
    case _ => value
  }

  function RedactFields(fields: Record): Record
    decreases Object(fields), 0
  {
    map k | k in fields :: if Lower(k) in SENSITIVE then REDACTED else Redact(fields[k])
  }

  /** No field with a sensitive name keeps its value, at any depth. */
  ghost predicate Clean(value: Json) {
    match value
    case Object(fields) =>
      forall k :: k in fields ==> if Lower(k) in SENSITIVE then fields[k] == REDACTED else Clean(fields[k])
    case List(items) => forall i :: 0 <= i < |items| ==> Clean(items[i])
    case _ => true
  }

  /** Redaction removes every secret, and it changes nothing exactly when there was none. */
  lemma {:induction false} RedactIsExact(value: Json)
    ensures Clean(Redact(value))
    ensures Redact(value) == value <==> Clean(value)
  {
    match value
    case Object(fields) =>
      forall k | k in fields
        ensures Clean(Redact(fields[k]))
        ensures Redact(fields[k]) == fields[k] <==> Clean(fields[k])
      {
        RedactIsExact(fields[k]);
      }
      var after := RedactFields(fields);
      if Clean(value) { assert after == fields; }
    case List(items) =>
      var after := Redact(value).items;
      forall i | 0 <= i < |items|
        ensures Clean(after[i])
        ensures after[i] == items[i] <==> Clean(items[i])
      {
        RedactIsExact(items[i]);
      }
      if Clean(value) { assert after == items; }
    case _ =>
  }

  predicate IsSensitive(name: string) {
    Lower(name) in SENSITIVE
  }

  predicate SameLetter(c: char, d: char) {
    c == d || ('A' <= c <= 'Z' && d == c - 'A' + 'a') || ('A' <= d <= 'Z' && c == d - 'A' + 'a')
  }

  /** Sensitive names are recognized in any case. */
  lemma {:induction false} CaseDoesNotMatter(a: string, b: string)
    requires |a| == |b| && forall i :: 0 <= i < |a| ==> SameLetter(a[i], b[i])
    ensures IsSensitive(a) <==> IsSensitive(b)
  {
    assert Lower(a) == Lower(b) by {
      forall i | 0 <= i < |a| ensures Lower(a)[i] == Lower(b)[i] { assert SameLetter(a[i], b[i]); }
    }
  }

  /** A way into a value: through fields by name and through lists by position. */
  datatype Way = Field(name: string) | Item(at: nat)

  function Find(value: Json, path: seq<Way>): Option<Json>
    decreases |path|
  {
    if path == [] then Some(value)
    else if path[0].Field? && value.Object? && path[0].name in value.fields then Find(value.fields[path[0].name], path[1..])
    else if path[0].Item? && value.List? && path[0].at < |value.items| then Find(value.items[path[0].at], path[1..])
    else None
  }

  predicate PassesSecret(path: seq<Way>) {
    exists i :: 0 <= i < |path| && path[i].Field? && IsSensitive(path[i].name)
  }

  /** What a value is, contents of containers aside: dictionaries of the same names, lists of the same
      length, or equal. */
  predicate SameOutside(before: Json, after: Json) {
    if before.Object? then after.Object? && after.fields.Keys == before.fields.Keys
    else if before.List? then after.List? && |after.items| == |before.items|
    else after == before
  }

  /** Redaction touches nothing but secrets: wherever no sensitive name is on the way, it leaves
      everything in its place. */
  lemma {:induction false} RedactLeavesTheRest(value: Json, path: seq<Way>)
    requires !PassesSecret(path)
    ensures Find(value, path).None? <==> Find(Redact(value), path).None?
    ensures Find(value, path).Some? ==> SameOutside(Find(value, path).value, Find(Redact(value), path).value)
    decreases |path|
  {
    if path != [] {
      var first, rest := path[0], path[1..];
      assert !PassesSecret(rest) by {
        assert forall i :: 0 <= i < |rest| ==> rest[i] == path[i + 1];
      }
      if first.Field? && value.Object? && first.name in value.fields {
        assert !IsSensitive(first.name);
        RedactLeavesTheRest(value.fields[first.name], rest);
      } else if first.Item? && value.List? && first.at < |value.items| {
        RedactLeavesTheRest(value.items[first.at], rest);
      }
    }
  }

  /** What a sensitive name holds at the end of such a way is the fixed marker. */
  lemma RedactReplacesSecrets(value: Json, path: seq<Way>, name: string)
    requires !PassesSecret(path) && IsSensitive(name)
    requires Find(value, path).Some? && Find(value, path).value.Object? && name in Find(value, path).value.fields
    ensures Find(Redact(value), path).Some?
    ensures var holder := Find(Redact(value), path).value;
      holder.Object? && name in holder.fields && holder.fields[name] == REDACTED
  {
    RedactLeavesTheRest(value, path);
    RedactIsExact(value);
    CleanBelow(Redact(value), path);
  }

  lemma {:induction false} CleanBelow(value: Json, path: seq<Way>)
    requires Clean(value) && !PassesSecret(path) && Find(value, path).Some?
    ensures Clean(Find(value, path).value)
    decreases |path|
  {
    if path != [] {
      var first, rest := path[0], path[1..];
      assert !PassesSecret(rest) by {
        assert forall i :: 0 <= i < |rest| ==> rest[i] == path[i + 1];
      }
      if first.Field? {
        assert !IsSensitive(first.name);
        CleanBelow(value.fields[first.name], rest);
      } else {
        CleanBelow(value.items[first.at], rest);
      }
    }
  }

  // ------------------------------------------------------- the chain condition

  /** One line of an audit file: text that is no JSON, or the value it holds. */
  datatype Line = NotJson | Parsed(value: Json)

  /** The keys a verifier can resolve, by key id. */
  type Keys = map<Text, Key>

  datatype ChainError =
    | Unreadable | NotAnObject | MissingHash | PreviousMismatch | NotKeyed | UnkeyedAfterKeyed
    | MissingKeyId | UnknownKey | UnknownAlgorithm | HashMismatch

  /** The part of a record its hash covers. */
  function Body(record: Record): Record {
    record - {"hash"}
  }

  predicate IsRecord(line: Line) {
    line.Parsed? && line.value.Object? && "hash" in line.value.fields
  }

  predicate IsKeyed(line: Line) {
    IsRecord(line) && Get(Body(line.value.fields), "chain") != Null
  }

  predicate SeenKeyed(lines: seq<Line>, n: nat)
    requires n <= |lines|
  {
    exists i :: 0 <= i < n && IsKeyed(lines[i])
  }

  /** What the record after the first `n` lines must name as its predecessor. */
  function HeadAfter(lines: seq<Line>, n: nat): Json
    requires n <= |lines|
  {
    if n == 0 then ZERO else if IsRecord(lines[n - 1]) then lines[n - 1].value.fields["hash"] else Null
  }

  /** The hash a record with this body must carry; `None` when no such hash exists. */
  function ExpectedHash(body: Record, keys: Keys): Option<Json> {
    var algorithm := Get(body, "chain");
    if algorithm == Null then Some(Str(Hex(Sha(body))))
    else if algorithm == KEYED_ALGORITHM && Get(body, "key_id").Str? && Get(body, "key_id").text in keys then
      Some(Str(Hex(Mac(keys[Get(body, "key_id").text], body))))
    else None
  }

  /** A record linked to `previous`, with the right hash under a known key, and unkeyed only where
      unkeyed records are still allowed. */
  predicate LineOk(line: Line, previous: Json, seenKeyed: bool, keys: Keys, requireKeyed: bool) {
    && IsRecord(line)
    && Get(Body(line.value.fields), "previous_hash") == previous
    && Some(line.value.fields["hash"]) == ExpectedHash(Body(line.value.fields), keys)
    && (!IsKeyed(line) ==> !requireKeyed && !seenKeyed)
  }

  /** Line `i` continues the chain of the lines before it. */
  predicate LinkOk(lines: seq<Line>, i: nat, keys: Keys, requireKeyed: bool)
    requires i < |lines|
  {
    && (i > 0 ==> IsRecord(lines[i - 1]))
    && LineOk(lines[i], HeadAfter(lines, i), SeenKeyed(lines, i), keys, requireKeyed)
  }

  /** The declarative meaning of a verified file. */
  ghost predicate ChainOk(lines: seq<Line>, keys: Keys, requireKeyed: bool) {
    forall i :: 0 <= i < |lines| ==> LinkOk(lines, i, keys, requireKeyed)
  }

  /** A link is judged by the lines up to it, so every prefix of a good file is good:
      whole-record truncation goes unnoticed. */
  lemma PrefixIsOk(lines: seq<Line>, n: nat, keys: Keys, requireKeyed: bool)
    requires n <= |lines|
    ensures forall i :: 0 <= i < n ==> (LinkOk(lines[..n], i, keys, requireKeyed) <==> LinkOk(lines, i, keys, requireKeyed))
    ensures ChainOk(lines, keys, requireKeyed) ==> ChainOk(lines[..n], keys, requireKeyed)
  {
  }

  /** What a reported error says about the bad line. */
  predicate Explains(error: ChainError, line: Line, previous: Json, seenKeyed: bool, keys: Keys, requireKeyed: bool) {
    if line.NotJson? then error == Unreadable
    else if !line.value.Object? then error == NotAnObject
    else if "hash" !in line.value.fields then error == MissingHash
    else
      var body := Body(line.value.fields);
      match error
      case PreviousMismatch => Get(body, "previous_hash") != previous
      case NotKeyed => Get(body, "previous_hash") == previous && !IsKeyed(line) && requireKeyed
      case UnkeyedAfterKeyed => Get(body, "previous_hash") == previous && !IsKeyed(line) && !requireKeyed && seenKeyed
      case UnknownAlgorithm => Get(body, "previous_hash") == previous && IsKeyed(line) && Get(body, "chain") != KEYED_ALGORITHM
      case MissingKeyId =>
        Get(body, "previous_hash") == previous && Get(body, "chain") == KEYED_ALGORITHM && !Get(body, "key_id").Str?
      case UnknownKey =>
        && Get(body, "previous_hash") == previous && Get(body, "chain") == KEYED_ALGORITHM
        && Get(body, "key_id").Str? && Get(body, "key_id").text !in keys
      case HashMismatch =>
        && Get(body, "previous_hash") == previous && (IsKeyed(line) || (!requireKeyed && !seenKeyed))
        && ExpectedHash(body, keys).Some? && ExpectedHash(body, keys).value != line.value.fields["hash"]
      case _ => false
  }

  /** The checks on one line, given what the lines before it left behind: they pass exactly the
      lines that continue the chain, and object truly. */
  method CheckLine(line: Line, previous: Json, seenKeyed: bool, keys: Keys, requireKeyed: bool)
    returns (error: Option<ChainError>)
    ensures error == None <==> LineOk(line, previous, seenKeyed, keys, requireKeyed)
    ensures error.Some? ==> Explains(error.value, line, previous, seenKeyed, keys, requireKeyed)
  {
    if line.NotJson? { return Some(Unreadable); }
    if !line.value.Object? { return Some(NotAnObject); }
    if "hash" !in line.value.fields { return Some(MissingHash); }
    var claimed := line.value.fields["hash"];
    var record := Body(line.value.fields);
    if Get(record, "previous_hash") != previous { return Some(PreviousMismatch); }
    var algorithm := Get(record, "chain");
    var actual: Digest;
    if algorithm == Null {
      if requireKeyed { return Some(NotKeyed); }
      if seenKeyed { return Some(UnkeyedAfterKeyed); }
      actual := Sha(record);
    } else if algorithm == KEYED_ALGORITHM {
      var keyId := Get(record, "key_id");
      if !keyId.Str? { return Some(MissingKeyId); }
      if keyId.text !in keys { return Some(UnknownKey); }
      actual := Mac(keys[keyId.text], record);
    } else {
      return Some(UnknownAlgorithm);
    }
    return if claimed != Str(Hex(actual)) then Some(HashMismatch) else None;
  }

  /** A bad line has one objection, and a good one has none. */
  lemma OneObjection(line: Line, previous: Json, seenKeyed: bool, keys: Keys, requireKeyed: bool, one: ChainError, other: ChainError)
    requires Explains(one, line, previous, seenKeyed, keys, requireKeyed)
    ensures !LineOk(line, previous, seenKeyed, keys, requireKeyed)
    ensures Explains(other, line, previous, seenKeyed, keys, requireKeyed) ==> other == one
  {
  }

  /** `verify_chain`: accepts exactly the good files, and reports the first bad record of any other.
      A file that cannot be opened fails before its first record. */
  method VerifyChain(file: Option<seq<Line>>, keys: Keys, requireKeyed: bool)
    returns (ok: bool, count: nat, error: Option<ChainError>)
    ensures ok <==> file.Some? && ChainOk(file.value, keys, requireKeyed)
    ensures ok <==> error == None
    ensures file == None ==> count == 0
    ensures ok ==> count == |file.value|
    ensures !ok && file.Some? ==>
      && 1 <= count <= |file.value|
      && (forall i :: 0 <= i < count - 1 ==> LinkOk(file.value, i, keys, requireKeyed))
      && !LinkOk(file.value, count - 1, keys, requireKeyed)
      && Explains(error.value, file.value[count - 1], HeadAfter(file.value, count - 1), SeenKeyed(file.value, count - 1), keys, requireKeyed)
  {
    if file == None { return false, 0, Some(Unreadable); }
    var lines := file.value;
    var previous, seenKeyed := ZERO, false;
    count := 0;
    while count < |lines|
      invariant 0 <= count <= |lines|
      invariant forall i :: 0 <= i < count ==> LinkOk(lines, i, keys, requireKeyed)
      invariant count > 0 ==> IsRecord(lines[count - 1])
      invariant previous == HeadAfter(lines, count)
      invariant seenKeyed == SeenKeyed(lines, count)
    {
      var line := lines[count];
      count := count + 1;
      error := CheckLine(line, previous, seenKeyed, keys, requireKeyed);
      if error.Some? {
        assert !LinkOk(lines, count - 1, keys, requireKeyed);
        return false, count, error;
      }
      previous, seenKeyed := line.value.fields["hash"], seenKeyed || IsKeyed(line);
    }
    return true, count, None;
  }

  /** Record `i` in its fields: it names the hash of the one before it, the first one the zero anchor;
      unkeyed, it stands before all keyed ones and carries the digest of the rest of itself; keyed, it
      names a known key and carries its MAC. */
  predicate StandsInFields(lines: seq<Line>, i: nat, keys: Keys, requireKeyed: bool)
    requires i < |lines| && forall j :: 0 <= j < |lines| ==> lines[j].Parsed? && lines[j].value.Object?
  {
    var record := lines[i].value.fields;
    var rest := record - {"hash"};
    && Get(record, "previous_hash") == (if i == 0 then Str(Hex(Zero)) else Get(lines[i - 1].value.fields, "hash"))
    && "hash" in record
    && if Get(record, "chain") == Null then
         && record["hash"] == Str(Hex(Sha(rest))) && !requireKeyed
         && forall j :: 0 <= j < i ==> Get(lines[j].value.fields, "chain") == Null
       else
         && Get(record, "chain") == Str(Plain("hmac-sha256"))
         && Get(record, "key_id").Str? && Get(record, "key_id").text in keys
         && record["hash"] == Str(Hex(Mac(keys[Get(record, "key_id").text], rest)))
  }

  /** A file is good exactly when all its lines are records that stand in their fields. */
  lemma GoodFileInFields(lines: seq<Line>, keys: Keys, requireKeyed: bool)
    ensures ChainOk(lines, keys, requireKeyed) <==>
            && (forall j :: 0 <= j < |lines| ==> lines[j].Parsed? && lines[j].value.Object?)
            && forall i :: 0 <= i < |lines| ==> StandsInFields(lines, i, keys, requireKeyed)
  {
    if ChainOk(lines, keys, requireKeyed) {
      forall j | 0 <= j < |lines| ensures IsRecord(lines[j]) { assert LinkOk(lines, j, keys, requireKeyed); }
      forall i | 0 <= i < |lines| ensures StandsInFields(lines, i, keys, requireKeyed) {
        assert LinkOk(lines, i, keys, requireKeyed);
        LinkInFields(lines, i, keys, requireKeyed);
      }
    }
    if (forall j :: 0 <= j < |lines| ==> lines[j].Parsed? && lines[j].value.Object?)
       && (forall i :: 0 <= i < |lines| ==> StandsInFields(lines, i, keys, requireKeyed)) {
      forall j | 0 <= j < |lines| ensures IsRecord(lines[j]) { assert StandsInFields(lines, j, keys, requireKeyed); }
      forall i | 0 <= i < |lines| ensures LinkOk(lines, i, keys, requireKeyed) {
        assert StandsInFields(lines, i, keys, requireKeyed);
        LinkInFields(lines, i, keys, requireKeyed);
      }
    }
  }

  lemma LinkInFields(lines: seq<Line>, i: nat, keys: Keys, requireKeyed: bool)
    requires i < |lines|
    requires forall j :: 0 <= j < |lines| ==> lines[j].Parsed? && lines[j].value.Object?
    requires forall j :: 0 <= j < |lines| ==> IsRecord(lines[j])
    ensures LinkOk(lines, i, keys, requireKeyed) <==> StandsInFields(lines, i, keys, requireKeyed)
  {
    var seen := SeenKeyed(lines, i);
    assert forall j :: 0 <= j < i ==> (IsKeyed(lines[j]) <==> Get(lines[j].value.fields, "chain") != Null);
    assert seen <==> exists j :: 0 <= j < i && Get(lines[j].value.fields, "chain") != Null;
  }

  /** Asking for keyed records throughout refuses exactly the files with an unkeyed one. */
  lemma RequireKeyedExactly(lines: seq<Line>, keys: Keys)
    ensures ChainOk(lines, keys, true) <==> ChainOk(lines, keys, false) && forall i :: 0 <= i < |lines| ==> IsKeyed(lines[i])
  {
    if ChainOk(lines, keys, false) && forall i :: 0 <= i < |lines| ==> IsKeyed(lines[i]) {
      forall i | 0 <= i < |lines| ensures LinkOk(lines, i, keys, true) { assert LinkOk(lines, i, keys, false); }
    }
    if ChainOk(lines, keys, true) {
      forall i | 0 <= i < |lines| ensures LinkOk(lines, i, keys, false) && IsKeyed(lines[i]) { assert LinkOk(lines, i, keys, true); }
    }
  }

  // ------------------------------------------------------------------- sealing

  /** The record `append` writes: the redacted data, its link, and its hash. */
  function Seal(data: Record, previous: Json, key: Option<(Text, Key)>): Record {
    var linked := RedactFields(data)["previous_hash" := previous];
    match key
    case None => linked["hash" := Str(Hex(Sha(linked)))]
    case Some((id, secret)) =>
      var body := linked["chain" := KEYED_ALGORITHM]["key_id" := Str(id)];
      body["hash" := Str(Hex(Mac(secret, body)))]
  }

  /** What an appended record must be: free of secrets, with the fields of the data and of its mode
      and no others; every sensitive field replaced, everything else in its place; linked, and hashed
      over the rest of itself. */
  ghost predicate IsAppended(record: Record, data: Record, previous: Json, key: Option<(Text, Key)>) {
    && Clean(Object(record))
    && record.Keys == data.Keys + {"previous_hash", "hash"} + (if key.Some? then {"chain", "key_id"} else {})
    && (forall name :: name in data && IsSensitive(name) ==> record[name] == REDACTED)
    && (forall name :: name in data && !IsSensitive(name) && Clean(data[name]) ==> record[name] == data[name])
    && record["previous_hash"] == previous
    && (key.Some? ==> record["chain"] == Str(Plain("hmac-sha256")) && record["key_id"] == Str(key.value.0))
    && record["hash"] == Str(Hex(if key.Some? then Mac(key.value.1, record - {"hash"}) else Sha(record - {"hash"})))
  }

  lemma Harmless(name: string)
    requires name != [] && forall i :: 0 <= i < |name| ==> !('A' <= name[i] <= 'Z')
    requires |name| == 4 || (|name| == 13 && name[0] == 'p') || (|name| == 5 && name[0] == 'c') || (|name| == 6 && name[0] == 'k')
    ensures !IsSensitive(name)
  {
    assert Lower(name) == name;
  }

  lemma ReservedAreHarmless(name: string)
    requires name in RESERVED
    ensures !IsSensitive(name)
  {
    if name == "hash" {
      assert |name| == 4;
    } else if name == "previous_hash" {
      assert |name| == 13 && name[0] == 'p';
    } else if name == "chain" {
      assert |name| == 5 && name[0] == 'c';
    } else {
      assert name == "key_id" && |name| == 6 && name[0] == 'k';
    }
    Harmless(name);
  }

  lemma RedactedField(data: Record, name: string)
    requires name in data
    ensures name in RedactFields(data)
    ensures IsSensitive(name) ==> RedactFields(data)[name] == REDACTED
    ensures !IsSensitive(name) ==> Clean(RedactFields(data)[name])
    ensures !IsSensitive(name) && Clean(data[name]) ==> RedactFields(data)[name] == data[name]
  {
    RedactIsExact(data[name]);
  }

  lemma SealedFields(data: Record, previous: Json, key: Option<(Text, Key)>)
    requires data.Keys !! RESERVED
    ensures var record := Seal(data, previous, key);
      && record.Keys == data.Keys + {"previous_hash", "hash"} + (if key.Some? then {"chain", "key_id"} else {})
      && (forall name :: name in data ==> name in RedactFields(data) && record[name] == RedactFields(data)[name])
      && record["previous_hash"] == previous
      && (key.Some? ==> record["chain"] == KEYED_ALGORITHM && record["key_id"] == Str(key.value.0))
      && record["hash"].Str?
  {
    assert {"hash", "chain", "key_id", "previous_hash"} !! data.Keys;
    assert RedactFields(data).Keys == data.Keys;
  }

  /** Field by field a sealed record is what an appended record must be. */
  lemma SealedField(data: Record, previous: Json, key: Option<(Text, Key)>, name: string)
    requires data.Keys !! RESERVED && Clean(previous) && name in Seal(data, previous, key)
    ensures var record := Seal(data, previous, key);
      && (IsSensitive(name) ==> name in data && record[name] == REDACTED)
      && (!IsSensitive(name) ==> Clean(record[name]))
      && (name in data && !IsSensitive(name) && Clean(data[name]) ==> record[name] == data[name])
  {
    SealedFields(data, previous, key);
    if name in data { RedactedField(data, name); } else { ReservedAreHarmless(name); }
  }

  /** A sealed record is what an appended record must be. */
  lemma SealIsAppended(data: Record, previous: Json, key: Option<(Text, Key)>)
    requires data.Keys !! RESERVED && Clean(previous)
    ensures IsAppended(Seal(data, previous, key), data, previous, key)
  {
    var record := Seal(data, previous, key);
    SealedFields(data, previous, key);
    SealCarriesItsHash(data, previous, key);
    forall name | name in record
      ensures IsSensitive(name) ==> name in data && record[name] == REDACTED
      ensures !IsSensitive(name) ==> Clean(record[name])
      ensures name in data && !IsSensitive(name) && Clean(data[name]) ==> record[name] == data[name]
    {
      SealedField(data, previous, key, name);
    }
    FieldsAreClean(record);
  }

  lemma FieldsAreClean(record: Record)
    requires forall name :: name in record ==> if IsSensitive(name) then record[name] == REDACTED else Clean(record[name])
    ensures Clean(Object(record))
  {
    forall k | k in record ensures if Lower(k) in SENSITIVE then record[k] == REDACTED else Clean(record[k]) {
      assert IsSensitive(k) <==> Lower(k) in SENSITIVE;
    }
  }

  lemma HeadIsClean(lines: seq<Line>, keys: Keys)
    requires ChainOk(lines, keys, false)
    ensures Clean(HeadAfter(lines, |lines|))
  {
    if lines != [] { assert LinkOk(lines, |lines| - 1, keys, false); }
  }

  /** The file after is the file before and one appended record, linked to the old head. */
  ghost predicate AddsRecord(before: seq<Line>, after: seq<Line>, data: Record, key: Option<(Text, Key)>) {
    && |after| == |before| + 1 && after[..|before|] == before
    && after[|before|].Parsed? && after[|before|].value.Object?
    && IsAppended(after[|before|].value.fields, data, HeadAfter(before, |before|), key)
  }

  lemma SealAddsRecord(lines: seq<Line>, data: Record, key: Option<(Text, Key)>, keys: Keys)
    requires ChainOk(lines, keys, false) && data.Keys !! RESERVED
    ensures AddsRecord(lines, lines + [Parsed(Object(Seal(data, HeadAfter(lines, |lines|), key)))], data, key)
  {
    HeadIsClean(lines, keys);
    SealIsAppended(data, HeadAfter(lines, |lines|), key);
    OneMoreLine(lines, Seal(data, HeadAfter(lines, |lines|), key), data, key);
  }

  lemma OneMoreLine(lines: seq<Line>, record: Record, data: Record, key: Option<(Text, Key)>)
    requires IsAppended(record, data, HeadAfter(lines, |lines|), key)
    ensures AddsRecord(lines, lines + [Parsed(Object(record))], data, key)
  {
    var longer := lines + [Parsed(Object(record))];
    assert longer[..|lines|] == lines && longer[|lines|].value.fields == record;
  }

  /** Appending a sealed record keeps the file good, in both modes: keyed appends always, unkeyed
      ones exactly while the file has no keyed record. */
  lemma SealExtendsChain(lines: seq<Line>, data: Record, key: Option<(Text, Key)>, keys: Keys)
    requires ChainOk(lines, keys, false)
    requires data.Keys !! RESERVED
    requires key.Some? ==> key.value.0 in keys && keys[key.value.0] == key.value.1
    ensures ChainOk(lines + [Parsed(Object(Seal(data, HeadAfter(lines, |lines|), key)))], keys, false)
      <==> key.Some? || !SeenKeyed(lines, |lines|)
  {
    var n := |lines|;
    assert n > 0 ==> LinkOk(lines, n - 1, keys, false);
    var sealed := Seal(data, HeadAfter(lines, n), key);
    var longer := lines + [Parsed(Object(sealed))];
    assert longer[..n] == lines;
    PrefixIsOk(longer, n, keys, false);
    SealCarriesItsHash(data, HeadAfter(lines, n), key);
    assert longer[n].value.fields == sealed;
    assert HeadAfter(longer, n) == HeadAfter(lines, n);
    assert forall j :: 0 <= j < n ==> longer[j] == lines[j];
    assert Some(sealed["hash"]) == ExpectedHash(Body(sealed), keys);
    assert LinkOk(longer, n, keys, false) <==> key.Some? || !SeenKeyed(lines, n);
    assert forall i :: 0 <= i < n ==> LinkOk(longer, i, keys, false) by {
      assert forall i :: 0 <= i < n ==> LinkOk(lines, i, keys, false);
    }
  }

  lemma SealCarriesItsHash(data: Record, previous: Json, key: Option<(Text, Key)>)
    requires data.Keys !! RESERVED
    ensures var sealed := Seal(data, previous, key);
      && Get(Body(sealed), "previous_hash") == previous
      && Get(Body(sealed), "chain") == (if key.None? then Null else KEYED_ALGORITHM)
      && (key.Some? ==> Get(Body(sealed), "key_id") == Str(key.value.0))
      && "hash" in sealed
      && sealed["hash"] == Str(Hex(if key.None? then Sha(Body(sealed)) else Mac(key.value.1, Body(sealed))))
  {
    var linked := RedactFields(data)["previous_hash" := previous];
    var sealed := Seal(data, previous, key);
    assert {"hash", "chain", "key_id", "previous_hash"} !! data.Keys;
    if key.None? {
      assert Body(sealed) == linked;
    } else {
      assert Body(sealed) == linked["chain" := KEYED_ALGORITHM]["key_id" := Str(key.value.0)];
    }
  }

  /** A file stays good when the verifier learns more keys. */
  lemma MoreKeysKeepChain(lines: seq<Line>, keys: Keys, more: Keys, requireKeyed: bool)
    requires ChainOk(lines, keys, requireKeyed)
    requires forall id :: id in keys ==> id in more && more[id] == keys[id]
    ensures ChainOk(lines, more, requireKeyed)
  {
    forall i | 0 <= i < |lines| ensures LinkOk(lines, i, more, requireKeyed) {
      assert LinkOk(lines, i, keys, requireKeyed);
    }
  }

  // -------------------------------------------------------------- head binding

  /** The digest that ends a good file fixes the whole file: two good files with one head hold the
      same records, over legacy and keyed parts and over any key rotation, whatever keys verified
      them. */
  lemma {:induction false} HeadBindsFile(left: seq<Line>, right: seq<Line>, leftKeys: Keys, rightKeys: Keys)
    requires ChainOk(left, leftKeys, false) && ChainOk(right, rightKeys, false)
    requires HeadAfter(left, |left|) == HeadAfter(right, |right|)
    ensures left == right
    decreases |left|
  {
    if |left| > 0 { HeadIsNotZero(left, leftKeys); }
    if |right| > 0 { HeadIsNotZero(right, rightKeys); }
    if |left| > 0 && |right| > 0 {
      var n, m := |left| - 1, |right| - 1;
      assert LinkOk(left, n, leftKeys, false) && LinkOk(right, m, rightKeys, false);
      SameHashSameRecord(left[n].value.fields, right[m].value.fields, leftKeys, rightKeys);
      PrefixIsOk(left, n, leftKeys, false);
      PrefixIsOk(right, m, rightKeys, false);
      assert HeadAfter(left[..n], n) == HeadAfter(left, n);
      assert HeadAfter(right[..m], m) == HeadAfter(right, m);
      HeadBindsFile(left[..n], right[..m], leftKeys, rightKeys);
      assert left == left[..n] + [left[n]];
      assert right == right[..m] + [right[m]];
    }
  }

  lemma HeadIsNotZero(lines: seq<Line>, keys: Keys)
    requires ChainOk(lines, keys, false) && |lines| > 0
    ensures IsRecord(lines[|lines| - 1]) && HeadAfter(lines, |lines|) != ZERO
  {
    assert LinkOk(lines, |lines| - 1, keys, false);
  }

  lemma SameHashSameRecord(left: Record, right: Record, leftKeys: Keys, rightKeys: Keys)
    requires "hash" in left && "hash" in right && left["hash"] == right["hash"]
    requires Some(left["hash"]) == ExpectedHash(Body(left), leftKeys)
    requires Some(right["hash"]) == ExpectedHash(Body(right), rightKeys)
    ensures left == right
  {
    assert Body(left) == Body(right);
    assert left == Body(left)["hash" := left["hash"]];
    assert right == Body(right)["hash" := right["hash"]];
  }
}
