/** The audit file as code units: the backward tail scan (`_last_record`), one locked append with
    its faults (`_append_once`), and the four attempts of `append`. */
module AuditFile {
  import opened Values
  import opened AuditChain
  import opened JsonText
  import opened JsonRecord

  /** How records become lines. */
  datatype Codec = Codec(dumps: Record -> Units, loads: Units -> Line)

  /** A serialized record has no raw line break, reads back as itself, and has no beginning that reads
      as JSON. */
  ghost predicate Faithful(codec: Codec) {
    forall record: Record ::
      && BREAK !in codec.dumps(record)
      && codec.loads(codec.dumps(record)) == Parsed(Object(record))
      && forall n :: 0 <= n < |codec.dumps(record)| ==> codec.loads(codec.dumps(record)[..n]) == NotJson
  }

  /** The codec in use: JSON texts, with the fields of a dictionary in some order. */
  function JsonCodec(order: Order): Codec {
    Codec((record: Record) => Dump(order, Object(record)), (units: Units) => LoadLine(units))
  }

  function LoadLine(units: Units): Line {
    var value := Loads(units);
    if value.None? then NotJson else Parsed(value.value)
  }

  /** JSON is faithful, whatever order the fields are written in. */
  lemma JsonIsFaithful(order: Order)
    requires ListsAll(order)
    ensures Faithful(JsonCodec(order))
  {
    forall record: Record
      ensures BREAK !in Dump(order, Object(record)) && LoadLine(Dump(order, Object(record))) == Parsed(Object(record))
      ensures forall n :: 0 <= n < |Dump(order, Object(record))| ==> LoadLine(Dump(order, Object(record))[..n]) == NotJson
    {
      DumpIsPrintable(order, Object(record));
      RecordReadsBack(order, record);
      forall n | 0 <= n < |Dump(order, Object(record))| ensures LoadLine(Dump(order, Object(record))[..n]) == NotJson {
        BeginningIsNoJson(order, record, n);
      }
    }
  }

  // ------------------------------------------------------- forward line splitting

  function FirstBreak(units: Units): (n: nat)
    ensures n <= |units|
    ensures n < |units| ==> units[n] == BREAK
    ensures forall i :: 0 <= i < n ==> units[i] != BREAK
  {
    if units == [] || units[0] == BREAK then 0 else 1 + FirstBreak(units[1..])
  }

  lemma FirstBreakIs(units: Units, n: nat)
    requires n <= |units| && (n < |units| ==> units[n] == BREAK)
    requires forall i :: 0 <= i < n ==> units[i] != BREAK
    ensures FirstBreak(units) == n
  {
  }

  /** The lines a reader sees, front to back, without their line breaks. */
  function Lines(units: Units): seq<Units> {
    if units == [] then []
    else
      var n := FirstBreak(units);
      if n == |units| then [units] else [units[..n]] + Lines(units[n + 1..])
  }

  function Decode(codec: Codec, lines: seq<Units>): (r: seq<Line>)
    ensures |r| == |lines|
    ensures forall i :: 0 <= i < |r| ==> r[i] == codec.loads(lines[i])
  {
    if lines == [] then [] else [codec.loads(lines[0])] + Decode(codec, lines[1..])
  }

  /** No line is left unfinished. */
  predicate Whole(units: Units) {
    units == [] || units[|units| - 1] == BREAK
  }

  /** What follows a whole file does not change how the file splits. */
  lemma {:induction false} WholeFileSplitsOff(units: Units, more: Units)
    requires Whole(units)
    ensures Lines(units + more) == Lines(units) + Lines(more)
    decreases |units|
  {
    if units == [] {
      assert units + more == more;
    } else {
      var n := FirstBreak(units);
      assert units[|units| - 1] == BREAK;
      FirstBreakIs(units + more, n);
      assert (units + more)[..n] == units[..n] && (units + more)[n + 1..] == units[n + 1..] + more;
      WholeFileSplitsOff(units[n + 1..], more);
    }
  }

  lemma OneLine(line: Units)
    requires BREAK !in line
    ensures Lines(line + [BREAK]) == [line]
    ensures line != [] ==> Lines(line) == [line]
  {
    assert forall i :: 0 <= i < |line| ==> line[i] in line;
    FirstBreakIs(line + [BREAK], |line|);
    FirstBreakIs(line, |line|);
    assert (line + [BREAK])[..|line|] == line && (line + [BREAK])[|line| + 1..] == [];
  }

  /** Text without a line break written after a whole file is one more line, with its break or not. */
  lemma AppendedLine(units: Units, line: Units)
    requires Whole(units) && BREAK !in line
    ensures Lines(units + (line + [BREAK])) == Lines(units) + [line]
    ensures line != [] ==> Lines(units + line) == Lines(units) + [line]
  {
    OneLine(line);
    WholeFileSplitsOff(units, line + [BREAK]);
    WholeFileSplitsOff(units, line);
  }

  lemma ScannedLine(units: Units, start: nat)
    requires start < |units| && units[|units| - 1] == BREAK
    requires start == 0 || units[start - 1] == BREAK
    requires forall i :: start <= i < |units| - 1 ==> units[i] != BREAK
    ensures var lines := Lines(units); lines != [] && lines[|lines| - 1] == units[start..|units| - 1]
  {
    var before, line := units[..start], units[start..|units| - 1];
    assert units == before + (line + [BREAK]);
    AppendedLine(before, line);
  }

  // ------------------------------------------------------------------ the tail

  datatype AppendError = ReservedField | NoKey | SharingViolation | Denied | TornTail | BadTail | WriteFailed

  predicate IsTail(line: Line) {
    line.Parsed? && line.value.Object? && Get(line.value.fields, "hash").Str?
  }

  /** The last record as a front-to-back reader finds it. */
  function TailOf(codec: Codec, units: Units): Result<Option<Record>, AppendError> {
    TailFrom(codec, units, Lines(units))
  }

  function TailFrom(codec: Codec, units: Units, lines: seq<Units>): Result<Option<Record>, AppendError> {
    if units == [] then Success(None)
    else if !Whole(units) || lines == [] then Failure(TornTail)
    else
      var last := codec.loads(lines[|lines| - 1]);
      if IsTail(last) then Success(Some(last.value.fields)) else Failure(BadTail)
  }

  /** What the environment does to one attempt: nothing, deny the file, or stop the write after some
      units are on disk (all of them when only the flush or sync fails). */
  datatype Fault = NoFault | Sharing | Refused | Stopped(after: nat)

  function Payload(codec: Codec, data: Record, tail: Option<Record>, key: Option<(Text, Key)>): Units {
    codec.dumps(Seal(data, if tail.Some? then Get(tail.value, "hash") else ZERO, key)) + [BREAK]
  }

  /** The file after one attempt, and what the attempt reports. */
  function Attempt(codec: Codec, units: Units, data: Record, key: Option<(Text, Key)>, fault: Fault): (Units, Option<AppendError>) {
    if fault.Sharing? then (units, Some(SharingViolation))
    else if fault.Refused? then (units, Some(Denied))
    else
      var tail := TailOf(codec, units);
      if tail.Failure? then (units, Some(tail.error))
      else
        var payload := Payload(codec, data, tail.value, key);
        if fault.Stopped? && fault.after < |payload| then (units + payload[..fault.after], Some(WriteFailed))
        else (units + payload, if fault.Stopped? then Some(WriteFailed) else None)
  }

  /** The first attempt that is not a sharing violation. */
  function FirstReal(faults: seq<Fault>): (n: nat)
    ensures n <= |faults| && (n < |faults| ==> !faults[n].Sharing?)
    ensures forall i :: 0 <= i < n ==> faults[i].Sharing?
  {
    if faults == [] || !faults[0].Sharing? then 0 else 1 + FirstReal(faults[1..])
  }

  class AuditLog {
    const codec: Codec
    var units: Units

    constructor (codec: Codec)
      ensures this.codec == codec && units == []
    {
      this.codec := codec;
      units := [];
    }

    /** `_last_record`: seeks the final line from the end of the file. */
    method LastRecord() returns (r: Result<Option<Record>, AppendError>)
      ensures r == TailOf(codec, units)
    {
      var units := this.units;
      var end := |units|;
      if end == 0 { return Success(None); }
      if units[end - 1] != BREAK { return Failure(TornTail); }
      var start := end - 1;
      while start > 0 && units[start - 1] != BREAK
        invariant 0 <= start <= end - 1
        invariant forall i :: start <= i < end - 1 ==> units[i] != BREAK
      {
        start := start - 1;
      }
      ScannedLine(units, start);
      var last := codec.loads(units[start..end - 1]);
      if IsTail(last) { return Success(Some(last.value.fields)); }
      return Failure(BadTail);
    }

    method AppendOnce(data: Record, key: Option<(Text, Key)>, fault: Fault) returns (error: Option<AppendError>)
      modifies this
      ensures (units, error) == Attempt(codec, old(units), data, key, fault)
    {
      if fault.Sharing? { return Some(SharingViolation); }
      if fault.Refused? { return Some(Denied); }
      var tail := LastRecord();
      if tail.Failure? { return Some(tail.error); }
      var payload := Payload(codec, data, tail.value, key);
      if fault.Stopped? && fault.after < |payload| {
        units := units + payload[..fault.after];
        return Some(WriteFailed);
      }
      units := units + payload;
      return if fault.Stopped? then Some(WriteFailed) else None;
    }

    /** `append`: at most four attempts, and only an attempt that wrote nothing is repeated. `key` is
        what the key store answered; an unavailable store stops the append before the file. */
    method Append(data: Record, key: Result<Option<(Text, Key)>, AppendError>, faults: seq<Fault>)
      returns (error: Option<AppendError>)
      requires |faults| == 4
      modifies this
      ensures !(data.Keys !! RESERVED) ==> error == Some(ReservedField) && units == old(units)
      ensures data.Keys !! RESERVED && key.Failure? ==> error == Some(key.error) && units == old(units)
      ensures data.Keys !! RESERVED && key.Success? ==>
        var n := FirstReal(faults);
        (units, error) == if n == 4 then (old(units), Some(SharingViolation))
                          else Attempt(codec, old(units), data, key.value, faults[n])
    {
      if !(data.Keys !! RESERVED) { return Some(ReservedField); }
      if key.Failure? { return Some(key.error); }
      error := None;
      for attempt := 0 to 4
        invariant units == old(units)
        invariant FirstReal(faults) == attempt + FirstReal(faults[attempt..])
        invariant attempt > 0 ==> error == Some(SharingViolation)
      {
        error := AppendOnce(data, key.value, faults[attempt]);
        if error != Some(SharingViolation) { return; }
        SharingMeansSharing(codec, units, data, key.value, faults[attempt]);
        assert faults[attempt..][1..] == faults[attempt + 1..];
      }
    }
  }

  /** The error that is retried is raised before anything is written. */
  lemma SharingMeansSharing(codec: Codec, units: Units, data: Record, key: Option<(Text, Key)>, fault: Fault)
    ensures Attempt(codec, units, data, key, fault).1 == Some(SharingViolation) <==> fault.Sharing?
    ensures Attempt(codec, units, data, key, fault).1 == Some(SharingViolation) ==> Attempt(codec, units, data, key, fault).0 == units
  {
  }

  // ------------------------------------------------------------- what it means

  /** The records of a file, as `verify_chain` reads them. */
  function Records(codec: Codec, units: Units): seq<Line> {
    Decode(codec, Lines(units))
  }

  lemma {:induction false} DecodeOneMore(codec: Codec, lines: seq<Units>, line: Units)
    ensures Decode(codec, lines + [line]) == Decode(codec, lines) + [codec.loads(line)]
  {
  }

  lemma {:induction false} WholeFileHasLines(units: Units)
    requires units != []
    ensures Lines(units) != []
  {
  }

  /** On a good file the tail scan finds the head of the chain. */
  lemma TailIsHead(codec: Codec, units: Units, keys: Keys)
    requires Whole(units) && ChainOk(Records(codec, units), keys, false)
    ensures var tail, n := TailOf(codec, units), |Records(codec, units)|;
      && tail.Success?
      && HeadAfter(Records(codec, units), n) == if tail.value.Some? then Get(tail.value.value, "hash") else ZERO
  {
    if units != [] {
      var lines := Lines(units);
      WholeFileHasLines(units);
      assert LinkOk(Records(codec, units), |lines| - 1, keys, false);
    }
  }

  lemma AppendAddsSealed(codec: Codec, units: Units, data: Record, key: Option<(Text, Key)>, keys: Keys)
    requires Faithful(codec) && Whole(units) && ChainOk(Records(codec, units), keys, false)
    ensures var (after, error) := Attempt(codec, units, data, key, NoFault);
      var records := Records(codec, units);
      && error == None
      && Whole(after)
      && Records(codec, after) == records + [Parsed(Object(Seal(data, HeadAfter(records, |records|), key)))]
  {
    var records := Records(codec, units);
    TailIsHead(codec, units, keys);
    var text := codec.dumps(Seal(data, HeadAfter(records, |records|), key));
    assert Payload(codec, data, TailOf(codec, units).value, key) == text + [BREAK];
    AppendedLine(units, text);
    DecodeOneMore(codec, Lines(units), text);
  }

  /** A successful attempt on a good file adds exactly the sealed record, keyed or not, and the file
      stays good exactly when the record is keyed or the file has no keyed record yet. */
  lemma AppendExtendsChain(codec: Codec, units: Units, data: Record, key: Option<(Text, Key)>, keys: Keys)
    requires Faithful(codec) && Whole(units)
    requires ChainOk(Records(codec, units), keys, false)
    requires data.Keys !! RESERVED && (key.Some? ==> key.value.0 in keys && keys[key.value.0] == key.value.1)
    ensures var (after, error) := Attempt(codec, units, data, key, NoFault);
      var records := Records(codec, units);
      && error == None
      && Whole(after)
      && Records(codec, after) == records + [Parsed(Object(Seal(data, HeadAfter(records, |records|), key)))]
      && (ChainOk(Records(codec, after), keys, false) <==> key.Some? || !SeenKeyed(records, |records|))
  {
    AppendAddsSealed(codec, units, data, key, keys);
    SealExtendsChain(Records(codec, units), data, key, keys);
  }

  /** What a reader of the file finds after a fault-free append: the old records, and one that is free
      of secrets, has the fields of the data and of its mode, keeps everything that is no secret, and
      is linked to the old head. */
  lemma AppendedRecordReadsBack(codec: Codec, units: Units, data: Record, key: Option<(Text, Key)>, keys: Keys)
    requires Faithful(codec) && Whole(units) && ChainOk(Records(codec, units), keys, false) && data.Keys !! RESERVED
    ensures var (after, error) := Attempt(codec, units, data, key, NoFault);
      error == None && AddsRecord(Records(codec, units), Records(codec, after), data, key)
  {
    AppendAddsSealed(codec, units, data, key, keys);
    SealAddsRecord(Records(codec, units), data, key, keys);
  }

  /** A denied handle writes nothing, and a stopped write is an error. */
  lemma FaultsAreErrors(codec: Codec, units: Units, data: Record, key: Option<(Text, Key)>, fault: Fault)
    ensures fault.Sharing? ==> Attempt(codec, units, data, key, fault) == (units, Some(SharingViolation))
    ensures fault.Refused? ==> Attempt(codec, units, data, key, fault) == (units, Some(Denied))
    ensures fault.Stopped? ==> Attempt(codec, units, data, key, fault).1.Some?
    ensures fault.Stopped? && fault.after == 0 ==> Attempt(codec, units, data, key, fault).0 == units
  {
    var tail := TailOf(codec, units);
    if tail.Success? && fault.Stopped? && fault.after == 0 {
      assert units + Payload(codec, data, tail.value, key)[..0] == units;
    }
  }

  /** A finished last line that is no record with a hash stops every append. */
  lemma BadTailRefuses(codec: Codec, units: Units)
    requires Whole(units) && Lines(units) != []
    requires var last := codec.loads(Lines(units)[|Lines(units)| - 1]);
      !(last.Parsed? && last.value.Object? && "hash" in last.value.fields && last.value.fields["hash"].Str?)
    ensures Refuses(codec, units)
  {
  }

  /** Every attempt on this file fails and leaves it as it is. */
  ghost predicate Refuses(codec: Codec, units: Units) {
    forall data, key, fault ::
      Attempt(codec, units, data, key, fault).0 == units && Attempt(codec, units, data, key, fault).1.Some?
  }

  lemma TornFileRefuses(codec: Codec, units: Units)
    requires !Whole(units)
    ensures Refuses(codec, units)
  {
  }

  /** A write of the line `text` that stopped after `n` units: what a reader sees, and what is whole. */
  lemma WrittenPart(codec: Codec, units: Units, text: Units, n: nat)
    requires Whole(units) && BREAK !in text && 0 < n <= |text| + 1
    ensures var after := units + (text + [BREAK])[..n];
      && (n <= |text| ==> Refuses(codec, after) && Records(codec, after) == Records(codec, units) + [codec.loads(text[..n])])
      && (n > |text| ==> Whole(after) && Records(codec, after) == Records(codec, units) + [codec.loads(text)])
  {
    var part := (text + [BREAK])[..n];
    if n <= |text| {
      assert part == text[..n];
      assert forall u :: u in text[..n] ==> u in text;
      AppendedLine(units, text[..n]);
      DecodeOneMore(codec, Lines(units), text[..n]);
      LastUnit(units, part);
      assert part[n - 1] in text;
      TornFileRefuses(codec, units + part);
    } else {
      assert part == text + [BREAK];
      AppendedLine(units, text);
      DecodeOneMore(codec, Lines(units), text);
      LastUnit(units, part);
    }
  }

  lemma LastUnit(units: Units, part: Units)
    requires part != []
    ensures (units + part)[|units + part| - 1] == part[|part| - 1]
  {
  }

  /** A torn file extends the old one by a part of a record that no later attempt adds to. A reader
      sees the beginning of a record, which is no JSON, or, when only the line break is missing, the
      same records as in the file of the completed append. */
  ghost predicate TornFrom(codec: Codec, units: Units, after: Units, completed: Units) {
    && units <= after && Refuses(codec, after)
    && (Records(codec, after) == Records(codec, units) + [NotJson] || Records(codec, after) == Records(codec, completed))
  }

  lemma CompletedWrite(codec: Codec, units: Units, record: Record)
    requires Faithful(codec) && Whole(units)
    ensures var completed := units + (codec.dumps(record) + [BREAK]);
      Whole(completed) && Records(codec, completed) == Records(codec, units) + [Parsed(Object(record))]
  {
    var text := codec.dumps(record);
    assert (text + [BREAK])[..|text| + 1] == text + [BREAK];
    WrittenPart(codec, units, text, |text| + 1);
  }

  lemma StoppedWrite(codec: Codec, units: Units, record: Record, n: nat)
    requires Faithful(codec) && Whole(units) && 0 < n <= |codec.dumps(record)|
    ensures var payload := codec.dumps(record) + [BREAK];
      TornFrom(codec, units, units + payload[..n], units + payload)
  {
    var text := codec.dumps(record);
    WrittenPart(codec, units, text, n);
    CompletedWrite(codec, units, record);
    assert text[..|text|] == text;
  }

  /** One attempt, whatever goes wrong in it and at whatever unit the write stops, leaves the old
      file, the file of a completed append with one more record, or a torn file. Success means the
      completed append. */
  lemma AttemptLeavesOldNewOrTorn(codec: Codec, units: Units, data: Record, key: Option<(Text, Key)>, fault: Fault)
    requires Faithful(codec) && Whole(units)
    ensures var (after, error) := Attempt(codec, units, data, key, fault);
      var completed := Attempt(codec, units, data, key, NoFault).0;
      || (after == units && error.Some?)
      || (after == completed && Whole(after) && |Records(codec, after)| == |Records(codec, units)| + 1)
      || (TornFrom(codec, units, after, completed) && error.Some?)
  {
    var tail := TailOf(codec, units);
    if tail.Success? && !fault.Sharing? && !fault.Refused? {
      var record := Seal(data, if tail.value.Some? then Get(tail.value.value, "hash") else ZERO, key);
      var payload := Payload(codec, data, tail.value, key);
      var n := if fault.Stopped? && fault.after < |payload| then fault.after else |payload|;
      assert payload == codec.dumps(record) + [BREAK];
      CompletedWrite(codec, units, record);
      if n == 0 {
        assert units + payload[..0] == units;
      } else if n < |payload| {
        StoppedWrite(codec, units, record, n);
      }
    }
  }
}
