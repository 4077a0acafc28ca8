/** `KeyringAuditKeys` and keyed appends as a protocol of any number of processes.

    The credential store has no compare-and-swap: every `get_password`, `set_password` and
    `delete_password` is one atomic step, and the steps of different processes interleave freely.
    A schedule names, step by step, the process that moves and the choice it makes. */
module KeyringProtocol {
  import opened Values
  import opened AuditChain

  /** The pre-split document: all keys and the current id in one credential. */
  datatype Document = Document(current: Option<Text>, keys: Keys)

  datatype Store = Store(split: Keys, pointer: Option<Text>, legacy: Option<Document>)

  type Pid = nat

  /** The three reads of `resolve`: split target, legacy document, split target again. */
  datatype Stage = FirstRead | LegacyRead | SecondRead

  datatype KeyError = StoreCorrupt | NotPersisted | PointerLost | CurrentKeyMissing

  /** Where a process stands. `owed` remembers that the key was stored when `resolve` began;
      `forCurrent` that `current` or `_converge` made the call. */
  datatype Pc =
    | Idle
    | ReadPointer
    | ReadLegacy
    | MigrateWrite(document: Document, todo: set<Text>)
    | MigrateCheck(document: Document, todo: set<Text>, id: Text)
    | MigratePointer(document: Document)
    | MigrateDelete(document: Document)
    | DrawKey
    | CreateWrite(key: Key)
    | CreateCheck(key: Key)
    | CreatePointer(key: Key)
    | Converge
    | Lookup(stage: Stage, id: Text, owed: bool, forCurrent: bool)
    | Resolved(id: Text, found: Option<Key>, owed: bool)
    | HasKey(id: Text, key: Key)
    | Holding(id: Text, key: Key)
    | Writing(line: Line)
    | Written
    | Failed(error: KeyError)

  /** What the scheduler and the outside world decide in one step. */
  datatype Choice =
    | CallCurrent | CallRotate | CallResolve(id: Text)
    | Draw(key: Key) | Pick(id: Text)
    | Go | DeleteFails
    | TakeLock | Append(data: Record)
    | Stop(written: Extent)

  /** How much of a record is on file when its writer stops. */
  datatype Extent = Nothing | Part | AllButBreak | Everything

  /** What follows the last line break of the file: nothing, the beginning of a record, or a record
      without its line break. */
  datatype Tail = Clean | Fragment | Unbroken(line: Line)

  datatype System = System(store: Store, file: seq<Line>, tail: Tail, lock: Option<Pid>, procs: map<Pid, Pc>)

  /** The lines a verifier reads. The beginning of a record is no JSON (`JsonRecord.BeginningIsNoJson`). */
  function Shown(s: System): seq<Line> {
    match s.tail
    case Clean => s.file
    case Fragment => s.file + [NotJson]
    case Unbroken(line) => s.file + [line]
  }

  function PcOf(s: System, p: Pid): Pc {
    if p in s.procs then s.procs[p] else Idle
  }

  /** Everything `resolve` can find. */
  function Available(store: Store): Keys {
    (if store.legacy.Some? then store.legacy.value.keys else map[]) + store.split
  }

  // ------------------------------------------------------------------- the steps

  /** What one step does to the credential store and to the process. */
  datatype Move = Move(store: Store, pc: Pc)

  function Put(store: Store, id: Text, key: Key): Store {
    store.(split := store.split[id := key])
  }

  /** `resolve` opens by dismissing malformed ids without a lookup. */
  function StartLookup(store: Store, id: Text, forCurrent: bool): Pc {
    if id.Fingerprint? then Lookup(FirstRead, id, id in Available(store), forCurrent)
    else if forCurrent then Failed(CurrentKeyMissing)
    else Resolved(id, None, false)
  }

  function EndLookup(id: Text, found: Option<Key>, owed: bool, forCurrent: bool): Pc {
    if !forCurrent then Resolved(id, found, owed)
    else if found.Some? then HasKey(id, found.value)
    else Failed(CurrentKeyMissing)
  }

  function LookupStep(store: Store, pc: Pc): Pc
    requires pc.Lookup?
  {
    var Lookup(stage, id, owed, forCurrent) := pc;
    match stage
    case FirstRead =>
      if id in store.split then EndLookup(id, Some(store.split[id]), owed, forCurrent)
      else Lookup(LegacyRead, id, owed, forCurrent)
    case LegacyRead =>
      if store.legacy.None? then Lookup(SecondRead, id, owed, forCurrent)
      else if Corrupt(store.legacy.value) then Failed(StoreCorrupt)
      else if id in store.legacy.value.keys then EndLookup(id, Some(store.legacy.value.keys[id]), owed, forCurrent)
      else Lookup(SecondRead, id, owed, forCurrent)
    case SecondRead =>
      EndLookup(id, if id in store.split then Some(store.split[id]) else None, owed, forCurrent)
  }

  predicate Corrupt(document: Document) {
    document.current.Some? && document.current.value !in document.keys
  }

  function AfterMigrated(document: Document, todo: set<Text>): Pc {
    if todo != {} then MigrateWrite(document, todo)
    else if document.current.Some? then MigratePointer(document)
    else MigrateDelete(document)
  }

  /** `_migrate_legacy`: write every key (in any order) and read it back, move the pointer, delete. */
  function MigrateStep(store: Store, pc: Pc, choice: Choice): Move {
    match pc
    case ReadLegacy =>
      Move(store, if store.legacy.None? then DrawKey
                  else if Corrupt(store.legacy.value) then Failed(StoreCorrupt)
                  else AfterMigrated(store.legacy.value, store.legacy.value.keys.Keys))
    case MigrateWrite(document, todo) =>
      if choice.Pick? && choice.id in todo && choice.id in document.keys then
        Move(Put(store, choice.id, document.keys[choice.id]), MigrateCheck(document, todo, choice.id))
      else Move(store, pc)
    case MigrateCheck(document, todo, id) =>
      Move(store, if id in store.split && id in document.keys && store.split[id] == document.keys[id]
                  then AfterMigrated(document, todo - {id}) else Failed(NotPersisted))
    case MigratePointer(document) =>
      Move(store.(pointer := document.current), MigrateDelete(document))
    case MigrateDelete(document) =>
      Move(if choice.DeleteFails? then store else store.(legacy := None),
           if document.current.Some? then Converge else DrawKey)
    case _ => Move(store, pc)
  }

  /** First creation and `rotate`: draw a key, write it and read it back, move the pointer. */
  function CreateStep(store: Store, pc: Pc, choice: Choice): Move {
    match pc
    case DrawKey => Move(store, if choice.Draw? then CreateWrite(choice.key) else pc)
    case CreateWrite(key) => Move(Put(store, Fingerprint(key), key), CreateCheck(key))
    case CreateCheck(key) =>
      Move(store, if Fingerprint(key) in store.split && store.split[Fingerprint(key)] == key
                  then CreatePointer(key) else Failed(NotPersisted))
    case CreatePointer(key) => Move(store.(pointer := Some(Fingerprint(key))), Converge)
    case _ => Move(store, pc)
  }

  /** One atomic step of `current`, `rotate` or `resolve`. A choice that does not fit where the
      process stands changes nothing. */
  function KeyStep(store: Store, pc: Pc, choice: Choice): Move {
    match pc
    case Idle =>
      Move(store, match choice
                  case CallCurrent => ReadPointer
                  case CallRotate => DrawKey
                  case CallResolve(id) => StartLookup(store, id, false)
                  case _ => Idle)
    case ReadPointer =>
      Move(store, if store.pointer.None? then ReadLegacy else StartLookup(store, store.pointer.value, true))
    case Converge =>
      Move(store, if store.pointer.None? then Failed(PointerLost) else StartLookup(store, store.pointer.value, true))
    case Lookup(_, _, _, _) => Move(store, LookupStep(store, pc))
    case DrawKey => CreateStep(store, pc, choice)
    case CreateWrite(_) => CreateStep(store, pc, choice)
    case CreateCheck(_) => CreateStep(store, pc, choice)
    case CreatePointer(_) => CreateStep(store, pc, choice)
    case Resolved(_, _, _) => Move(store, Idle)
    case HasKey(_, _) => Move(store, Idle)
    case Failed(_) => Move(store, Idle)
    case _ => MigrateStep(store, pc, choice)
  }

  function At(s: System, p: Pid, pc: Pc): System {
    s.(procs := s.procs[p := pc])
  }

  predicate NeedsLock(pc: Pc) {
    pc.Holding? || pc.Writing? || pc.Written?
  }

  /** The steps of an append that holds the file lock; its key was fetched before the lock. A torn
      file is refused, and the lock given back. */
  function LockedStep(s: System, p: Pid, choice: Choice): System {
    match PcOf(s, p)
    case Holding(id, key) =>
      if !choice.Append? || !(choice.data.Keys !! RESERVED) then s
      else if !s.tail.Clean? then At(s.(lock := None), p, Idle)
      else
        var sealed := Seal(choice.data, HeadAfter(s.file, |s.file|), Some((id, key)));
        At(s.(tail := Fragment), p, Writing(Parsed(Object(sealed))))
    case Writing(line) => At(s.(file := s.file + [line], tail := Clean), p, Written)
    case Written => At(s.(lock := None), p, Idle)
    case _ => s
  }

  /** The writer dies, or its write fails and it gives up, with this much of the record on file. */
  function StoppedWrite(s: System, line: Line, written: Extent): System {
    match written
    case Nothing => s.(tail := Clean)
    case Part => s.(tail := Fragment)
    case AllButBreak => s.(tail := Unbroken(line))
    case Everything => s.(file := s.file + [line], tail := Clean)
  }

  /** A process stops: the operating system drops the lock of a dead process, and a failed append
      gives it back. */
  function StopStep(s: System, p: Pid, written: Extent): System {
    var pc := PcOf(s, p);
    var left := if pc.Writing? then StoppedWrite(s, pc.line, written) else s;
    At(if NeedsLock(pc) then left.(lock := None) else left, p, Idle)
  }

  function Step(s: System, p: Pid, choice: Choice): System {
    var pc := PcOf(s, p);
    if choice.Stop? then StopStep(s, p, choice.written)
    else if NeedsLock(pc) then LockedStep(s, p, choice)
    else if choice.TakeLock? then
      if pc.HasKey? && s.lock.None? then At(s.(lock := Some(p)), p, Holding(pc.id, pc.key)) else s
    else
      var move := KeyStep(s.store, pc, choice);
      At(s.(store := move.store), p, move.pc)
  }

  function Run(s: System, schedule: seq<(Pid, Choice)>): System
    decreases |schedule|
  {
    if schedule == [] then s
    else Run(Step(s, schedule[0].0, schedule[0].1), schedule[1..])
  }

  // --------------------------------------------------------------- the invariant

  /** Ids are the fingerprints of their keys. */
  ghost predicate Sound(keys: Keys) {
    forall id :: id in keys ==> id == Fingerprint(keys[id])
  }

  ghost predicate DocumentOk(document: Document) {
    Sound(document.keys) && !Corrupt(document)
  }

  ghost predicate StoreOk(store: Store) {
    && Sound(store.split)
    && (store.legacy.Some? ==> DocumentOk(store.legacy.value))
    && (store.pointer.Some? ==> store.pointer.value in store.split)
  }

  /** A migrating process works on the one legacy document there is, and every key it has left
      behind sits in its own target. */
  ghost predicate Migrating(store: Store, document: Document, todo: set<Text>) {
    && DocumentOk(document)
    && (store.legacy.Some? ==> store.legacy.value == document)
    && todo <= document.keys.Keys <= store.split.Keys + todo
  }

  ghost predicate PcOk(store: Store, pc: Pc) {
    match pc
    case MigrateWrite(document, todo) => Migrating(store, document, todo) && todo != {}
    case MigrateCheck(document, todo, id) => Migrating(store, document, todo) && id in todo && id in store.split
    case MigratePointer(document) => Migrating(store, document, {}) && document.current.Some?
    case MigrateDelete(document) => Migrating(store, document, {}) && (document.current.Some? ==> store.pointer.Some?)
    case CreateCheck(key) => Fingerprint(key) in store.split
    case CreatePointer(key) => Fingerprint(key) in store.split
    case Converge => store.pointer.Some?
    case Lookup(stage, id, owed, forCurrent) =>
      && id.Fingerprint?
      && (forCurrent ==> owed)
      && (owed ==> if stage.SecondRead? then id in store.split else id in Available(store))
    case Resolved(id, found, owed) =>
      (owed ==> found.Some?) && (found.Some? ==> id in Available(store) && id == Fingerprint(found.value))
    case HasKey(id, key) => id in Available(store) && id == Fingerprint(key)
    case Holding(id, key) => id in Available(store) && id == Fingerprint(key)
    case Failed(_) => false
    case _ => true
  }

  ghost predicate LockOk(s: System) {
    && (forall p: Pid :: NeedsLock(PcOf(s, p)) <==> s.lock == Some(p))
    && (s.lock.Some? && PcOf(s, s.lock.value).Writing? ==> s.tail.Fragment?)
  }

  /** The file is good, and stays good when the record under way is complete. */
  ghost predicate FileOk(s: System) {
    && ChainOk(s.file, Available(s.store), false)
    && (s.tail.Unbroken? ==> ChainOk(s.file + [s.tail.line], Available(s.store), false))
    && (forall p :: p in s.procs && s.procs[p].Writing? ==>
          ChainOk(s.file + [s.procs[p].line], Available(s.store), false))
  }

  ghost predicate PcsOk(store: Store, procs: map<Pid, Pc>) {
    forall p :: p in procs ==> PcOk(store, procs[p])
  }

  ghost predicate Inv(s: System) {
    && StoreOk(s.store)
    && PcsOk(s.store, s.procs)
    && LockOk(s)
    && FileOk(s)
  }

  /** A sane store, a good file (legacy, keyed or mixed), and no process under way. */
  ghost predicate Init(s: System) {
    StoreOk(s.store) && ChainOk(s.file, Available(s.store), false) && s.tail.Clean? && s.lock.None? && s.procs == map[]
  }

  /** How a store may change: targets are only added, and the document goes only after its keys
      have their own targets. */
  ghost predicate Grows(before: Store, after: Store) {
    && before.split.Keys <= after.split.Keys
    && (after.legacy == before.legacy
        || (after.legacy.None? && before.legacy.value.keys.Keys <= after.split.Keys))
    && (before.pointer.Some? ==> after.pointer.Some?)
  }

  lemma AvailableGrows(before: Store, after: Store)
    requires StoreOk(before) && StoreOk(after) && Grows(before, after)
    ensures forall id :: id in Available(before) ==> id in Available(after) && Available(after)[id] == Available(before)[id]
  {
  }

  lemma MigrateKeepsStore(store: Store, pc: Pc, choice: Choice)
    requires StoreOk(store) && PcOk(store, pc)
    ensures var m := MigrateStep(store, pc, choice); StoreOk(m.store) && Grows(store, m.store) && PcOk(m.store, m.pc)
  {
  }

  lemma CreateKeepsStore(store: Store, pc: Pc, choice: Choice)
    requires StoreOk(store) && PcOk(store, pc)
    ensures var m := CreateStep(store, pc, choice); StoreOk(m.store) && Grows(store, m.store) && PcOk(m.store, m.pc)
  {
  }

  lemma LookupKeepsPc(store: Store, pc: Pc)
    requires StoreOk(store) && PcOk(store, pc) && pc.Lookup?
    ensures PcOk(store, LookupStep(store, pc))
  {
  }

  /** Every step of the key store keeps the store sane and the process on its way, so no call ever
      ends in an error. */
  lemma KeyStepKeepsStore(store: Store, pc: Pc, choice: Choice)
    requires StoreOk(store) && PcOk(store, pc)
    ensures var m := KeyStep(store, pc, choice); StoreOk(m.store) && Grows(store, m.store) && PcOk(m.store, m.pc)
  {
    MigrateKeepsStore(store, pc, choice);
    CreateKeepsStore(store, pc, choice);
    if pc.Lookup? { LookupKeepsPc(store, pc); }
  }

  /** What a process relies on survives the steps of the others. */
  lemma OthersKeepPc(before: Store, after: Store, pc: Pc)
    requires StoreOk(before) && StoreOk(after) && Grows(before, after)
    requires PcOk(before, pc)
    ensures PcOk(after, pc)
  {
  }

  lemma MoveKeepsPcs(procs: map<Pid, Pc>, before: Store, after: Store, p: Pid, pc: Pc)
    requires StoreOk(before) && StoreOk(after) && Grows(before, after)
    requires PcsOk(before, procs) && PcOk(after, pc)
    ensures PcsOk(after, procs) && PcsOk(after, procs[p := pc])
  {
    forall q | q in procs ensures PcOk(after, procs[q]) {
      OthersKeepPc(before, after, procs[q]);
    }
  }

  lemma StopKeepsPcs(s: System, p: Pid, written: Extent)
    requires PcsOk(s.store, s.procs)
    ensures var t := StopStep(s, p, written); t.store == s.store && PcsOk(t.store, t.procs)
  {
  }

  lemma LockedStepKeepsPcs(s: System, p: Pid, choice: Choice)
    requires PcsOk(s.store, s.procs) && NeedsLock(PcOf(s, p))
    ensures var t := LockedStep(s, p, choice); t.store == s.store && PcsOk(t.store, t.procs)
  {
  }

  /** A step that takes, holds or gives up the lock leaves the key store alone. */
  lemma LockStepKeepsPcs(s: System, p: Pid, choice: Choice)
    requires StoreOk(s.store) && PcsOk(s.store, s.procs)
    requires NeedsLock(PcOf(s, p)) || choice.TakeLock? || choice.Stop?
    ensures var t := Step(s, p, choice); t.store == s.store && PcsOk(t.store, t.procs)
  {
    if choice.Stop? {
      StopKeepsPcs(s, p, choice.written);
    } else if NeedsLock(PcOf(s, p)) {
      LockedStepKeepsPcs(s, p, choice);
    } else {
      assert p in s.procs ==> PcOk(s.store, s.procs[p]);
    }
  }

  lemma StepKeepsStore(s: System, p: Pid, choice: Choice)
    requires StoreOk(s.store) && PcsOk(s.store, s.procs)
    ensures var t := Step(s, p, choice);
      StoreOk(t.store) && Grows(s.store, t.store) && PcsOk(t.store, t.procs)
  {
    var pc := PcOf(s, p);
    if NeedsLock(pc) || choice.TakeLock? || choice.Stop? {
      LockStepKeepsPcs(s, p, choice);
    } else {
      KeyStepKeepsStore(s.store, pc, choice);
      var move := KeyStep(s.store, pc, choice);
      MoveKeepsPcs(s.procs, s.store, move.store, p, move.pc);
    }
  }

  lemma KeyStepTakesNoLock(store: Store, pc: Pc, choice: Choice)
    requires !NeedsLock(pc)
    ensures !NeedsLock(KeyStep(store, pc, choice).pc)
  {
  }

  lemma StepKeepsLock(s: System, p: Pid, choice: Choice)
    requires LockOk(s)
    ensures LockOk(Step(s, p, choice))
  {
    var t := Step(s, p, choice);
    if !NeedsLock(PcOf(s, p)) { KeyStepTakesNoLock(s.store, PcOf(s, p), choice); }
    forall q: Pid ensures NeedsLock(PcOf(t, q)) <==> t.lock == Some(q) {
      assert NeedsLock(PcOf(s, q)) <==> s.lock == Some(q);
      assert NeedsLock(PcOf(s, p)) <==> s.lock == Some(p);
      if q != p { assert PcOf(t, q) == PcOf(s, q); }
    }
  }

  /** Only the holder of the lock writes, so every other process leaves the file as it is. */
  lemma UnlockedStepKeepsFile(s: System, p: Pid, choice: Choice)
    requires !NeedsLock(PcOf(s, p))
    ensures var t := Step(s, p, choice);
      && t.file == s.file && t.tail == s.tail
      && (forall q :: q in t.procs && t.procs[q].Writing? ==> q in s.procs && t.procs[q] == s.procs[q])
  {
    KeyStepTakesNoLock(s.store, PcOf(s, p), choice);
  }

  lemma LockedStepKeepsFile(s: System, p: Pid, choice: Choice)
    requires Inv(s) && NeedsLock(PcOf(s, p))
    ensures FileOk(LockedStep(s, p, choice)) && s.file <= LockedStep(s, p, choice).file
  {
    var pc := PcOf(s, p);
    HolderWritesAlone(s, p);
    if pc.Holding? && choice.Append? && choice.data.Keys !! RESERVED {
      SealExtendsChain(s.file, choice.data, Some((pc.id, pc.key)), Available(s.store));
    }
  }

  /** Wherever a writer stops, what is whole on file is good. */
  lemma StopKeepsFile(s: System, p: Pid, written: Extent)
    requires Inv(s) && NeedsLock(PcOf(s, p))
    ensures FileOk(StopStep(s, p, written)) && s.file <= StopStep(s, p, written).file
  {
    HolderWritesAlone(s, p);
  }

  lemma HolderWritesAlone(s: System, p: Pid)
    requires LockOk(s) && NeedsLock(PcOf(s, p))
    ensures forall q :: q in s.procs && s.procs[q].Writing? ==> q == p
  {
    assert s.lock == Some(p);
    assert forall q :: q in s.procs ==> s.procs[q] == PcOf(s, q);
  }

  lemma StepKeepsFile(s: System, p: Pid, choice: Choice)
    requires Inv(s)
    ensures FileOk(Step(s, p, choice)) && s.file <= Step(s, p, choice).file
  {
    var t := Step(s, p, choice);
    if NeedsLock(PcOf(s, p)) {
      if choice.Stop? { StopKeepsFile(s, p, choice.written); } else { LockedStepKeepsFile(s, p, choice); }
    } else {
      UnlockedStepKeepsFile(s, p, choice);
      StepKeepsStore(s, p, choice);
      AvailableGrows(s.store, t.store);
      MoreKeysKeepChain(s.file, Available(s.store), Available(t.store), false);
      if s.tail.Unbroken? { MoreKeysKeepChain(s.file + [s.tail.line], Available(s.store), Available(t.store), false); }
      forall q | q in t.procs && t.procs[q].Writing?
        ensures ChainOk(t.file + [t.procs[q].line], Available(t.store), false)
      {
        MoreKeysKeepChain(s.file + [s.procs[q].line], Available(s.store), Available(t.store), false);
      }
    }
  }

  lemma StepKeepsInv(s: System, p: Pid, choice: Choice)
    requires Inv(s)
    ensures Inv(Step(s, p, choice))
  {
    StepKeepsStore(s, p, choice);
    StepKeepsLock(s, p, choice);
    StepKeepsFile(s, p, choice);
  }

  // ---------------------------------------------------------------- whole runs

  lemma {:induction false} RunKeepsInv(s: System, schedule: seq<(Pid, Choice)>)
    requires Inv(s)
    ensures var t := Run(s, schedule);
      && Inv(t)
      && s.file <= t.file
      && (forall id :: id in Available(s.store) ==> id in Available(t.store) && Available(t.store)[id] == Available(s.store)[id])
    decreases |schedule|
  {
    if schedule != [] {
      var next := Step(s, schedule[0].0, schedule[0].1);
      StepKeepsInv(s, schedule[0].0, schedule[0].1);
      StepKeepsStore(s, schedule[0].0, schedule[0].1);
      StepKeepsFile(s, schedule[0].0, schedule[0].1);
      AvailableGrows(s.store, next.store);
      RunKeepsInv(next, schedule[1..]);
    }
  }

  // ------------------------------------------------------------------ torn files

  ghost predicate WriterAtWork(s: System) {
    s.lock.Some? && PcOf(s, s.lock.value).Writing?
  }

  /** The file is torn and nobody is completing it. */
  ghost predicate Abandoned(s: System) {
    !s.tail.Clean? && !WriterAtWork(s)
  }

  /** This step is a writer that stops partway. */
  predicate StopsPartway(s: System, p: Pid, choice: Choice) {
    PcOf(s, p).Writing? && choice.Stop? && (choice.written.Part? || choice.written.AllButBreak?)
  }

  /** Some step of the run is. */
  predicate SomeoneStopsPartway(s: System, schedule: seq<(Pid, Choice)>)
    decreases |schedule|
  {
    schedule != [] &&
    (StopsPartway(s, schedule[0].0, schedule[0].1) || SomeoneStopsPartway(Step(s, schedule[0].0, schedule[0].1), schedule[1..]))
  }

  lemma StepTears(s: System, p: Pid, choice: Choice)
    requires LockOk(s)
    ensures var t := Step(s, p, choice);
      && (Abandoned(t) <==> Abandoned(s) || StopsPartway(s, p, choice))
      && (Abandoned(s) ==> t.file == s.file && t.tail == s.tail)
  {
    StepKeepsLock(s, p, choice);
    assert NeedsLock(PcOf(s, p)) <==> s.lock == Some(p);
    if NeedsLock(PcOf(s, p)) {
      HolderTears(s, p, choice);
    } else {
      UnlockedStepKeepsFile(s, p, choice);
      UnlockedStepKeepsWriter(s, p, choice);
    }
  }

  lemma HolderTears(s: System, p: Pid, choice: Choice)
    requires LockOk(s) && s.lock == Some(p) && NeedsLock(PcOf(s, p))
    ensures var t := Step(s, p, choice);
      && (Abandoned(t) <==> Abandoned(s) || StopsPartway(s, p, choice))
      && (Abandoned(s) ==> t.file == s.file && t.tail == s.tail)
  {
  }

  lemma UnlockedStepKeepsWriter(s: System, p: Pid, choice: Choice)
    requires LockOk(s) && !NeedsLock(PcOf(s, p))
    ensures WriterAtWork(Step(s, p, choice)) <==> WriterAtWork(s)
  {
    KeyStepTakesNoLock(s.store, PcOf(s, p), choice);
  }

  /** A torn file that nobody completes stays as it is for ever: every later append refuses it. */
  lemma {:induction false} TornFileStays(s: System, schedule: seq<(Pid, Choice)>)
    requires LockOk(s)
    ensures var t := Run(s, schedule);
      && LockOk(t)
      && (Abandoned(t) <==> Abandoned(s) || SomeoneStopsPartway(s, schedule))
      && (Abandoned(s) ==> t.file == s.file && t.tail == s.tail)
    decreases |schedule|
  {
    if schedule != [] {
      StepTears(s, schedule[0].0, schedule[0].1);
      StepKeepsLock(s, schedule[0].0, schedule[0].1);
      TornFileStays(Step(s, schedule[0].0, schedule[0].1), schedule[1..]);
    }
  }

  lemma FragmentIsNoRecord(s: System, keys: Keys)
    requires ChainOk(s.file, keys, false) && (s.tail.Unbroken? ==> ChainOk(s.file + [s.tail.line], keys, false))
    ensures ChainOk(Shown(s), keys, false) <==> !s.tail.Fragment?
  {
    if s.tail.Fragment? {
      assert Shown(s)[|s.file|] == NotJson;
      assert !LinkOk(Shown(s), |s.file|, keys, false);
    }
  }

  /** Main result. However many processes fetch, create, rotate, migrate, resolve and append, and
      wherever they die or fail, within a write included: the whole records on file verify with the
      keys then in the store; no key store call fails; the current-key pointer is that of a stored
      key; and no key, legacy keys included, ever becomes unresolvable. A file nobody writes is torn
      exactly when some writer stopped partway, and what a verifier reads of it is good unless it
      ends in the beginning of a record. */
  lemma EveryRunVerifies(s: System, schedule: seq<(Pid, Choice)>)
    requires Init(s)
    ensures var t := Run(s, schedule);
      && ChainOk(t.file, Available(t.store), false)
      && (ChainOk(Shown(t), Available(t.store), false) <==> !t.tail.Fragment?)
      && (t.lock.None? ==> (t.tail.Clean? <==> !SomeoneStopsPartway(s, schedule)))
      && (forall p: Pid :: !PcOf(t, p).Failed?)
      && (t.store.pointer.Some? ==> t.store.pointer.value in t.store.split)
      && (forall id :: id in Available(s.store) ==> id in Available(t.store) && Available(t.store)[id] == Available(s.store)[id])
  {
    RunKeepsInv(s, schedule);
    TornFileStays(s, schedule);
    var t := Run(s, schedule);
    FragmentIsNoRecord(t, Available(t.store));
    forall p: Pid ensures !PcOf(t, p).Failed? {
      if p in t.procs { assert PcOk(t.store, t.procs[p]); }
    }
  }

  /** What was on file at any point of a run is still there, and still verifies, at any later one. */
  lemma EveryRecordVerifiesForEver(s: System, earlier: seq<(Pid, Choice)>, later: seq<(Pid, Choice)>)
    requires Init(s)
    ensures var before, after := Run(s, earlier), Run(s, earlier + later);
      before.file <= after.file && ChainOk(before.file, Available(after.store), false)
  {
    RunInParts(s, earlier, later);
    RunKeepsInv(s, earlier);
    RunKeepsInv(Run(s, earlier), later);
    var now := Run(s, earlier + later);
    var before := Run(s, earlier).file;
    PrefixIsOk(now.file, |before|, Available(now.store), false);
    assert now.file[..|before|] == before;
  }

  lemma {:induction false} RunInParts(s: System, earlier: seq<(Pid, Choice)>, later: seq<(Pid, Choice)>)
    ensures Run(s, earlier + later) == Run(Run(s, earlier), later)
    decreases |earlier|
  {
    if earlier == [] {
      assert earlier + later == later;
    } else {
      assert (earlier + later)[1..] == earlier[1..] + later;
      RunInParts(Step(s, earlier[0].0, earlier[0].1), earlier[1..], later);
    }
  }

  /** Runs a schedule until process `p` has left `resolve`, and says where `p` then stands. */
  function Outcome(s: System, p: Pid, schedule: seq<(Pid, Choice)>): Pc
    decreases |schedule|
  {
    if schedule == [] || !PcOf(s, p).Lookup? then PcOf(s, p)
    else Outcome(Step(s, schedule[0].0, schedule[0].1), p, schedule[1..])
  }

  function StepsOf(p: Pid, schedule: seq<(Pid, Choice)>): nat {
    if schedule == [] then 0 else (if schedule[0].0 == p then 1 else 0) + StepsOf(p, schedule[1..])
  }

  function StepsLeft(stage: Stage): nat {
    match stage case FirstRead => 3 case LegacyRead => 2 case SecondRead => 1
  }

  /** `resolve` under interference: a key stored when the call begins is the answer, whatever
      migrations and deletions fall between its three reads, and three reads are enough. */
  lemma ResolveFindsOwedKey(s: System, before: seq<(Pid, Choice)>, p: Pid, id: Text, during: seq<(Pid, Choice)>)
    requires Init(s)
    requires PcOf(Run(s, before), p).Idle?
    requires id in Available(Run(s, before).store)
    requires forall i :: 0 <= i < |during| ==> during[i].0 == p ==> during[i].1 == Go
    ensures var began := Run(s, before);
      var pc := Outcome(Step(began, p, CallResolve(id)), p, during);
      && (pc.Lookup? || pc == Resolved(id, Some(Available(began.store)[id]), true))
      && (StepsOf(p, during) >= 3 ==> !pc.Lookup?)
  {
    RunKeepsInv(s, before);
    var began := Run(s, before);
    StepKeepsInv(began, p, CallResolve(id));
    assert id == Fingerprint(Available(began.store)[id]);
    OwedKeyIsFound(Step(began, p, CallResolve(id)), p, id, FirstRead, during);
  }

  lemma {:induction false} OwedKeyIsFound(s: System, p: Pid, id: Text, stage: Stage, schedule: seq<(Pid, Choice)>)
    requires Inv(s) && id.Fingerprint?
    requires PcOf(s, p) == Lookup(stage, id, true, false)
    requires forall i :: 0 <= i < |schedule| ==> schedule[i].0 == p ==> schedule[i].1 == Go
    ensures var pc := Outcome(s, p, schedule);
      && (pc.Lookup? || pc == Resolved(id, Some(id.key), true))
      && (StepsOf(p, schedule) >= StepsLeft(stage) ==> !pc.Lookup?)
    decreases |schedule|
  {
    if schedule != [] {
      var (q, choice) := schedule[0];
      var next := Step(s, q, choice);
      StepKeepsInv(s, q, choice);
      if q == p {
        var pc := LookupStep(s.store, PcOf(s, p));
        LookupMoves(s, p);
        LookupAnswers(s.store, stage, id);
        if pc.Lookup? { OwedKeyIsFound(next, p, id, pc.stage, schedule[1..]); }
      } else {
        OthersStay(s, q, choice, p);
        OwedKeyIsFound(next, p, id, stage, schedule[1..]);
      }
    }
  }

  lemma LookupMoves(s: System, p: Pid)
    requires PcOf(s, p).Lookup?
    ensures PcOf(Step(s, p, Go), p) == LookupStep(s.store, PcOf(s, p))
  {
  }

  lemma OthersStay(s: System, p: Pid, choice: Choice, other: Pid)
    requires other != p
    ensures PcOf(Step(s, p, choice), other) == PcOf(s, other)
  {
  }

  lemma {:induction false} OthersRun(s: System, schedule: seq<(Pid, Choice)>, p: Pid)
    requires forall i :: 0 <= i < |schedule| ==> schedule[i].0 != p
    ensures PcOf(Run(s, schedule), p) == PcOf(s, p)
    decreases |schedule|
  {
    if schedule != [] {
      OthersStay(s, schedule[0].0, schedule[0].1, p);
      OthersRun(Step(s, schedule[0].0, schedule[0].1), schedule[1..], p);
    }
  }

  lemma LookupAnswers(store: Store, stage: Stage, id: Text)
    requires StoreOk(store) && PcOk(store, Lookup(stage, id, true, false))
    ensures var pc := LookupStep(store, Lookup(stage, id, true, false));
      || pc == Resolved(id, Some(id.key), true)
      || (pc.Lookup? && pc == Lookup(pc.stage, id, true, false) && StepsLeft(pc.stage) == StepsLeft(stage) - 1)
  {
  }
}
