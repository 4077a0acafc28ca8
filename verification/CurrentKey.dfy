/** Which key is current, and when it stays so: agreement of the processes of `KeyringAuditKeys`, and the
    migration that undoes a rotation. */
module CurrentKey {
  import opened Values
  import opened AuditChain
  import opened KeyringProtocol

  type Schedule = seq<(Pid, Choice)>

  ghost predicate RotateFree(schedule: Schedule) {
    forall i :: 0 <= i < |schedule| ==> !schedule[i].1.CallRotate?
  }

  /** Without another rotation, `id` stays current whatever happens. */
  ghost predicate PointerStays(s: System, id: Text) {
    forall schedule: Schedule :: RotateFree(schedule) ==> Run(s, schedule).store.pointer == Some(id)
  }

  predicate IsMigrating(pc: Pc) {
    pc.MigrateWrite? || pc.MigrateCheck? || pc.MigratePointer? || pc.MigrateDelete?
  }

  /** A process under way to make another key current: it creates one, or migrates another one, or is
      about to. */
  predicate Diverts(store: Store, pc: Pc, id: Text) {
    match pc
    case ReadLegacy => store.legacy.None? || store.legacy.value.current != Some(id)
    case MigrateWrite(document, _) => document.current != Some(id)
    case MigrateCheck(document, _, _) => document.current != Some(id)
    case MigratePointer(document) => document.current != Some(id)
    case MigrateDelete(document) => document.current.None?
    case DrawKey => true
    case CreateWrite(key) => Fingerprint(key) != id
    case CreateCheck(key) => Fingerprint(key) != id
    case CreatePointer(key) => Fingerprint(key) != id
    case _ => false
  }

  /** A process that is about to read the old document may find it deleted by another one, and would
      then create a key. */
  predicate MayFindItGone(reader: Pc, other: Pc) {
    reader.ReadLegacy? && (other.ReadLegacy? || IsMigrating(other))
  }

  /** The condition: `id` is current, nobody is under way to another key, and nobody may find the
      document gone. */
  ghost predicate Steady(s: System, id: Text) {
    && s.store.pointer == Some(id)
    && (forall p: Pid :: !Diverts(s.store, PcOf(s, p), id))
    && (forall p: Pid, q: Pid :: p != q ==> !MayFindItGone(PcOf(s, p), PcOf(s, q)))
  }

  // ------------------------------------------------------------ steady states stay

  /** A process that began when `id` was current knows no other current key. */
  predicate Follows(pc: Pc, id: Text) {
    match pc
    case Lookup(_, wanted, _, forCurrent) => forCurrent ==> wanted == id
    case HasKey(current, _) => current == id
    case Holding(current, _) => current == id
    case _ => true
  }

  ghost predicate StaysOnCourse(store: Store, pc: Pc, m: Move, id: Text) {
    && m.store.pointer == Some(id) && !Diverts(m.store, m.pc, id) && !m.pc.ReadLegacy?
    && (m.store.legacy == store.legacy || IsMigrating(pc))
    && (IsMigrating(m.pc) ==> pc.ReadLegacy? || IsMigrating(pc))
    && (Follows(pc, id) ==> Follows(m.pc, id))
  }

  lemma MigrateStepIsSteady(store: Store, pc: Pc, choice: Choice, id: Text)
    requires store.pointer == Some(id) && !Diverts(store, pc, id) && (IsMigrating(pc) || pc.ReadLegacy?)
    ensures StaysOnCourse(store, pc, MigrateStep(store, pc, choice), id)
  {
  }

  lemma CreateStepIsSteady(store: Store, pc: Pc, choice: Choice, id: Text)
    requires store.pointer == Some(id) && !Diverts(store, pc, id) && (pc.CreateWrite? || pc.CreateCheck? || pc.CreatePointer?)
    ensures StaysOnCourse(store, pc, CreateStep(store, pc, choice), id)
  {
  }

  lemma KeyStepIsSteady(store: Store, pc: Pc, choice: Choice, id: Text)
    requires store.pointer == Some(id) && !Diverts(store, pc, id) && !choice.CallRotate?
    ensures StaysOnCourse(store, pc, KeyStep(store, pc, choice), id)
  {
    if IsMigrating(pc) || pc.ReadLegacy? {
      MigrateStepIsSteady(store, pc, choice, id);
    } else if pc.CreateWrite? || pc.CreateCheck? || pc.CreatePointer? {
      CreateStepIsSteady(store, pc, choice, id);
    }
  }

  /** A step that takes, holds or gives up the lock leaves the store alone and starts no writer. */
  lemma LockStepIsIdle(s: System, p: Pid, choice: Choice, id: Text)
    requires NeedsLock(PcOf(s, p)) || choice.TakeLock? || choice.Stop?
    ensures var t, pc, after := Step(s, p, choice), PcOf(s, p), PcOf(Step(s, p, choice), p);
      && t.store == s.store
      && (after == pc || after.Idle? || NeedsLock(after))
      && (Follows(pc, id) ==> Follows(after, id))
  {
  }

  lemma OwnStepIsSteady(s: System, p: Pid, choice: Choice, id: Text)
    requires s.store.pointer == Some(id) && !Diverts(s.store, PcOf(s, p), id) && !choice.CallRotate?
    ensures var t, pc, after := Step(s, p, choice), PcOf(s, p), PcOf(Step(s, p, choice), p);
      && t.store.pointer == Some(id) && !Diverts(t.store, after, id)
      && (t.store.legacy == s.store.legacy || IsMigrating(pc))
      && (after.ReadLegacy? || IsMigrating(after) ==> pc.ReadLegacy? || IsMigrating(pc))
      && (after.ReadLegacy? ==> pc.ReadLegacy?)
      && (Follows(pc, id) ==> Follows(after, id))
  {
    if NeedsLock(PcOf(s, p)) || choice.TakeLock? || choice.Stop? {
      LockStepIsIdle(s, p, choice, id);
    } else {
      KeyStepIsSteady(s.store, PcOf(s, p), choice, id);
    }
  }

  lemma StepIsSteady(s: System, p: Pid, choice: Choice, id: Text, q: Pid)
    requires Steady(s, id) && !choice.CallRotate?
    ensures Steady(Step(s, p, choice), id)
    ensures Follows(PcOf(s, q), id) ==> Follows(PcOf(Step(s, p, choice), q), id)
  {
    var t := Step(s, p, choice);
    OwnStepIsSteady(s, p, choice, id);
    forall r: Pid | r != p ensures PcOf(t, r) == PcOf(s, r) { OthersStay(s, p, choice, r); }
    forall r: Pid ensures !Diverts(t.store, PcOf(t, r), id) {
      assert !Diverts(s.store, PcOf(s, r), id);
      if r != p { assert !MayFindItGone(PcOf(s, r), PcOf(s, p)); }
    }
    forall r: Pid, u: Pid | r != u ensures !MayFindItGone(PcOf(t, r), PcOf(t, u)) {
      assert !MayFindItGone(PcOf(s, r), PcOf(s, u));
    }
  }

  lemma {:induction false} RunIsSteady(s: System, schedule: Schedule, id: Text, q: Pid)
    requires Steady(s, id) && RotateFree(schedule)
    ensures Steady(Run(s, schedule), id)
    ensures Follows(PcOf(s, q), id) ==> Follows(PcOf(Run(s, schedule), q), id)
    decreases |schedule|
  {
    if schedule != [] {
      StepIsSteady(s, schedule[0].0, schedule[0].1, id, q);
      RunIsSteady(Step(s, schedule[0].0, schedule[0].1), schedule[1..], id, q);
    }
  }

  /** Every process that begins to ask in a steady state, and is answered before the next rotation, is
      given the key that is current. */
  lemma AskersAgree(s: System, before: Schedule, after: Schedule, id: Text, q: Pid)
    requires Init(s) && Steady(Run(s, before), id) && PcOf(Run(s, before), q).Idle? && RotateFree(after)
    ensures var pc := PcOf(Run(Run(s, before), after), q);
      pc.HasKey? ==> pc.id == id && id in Available(Run(s, before).store) && pc.key == Available(Run(s, before).store)[id]
  {
    RunKeepsInv(s, before);
    RunIsSteady(Run(s, before), after, id, q);
    RunKeepsInv(Run(s, before), after);
    var t := Run(Run(s, before), after);
    if PcOf(t, q).HasKey? { assert PcOk(t.store, t.procs[q]); }
  }

  /** A process that may still write the current-key pointer. */
  predicate MayMovePointer(pc: Pc) {
    match pc
    case MigrateDelete(document) => document.current.None?
    case _ => pc.ReadLegacy? || pc.MigrateWrite? || pc.MigrateCheck? || pc.MigratePointer? || pc.DrawKey? || pc.CreateWrite?
              || pc.CreateCheck? || pc.CreatePointer?
  }

  /** A current key has been agreed on, and no writer is under way. */
  ghost predicate Quiet(s: System, id: Text) {
    s.store.pointer == Some(id) && forall p: Pid :: !MayMovePointer(PcOf(s, p))
  }

  lemma QuietIsSteady(s: System, id: Text)
    requires Quiet(s, id)
    ensures Steady(s, id)
  {
    forall p: Pid ensures !Diverts(s.store, PcOf(s, p), id) { assert !MayMovePointer(PcOf(s, p)); }
    forall p: Pid, q: Pid | p != q ensures !MayFindItGone(PcOf(s, p), PcOf(s, q)) { assert !MayMovePointer(PcOf(s, p)); }
  }

  /** Once the writers have stopped, and until someone rotates, every process that asks for the
      current key is given the agreed one. */
  lemma AgreementOnceWritersStop(s: System, before: Schedule, after: Schedule, id: Text, q: Pid)
    requires Init(s) && Quiet(Run(s, before), id) && PcOf(Run(s, before), q).Idle? && RotateFree(after)
    ensures var pc := PcOf(Run(Run(s, before), after), q);
      pc.HasKey? ==> pc.id == id && id in Available(Run(s, before).store) && pc.key == Available(Run(s, before).store)[id]
  {
    QuietIsSteady(Run(s, before), id);
    AskersAgree(s, before, after, id, q);
  }

  // -------------------------------------------------- other states do not stay so

  /** What a process chooses to get on with creating or migrating. */
  ghost function ChoiceFor(pc: Pc, id: Text): Choice {
    match pc
    case MigrateWrite(_, todo) => if todo != {} then Pick(SomeOf(todo)) else Go
    case DrawKey => Draw(if id == Fingerprint(0) then 1 else 0)
    case _ => Go
  }

  ghost function SomeOf(todo: set<Text>): (id: Text)
    requires todo != {}
    ensures id in todo
  {
    var id :| id in todo; id
  }

  /** How far a process still is from writing the pointer. */
  function StageOf(pc: Pc): nat {
    match pc
    case ReadLegacy => 7
    case MigrateWrite(_, _) => 6
    case MigrateCheck(_, _, _) => 6
    case MigratePointer(_) => 5
    case MigrateDelete(_) => 4
    case DrawKey => 3
    case CreateWrite(_) => 2
    case CreateCheck(_) => 1
    case _ => 0
  }

  function WritesLeft(pc: Pc): nat {
    match pc
    case MigrateWrite(_, todo) => 2 * |todo| + 1
    case MigrateCheck(_, todo, _) => 2 * |todo|
    case _ => 0
  }

  predicate Closer(next: Pc, pc: Pc) {
    StageOf(next) < StageOf(pc) || (StageOf(next) == StageOf(pc) && WritesLeft(next) < WritesLeft(pc))
  }

  lemma OneWriteLess(document: Document, todo: set<Text>, id: Text)
    requires id in todo
    ensures var next := AfterMigrated(document, todo - {id});
      IsMigrating(next) && Closer(next, MigrateCheck(document, todo, id))
  {
    assert |todo - {id}| == |todo| - 1;
  }

  ghost predicate GetsCloser(store: Store, pc: Pc, id: Text) {
    var m := MigrateStep(store, pc, ChoiceFor(pc, id));
    if pc.MigrateDelete? then m.store.legacy.None? else IsMigrating(m.pc) && Closer(m.pc, pc)
  }

  lemma WriteGetsOn(store: Store, document: Document, todo: set<Text>, id: Text)
    requires todo != {} && todo <= document.keys.Keys
    ensures GetsCloser(store, MigrateWrite(document, todo), id)
  {
  }

  lemma CheckGetsOn(store: Store, document: Document, todo: set<Text>, checked: Text, id: Text)
    requires StoreOk(store) && PcOk(store, MigrateCheck(document, todo, checked))
    ensures GetsCloser(store, MigrateCheck(document, todo, checked), id)
  {
    OneWriteLess(document, todo, checked);
  }

  lemma MigrateGetsOn(store: Store, pc: Pc, id: Text)
    requires StoreOk(store) && PcOk(store, pc) && (IsMigrating(pc) || (pc.ReadLegacy? && store.legacy.Some?))
    ensures GetsCloser(store, pc, id)
  {
    match pc
    case MigrateWrite(document, todo) => WriteGetsOn(store, document, todo, id);
    case MigrateCheck(document, todo, checked) => CheckGetsOn(store, document, todo, checked, id);
    case _ =>
  }

  lemma DiverterGetsOn(store: Store, pc: Pc, id: Text)
    requires StoreOk(store) && PcOk(store, pc) && Diverts(store, pc, id)
    ensures var m := KeyStep(store, pc, ChoiceFor(pc, id));
      if pc.MigratePointer? || pc.CreatePointer? then m.store.pointer != Some(id)
      else Diverts(m.store, m.pc, id) && Closer(m.pc, pc)
  {
    if IsMigrating(pc) || (pc.ReadLegacy? && store.legacy.Some?) { MigrateGetsOn(store, pc, id); }
  }

  lemma GetsOn(s: System, p: Pid, id: Text)
    requires Inv(s) && (Diverts(s.store, PcOf(s, p), id) || IsMigrating(PcOf(s, p)) || PcOf(s, p).ReadLegacy?)
    ensures var m := KeyStep(s.store, PcOf(s, p), ChoiceFor(PcOf(s, p), id));
      Step(s, p, ChoiceFor(PcOf(s, p), id)) == At(s.(store := m.store), p, m.pc)
    ensures PcOk(s.store, PcOf(s, p))
  {
  }

  /** A process under way to another key can get there on its own. */
  lemma {:induction false} DiverterArrives(s: System, p: Pid, id: Text) returns (schedule: Schedule)
    requires Inv(s) && Diverts(s.store, PcOf(s, p), id)
    ensures RotateFree(schedule) && Run(s, schedule).store.pointer != Some(id)
    decreases StageOf(PcOf(s, p)), WritesLeft(PcOf(s, p))
  {
    var pc, choice := PcOf(s, p), ChoiceFor(PcOf(s, p), id);
    var next := Step(s, p, choice);
    GetsOn(s, p, id);
    DiverterGetsOn(s.store, pc, id);
    var rest: Schedule := [];
    if !pc.MigratePointer? && !pc.CreatePointer? {
      StepKeepsInv(s, p, choice);
      rest := DiverterArrives(next, p, id);
    }
    schedule := [(p, choice)] + rest;
    assert schedule[1..] == rest;
  }

  /** A process that migrates, or is about to, can finish on its own and delete the old document. */
  lemma {:induction false} MigratorDeletes(s: System, q: Pid, id: Text) returns (schedule: Schedule)
    requires Inv(s) && (IsMigrating(PcOf(s, q)) || PcOf(s, q).ReadLegacy?)
    ensures RotateFree(schedule) && (forall i :: 0 <= i < |schedule| ==> schedule[i].0 == q)
    ensures Run(s, schedule).store.legacy.None?
    decreases StageOf(PcOf(s, q)), WritesLeft(PcOf(s, q))
  {
    var pc, choice := PcOf(s, q), ChoiceFor(PcOf(s, q), id);
    if pc.ReadLegacy? && s.store.legacy.None? { return []; }
    var next := Step(s, q, choice);
    GetsOn(s, q, id);
    MigrateGetsOn(s.store, pc, id);
    var rest: Schedule := [];
    if !pc.MigrateDelete? {
      StepKeepsInv(s, q, choice);
      rest := MigratorDeletes(next, q, id);
    }
    schedule := [(q, choice)] + rest;
    assert schedule[1..] == rest;
  }

  /** A reader who may find the document gone can be made to create a key. */
  lemma CrowdedReaderArrives(s: System, p: Pid, q: Pid, id: Text) returns (schedule: Schedule)
    requires Inv(s) && p != q && MayFindItGone(PcOf(s, p), PcOf(s, q))
    ensures RotateFree(schedule) && Run(s, schedule).store.pointer != Some(id)
  {
    var first := MigratorDeletes(s, q, id);
    OthersRun(s, first, p);
    RunKeepsInv(s, first);
    var rest := DiverterArrives(Run(s, first), p, id);
    schedule := first + rest;
    RunInParts(s, first, rest);
  }

  /** Main result: in every reachable state, a key stays current until the next rotation, whatever the
      processes do, if and only if the state is steady. */
  lemma PointerStaysExactly(start: System, before: Schedule, id: Text)
    requires Init(start)
    ensures PointerStays(Run(start, before), id) <==> Steady(Run(start, before), id)
  {
    var s := Run(start, before);
    RunKeepsInv(start, before);
    if Steady(s, id) {
      forall schedule: Schedule | RotateFree(schedule) ensures Run(s, schedule).store.pointer == Some(id) {
        RunIsSteady(s, schedule, id, 0);
      }
    } else {
      UnsteadyMoves(s, id);
    }
  }

  lemma UnsteadyMoves(s: System, id: Text)
    requires Inv(s) && !Steady(s, id)
    ensures !PointerStays(s, id)
  {
    var schedule: Schedule := [];
    if p: Pid :| Diverts(s.store, PcOf(s, p), id) {
      schedule := DiverterArrives(s, p, id);
    } else if p: Pid, q: Pid :| p != q && MayFindItGone(PcOf(s, p), PcOf(s, q)) {
      schedule := CrowdedReaderArrives(s, p, q, id);
    } else {
      assert s.store.pointer != Some(id);
    }
    assert RotateFree(schedule) && Run(s, schedule).store.pointer != Some(id);
  }

  // ------------------------------------------- a migration that undoes a rotation

  /** A migration that has been overtaken makes its old key current again, whatever the others did. */
  lemma StaleMigrationMovesPointerBack(s: System, p: Pid, retired: Text, rotation: Schedule)
    requires PcOf(s, p).MigratePointer? && PcOf(s, p).document.current == Some(retired)
    requires forall i :: 0 <= i < |rotation| ==> rotation[i].0 != p
    ensures Step(Run(s, rotation), p, Go).store.pointer == Some(retired)
  {
    OthersRun(s, rotation, p);
  }

  /** One more step of a run, whose effect on the key store is known. */
  lemma NextMove(start: System, schedule: Schedule, s: System, p: Pid, choice: Choice, move: Move)
    requires Run(start, schedule) == s
    requires !NeedsLock(PcOf(s, p)) && !choice.TakeLock? && !choice.Stop? && KeyStep(s.store, PcOf(s, p), choice) == move
    ensures Run(start, schedule + [(p, choice)]) == At(s.(store := move.store), p, move.pc)
  {
    RunInParts(start, schedule, [(p, choice)]);
    assert [(p, choice)][1..] == [];
    assert Run(s, [(p, choice)]) == Run(Step(s, p, choice), []);
  }

  /** An untouched installation of the old format, with one key. */
  function OneOldKey(key: Key): System {
    System(Store(map[], None, Some(OldDocument(key))), [], Clean, None, map[])
  }

  function OldDocument(key: Key): Document {
    Document(Some(Fingerprint(key)), map[Fingerprint(key) := key])
  }

  lemma OneOldKeyIsInit(key: Key)
    ensures Init(OneOldKey(key))
  {
  }

  /** Process 0 asks for the current key, and migrates up to the write of the pointer. */
  lemma MigrationReachesPointer(key: Key) returns (schedule: Schedule)
    ensures RotateFree(schedule)
    ensures Run(OneOldKey(key), schedule) ==
      System(Store(map[Fingerprint(key) := key], None, Some(OldDocument(key))), [], Clean, None, map[0 := MigratePointer(OldDocument(key))])
  {
    var start, document, id := OneOldKey(key), OldDocument(key), Fingerprint(key);
    var stored := Put(start.store, id, key);
    assert document.keys.Keys == {id} && {id} - {id} == {};
    NextMove(start, [], start, 0, CallCurrent, Move(start.store, ReadPointer));
    var asked := At(start, 0, ReadPointer);
    schedule := [] + [(0, CallCurrent)];
    NextMove(start, schedule, asked, 0, Go, Move(start.store, ReadLegacy));
    var reading := At(asked, 0, ReadLegacy);
    schedule := schedule + [(0, Go)];
    NextMove(start, schedule, reading, 0, Go, Move(start.store, MigrateWrite(document, {id})));
    var writing := At(reading, 0, MigrateWrite(document, {id}));
    schedule := schedule + [(0, Go)];
    NextMove(start, schedule, writing, 0, Pick(id), Move(stored, MigrateCheck(document, {id}, id)));
    var checking := At(writing.(store := stored), 0, MigrateCheck(document, {id}, id));
    schedule := schedule + [(0, Pick(id))];
    NextMove(start, schedule, checking, 0, Go, Move(stored, MigratePointer(document)));
    schedule := schedule + [(0, Go)];
  }

  lemma RotationDrawsKey(s: System, key: Key) returns (schedule: Schedule)
    requires PcOf(s, 1).Idle?
    ensures forall i :: 0 <= i < |schedule| ==> schedule[i].0 == 1
    ensures Run(s, schedule).store == s.store && PcOf(Run(s, schedule), 1) == CreateWrite(key)
  {
    NextMove(s, [], s, 1, CallRotate, Move(s.store, DrawKey));
    schedule := [] + [(1, CallRotate)];
    NextMove(s, schedule, At(s, 1, DrawKey), 1, Draw(key), Move(s.store, CreateWrite(key)));
    schedule := schedule + [(1, Draw(key))];
  }

  lemma RotationStoresKey(s: System, key: Key) returns (schedule: Schedule)
    requires PcOf(s, 1) == CreateWrite(key)
    ensures forall i :: 0 <= i < |schedule| ==> schedule[i].0 == 1
    ensures Run(s, schedule).store == Put(s.store, Fingerprint(key), key) && PcOf(Run(s, schedule), 1) == CreatePointer(key)
  {
    var stored := Put(s.store, Fingerprint(key), key);
    NextMove(s, [], s, 1, Go, Move(stored, CreateCheck(key)));
    schedule := [] + [(1, Go)];
    NextMove(s, schedule, At(s.(store := stored), 1, CreateCheck(key)), 1, Go, Move(stored, CreatePointer(key)));
    schedule := schedule + [(1, Go)];
  }

  lemma RotationMovesPointer(s: System, key: Key) returns (schedule: Schedule)
    requires PcOf(s, 1) == CreatePointer(key) && Fingerprint(key) in s.store.split && s.store.split[Fingerprint(key)] == key
    ensures forall i :: 0 <= i < |schedule| ==> schedule[i].0 == 1
    ensures Run(s, schedule).store.pointer == Some(Fingerprint(key)) && PcOf(Run(s, schedule), 1) == HasKey(Fingerprint(key), key)
  {
    var id := Fingerprint(key);
    var moved, lookup := s.store.(pointer := Some(id)), Lookup(FirstRead, id, true, true);
    NextMove(s, [], s, 1, Go, Move(moved, Converge));
    var converging := At(s.(store := moved), 1, Converge);
    schedule := [] + [(1, Go)];
    NextMove(s, schedule, converging, 1, Go, Move(moved, lookup));
    schedule := schedule + [(1, Go)];
    NextMove(s, schedule, At(converging, 1, lookup), 1, Go, Move(moved, HasKey(id, key)));
    schedule := schedule + [(1, Go)];
  }

  /** Process 1 rotates to a new key, and is given it. */
  lemma RotationFinishes(s: System, key: Key) returns (schedule: Schedule)
    requires PcOf(s, 1).Idle?
    ensures forall i :: 0 <= i < |schedule| ==> schedule[i].0 == 1
    ensures Run(s, schedule).store.pointer == Some(Fingerprint(key)) && PcOf(Run(s, schedule), 1) == HasKey(Fingerprint(key), key)
  {
    var drawing := RotationDrawsKey(s, key);
    var drawn := Run(s, drawing);
    var storing := RotationStoresKey(drawn, key);
    var stored := Run(drawn, storing);
    var moving := RotationMovesPointer(stored, key);
    RunInParts(s, drawing, storing);
    RunInParts(s, drawing + storing, moving);
    schedule := drawing + storing + moving;
  }

  /** A concrete run, for any two keys. Process 0 migrates the old key and is about to write the
      pointer; process 1 completes a whole rotation and is given the new key, which is current; then
      process 0 goes on, and the old key is current again. */
  lemma StaleMigrationUndoesRotation(retired: Key, newer: Key) returns (migration: Schedule, rotation: Schedule)
    requires retired != newer
    ensures Init(OneOldKey(retired)) && RotateFree(migration)
    ensures var rotated := Run(OneOldKey(retired), migration + rotation);
      && rotated.store.pointer == Some(Fingerprint(newer)) && PcOf(rotated, 1) == HasKey(Fingerprint(newer), newer)
      && Step(rotated, 0, Go).store.pointer == Some(Fingerprint(retired))
  {
    OneOldKeyIsInit(retired);
    migration := MigrationReachesPointer(retired);
    var s := Run(OneOldKey(retired), migration);
    rotation := RotationFinishes(s, newer);
    RunInParts(OneOldKey(retired), migration, rotation);
    StaleMigrationMovesPointerBack(s, 0, Fingerprint(retired), rotation);
  }
}
