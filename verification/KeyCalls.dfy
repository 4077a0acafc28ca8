/** What a process gets from the key store and the audit file: every call of `current` and `rotate` is
    answered with a stored key, and an append that holds the lock adds its record. */
module KeyCalls {
  import opened Values
  import opened AuditChain
  import opened KeyringProtocol

  type Schedule = seq<(Pid, Choice)>

  // ------------------------------------------------ the pointer, and then its key

  /** Reading a pointer that is set starts the lookup of the key it names. */
  lemma PointerReadStarts(s: System, p: Pid)
    requires Inv(s) && s.store.pointer.Some? && (PcOf(s, p).ReadPointer? || PcOf(s, p).Converge?)
    ensures PcOf(Step(s, p, Go), p) == Lookup(FirstRead, s.store.pointer.value, true, true)
    ensures Step(s, p, Go).store == s.store
  {
    assert s.store.pointer.value in s.store.split;
  }

  /** A lookup for the current key ends in that key after at most three reads, whatever falls between
      them. */
  lemma {:induction false} CurrentKeyIsFound(s: System, p: Pid, id: Text, stage: Stage, schedule: Schedule)
    requires Inv(s) && id.Fingerprint?
    requires PcOf(s, p) == Lookup(stage, id, true, true)
    requires forall i :: 0 <= i < |schedule| ==> schedule[i].0 == p ==> schedule[i].1 == Go
    ensures var pc := Outcome(s, p, schedule);
      && (pc.Lookup? || pc == HasKey(id, id.key))
      && (StepsOf(p, schedule) >= StepsLeft(stage) ==> !pc.Lookup?)
    decreases |schedule|
  {
    if schedule != [] {
      var (q, choice) := schedule[0];
      var next := Step(s, q, choice);
      StepKeepsInv(s, q, choice);
      if q == p {
        var pc := LookupStep(s.store, PcOf(s, p));
        LookupMoves(s, p);
        CurrentLookupMoves(s.store, stage, id);
        if pc.Lookup? { CurrentKeyIsFound(next, p, id, pc.stage, schedule[1..]); }
      } else {
        OthersStay(s, q, choice, p);
        CurrentKeyIsFound(next, p, id, stage, schedule[1..]);
      }
    }
  }

  lemma CurrentLookupMoves(store: Store, stage: Stage, id: Text)
    requires StoreOk(store) && PcOk(store, Lookup(stage, id, true, true))
    ensures var pc := LookupStep(store, Lookup(stage, id, true, true));
      || pc == HasKey(id, id.key)
      || (pc.Lookup? && pc == Lookup(pc.stage, id, true, true) && StepsLeft(pc.stage) == StepsLeft(stage) - 1)
  {
  }

  /** `current` under interference. A process calls it while a pointer is set; others move; it reads
      the pointer, and others move again. After at most three more steps of its own it has the key
      that was stored under the pointer it read. */
  lemma CurrentIsAnswered(start: System, before: Schedule, p: Pid, waiting: Schedule, during: Schedule)
    requires Init(start)
    requires PcOf(Run(start, before), p).Idle? && Run(start, before).store.pointer.Some?
    requires forall i :: 0 <= i < |waiting| ==> waiting[i].0 != p
    requires forall i :: 0 <= i < |during| ==> during[i].0 == p ==> during[i].1 == Go
    ensures var reading := Run(Step(Run(start, before), p, CallCurrent), waiting);
      && reading.store.pointer.Some?
      && var j := reading.store.pointer.value;
      && j in Available(reading.store)
      && var pc := Outcome(Step(reading, p, Go), p, during);
      && (pc.Lookup? || pc == HasKey(j, Available(reading.store)[j]))
      && (StepsOf(p, during) >= 3 ==> pc.HasKey?)
  {
    RunKeepsInv(start, before);
    var began := Run(start, before);
    StepKeepsInv(began, p, CallCurrent);
    var called := Step(began, p, CallCurrent);
    RunKeepsInv(called, waiting);
    OthersRun(called, waiting, p);
    PointerStaysSet(called, waiting);
    PointerIsAnswered(Run(called, waiting), p, during);
  }

  /** The same for the read of the pointer with which first use, migration and `rotate` end. */
  lemma PointerIsAnswered(reading: System, p: Pid, during: Schedule)
    requires Inv(reading) && reading.store.pointer.Some? && (PcOf(reading, p).ReadPointer? || PcOf(reading, p).Converge?)
    requires forall i :: 0 <= i < |during| ==> during[i].0 == p ==> during[i].1 == Go
    ensures var j := reading.store.pointer.value;
      && j in Available(reading.store)
      && var pc := Outcome(Step(reading, p, Go), p, during);
      && (pc.Lookup? || pc == HasKey(j, Available(reading.store)[j]))
      && (StepsOf(p, during) >= 3 ==> pc.HasKey?)
  {
    var j := reading.store.pointer.value;
    PointerReadStarts(reading, p);
    StepKeepsInv(reading, p, Go);
    assert j == Fingerprint(reading.store.split[j]);
    CurrentKeyIsFound(Step(reading, p, Go), p, j, FirstRead, during);
  }

  lemma {:induction false} PointerStaysSet(s: System, schedule: Schedule)
    requires Inv(s) && s.store.pointer.Some?
    ensures Run(s, schedule).store.pointer.Some?
    decreases |schedule|
  {
    if schedule != [] {
      StepKeepsInv(s, schedule[0].0, schedule[0].1);
      StepKeepsStore(s, schedule[0].0, schedule[0].1);
      PointerStaysSet(Step(s, schedule[0].0, schedule[0].1), schedule[1..]);
    }
  }

  // --------------------------------------------------------- every call arrives

  /** A process inside `current` or `rotate`. */
  predicate Calling(pc: Pc) {
    match pc
    case Lookup(_, _, _, forCurrent) => forCurrent
    case _ => pc.ReadPointer? || pc.ReadLegacy? || pc.MigrateWrite? || pc.MigrateCheck? || pc.MigratePointer? || pc.MigrateDelete?
              || pc.DrawKey? || pc.CreateWrite? || pc.CreateCheck? || pc.CreatePointer? || pc.Converge?
  }

  /** How many steps of its own a call still takes at most. */
  function StepsToKey(store: Store, pc: Pc): nat {
    match pc
    case Lookup(stage, _, _, _) => StepsLeft(stage)
    case Converge => 4
    case CreatePointer(_) => 5
    case CreateCheck(_) => 6
    case CreateWrite(_) => 7
    case DrawKey => 8
    case MigrateDelete(_) => 9
    case MigratePointer(_) => 10
    case MigrateCheck(_, todo, _) => 9 + 2 * |todo|
    case MigrateWrite(_, todo) => 10 + 2 * |todo|
    case ReadLegacy => StepsFromDocument(store)
    case ReadPointer => if store.pointer.Some? then 4 else 1 + StepsFromDocument(store)
    case _ => 0
  }

  function StepsFromDocument(store: Store): nat {
    if store.legacy.Some? then 11 + 2 * |store.legacy.value.keys.Keys| else 9
  }

  /** The choices of a process that gets on: any key is drawn, and the keys are migrated in any order. */
  predicate Serves(pc: Pc, choice: Choice) {
    match pc
    case DrawKey => choice.Draw?
    case MigrateWrite(document, todo) => choice.Pick? && choice.id in todo
    case MigrateDelete(_) => choice.Go? || choice.DeleteFails?
    case _ => choice.Go?
  }

  lemma MigrationArrives(store: Store, pc: Pc, choice: Choice)
    requires StoreOk(store) && PcOk(store, pc) && Serves(pc, choice)
    requires pc.ReadLegacy? || pc.MigrateWrite? || pc.MigratePointer? || pc.MigrateDelete?
    ensures var m := MigrateStep(store, pc, choice);
      Calling(m.pc) && StepsToKey(m.store, m.pc) < StepsToKey(store, pc)
  {
  }

  lemma CheckArrives(store: Store, document: Document, todo: set<Text>, id: Text)
    requires StoreOk(store) && PcOk(store, MigrateCheck(document, todo, id))
    ensures var m := MigrateStep(store, MigrateCheck(document, todo, id), Go);
      Calling(m.pc) && StepsToKey(m.store, m.pc) < StepsToKey(store, MigrateCheck(document, todo, id))
  {
    assert |todo - {id}| == |todo| - 1;
  }

  lemma CreationArrives(store: Store, pc: Pc, choice: Choice)
    requires StoreOk(store) && PcOk(store, pc) && Serves(pc, choice)
    requires pc.DrawKey? || pc.CreateWrite? || pc.CreateCheck? || pc.CreatePointer?
    ensures var m := CreateStep(store, pc, choice);
      Calling(m.pc) && StepsToKey(m.store, m.pc) < StepsToKey(store, pc)
  {
  }

  lemma LookupArrives(store: Store, pc: Pc)
    requires StoreOk(store) && PcOk(store, pc) && pc.Lookup? && pc.forCurrent
    ensures var next := LookupStep(store, pc);
      (next.HasKey? || Calling(next)) && StepsToKey(store, next) < StepsToKey(store, pc)
  {
  }

  /** Each step of its own brings a call nearer to its key. */
  lemma OwnStepArrives(store: Store, pc: Pc, choice: Choice)
    requires StoreOk(store) && PcOk(store, pc) && Calling(pc) && Serves(pc, choice)
    ensures var m := KeyStep(store, pc, choice);
      (m.pc.HasKey? || Calling(m.pc)) && StepsToKey(m.store, m.pc) < StepsToKey(store, pc)
  {
    match pc
    case MigrateCheck(document, todo, id) => CheckArrives(store, document, todo, id);
    case Lookup(_, _, _, _) => LookupArrives(store, pc);
    case ReadPointer => if store.pointer.Some? { assert store.pointer.value in store.split; }
    case Converge => assert store.pointer.value in store.split;
    case DrawKey => CreationArrives(store, pc, choice);
    case CreateWrite(_) => CreationArrives(store, pc, choice);
    case CreateCheck(_) => CreationArrives(store, pc, choice);
    case CreatePointer(_) => CreationArrives(store, pc, choice);
    case _ => MigrationArrives(store, pc, choice);
  }

  /** No step of the others takes it further away. */
  lemma OthersDoNotDelay(before: Store, after: Store, pc: Pc)
    requires Grows(before, after)
    ensures StepsToKey(after, pc) <= StepsToKey(before, pc)
  {
  }

  /** Runs a schedule until the call of `p` is answered. */
  function Answered(s: System, p: Pid, schedule: Schedule): System
    decreases |schedule|
  {
    if schedule == [] || PcOf(s, p).HasKey? then s
    else Answered(Step(s, schedule[0].0, schedule[0].1), p, schedule[1..])
  }

  ghost predicate Cooperates(s: System, p: Pid, schedule: Schedule)
    decreases |schedule|
  {
    schedule == [] || PcOf(s, p).HasKey?
    || ((schedule[0].0 == p ==> Serves(PcOf(s, p), schedule[0].1))
        && Cooperates(Step(s, schedule[0].0, schedule[0].1), p, schedule[1..]))
  }

  lemma CallMoves(s: System, p: Pid, choice: Choice)
    requires Inv(s) && Calling(PcOf(s, p)) && Serves(PcOf(s, p), choice)
    ensures var m := KeyStep(s.store, PcOf(s, p), choice);
      Step(s, p, choice) == At(s.(store := m.store), p, m.pc) && PcOk(s.store, PcOf(s, p))
  {
  }

  lemma {:induction false} CallArrives(s: System, p: Pid, schedule: Schedule)
    requires Inv(s) && (Calling(PcOf(s, p)) || PcOf(s, p).HasKey?) && Cooperates(s, p, schedule)
    ensures var t := Answered(s, p, schedule);
      && Inv(t) && (Calling(PcOf(t, p)) || PcOf(t, p).HasKey?)
      && (StepsOf(p, schedule) >= StepsToKey(s.store, PcOf(s, p)) ==> PcOf(t, p).HasKey?)
    decreases |schedule|
  {
    if schedule != [] && !PcOf(s, p).HasKey? {
      var (q, choice) := schedule[0];
      var next := Step(s, q, choice);
      StepKeepsInv(s, q, choice);
      StepKeepsStore(s, q, choice);
      if q == p {
        CallMoves(s, p, choice);
        OwnStepArrives(s.store, PcOf(s, p), choice);
      } else {
        OthersStay(s, q, choice, p);
        OthersDoNotDelay(s.store, next.store, PcOf(s, p));
      }
      CallArrives(next, p, schedule[1..]);
    }
  }

  /** Main result: every call of `current` or `rotate`, on first use, during a migration or on an
      initialised store, is answered with a key that is stored under its own fingerprint, whatever
      the other processes do, after a bounded number of steps of the caller: four for `current` when a
      pointer is set, eight for `rotate`. */
  lemma EveryCallIsAnswered(start: System, before: Schedule, p: Pid, call: Choice, during: Schedule)
    requires Init(start) && PcOf(Run(start, before), p).Idle? && (call == CallCurrent || call == CallRotate)
    requires Cooperates(Step(Run(start, before), p, call), p, during)
    ensures var s := Run(start, before);
      var t := Answered(Step(s, p, call), p, during);
      && (StepsOf(p, during) >= StepsToKey(s.store, if call == CallCurrent then ReadPointer else DrawKey) ==> PcOf(t, p).HasKey?)
      && (PcOf(t, p).HasKey? ==>
            PcOf(t, p).id in Available(t.store) && Available(t.store)[PcOf(t, p).id] == PcOf(t, p).key)
  {
    RunKeepsInv(start, before);
    var s := Run(start, before);
    StepKeepsInv(s, p, call);
    CallArrives(Step(s, p, call), p, during);
    var t := Answered(Step(s, p, call), p, during);
    if PcOf(t, p).HasKey? { assert PcOk(t.store, t.procs[p]); }
  }

  /** `resolve` answers with stored keys only. */
  lemma ResolveAnswersStoredKeys(start: System, before: Schedule, p: Pid)
    requires Init(start) && PcOf(Run(start, before), p).Resolved? && PcOf(Run(start, before), p).found.Some?
    ensures var s := Run(start, before);
      PcOf(s, p).id in Available(s.store) && Available(s.store)[PcOf(s, p).id] == PcOf(s, p).found.value
  {
    RunKeepsInv(start, before);
    var s := Run(start, before);
    assert PcOk(s.store, s.procs[p]);
    assert PcOf(s, p).id == Fingerprint(Available(s.store)[PcOf(s, p).id]);
  }

  // ------------------------------------------------------- broken and migrated stores

  /** Which stores a call refuses, and with which error: a document whose current key is not among its
      keys, a write that did not last, a pointer that is gone, a current key nobody stores. */
  lemma ErrorsExactly(store: Store, pc: Pc, choice: Choice)
    ensures var error := KeyStep(store, pc, choice).pc;
      && (error == Failed(StoreCorrupt) <==>
            && (pc.ReadLegacy? || (pc.Lookup? && pc.stage.LegacyRead?))
            && store.legacy.Some? && store.legacy.value.current.Some?
            && store.legacy.value.current.value !in store.legacy.value.keys)
      && (error == Failed(NotPersisted) <==>
            || (pc.MigrateCheck? && (pc.id !in store.split || pc.id !in pc.document.keys
                                     || store.split[pc.id] != pc.document.keys[pc.id]))
            || (pc.CreateCheck? && (Fingerprint(pc.key) !in store.split || store.split[Fingerprint(pc.key)] != pc.key)))
      && (error == Failed(PointerLost) <==> pc.Converge? && store.pointer.None?)
      && (error == Failed(CurrentKeyMissing) <==>
            || ((pc.ReadPointer? || pc.Converge?) && store.pointer.Some? && !store.pointer.value.Fingerprint?)
            || (pc.Lookup? && pc.stage.SecondRead? && pc.forCurrent && pc.id !in store.split))
  {
  }

  /** When a migration gives up its document, every key of it sits under its id in a target of its own,
      the pointer stands where it stood, and the document is gone unless the store could not delete it. */
  lemma MigrationEnds(s: System, p: Pid, choice: Choice)
    requires Inv(s) && PcOf(s, p).MigrateDelete? && (choice == Go || choice == DeleteFails)
    ensures var t := Step(s, p, choice);
      && t.store.split == s.store.split && t.store.pointer == s.store.pointer
      && t.store.legacy == (if choice == DeleteFails then s.store.legacy else None)
      && PcOf(s, p).document.keys.Keys <= t.store.split.Keys
      && (forall id :: id in PcOf(s, p).document.keys ==> t.store.split[id] == PcOf(s, p).document.keys[id])
  {
    var document := PcOf(s, p).document;
    forall id | id in document.keys ensures id in s.store.split && s.store.split[id] == document.keys[id] {
      assert PcOk(s.store, PcOf(s, p));
      assert id == Fingerprint(document.keys[id]) && id == Fingerprint(s.store.split[id]);
    }
  }

  // --------------------------------------------------------------- a locked append

  /** While a process holds the lock, the others change neither file nor tail nor lock. */
  lemma {:induction false} OthersLeaveFile(s: System, p: Pid, schedule: Schedule)
    requires Inv(s) && s.lock == Some(p)
    requires forall i :: 0 <= i < |schedule| ==> schedule[i].0 != p
    ensures var t := Run(s, schedule);
      Inv(t) && t.file == s.file && t.tail == s.tail && t.lock == s.lock && PcOf(t, p) == PcOf(s, p)
    decreases |schedule|
  {
    if schedule != [] {
      var (q, choice) := schedule[0];
      OtherLeavesFile(s, p, q, choice);
      OthersLeaveFile(Step(s, q, choice), p, schedule[1..]);
    }
  }

  lemma OtherLeavesFile(s: System, p: Pid, q: Pid, choice: Choice)
    requires Inv(s) && s.lock == Some(p) && q != p
    ensures var t := Step(s, q, choice);
      Inv(t) && t.file == s.file && t.tail == s.tail && t.lock == s.lock && PcOf(t, p) == PcOf(s, p)
  {
    StepKeepsInv(s, q, choice);
    OthersStay(s, q, choice, p);
    assert NeedsLock(PcOf(s, q)) <==> s.lock == Some(q);
    UnlockedStepKeepsFile(s, q, choice);
  }

  lemma LockIsTaken(s: System, p: Pid)
    requires Inv(s) && PcOf(s, p).HasKey? && s.lock.None?
    ensures var t := Step(s, p, TakeLock);
      && Inv(t) && t.file == s.file && t.tail == s.tail && t.lock == Some(p) && t.store == s.store
      && PcOf(t, p) == Holding(PcOf(s, p).id, PcOf(s, p).key)
  {
    StepKeepsInv(s, p, TakeLock);
    assert !NeedsLock(PcOf(s, p));
  }

  lemma WritingStarts(s: System, p: Pid, data: Record)
    requires Inv(s) && PcOf(s, p).Holding? && s.lock == Some(p) && s.tail.Clean? && data.Keys !! RESERVED
    ensures var t := Step(s, p, Append(data));
      && Inv(t) && t.file == s.file && t.lock == Some(p)
      && PcOf(t, p) == Writing(Parsed(Object(Seal(data, HeadAfter(s.file, |s.file|), Some((PcOf(s, p).id, PcOf(s, p).key))))))
  {
    StepKeepsInv(s, p, Append(data));
  }

  lemma WritingEnds(s: System, p: Pid)
    requires Inv(s) && PcOf(s, p).Writing? && s.lock == Some(p)
    ensures var t := Step(s, p, Go);
      Inv(t) && t.file == s.file + [PcOf(s, p).line] && t.tail.Clean? && t.lock == Some(p) && PcOf(t, p).Written?
  {
    StepKeepsInv(s, p, Go);
  }

  lemma LockIsGivenBack(s: System, p: Pid)
    requires PcOf(s, p).Written?
    ensures var t := Step(s, p, Go); t.file == s.file && t.tail == s.tail && t.lock.None? && PcOf(t, p).Idle?
  {
  }

  /** The others, without `p`, lead from one state to the other. */
  ghost predicate OthersLead(s: System, p: Pid, t: System) {
    exists schedule: Schedule :: (forall i :: 0 <= i < |schedule| ==> schedule[i].0 != p) && Run(s, schedule) == t
  }

  lemma OthersLeadNowhere(s: System, p: Pid, t: System)
    requires Inv(s) && s.lock == Some(p) && OthersLead(s, p, t)
    ensures Inv(t) && t.file == s.file && t.tail == s.tail && t.lock == s.lock && PcOf(t, p) == PcOf(s, p)
  {
    var schedule: Schedule :| (forall i :: 0 <= i < |schedule| ==> schedule[i].0 != p) && Run(s, schedule) == t;
    OthersLeaveFile(s, p, schedule);
  }

  lemma TakesAndWaits(s: System, p: Pid, holding: System)
    requires Inv(s) && PcOf(s, p).HasKey? && s.lock.None? && OthersLead(Step(s, p, TakeLock), p, holding)
    ensures Inv(holding) && holding.file == s.file && holding.tail == s.tail && holding.lock == Some(p)
    ensures PcOf(holding, p) == Holding(PcOf(s, p).id, PcOf(s, p).key)
  {
    LockIsTaken(s, p);
    OthersLeadNowhere(Step(s, p, TakeLock), p, holding);
  }

  lemma StartsAndWaits(s: System, p: Pid, data: Record, writing: System)
    requires Inv(s) && PcOf(s, p).Holding? && s.lock == Some(p) && s.tail.Clean? && data.Keys !! RESERVED
    requires OthersLead(Step(s, p, Append(data)), p, writing)
    ensures Inv(writing) && writing.file == s.file && writing.lock == Some(p)
    ensures PcOf(writing, p) == Writing(Parsed(Object(Seal(data, HeadAfter(s.file, |s.file|), Some((PcOf(s, p).id, PcOf(s, p).key))))))
  {
    WritingStarts(s, p, data);
    OthersLeadNowhere(Step(s, p, Append(data)), p, writing);
  }

  lemma EndsAndWaits(s: System, p: Pid, written: System)
    requires Inv(s) && PcOf(s, p).Writing? && s.lock == Some(p) && OthersLead(Step(s, p, Go), p, written)
    ensures written.file == s.file + [PcOf(s, p).line] && written.tail.Clean? && PcOf(written, p).Written?
  {
    WritingEnds(s, p);
    OthersLeadNowhere(Step(s, p, Go), p, written);
  }

  /** A process that was given its key, finds the lock free and the file whole, and is not stopped adds
      exactly one record, linked to the head it found under the lock, whatever the others do between
      its steps; and it gives the lock back. */
  lemma AppendAddsOneRecord(s: System, p: Pid, data: Record, holding: System, writing: System, written: System)
    requires Inv(s) && PcOf(s, p).HasKey? && s.lock.None? && s.tail.Clean? && data.Keys !! RESERVED
    requires OthersLead(Step(s, p, TakeLock), p, holding)
    requires OthersLead(Step(holding, p, Append(data)), p, writing)
    requires OthersLead(Step(writing, p, Go), p, written)
    ensures var done := Step(written, p, Go);
      && done.tail.Clean? && done.lock.None? && PcOf(done, p).Idle?
      && AddsRecord(s.file, done.file, data, Some((PcOf(s, p).id, PcOf(s, p).key)))
  {
    TakesAndWaits(s, p, holding);
    StartsAndWaits(holding, p, data, writing);
    EndsAndWaits(writing, p, written);
    LockIsGivenBack(written, p);
    SealAddsRecord(s.file, data, Some((PcOf(s, p).id, PcOf(s, p).key)), Available(s.store));
  }
}
