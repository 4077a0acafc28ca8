/** The memory store, its event log, and the independent replay that reconciles them
    (`MemoryStore`, `verify_memory`). */
module Memory {
  import opened Values

  /** Identifiers are uuids in the source: drawn outside and handed in. */
  type MemoryId = nat

  datatype Tier = Working | Curated

  /** An ideal SHA-256 of a fact. */
  datatype FactDigest = FactDigest(fact: string)

  datatype Item = Item(id: MemoryId, fact: string, source: string, observedAt: string, confidence: real, retention: string,
                       tier: Tier, deleted: bool)

  /** What the log remembers of a memory's content and provenance. */
  datatype Written = Written(digest: FactDigest, source: string, observedAt: string, tier: Tier)

  /** The records of the audit log, in order; `Foreign` are those of other components. */
  datatype Entry =
    | Wrote(id: MemoryId, written: Written)
    | Updated(id: MemoryId, written: Written)
    | Promoted(id: MemoryId, tier: Tier)
    | Forgot(id: MemoryId)
    | Foreign

  datatype Refusal = NoSuchMemory | DeletedMemory

  function WrittenOf(item: Item): Written {
    Written(FactDigest(item.fact), item.source, item.observedAt, item.tier)
  }

  const TOMBSTONE := "[DELETED]"

  // ---------------------------------------------------------------- operations

  /** `next(x for x in items if x.id == id)`. */
  function IndexOf(items: seq<Item>, id: MemoryId): (r: Option<nat>)
    ensures r.Some? ==> r.value < |items| && items[r.value].id == id && forall k :: 0 <= k < r.value ==> items[k].id != id
    ensures r.None? <==> forall k :: 0 <= k < |items| ==> items[k].id != id
  {
    if items == [] then None
    else if items[0].id == id then Some(0)
    else
      var rest := IndexOf(items[1..], id);
      if rest.None? then None else Some(rest.value + 1)
  }

  /** The file, absent before the first save, and the log. */
  datatype State = State(file: Option<seq<Item>>, log: seq<Entry>)

  datatype Operation =
    | Remember(item: Item)
    | Promote(id: MemoryId, tier: Tier)
    | Update(id: MemoryId, fact: string, source: string, observedAt: string, confidence: real)
    | Forget(id: MemoryId)

  function Load(s: State): seq<Item> {
    if s.file.Some? then s.file.value else []
  }

  /** The item an operation writes, and its log entry; or why it is refused. */
  function Edit(item: Item, operation: Operation): Result<(Item, Entry), Refusal>
    requires !operation.Remember?
  {
    match operation
    case Promote(id, tier) => Success((item.(tier := tier), Promoted(id, tier)))
    case Update(id, fact, source, observedAt, confidence) =>
      var edited := item.(fact := fact, source := source, observedAt := observedAt, confidence := confidence);
      if item.deleted then Failure(DeletedMemory) else Success((edited, Updated(id, WrittenOf(edited))))
    case Forget(id) => Success((item.(fact := TOMBSTONE, source := TOMBSTONE, deleted := true), Forgot(id)))
  }

  function Apply(s: State, operation: Operation): Result<State, Refusal> {
    var items := Load(s);
    if operation.Remember? then
      Success(State(Some(items + [operation.item]), s.log + [Wrote(operation.item.id, WrittenOf(operation.item))]))
    else
      var at := IndexOf(items, operation.id);
      if at.None? then Failure(NoSuchMemory)
      else
        var edit := Edit(items[at.value], operation);
        if edit.Failure? then Failure(edit.error)
        else Success(State(Some(items[at.value := edit.value.0]), s.log + [edit.value.1]))
  }

  class MemoryStore {
    var file: Option<seq<Item>>
    var log: seq<Entry>

    constructor ()
      ensures file == None && log == []
    {
      file, log := None, [];
    }

    function Snapshot(): State
      reads this
    {
      State(file, log)
    }

    method Remember(id: MemoryId, fact: string, source: string, observedAt: string, confidence: real, retention: string, tier: Tier)
      returns (item: Item)
      modifies this
      ensures item == Item(id, fact, source, observedAt, confidence, retention, tier, false)
      ensures Apply(old(Snapshot()), Operation.Remember(item)) == Success(Snapshot())
    {
      item := Item(id, fact, source, observedAt, confidence, retention, tier, false);
      file := Some(Load(Snapshot()) + [item]);
      log := log + [Wrote(item.id, WrittenOf(item))];
    }

    method Promote(id: MemoryId, tier: Tier) returns (r: Result<Item, Refusal>)
      modifies this
      ensures Follows(old(Snapshot()), Operation.Promote(id, tier), Snapshot(), r)
    {
      var items := Load(Snapshot());
      var at := IndexOf(items, id);
      if at.None? { return Failure(NoSuchMemory); }
      var item := items[at.value].(tier := tier);
      file, log := Some(items[at.value := item]), log + [Promoted(id, tier)];
      return Success(item);
    }

    method Update(id: MemoryId, fact: string, source: string, observedAt: string, confidence: real) returns (r: Result<Item, Refusal>)
      modifies this
      ensures Follows(old(Snapshot()), Operation.Update(id, fact, source, observedAt, confidence), Snapshot(), r)
    {
      var items := Load(Snapshot());
      var at := IndexOf(items, id);
      if at.None? { return Failure(NoSuchMemory); }
      var item := items[at.value];
      if item.deleted { return Failure(DeletedMemory); }
      item := item.(fact := fact, source := source);
      item := item.(observedAt := observedAt, confidence := confidence);
      file, log := Some(items[at.value := item]), log + [Updated(id, WrittenOf(item))];
      return Success(item);
    }

    method Forget(id: MemoryId) returns (r: Result<Item, Refusal>)
      modifies this
      ensures Follows(old(Snapshot()), Operation.Forget(id), Snapshot(), r)
    {
      var items := Load(Snapshot());
      var at := IndexOf(items, id);
      if at.None? { return Failure(NoSuchMemory); }
      var item := items[at.value].(fact := TOMBSTONE, source := TOMBSTONE, deleted := true);
      file, log := Some(items[at.value := item]), log + [Forgot(id)];
      return Success(item);
    }
  }

  /** What each operation does to the items and to the log, in full. */
  lemma AppliedExactly(s: State, id: MemoryId, tier: Tier, fact: string, source: string, observedAt: string, confidence: real)
    ensures var items, at := Load(s), IndexOf(Load(s), id);
      if at.None? then
        && Apply(s, Promote(id, tier)) == Failure(NoSuchMemory) && Apply(s, Forget(id)) == Failure(NoSuchMemory)
        && Apply(s, Update(id, fact, source, observedAt, confidence)) == Failure(NoSuchMemory)
      else
        var was := items[at.value];
        && Apply(s, Promote(id, tier)) ==
             Success(State(Some(items[at.value := Item(was.id, was.fact, was.source, was.observedAt, was.confidence,
                                                       was.retention, tier, was.deleted)]),
                           s.log + [Promoted(id, tier)]))
        && Apply(s, Forget(id)) ==
             Success(State(Some(items[at.value := Item(was.id, "[DELETED]", "[DELETED]", was.observedAt, was.confidence,
                                                       was.retention, was.tier, true)]),
                           s.log + [Forgot(id)]))
        && Apply(s, Update(id, fact, source, observedAt, confidence)) ==
             if was.deleted then Failure(DeletedMemory)
             else Success(State(Some(items[at.value := Item(was.id, fact, source, observedAt, confidence,
                                                            was.retention, was.tier, false)]),
                                s.log + [Updated(id, Written(FactDigest(fact), source, observedAt, was.tier))]))
  {
  }

  lemma RememberedExactly(s: State, item: Item)
    ensures Apply(s, Remember(item)) ==
      Success(State(Some(Load(s) + [item]),
                    s.log + [Wrote(item.id, Written(FactDigest(item.fact), item.source, item.observedAt, item.tier))]))
  {
  }

  /** A refused operation changes nothing; another one does what `Apply` says and returns the item. */
  ghost predicate Follows(before: State, operation: Operation, after: State, r: Result<Item, Refusal>)
    requires !operation.Remember?
  {
    match Apply(before, operation)
    case Failure(error) => r == Failure(error) && after == before
    case Success(state) => after == state && r.Success? && r.value == Load(after)[IndexOf(Load(before), operation.id).value]
  }

  // -------------------------------------------------------------------- replay

  /** What a reader of the log knows: the last content of every memory written, and those forgotten. */
  datatype Replay = Replay(writes: map<MemoryId, Written>, forgets: set<MemoryId>)

  function ReplayEntry(known: Replay, entry: Entry): Replay {
    match entry
    case Wrote(id, written) => known.(writes := known.writes[id := written])
    case Updated(id, written) => if id in known.writes then known.(writes := known.writes[id := written]) else known
    case Promoted(id, tier) =>
      if id in known.writes then known.(writes := known.writes[id := known.writes[id].(tier := tier)]) else known
    case Forgot(id) => known.(forgets := known.forgets + {id})
    case Foreign => known
  }

  function ReplayLog(log: seq<Entry>): Replay {
    if log == [] then Replay(map[], {}) else ReplayEntry(ReplayLog(log[..|log| - 1]), log[|log| - 1])
  }

  datatype Violation =
    | ChainBroken | FileMissing
    | NoChainedWrite(id: MemoryId) | UnchainedTombstone(id: MemoryId) | Drifted(id: MemoryId) | ItemGone(id: MemoryId)

  /** `{item.id: item for item in items}`: of several items with one id the last counts. */
  function Latest(items: seq<Item>): (r: map<MemoryId, Item>)
    ensures forall id :: id in r <==> exists k :: 0 <= k < |items| && items[k].id == id
    ensures forall id :: id in r ==> r[id].id == id
  {
    if items == [] then map[]
    else
      var last := items[|items| - 1];
      Latest(items[..|items| - 1])[last.id := last]
  }

  lemma {:induction false} LatestIsLast(items: seq<Item>, k: nat)
    requires k < |items| && forall j :: k < j < |items| ==> items[j].id != items[k].id
    ensures items[k].id in Latest(items) && Latest(items)[items[k].id] == items[k]
    decreases |items|
  {
    var n := |items| - 1;
    assert Latest(items) == Latest(items[..n])[items[n].id := items[n]];
    if k < n { LatestIsLast(items[..n], k); }
  }

  /** The complaint about one item, if any. */
  function Complaint(item: Item, known: Replay): Option<Violation> {
    if item.id !in known.writes then Some(NoChainedWrite(item.id))
    else if item.deleted then (if item.id in known.forgets then None else Some(UnchainedTombstone(item.id)))
    else if WrittenOf(item) != known.writes[item.id] then Some(Drifted(item.id))
    else None
  }

  /** A complaint the items and the log give rise to. */
  ghost predicate Justified(v: Violation, items: map<MemoryId, Item>, known: Replay) {
    || (exists id :: id in items && Complaint(items[id], known) == Some(v))
    || (exists id :: id in known.forgets && id !in items && v == ItemGone(id))
  }

  /** The declarative meaning of a reconciled memory file. */
  ghost predicate Reconciled(items: map<MemoryId, Item>, known: Replay) {
    && (forall id :: id in items ==> Complaint(items[id], known) == None)
    && (forall id :: id in known.forgets ==> id in items)
  }

  lemma ReconciledMeansNoComplaint(items: map<MemoryId, Item>, known: Replay)
    ensures Reconciled(items, known) <==> forall v :: !Justified(v, items, known)
  {
    if forall v :: !Justified(v, items, known) {
      forall id | id in items ensures Complaint(items[id], known) == None {
        if Complaint(items[id], known).Some? { assert Justified(Complaint(items[id], known).value, items, known); }
      }
      forall id | id in known.forgets ensures id in items { assert id !in items ==> Justified(ItemGone(id), items, known); }
    }
  }

  method JudgeItems(items: map<MemoryId, Item>, known: Replay) returns (violations: seq<Violation>)
    ensures forall v :: v in violations <==> exists id :: id in items && Complaint(items[id], known) == Some(v)
  {
    violations := [];
    var todo := items.Keys;
    while todo != {}
      invariant todo <= items.Keys
      invariant forall v :: v in violations <==> exists id :: id in items.Keys - todo && Complaint(items[id], known) == Some(v)
      decreases todo
    {
      var id :| id in todo;
      var complaint := Complaint(items[id], known);
      if complaint.Some? { violations := violations + [complaint.value]; }
      todo := todo - {id};
    }
  }

  method JudgeGone(gone: set<MemoryId>) returns (violations: seq<Violation>)
    ensures forall v :: v in violations <==> exists id :: id in gone && v == ItemGone(id)
  {
    violations := [];
    var todo := gone;
    while todo != {}
      invariant todo <= gone
      invariant forall v :: v in violations <==> exists id :: id in gone - todo && v == ItemGone(id)
      decreases todo
    {
      var id :| id in todo;
      violations := violations + [ItemGone(id)];
      todo := todo - {id};
    }
  }

  method ReplayAll(log: seq<Entry>) returns (known: Replay)
    ensures known == ReplayLog(log)
  {
    known := Replay(map[], {});
    for n := 0 to |log|
      invariant known == ReplayLog(log[..n])
    {
      assert log[..n + 1][..n] == log[..n];
      known := ReplayEntry(known, log[n]);
    }
    assert log[..|log|] == log;
  }

  /** What a passing verification means. */
  ghost predicate Verifies(file: Option<seq<Item>>, log: Option<seq<Entry>>) {
    log.Some? && if file.None? then ReplayLog(log.value).writes == map[] else Reconciled(Latest(file.value), ReplayLog(log.value))
  }

  /** `verify_memory`; `log` is absent when the audit chain does not verify. Complains about exactly
      the items that do not reconcile and the tombstones that are gone. */
  method VerifyMemory(file: Option<seq<Item>>, log: Option<seq<Entry>>) returns (ok: bool, violations: seq<Violation>)
    ensures ok <==> Verifies(file, log)
    ensures ok <==> violations == []
    ensures log.None? ==> violations == [ChainBroken]
    ensures log.Some? && file.None? ==> ok || violations == [FileMissing]
    ensures log.Some? && file.Some? ==>
      forall v :: v in violations <==> Justified(v, Latest(file.value), ReplayLog(log.value))
  {
    if log.None? { return false, [ChainBroken]; }
    var known := ReplayAll(log.value);
    if file.None? { return known.writes == map[], if known.writes == map[] then [] else [FileMissing]; }
    var items := Latest(file.value);
    var bad := JudgeItems(items, known);
    var gone := JudgeGone(known.forgets - items.Keys);
    violations := bad + gone;
    ok := violations == [];
    ReconciledMeansNoComplaint(items, known);
    assert forall v :: v in violations <==> Justified(v, items, known);
    assert violations != [] ==> violations[0] in violations;
  }

  // ------------------------------------------------- the store agrees with its log

  ghost predicate Distinct(items: seq<Item>) {
    forall i, j :: 0 <= i < j < |items| ==> items[i].id != items[j].id
  }

  /** The log knows exactly the state of the store: each live item as last written, the deleted ones
      as forgotten, and nothing else. */
  ghost predicate Agrees(items: seq<Item>, known: Replay) {
    && (forall i :: 0 <= i < |items| ==> ItemAgrees(items[i], known))
    && Covers(items, known)
  }

  /** Every id the log speaks of is the id of some item. */
  ghost predicate Covers(items: seq<Item>, known: Replay) {
    forall id :: id in known.writes || id in known.forgets ==> exists i :: 0 <= i < |items| && items[i].id == id
  }

  ghost predicate ItemAgrees(item: Item, known: Replay) {
    && item.id in known.writes
    && (item.id in known.forgets <==> item.deleted)
    && (!item.deleted ==> known.writes[item.id] == WrittenOf(item))
  }

  /** A run: operations with fresh ids for new memories, and foreign records in between. */
  datatype Event = Do(operation: Operation) | Other

  ghost predicate Legal(s: State, event: Event) {
    event.Do? && event.operation.Remember? ==>
      !event.operation.item.deleted && IndexOf(Load(s), event.operation.item.id).None?
  }

  function Step(s: State, event: Event): State {
    if event.Other? then s.(log := s.log + [Foreign])
    else
      var r := Apply(s, event.operation);
      if r.Success? then r.value else s
  }

  ghost predicate Inv(s: State) {
    && Distinct(Load(s)) && Agrees(Load(s), ReplayLog(s.log))
  }

  lemma ReplayOneMore(log: seq<Entry>, entry: Entry)
    ensures ReplayLog(log + [entry]) == ReplayEntry(ReplayLog(log), entry)
  {
  }

  lemma RememberAgrees(items: seq<Item>, item: Item, known: Replay)
    requires Distinct(items) && Agrees(items, known) && !item.deleted && IndexOf(items, item.id).None?
    ensures Distinct(items + [item]) && Agrees(items + [item], ReplayEntry(known, Wrote(item.id, WrittenOf(item))))
  {
    var more, after := items + [item], ReplayEntry(known, Wrote(item.id, WrittenOf(item)));
    assert item.id !in known.forgets;
    forall i | 0 <= i < |more| ensures ItemAgrees(more[i], after) {
      if i < |items| { assert ItemAgrees(items[i], known) && items[i].id != item.id; }
    }
    assert Covers(more, after) by {
      assert more[|items|].id == item.id;
      assert forall i :: 0 <= i < |items| ==> more[i] == items[i];
    }
  }

  lemma EditedItemAgrees(item: Item, operation: Operation, known: Replay)
    requires ItemAgrees(item, known) && !operation.Remember? && operation.id == item.id && Edit(item, operation).Success?
    ensures var (edited, entry) := Edit(item, operation).value;
      edited.id == item.id && ItemAgrees(edited, ReplayEntry(known, entry))
  {
  }

  lemma OtherItemAgrees(item: Item, operation: Operation, known: Replay, target: Item)
    requires ItemAgrees(item, known) && !operation.Remember? && operation.id == target.id != item.id
    requires Edit(target, operation).Success?
    ensures ItemAgrees(item, ReplayEntry(known, Edit(target, operation).value.1))
  {
  }

  lemma EditAgrees(items: seq<Item>, operation: Operation, known: Replay)
    requires Distinct(items) && Agrees(items, known) && !operation.Remember? && IndexOf(items, operation.id).Some?
    requires Edit(items[IndexOf(items, operation.id).value], operation).Success?
    ensures var at := IndexOf(items, operation.id).value;
      var (item, entry) := Edit(items[at], operation).value;
      Distinct(items[at := item]) && Agrees(items[at := item], ReplayEntry(known, entry))
  {
    var at := IndexOf(items, operation.id).value;
    var (item, entry) := Edit(items[at], operation).value;
    EditedItemAgrees(items[at], operation, known);
    forall i | 0 <= i < |items| && i != at ensures ItemAgrees(items[i], ReplayEntry(known, entry)) {
      assert items[i].id != items[at].id;
      OtherItemAgrees(items[i], operation, known, items[at]);
    }
    LogSpeaksOf(known, entry, operation.id);
    OneItemReplaced(items, at, item, known, ReplayEntry(known, entry));
  }

  lemma OneItemReplaced(items: seq<Item>, at: nat, item: Item, known: Replay, after: Replay)
    requires Distinct(items) && Covers(items, known) && at < |items| && item.id == items[at].id
    requires ItemAgrees(item, after) && forall i :: 0 <= i < |items| && i != at ==> ItemAgrees(items[i], after)
    requires forall id :: id in after.writes || id in after.forgets ==> id == item.id || id in known.writes || id in known.forgets
    ensures Distinct(items[at := item]) && Agrees(items[at := item], after)
  {
    var edited := items[at := item];
    assert forall i :: 0 <= i < |items| ==> edited[i].id == items[i].id;
    assert Covers(edited, after) by {
      assert edited[at].id == item.id;
    }
  }

  lemma LogSpeaksOf(known: Replay, entry: Entry, id: MemoryId)
    requires entry.Foreign? || entry.id == id
    ensures var after := ReplayEntry(known, entry);
      forall other :: other in after.writes || other in after.forgets ==> other == id || other in known.writes || other in known.forgets
  {
  }

  lemma EditKeepsInv(s: State, operation: Operation)
    requires Inv(s) && !operation.Remember? && Apply(s, operation).Success?
    ensures Inv(Apply(s, operation).value)
  {
    var items := Load(s);
    var at := IndexOf(items, operation.id).value;
    var (item, entry) := Edit(items[at], operation).value;
    ReplayOneMore(s.log, entry);
    EditAgrees(items, operation, ReplayLog(s.log));
    assert Apply(s, operation).value == State(Some(items[at := item]), s.log + [entry]);
  }

  lemma RememberKeepsInv(s: State, item: Item)
    requires Inv(s) && !item.deleted && IndexOf(Load(s), item.id).None?
    ensures Inv(Apply(s, Operation.Remember(item)).value)
  {
    ReplayOneMore(s.log, Wrote(item.id, WrittenOf(item)));
    RememberAgrees(Load(s), item, ReplayLog(s.log));
  }

  lemma StepKeepsInv(s: State, event: Event)
    requires Inv(s) && Legal(s, event)
    ensures Inv(Step(s, event))
  {
    if event.Other? {
      ReplayOneMore(s.log, Foreign);
    } else if event.operation.Remember? {
      RememberKeepsInv(s, event.operation.item);
    } else if Apply(s, event.operation).Success? {
      EditKeepsInv(s, event.operation);
    }
  }

  ghost predicate LegalRun(s: State, events: seq<Event>)
    decreases |events|
  {
    events == [] || (Legal(s, events[0]) && LegalRun(Step(s, events[0]), events[1..]))
  }

  function Run(s: State, events: seq<Event>): State
    decreases |events|
  {
    if events == [] then s else Run(Step(s, events[0]), events[1..])
  }

  lemma {:induction false} RunKeepsInv(s: State, events: seq<Event>)
    requires Inv(s) && LegalRun(s, events)
    ensures Inv(Run(s, events))
    decreases |events|
  {
    if events != [] {
      StepKeepsInv(s, events[0]);
      RunKeepsInv(Step(s, events[0]), events[1..]);
    }
  }

  lemma {:induction false} LatestAt(items: seq<Item>, i: nat)
    requires Distinct(items) && i < |items|
    ensures items[i].id in Latest(items) && Latest(items)[items[i].id] == items[i]
    decreases |items|
  {
    var n := |items| - 1;
    assert Latest(items) == Latest(items[..n])[items[n].id := items[n]];
    if i < n {
      LatestAt(items[..n], i);
      assert items[..n][i] == items[i] && items[i].id != items[n].id;
    }
  }

  lemma {:induction false} LatestOfDistinct(items: seq<Item>)
    requires Distinct(items)
    ensures forall i :: 0 <= i < |items| ==> items[i].id in Latest(items) && Latest(items)[items[i].id] == items[i]
  {
    forall i | 0 <= i < |items| ensures items[i].id in Latest(items) && Latest(items)[items[i].id] == items[i] {
      LatestAt(items, i);
    }
  }

  /** Main result: whatever sequence of operations and foreign records a store and its log go
      through, the replay of the log knows exactly the state of the store, and so the store verifies. */
  lemma OperationsReconcile(events: seq<Event>)
    requires LegalRun(State(None, []), events)
    ensures var s := Run(State(None, []), events);
      && Agrees(Load(s), ReplayLog(s.log))
      && Verifies(s.file, Some(s.log))
  {
    assert Inv(State(None, []));
    RunKeepsInv(State(None, []), events);
    var s := Run(State(None, []), events);
    var items, known := Load(s), ReplayLog(s.log);
    LatestOfDistinct(items);
    forall id | id in Latest(items) ensures Complaint(Latest(items)[id], known) == None {
      var i :| 0 <= i < |items| && items[i].id == id;
      assert ItemAgrees(items[i], known);
    }
  }

  ghost predicate IsErased(item: Item) {
    item.deleted && item.fact == "[DELETED]" && item.source == "[DELETED]"
  }

  /** Forgetting erases fact and source of the memory. */
  lemma ForgettingErases(s: State, id: MemoryId)
    requires Apply(s, Forget(id)).Success?
    ensures var at, items := IndexOf(Load(s), id), Load(Apply(s, Forget(id)).value);
      at.Some? && at.value < |items| && items[at.value].id == id && IsErased(items[at.value])
  {
  }

  lemma StepKeepsErased(s: State, event: Event, at: nat)
    requires at < |Load(s)| && IsErased(Load(s)[at])
    ensures var items := Load(Step(s, event));
      at < |items| && items[at].id == Load(s)[at].id && IsErased(items[at])
  {
  }

  /** What was forgotten stays erased, whatever is done afterwards. */
  lemma {:induction false} ForgottenStaysErased(s: State, events: seq<Event>, at: nat)
    requires at < |Load(s)| && IsErased(Load(s)[at])
    ensures var items := Load(Run(s, events));
      at < |items| && items[at].id == Load(s)[at].id && IsErased(items[at])
    decreases |events|
  {
    if events != [] {
      StepKeepsErased(s, events[0], at);
      ForgottenStaysErased(Step(s, events[0]), events[1..], at);
    }
  }

  /** The complaint about an item, in full. */
  lemma ComplainedExactly(item: Item, known: Replay)
    ensures var complaint := Complaint(item, known);
      && (complaint == Some(NoChainedWrite(item.id)) <==> item.id !in known.writes)
      && (complaint == Some(UnchainedTombstone(item.id)) <==> item.id in known.writes && item.deleted && item.id !in known.forgets)
      && (complaint == Some(Drifted(item.id)) <==>
            && item.id in known.writes && !item.deleted
            && (known.writes[item.id].digest != FactDigest(item.fact) || known.writes[item.id].tier != item.tier
                || known.writes[item.id].source != item.source || known.writes[item.id].observedAt != item.observedAt))
      && (complaint == None <==>
            && item.id in known.writes
            && (item.deleted ==> item.id in known.forgets)
            && (!item.deleted ==> known.writes[item.id] == Written(FactDigest(item.fact), item.source, item.observedAt, item.tier)))
  {
  }

  /** Any other file is judged against the true one. It passes exactly when, for every id, the last
      item with that id was written; a live one has the content last written; a tombstone was really
      forgotten; and no forgotten memory is missing. */
  lemma ForeignFileIsJudgedByTheStore(s: State, found: seq<Item>)
    requires Inv(s)
    ensures Reconciled(Latest(found), ReplayLog(s.log)) <==>
      && (forall id :: id in Latest(found) ==> exists i :: 0 <= i < |Load(s)| && Load(s)[i].id == id && Passes(Latest(found)[id], Load(s)[i], s))
      && (forall i :: 0 <= i < |Load(s)| && Load(s)[i].deleted ==> Load(s)[i].id in Latest(found))
  {
    var items, known := Load(s), ReplayLog(s.log);
    forall i, id | 0 <= i < |items| && id in Latest(found) && items[i].id == id
      ensures Complaint(Latest(found)[id], known) == None <==> Passes(Latest(found)[id], items[i], s)
    {
      assert ItemAgrees(items[i], known);
    }
    forall id ensures id in known.forgets <==> exists i :: 0 <= i < |items| && items[i].id == id && items[i].deleted {
      if id in known.forgets { var i :| 0 <= i < |items| && items[i].id == id; assert ItemAgrees(items[i], known); }
      if i :| 0 <= i < |items| && items[i].id == id && items[i].deleted { assert ItemAgrees(items[i], known); }
    }
  }

  /** How a found item may differ from the stored one: in confidence and retention; and a deleted one
      may show what was last written of it. */
  ghost predicate Passes(found: Item, stored: Item, s: State) {
    if found.deleted then stored.deleted
    else if stored.deleted then stored.id in ReplayLog(s.log).writes && WrittenOf(found) == ReplayLog(s.log).writes[stored.id]
    else WrittenOf(found) == WrittenOf(stored)
  }

  lemma EditedFile(items: seq<Item>, at: nat, edited: Item)
    requires Distinct(items) && at < |items| && edited.id == items[at].id
    ensures var found := items[at := edited];
      && edited.id in Latest(found) && Latest(found)[edited.id] == edited
      && (forall i :: 0 <= i < |items| ==> items[i].id in Latest(found))
      && (forall i :: 0 <= i < |items| && i != at ==> items[i].id != edited.id && Latest(found)[items[i].id] == items[i])
  {
    var found := items[at := edited];
    assert forall i :: 0 <= i < |items| ==> found[i].id == items[i].id;
    LatestOfDistinct(found);
    assert found[at] == edited;
  }

  /** With one live item edited, only that item can be complained about. */
  lemma OnlyEditedItemCounts(items: seq<Item>, known: Replay, at: nat, edited: Item)
    requires Distinct(items) && Agrees(items, known) && at < |items| && edited.id == items[at].id
    ensures var found := Latest(items[at := edited]);
      && edited.id in found && found[edited.id] == edited
      && (forall id :: id in found && id != edited.id ==> Complaint(found[id], known) == None)
      && (forall id :: id in known.forgets ==> id in found)
  {
    var found := items[at := edited];
    EditedFile(items, at, edited);
    forall id | id in Latest(found) && id != edited.id ensures Complaint(Latest(found)[id], known) == None {
      var i :| 0 <= i < |found| && found[i].id == id;
      assert ItemAgrees(items[i], known);
    }
  }

  /** Editing the fact, source, time or tier of a live item behind the log's back is reported, and
      nothing less than that is. */
  lemma DriftIsCaughtExactly(s: State, at: nat, edited: Item)
    requires Inv(s) && at < |Load(s)| && !Load(s)[at].deleted
    requires edited.id == Load(s)[at].id && !edited.deleted
    ensures var found := Latest(Load(s)[at := edited]);
      && (Justified(Drifted(edited.id), found, ReplayLog(s.log)) <==> WrittenOf(edited) != WrittenOf(Load(s)[at]))
      && (Reconciled(found, ReplayLog(s.log)) <==> WrittenOf(edited) == WrittenOf(Load(s)[at]))
  {
    var items, known := Load(s), ReplayLog(s.log);
    var found := Latest(items[at := edited]);
    OnlyEditedItemCounts(items, known, at, edited);
    assert ItemAgrees(items[at], known);
    assert Complaint(edited, known) == if WrittenOf(edited) == WrittenOf(items[at]) then None else Some(Drifted(edited.id));
  }
}
