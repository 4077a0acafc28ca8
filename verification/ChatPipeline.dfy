/** From planner proposals to tool effects (`Agent.execute`, `ChatSession.handle` and `decide`, and
    restarts), with a fault possible at every audit append and every tool call. */
module ChatPipeline {
  import opened Values
  import opened Approvals

  datatype Outcome = Completed | Failed | Blocked

  /** Audit records, which hold arguments only by digest, and the effects between them. */
  datatype Entry =
    | Refused(id: ActionId, tool: string, digest: Digest, outcome: Outcome)
    | Intent(id: ActionId, tool: string, digest: Digest)
    | Effect(action: Stored, risk: Risk)
    | Ended(id: ActionId, tool: string, digest: Digest, outcome: Outcome)

  /** What a tool call does: finish, raise an error `execute` turns into a failure, or raise another. */
  datatype Call = Finishes | Fails | Escapes

  /** The outside world during one `execute`: the clock, which appends succeed, and the tool. */
  datatype World = World(now: int, firstAppend: bool, call: Call, lastAppend: bool)

  /** Results of `execute`; `Raised` stands for an exception that leaves it. */
  datatype Reply = Raised | UnknownTool | InvalidArguments | ApprovalRequired | Ran | RunFailed | OutcomeUnknown

  /** The tools with their risks, and schema validation as some predicate. */
  datatype Registry = Registry(risks: map<string, Risk>, valid: (string, Record) -> bool)

  datatype Card = Card(action: Action, session: Session)

  /** A host process and its database; `trace` is the order of audit records and effects. */
  datatype Host = Host(secret: Key, sessionKey: Key, used: set<Token>, trace: seq<Entry>, rows: Rows, pending: map<RequestId, Card>)

  // ------------------------------------------------------------------- execute

  /** Why an action may not run, with the status its record gets. */
  function Gate(registry: Registry, secret: Key, used: set<Token>, action: Action, now: int): Option<(Outcome, Reply)> {
    if action.tool !in registry.risks then Some((Failed, UnknownTool))
    else if !registry.valid(action.tool, action.arguments) then Some((Failed, InvalidArguments))
    else if !Allows(registry.risks[action.tool], false, secret, used, action, now) then Some((Blocked, ApprovalRequired))
    else None
  }

  function UsedAfter(registry: Registry, secret: Key, used: set<Token>, action: Action, now: int): set<Token> {
    if action.tool in registry.risks && registry.valid(action.tool, action.arguments) then
      Spent(registry.risks[action.tool], false, secret, used, action, now)
    else used
  }

  function ShownTool(registry: Registry, tool: string): string {
    if tool in registry.risks then tool else "[unknown]"
  }

  function NewEntries(registry: Registry, gate: Option<(Outcome, Reply)>, action: Action, world: World): seq<Entry>
    requires gate.None? ==> action.tool in registry.risks
  {
    var tool, digest := ShownTool(registry, action.tool), Sha(action.arguments);
    if !world.firstAppend then []
    else if gate.Some? then [Refused(action.id, tool, digest, gate.value.0)]
    else
      [Intent(action.id, tool, digest), Effect(StoredAction(action), registry.risks[action.tool])]
      + if world.call.Escapes? || !world.lastAppend then []
        else [Ended(action.id, tool, digest, if world.call.Finishes? then Completed else Failed)]
  }

  function ReplyTo(gate: Option<(Outcome, Reply)>, world: World): Reply {
    if !world.firstAppend then Raised
    else if gate.Some? then gate.value.1
    else if world.call.Escapes? then Raised
    else if !world.lastAppend then OutcomeUnknown
    else if world.call.Finishes? then Ran
    else RunFailed
  }

  function Execute(registry: Registry, host: Host, action: Action, world: World): (Host, Reply) {
    var gate := Gate(registry, host.secret, host.used, action, world.now);
    (host.(used := UsedAfter(registry, host.secret, host.used, action, world.now),
           trace := host.trace + NewEntries(registry, gate, action, world)),
     ReplyTo(gate, world))
  }

  // -------------------------------------------------------------- handle, decide

  const TTL := 300

  /** One answer of the planner, with the identifiers drawn for it and the world it meets. The planner
      sees the history, so its answers are arbitrary. */
  datatype Proposal = Proposal(tool: string, arguments: Record, id: ActionId, request: RequestId, createdAt: int, world: World)

  /** Planner output carries no authority: any token it brings is dropped. */
  function ActionOf(p: Proposal): Action {
    Action(p.id, p.tool, p.arguments, None)
  }

  function RequestApproval(host: Host, p: Proposal): Host {
    var expiresAt := p.createdAt + TTL;
    host.(rows := host.rows[p.request := Row(StoredAction(ActionOf(p)), expiresAt, Pending)],
          pending := host.pending[p.request := Card(ActionOf(p), Session(host.sessionKey, p.request, expiresAt))])
  }

  /** `handle`: at most `steps` proposals; the planner stops by proposing nothing. */
  function Handle(registry: Registry, host: Host, proposals: seq<Proposal>, steps: nat): Host
    decreases steps
  {
    if steps == 0 || proposals == [] then host
    else
      var (next, reply) := Execute(registry, host, ActionOf(proposals[0]), proposals[0].world);
      if reply == ApprovalRequired then RequestApproval(next, proposals[0])
      else if reply != Ran then next
      else Handle(registry, next, proposals[1..], steps - 1)
  }

  /** `decide`: the clock is read for the decision, for the token, and for its verification. */
  function Decide(registry: Registry, host: Host, id: RequestId, session: Session, decision: Status, now: int, issuedAt: int, world: World): Host {
    if id !in host.pending || session != host.pending[id].session then host
    else if DecideRefusal(host.rows, host.sessionKey, id, session, decision, now).Some? then host
    else
      var action := host.pending[id].action;
      var decided := host.(rows := host.rows[id := host.rows[id].(status := decision)], pending := host.pending - {id});
      if host.rows[id].action != StoredAction(action) || decision != Approved then decided
      else Execute(registry, decided, action.(token := Some(Issue(host.secret, action, TTL, issuedAt))), world).0
  }

  /** A new process: new keys, no cards, no spent tokens; the rows survive, the open ones interrupted. */
  function Restart(host: Host, secret: Key, sessionKey: Key): Host {
    Host(secret, sessionKey, {}, host.trace, Interrupt(host.rows), map[])
  }

  datatype Event =
    | Message(proposals: seq<Proposal>, steps: nat)
    | Click(id: RequestId, session: Session, decision: Status, now: int, issuedAt: int, world: World)
    | NewProcess(secret: Key, sessionKey: Key)

  function Step(registry: Registry, host: Host, event: Event): Host {
    match event
    case Message(proposals, steps) => Handle(registry, host, proposals, steps)
    case Click(id, session, decision, now, issuedAt, world) => Decide(registry, host, id, session, decision, now, issuedAt, world)
    case NewProcess(secret, sessionKey) => Restart(host, secret, sessionKey)
  }

  // -------------------------------------------------------------- the invariant

  ghost predicate HasRun(trace: seq<Entry>, id: ActionId) {
    exists i :: 0 <= i < |trace| && trace[i].Effect? && trace[i].action.id == id
  }

  /** An effect directly follows the durable intent for the same action and arguments. */
  ghost predicate IntentFirst(trace: seq<Entry>) {
    forall i :: 0 <= i < |trace| && trace[i].Effect? ==>
      i > 0 && trace[i - 1] == Intent(trace[i].action.id, trace[i].action.tool, Sha(trace[i].action.arguments))
  }

  ghost predicate OncePerAction(trace: seq<Entry>) {
    forall i, j :: 0 <= i < j < |trace| && trace[i].Effect? && trace[j].Effect? ==> trace[i].action.id != trace[j].action.id
  }

  ghost predicate ApprovedIn(rows: Rows, action: Stored) {
    exists r :: r in rows && rows[r].status == Approved && rows[r].action == action
  }

  ghost predicate EffectsApproved(trace: seq<Entry>, rows: Rows) {
    forall i :: 0 <= i < |trace| && trace[i].Effect? && trace[i].risk != Read ==> ApprovedIn(rows, trace[i].action)
  }

  /** Each row is about its own action. */
  ghost predicate RowsDistinct(rows: Rows) {
    forall r, q :: r in rows && q in rows && rows[r].action.id == rows[q].action.id ==> r == q
  }

  ghost predicate UnapprovedRowsUnrun(rows: Rows, trace: seq<Entry>) {
    forall r :: r in rows && rows[r].status != Approved ==> !HasRun(trace, rows[r].action.id)
  }

  /** The card of a request shows the open row it stands for. */
  ghost predicate CardsMatch(host: Host) {
    forall r :: r in host.pending ==>
      && r in host.rows && host.rows[r].status == Pending
      && host.rows[r].action == StoredAction(host.pending[r].action)
      && host.pending[r].session == Session(host.sessionKey, r, host.rows[r].expiresAt)
  }

  /** No token was spent for an action that is still open. */
  ghost predicate OpenRowsUnspent(rows: Rows, used: set<Token>) {
    forall r, t :: r in rows && rows[r].status == Pending && t in used ==> !IsFor(t, rows[r].action.id)
  }

  /** Every spent token was spent for the action of some row. */
  ghost predicate SpentHaveRows(rows: Rows, used: set<Token>) {
    forall t :: t in used ==> NamesARow(rows, t)
  }

  ghost predicate NamesARow(rows: Rows, t: Token) {
    exists r :: r in rows && IsFor(t, rows[r].action.id)
  }

  predicate IsFor(t: Token, id: ActionId) {
    t.Signed? && Get(t.payload, "id") == Number(id)
  }

  ghost predicate Inv(host: Host) {
    && OpenRowsUnspent(host.rows, host.used) && SpentHaveRows(host.rows, host.used)
    && IntentFirst(host.trace) && OncePerAction(host.trace) && EffectsApproved(host.trace, host.rows)
    && RowsDistinct(host.rows) && UnapprovedRowsUnrun(host.rows, host.trace) && CardsMatch(host)
  }

  // --------------------------------------------------------------- preservation

  /** One execution of an action that has not run adds at most its own effect, right after its intent;
      without a token it can only be a read. */
  lemma ExecuteKeepsTrace(registry: Registry, host: Host, action: Action, world: World)
    requires IntentFirst(host.trace) && OncePerAction(host.trace) && EffectsApproved(host.trace, host.rows)
    requires !HasRun(host.trace, action.id)
    requires action.token.None? || ApprovedIn(host.rows, StoredAction(action))
    ensures var (after, reply) := Execute(registry, host, action, world);
      && IntentFirst(after.trace) && OncePerAction(after.trace) && EffectsApproved(after.trace, host.rows)
      && after.rows == host.rows && after.pending == host.pending && after.sessionKey == host.sessionKey
      && (forall id :: HasRun(after.trace, id) ==> id == action.id || HasRun(host.trace, id))
      && (forall t :: t in after.used ==> t in host.used || IsFor(t, action.id))
      && (reply == ApprovalRequired ==> !HasRun(after.trace, action.id) && after.used == host.used)
      && (!world.firstAppend ==> after.trace == host.trace && reply == Raised)
  {
    var gate := Gate(registry, host.secret, host.used, action, world.now);
    var tail := NewEntries(registry, gate, action, world);
    var after := Execute(registry, host, action, world).0.trace;
    var n := |host.trace|;
    assert forall i :: 0 <= i < n ==> after[i] == host.trace[i];
    assert forall i :: n <= i < |after| ==> after[i] == tail[i - n];
    assert forall i :: n <= i < |after| && after[i].Effect? ==>
      i == n + 1 && after[i].action == StoredAction(action) && (after[i].risk != Read ==> action.token.Some?);
    forall id | HasRun(after, id) ensures id == action.id || HasRun(host.trace, id) {
      var i :| 0 <= i < |after| && after[i].Effect? && after[i].action.id == id;
    }
    forall i, j | 0 <= i < j < |after| && after[i].Effect? && after[j].Effect?
      ensures after[i].action.id != after[j].action.id
    {
      assert i < n && (j >= n ==> host.trace[i].Effect?);
    }
  }

  ghost predicate FreshFor(host: Host, p: Proposal) {
    && p.request !in host.rows
    && !HasRun(host.trace, p.id)
    && (forall r :: r in host.rows ==> host.rows[r].action.id != p.id)
  }

  /** The identifiers drawn for proposals are new, and different from each other. */
  ghost predicate FreshAll(host: Host, proposals: seq<Proposal>) {
    && (forall i :: 0 <= i < |proposals| ==> FreshFor(host, proposals[i]))
    && (forall i, j :: 0 <= i < j < |proposals| ==> proposals[i].id != proposals[j].id)
  }

  lemma SpentKeepRows(rows: Rows, after: Rows, used: set<Token>)
    requires SpentHaveRows(rows, used) && forall r :: r in rows ==> r in after && after[r].action == rows[r].action
    ensures SpentHaveRows(after, used)
  {
    forall t | t in used ensures NamesARow(after, t) {
      assert NamesARow(rows, t);
      var r :| r in rows && IsFor(t, rows[r].action.id);
      assert IsFor(t, after[r].action.id);
    }
  }

  /** No spent token is for an action whose id is new to the rows. */
  lemma NewIdIsUnspent(rows: Rows, used: set<Token>, id: ActionId)
    requires SpentHaveRows(rows, used) && forall r :: r in rows ==> rows[r].action.id != id
    ensures forall t :: t in used ==> !IsFor(t, id)
  {
    forall t | t in used ensures !IsFor(t, id) { assert NamesARow(rows, t); }
  }

  lemma RequestKeepsInv(host: Host, p: Proposal)
    requires Inv(host) && FreshFor(host, p)
    ensures Inv(RequestApproval(host, p))
  {
    var after := RequestApproval(host, p);
    SpentKeepRows(host.rows, after.rows, host.used);
    NewIdIsUnspent(host.rows, host.used, p.id);
    forall i | 0 <= i < |host.trace| && host.trace[i].Effect? && host.trace[i].risk != Read
      ensures ApprovedIn(after.rows, host.trace[i].action)
    {
      var r :| r in host.rows && host.rows[r].status == Approved && host.rows[r].action == host.trace[i].action;
      assert after.rows[r] == host.rows[r];
    }
  }

  lemma {:induction false} HandleKeepsInv(registry: Registry, host: Host, proposals: seq<Proposal>, steps: nat)
    requires Inv(host) && FreshAll(host, proposals)
    ensures Inv(Handle(registry, host, proposals, steps))
    decreases steps
  {
    if steps > 0 && proposals != [] {
      var p := proposals[0];
      var (next, reply) := Execute(registry, host, ActionOf(p), p.world);
      assert FreshFor(host, p);
      ExecuteKeepsTrace(registry, host, ActionOf(p), p.world);
      assert Inv(next);
      if reply == ApprovalRequired {
        RequestKeepsInv(next, p);
      } else if reply == Ran {
        var rest := proposals[1..];
        forall i | 0 <= i < |rest| ensures FreshFor(next, rest[i]) {
          assert rest[i] == proposals[i + 1] && FreshFor(host, proposals[i + 1]);
        }
        HandleKeepsInv(registry, next, rest, steps - 1);
      }
    }
  }

  /** Closing an open row keeps everything but its openness. */
  lemma CloseKeepsInv(host: Host, id: RequestId, decision: Status)
    requires Inv(host) && id in host.rows && host.rows[id].status == Pending && decision != Pending
    ensures Inv(host.(rows := host.rows[id := host.rows[id].(status := decision)], pending := host.pending - {id}))
  {
    var rows := host.rows[id := host.rows[id].(status := decision)];
    SpentKeepRows(host.rows, rows, host.used);
    forall i | 0 <= i < |host.trace| && host.trace[i].Effect? && host.trace[i].risk != Read
      ensures ApprovedIn(rows, host.trace[i].action)
    {
      var r :| r in host.rows && host.rows[r].status == Approved && host.rows[r].action == host.trace[i].action;
      assert rows[r] == host.rows[r];
    }
  }

  /** Running the action of an approved row that has not run. */
  lemma ApprovedRunKeepsInv(registry: Registry, host: Host, id: RequestId, armed: Action, world: World)
    requires Inv(host) && id in host.rows && host.rows[id].status == Approved && host.rows[id].action == StoredAction(armed)
    requires !HasRun(host.trace, armed.id)
    ensures Inv(Execute(registry, host, armed, world).0)
  {
    assert ApprovedIn(host.rows, StoredAction(armed));
    ExecuteKeepsTrace(registry, host, armed, world);
    var after := Execute(registry, host, armed, world).0;
    assert UnapprovedRowsUnrun(after.rows, after.trace);
    forall t | t in after.used ensures NamesARow(after.rows, t) {
      if t !in host.used { assert IsFor(t, after.rows[id].action.id); } else { assert NamesARow(host.rows, t); }
    }
  }

  lemma DecideKeepsInv(registry: Registry, host: Host, id: RequestId, session: Session, decision: Status, now: int, issuedAt: int, world: World)
    requires Inv(host)
    ensures Inv(Decide(registry, host, id, session, decision, now, issuedAt, world))
  {
    if id in host.pending && session == host.pending[id].session
       && DecideRefusal(host.rows, host.sessionKey, id, session, decision, now).None?
    {
      CloseKeepsInv(host, id, decision);
      var action := host.pending[id].action;
      var decided := host.(rows := host.rows[id := host.rows[id].(status := decision)], pending := host.pending - {id});
      if decision == Approved {
        var armed := action.(token := Some(Issue(host.secret, action, TTL, issuedAt)));
        ApprovedRunKeepsInv(registry, decided, id, armed, world);
      }
    }
  }

  lemma RestartKeepsInv(host: Host, secret: Key, sessionKey: Key)
    requires Inv(host)
    ensures Inv(Restart(host, secret, sessionKey))
  {
    var rows := Interrupt(host.rows);
    forall i | 0 <= i < |host.trace| && host.trace[i].Effect? && host.trace[i].risk != Read
      ensures ApprovedIn(rows, host.trace[i].action)
    {
      var r :| r in host.rows && host.rows[r].status == Approved && host.rows[r].action == host.trace[i].action;
      assert rows[r] == host.rows[r];
    }
  }

  ghost predicate Legal(host: Host, event: Event) {
    event.Message? ==> FreshAll(host, event.proposals)
  }

  lemma StepKeepsInv(registry: Registry, host: Host, event: Event)
    requires Inv(host) && Legal(host, event)
    ensures Inv(Step(registry, host, event))
  {
    match event
    case Message(proposals, steps) => HandleKeepsInv(registry, host, proposals, steps);
    case Click(id, session, decision, now, issuedAt, world) =>
      DecideKeepsInv(registry, host, id, session, decision, now, issuedAt, world);
    case NewProcess(secret, sessionKey) => RestartKeepsInv(host, secret, sessionKey);
  }

  // ------------------------------------------------------------------ whole runs

  ghost predicate LegalRun(registry: Registry, host: Host, events: seq<Event>)
    decreases |events|
  {
    events == [] || (Legal(host, events[0]) && LegalRun(registry, Step(registry, host, events[0]), events[1..]))
  }

  function Run(registry: Registry, host: Host, events: seq<Event>): Host
    decreases |events|
  {
    if events == [] then host else Run(registry, Step(registry, host, events[0]), events[1..])
  }

  lemma {:induction false} RunKeepsInv(registry: Registry, host: Host, events: seq<Event>)
    requires Inv(host) && LegalRun(registry, host, events)
    ensures Inv(Run(registry, host, events))
    decreases |events|
  {
    if events != [] {
      StepKeepsInv(registry, host, events[0]);
      RunKeepsInv(registry, Step(registry, host, events[0]), events[1..]);
    }
  }

  /** The row that allowed an effect. */
  ghost predicate Allowed(host: Host, i: nat, r: RequestId)
    requires i < |host.trace|
  {
    host.trace[i].Effect? && r in host.rows && host.rows[r].status == Approved && host.rows[r].action == host.trace[i].action
  }

  /** Main result. In every run of messages, decisions and restarts, with any planner, any clock and
      faults anywhere: each effect that is more than a read belongs to an approved row with the same
      id, tool and arguments; no two effects belong to one row; a row that was denied, interrupted or
      never decided has no effect, not even a read; and each effect directly follows its durable intent. */
  lemma EveryEffectWasApproved(registry: Registry, secret: Key, sessionKey: Key, events: seq<Event>)
    requires LegalRun(registry, Host(secret, sessionKey, {}, [], map[], map[]), events)
    ensures var host := Run(registry, Host(secret, sessionKey, {}, [], map[], map[]), events);
      && (forall i :: 0 <= i < |host.trace| && host.trace[i].Effect? && host.trace[i].risk != Read ==> exists r :: Allowed(host, i, r))
      && (forall i, j, r :: 0 <= i < |host.trace| && 0 <= j < |host.trace| && Allowed(host, i, r) && Allowed(host, j, r) ==> i == j)
      && (forall i, r :: 0 <= i < |host.trace| && host.trace[i].Effect? && r in host.rows ==>
            host.rows[r].status != Approved ==> host.trace[i].action.id != host.rows[r].action.id)
      && IntentFirst(host.trace)
  {
    var start := Host(secret, sessionKey, {}, [], map[], map[]);
    RunKeepsInv(registry, start, events);
    var host := Run(registry, start, events);
    forall i | 0 <= i < |host.trace| && host.trace[i].Effect? && host.trace[i].risk != Read ensures exists r :: Allowed(host, i, r) {
      var r :| r in host.rows && host.rows[r].status == Approved && host.rows[r].action == host.trace[i].action;
      assert Allowed(host, i, r);
    }
  }

  // ------------------------------------------------------ what each call leaves

  /** An action that may not run leaves one refusal record, and nothing else. */
  lemma RefusedExecutions(registry: Registry, host: Host, action: Action, world: World)
    requires world.firstAppend
    ensures var (after, reply) := Execute(registry, host, action, world);
      && (action.tool !in registry.risks ==>
            reply == UnknownTool && after == host.(trace := host.trace + [Refused(action.id, "[unknown]", Sha(action.arguments), Failed)]))
      && (action.tool in registry.risks && !registry.valid(action.tool, action.arguments) ==>
            reply == InvalidArguments
            && after == host.(trace := host.trace + [Refused(action.id, action.tool, Sha(action.arguments), Failed)]))
      && (action.tool in registry.risks && registry.valid(action.tool, action.arguments)
          && registry.risks[action.tool] != Read && action.token.None? ==>
            reply == ApprovalRequired
            && after == host.(trace := host.trace + [Refused(action.id, action.tool, Sha(action.arguments), Blocked)]))
  {
  }

  /** A read runs without approval: its intent, its effect, and, unless the tool call escapes or the
      append fails, its outcome. */
  lemma ReadExecutions(registry: Registry, host: Host, action: Action, world: World)
    requires world.firstAppend && action.tool in registry.risks && registry.valid(action.tool, action.arguments)
    requires registry.risks[action.tool] == Read
    ensures var (after, reply) := Execute(registry, host, action, world);
      var begun := host.trace + [Intent(action.id, action.tool, Sha(action.arguments)), Effect(StoredAction(action), Read)];
      && after == host.(trace := after.trace)
      && (world.call.Escapes? ==> reply == Raised && after.trace == begun)
      && (!world.call.Escapes? && !world.lastAppend ==> reply == OutcomeUnknown && after.trace == begun)
      && (world.call.Finishes? && world.lastAppend ==>
            reply == Ran && after.trace == begun + [Ended(action.id, action.tool, Sha(action.arguments), Completed)])
      && (world.call.Fails? && world.lastAppend ==>
            reply == RunFailed && after.trace == begun + [Ended(action.id, action.tool, Sha(action.arguments), Failed)])
  {
  }

  /** Without the first record nothing happens, whatever the action. */
  lemma UnrecordedExecutions(registry: Registry, host: Host, action: Action, world: World)
    requires !world.firstAppend
    ensures Execute(registry, host, action, world).1 == Raised && Execute(registry, host, action, world).0.trace == host.trace
  {
  }

  /** A proposal that needs approval ends the message with one open row for it, and the card that goes
      with the row. */
  lemma BlockedActionGetsCard(registry: Registry, host: Host, p: Proposal, rest: seq<Proposal>, steps: nat)
    requires steps > 0 && p.world.firstAppend
    requires p.tool in registry.risks && registry.valid(p.tool, p.arguments) && registry.risks[p.tool] != Read
    ensures Handle(registry, host, [p] + rest, steps) ==
      host.(trace := host.trace + [Refused(p.id, p.tool, Sha(p.arguments), Blocked)],
            rows := host.rows[p.request := Row(Stored(p.id, p.tool, p.arguments), p.createdAt + 300, Pending)],
            pending := host.pending[p.request := Card(Action(p.id, p.tool, p.arguments, None),
                                                      Session(host.sessionKey, p.request, p.createdAt + 300))])
  {
    RefusedExecutions(registry, host, ActionOf(p), p.world);
    assert ([p] + rest)[0] == p;
  }

  /** A read that completes lets the message go on with the next proposal; one that does not ends it. */
  lemma ReadLetsMessageGoOn(registry: Registry, host: Host, p: Proposal, rest: seq<Proposal>, steps: nat)
    requires steps > 0 && p.world.firstAppend
    requires p.tool in registry.risks && registry.valid(p.tool, p.arguments) && registry.risks[p.tool] == Read
    ensures var after := Execute(registry, host, ActionOf(p), p.world).0;
      Handle(registry, host, [p] + rest, steps) ==
        if p.world.call.Finishes? && p.world.lastAppend then Handle(registry, after, rest, steps - 1) else after
  {
    ReadExecutions(registry, host, ActionOf(p), p.world);
    assert ([p] + rest)[0] == p && ([p] + rest)[1..] == rest;
  }

  /** A message for which no step is left, or to which the planner proposes nothing, changes nothing. */
  lemma NothingProposed(registry: Registry, host: Host, proposals: seq<Proposal>, steps: nat)
    requires steps == 0 || proposals == []
    ensures Handle(registry, host, proposals, steps) == host
  {
  }

  /** A click on no card, with a wrong session, or too late changes nothing. */
  lemma IdleClicks(registry: Registry, host: Host, id: RequestId, session: Session, decision: Status, now: int, issuedAt: int, world: World)
    requires Inv(host)
    requires id !in host.pending || session != host.pending[id].session || host.rows[id].expiresAt <= now
    ensures Decide(registry, host, id, session, decision, now, issuedAt, world) == host
  {
    if id in host.pending { DecidedExactly(host.rows, host.sessionKey, id, session, decision, now); }
  }

  /** Denying a shown card in time closes its row and removes the card; nothing runs and no token is
      spent. */
  lemma DenialClosesCard(registry: Registry, host: Host, id: RequestId, now: int, issuedAt: int, world: World)
    requires Inv(host) && id in host.pending && now < host.rows[id].expiresAt
    ensures Decide(registry, host, id, host.pending[id].session, Denied, now, issuedAt, world) ==
      host.(rows := host.rows[id := host.rows[id].(status := Denied)], pending := host.pending - {id})
  {
    DecidedExactly(host.rows, host.sessionKey, id, host.pending[id].session, Denied, now);
  }

  /** The action of a row that is closed without approval never runs, in any continuation of the run. */
  lemma ClosedRowNeverRuns(registry: Registry, host: Host, id: RequestId, events: seq<Event>)
    requires Inv(host) && LegalRun(registry, host, events)
    requires id in host.rows && (host.rows[id].status == Denied || host.rows[id].status == Interrupted)
    ensures var after := Run(registry, host, events);
      && id in after.rows && after.rows[id].status == host.rows[id].status
      && !HasRun(after.trace, host.rows[id].action.id)
  {
    RunKeepsInv(registry, host, events);
    StatusLeavesPendingOnce(registry, host, events);
  }

  /** So a denied action never runs. */
  lemma DeniedActionNeverRuns(registry: Registry, host: Host, id: RequestId, now: int, issuedAt: int, world: World, events: seq<Event>)
    requires Inv(host) && id in host.pending && now < host.rows[id].expiresAt
    requires LegalRun(registry, Decide(registry, host, id, host.pending[id].session, Denied, now, issuedAt, world), events)
    ensures var denied := Decide(registry, host, id, host.pending[id].session, Denied, now, issuedAt, world);
      !HasRun(Run(registry, denied, events).trace, host.rows[id].action.id)
  {
    DenialClosesCard(registry, host, id, now, issuedAt, world);
    DecideKeepsInv(registry, host, id, host.pending[id].session, Denied, now, issuedAt, world);
    var denied := Decide(registry, host, id, host.pending[id].session, Denied, now, issuedAt, world);
    ClosedRowNeverRuns(registry, denied, id, events);
  }

  /** A new process keeps rows and log, closes the open rows, and knows no card and no spent token. */
  lemma RestartForgets(host: Host, secret: Key, sessionKey: Key)
    ensures var after := Restart(host, secret, sessionKey);
      && after.secret == secret && after.sessionKey == sessionKey
      && after.trace == host.trace && after.pending == map[] && after.used == {}
      && after.rows.Keys == host.rows.Keys
      && forall id :: id in host.rows ==>
           && after.rows[id].status == (if host.rows[id].status == Pending then Interrupted else host.rows[id].status)
           && after.rows[id].action == host.rows[id].action && after.rows[id].expiresAt == host.rows[id].expiresAt
  {
    RestartClosesOpenRows(host.rows);
  }

  /** Approving a shown card in time runs its action: the effect follows, once, and the card is gone. */
  lemma ApprovalRunsTheAction(registry: Registry, host: Host, id: RequestId, now: int, issuedAt: int, world: World)
    requires Inv(host) && id in host.pending && now < host.rows[id].expiresAt
    requires world.firstAppend && world.now < issuedAt + TTL
    requires var action := host.pending[id].action; action.tool in registry.risks && registry.valid(action.tool, action.arguments)
    ensures var card := host.pending[id];
      var after := Decide(registry, host, id, card.session, Approved, now, issuedAt, world);
      && |after.trace| >= |host.trace| + 2
      && after.trace[..|host.trace|] == host.trace
      && after.trace[|host.trace|] == Intent(card.action.id, card.action.tool, Sha(card.action.arguments))
      && after.trace[|host.trace| + 1] == Effect(StoredAction(card.action), registry.risks[card.action.tool])
      && after.rows == host.rows[id := host.rows[id].(status := Approved)]
      && after.pending == host.pending - {id}
      && after.used == host.used
           + (if registry.risks[card.action.tool] == Read then {} else {Issue(host.secret, card.action, TTL, issuedAt)})
  {
    var action := host.pending[id].action;
    var token := Issue(host.secret, action, TTL, issuedAt);
    assert IsFor(token, action.id);
    IssuedTokenIsBound(host.secret, action, TTL, issuedAt, host.secret, host.used, action.(token := Some(token)), world.now);
    var decided := host.(rows := host.rows[id := host.rows[id].(status := Approved)], pending := host.pending - {id});
    var armed := action.(token := Some(token));
    assert Gate(registry, host.secret, host.used, armed, world.now).None?;
  }

  /** A row is never lost or rewritten, and once it has left pending its status is final. */
  ghost predicate Settles(before: Rows, after: Rows) {
    forall r :: r in before ==>
      && r in after && after[r].action == before[r].action && after[r].expiresAt == before[r].expiresAt
      && (before[r].status != Pending ==> after[r].status == before[r].status)
  }

  lemma {:induction false} HandleSettles(registry: Registry, host: Host, proposals: seq<Proposal>, steps: nat)
    requires forall i :: 0 <= i < |proposals| ==> proposals[i].request !in host.rows
    ensures Settles(host.rows, Handle(registry, host, proposals, steps).rows)
    decreases steps
  {
    if steps > 0 && proposals != [] {
      var (next, reply) := Execute(registry, host, ActionOf(proposals[0]), proposals[0].world);
      if reply == Ran { HandleSettles(registry, next, proposals[1..], steps - 1); }
    }
  }

  lemma StepSettles(registry: Registry, host: Host, event: Event)
    requires Legal(host, event)
    ensures Settles(host.rows, Step(registry, host, event).rows)
  {
    if event.Message? {
      assert forall i :: 0 <= i < |event.proposals| ==> FreshFor(host, event.proposals[i]);
      HandleSettles(registry, host, event.proposals, event.steps);
    }
  }

  lemma {:induction false} StatusLeavesPendingOnce(registry: Registry, host: Host, events: seq<Event>)
    requires LegalRun(registry, host, events)
    ensures Settles(host.rows, Run(registry, host, events).rows)
    decreases |events|
  {
    if events != [] {
      var next := Step(registry, host, events[0]);
      StepSettles(registry, host, events[0]);
      StatusLeavesPendingOnce(registry, next, events[1..]);
    }
  }
}
