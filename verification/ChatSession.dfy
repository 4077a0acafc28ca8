/** The host objects of the chat: `Agent` and `ChatSession` update the state that module ChatPipeline
    describes. */
module ChatSession {
  import opened Values
  import opened Approvals
  import opened ChatPipeline

  class Agent {
    const registry: Registry
    const authority: ApprovalAuthority
    var trace: seq<Entry>

    constructor (registry: Registry, authority: ApprovalAuthority, trace: seq<Entry>)
      ensures this.registry == registry && this.authority == authority && this.trace == trace
    {
      this.registry, this.authority, this.trace := registry, authority, trace;
    }

    /** Appends one audit record, unless the append fails. */
    method Audit(entry: Entry, appended: bool)
      modifies this
      ensures trace == old(trace) + if appended then [entry] else []
    {
      if appended { trace := trace + [entry]; }
    }

    /** `execute`: every path leaves a record or raises, and the effect waits for its intent. */
    method Execute(action: Action, world: World) returns (reply: Reply)
      modifies this, authority
      ensures var gate := Gate(registry, authority.secret, old(authority.used), action, world.now);
        && reply == ReplyTo(gate, world)
        && trace == old(trace) + NewEntries(registry, gate, action, world)
        && authority.used == UsedAfter(registry, authority.secret, old(authority.used), action, world.now)
    {
      var tool, digest := ShownTool(registry, action.tool), Sha(action.arguments);
      if action.tool !in registry.risks {
        Audit(Refused(action.id, tool, digest, Failed), world.firstAppend);
        return if world.firstAppend then UnknownTool else Raised;
      }
      if !registry.valid(action.tool, action.arguments) {
        Audit(Refused(action.id, tool, digest, Failed), world.firstAppend);
        return if world.firstAppend then InvalidArguments else Raised;
      }
      var risk := registry.risks[action.tool];
      var allowed := CheckPolicy(authority, false, risk, action, world.now);
      if !allowed {
        Audit(Refused(action.id, tool, digest, Blocked), world.firstAppend);
        return if world.firstAppend then ApprovalRequired else Raised;
      }
      Audit(Intent(action.id, tool, digest), world.firstAppend);
      if !world.firstAppend { return Raised; }
      trace := trace + [Effect(StoredAction(action), risk)];
      if world.call.Escapes? { return Raised; }
      Audit(Ended(action.id, tool, digest, if world.call.Finishes? then Completed else Failed), world.lastAppend);
      if !world.lastAppend { return OutcomeUnknown; }
      return if world.call.Finishes? then Ran else RunFailed;
    }
  }

  class ChatHost {
    const agent: Agent
    const service: ApprovalService
    var pending: map<RequestId, Card>

    constructor (agent: Agent, service: ApprovalService)
      ensures this.agent == agent && this.service == service && pending == map[]
    {
      this.agent, this.service, pending := agent, service, map[];
    }

    function Snapshot(): Host
      reads this, agent, agent.authority, service
    {
      Host(agent.authority.secret, service.sessionKey, agent.authority.used, agent.trace, service.rows, pending)
    }

    /** `execute` as the session sees it. */
    method Perform(action: Action, world: World) returns (reply: Reply)
      modifies this, agent, agent.authority
      ensures (Snapshot(), reply) == ChatPipeline.Execute(agent.registry, old(Snapshot()), action, world)
    {
      reply := agent.Execute(action, world);
    }

    /** `_request_approval`: a stored row, and the card shown for it. */
    method RequestApproval(p: Proposal)
      requires p.request !in service.rows
      modifies this, service
      ensures Snapshot() == ChatPipeline.RequestApproval(old(Snapshot()), p)
    {
      var session := service.Create(p.request, ActionOf(p), TTL, p.createdAt);
      pending := pending[p.request := Card(ActionOf(p), session)];
    }

    method Handle(proposals: seq<Proposal>, maxSteps: nat)
      requires forall i :: 0 <= i < |proposals| ==> proposals[i].request !in service.rows
      modifies this, agent, agent.authority, service
      ensures Snapshot() == ChatPipeline.Handle(agent.registry, old(Snapshot()), proposals, maxSteps)
    {
      var step := 0;
      while step < maxSteps && step < |proposals|
        invariant step <= maxSteps && step <= |proposals|
        invariant service.rows == old(service.rows)
        invariant ChatPipeline.Handle(agent.registry, old(Snapshot()), proposals, maxSteps)
          == ChatPipeline.Handle(agent.registry, Snapshot(), proposals[step..], maxSteps - step)
      {
        var p := proposals[step];
        assert proposals[step..][0] == p && proposals[step..][1..] == proposals[step + 1..];
        var reply := Perform(ActionOf(p), p.world);
        if reply == ApprovalRequired {
          RequestApproval(p);
          return;
        }
        if reply != Ran { return; }
        step := step + 1;
      }
    }

    method Decide(id: RequestId, session: Session, decision: Status, now: int, issuedAt: int, world: World)
      modifies this, agent, agent.authority, service
      ensures Snapshot() == ChatPipeline.Decide(agent.registry, old(Snapshot()), id, session, decision, now, issuedAt, world)
    {
      if id !in pending || session != pending[id].session { return; }
      var decided := service.Decide(id, session, decision, now);
      if decided.Failure? { return; }
      var action := pending[id].action;
      pending := pending - {id};
      if decided.value.action != StoredAction(action) { return; }
      if decided.value.status != Approved { return; }
      var token := Issue(agent.authority.secret, action, TTL, issuedAt);
      var reply := Perform(action.(token := Some(token)), world);
    }
  }

  /** `build_session` on an existing database: fresh keys, no cards, open rows interrupted. */
  method BuildSession(registry: Registry, before: Host, secret: Key, sessionKey: Key) returns (chat: ChatHost)
    ensures fresh(chat) && chat.Snapshot() == Restart(before, secret, sessionKey)
  {
    var authority := new ApprovalAuthority(secret);
    var agent := new Agent(registry, authority, before.trace);
    var service := new ApprovalService(before.rows, sessionKey);
    chat := new ChatHost(agent, service);
  }
}
