/** One-time approval tokens (`ApprovalAuthority`), the policy that consumes them (`Policy.check`), and
    the persistent approval rows (`ApprovalService`). */
module Approvals {
  import opened Values

  type ActionId = nat
  type RequestId = nat

  /** A token string: text that decodes to nothing, or a JSON object with a signature. The object and
      the signature can be spelled in more than one way; `spelling` tells such strings apart. */
  datatype Token = Malformed(text: string) | Signed(payload: Record, signature: Digest, spelling: nat)

  datatype Action = Action(id: ActionId, tool: string, arguments: Record, token: Option<Token>)

  // ------------------------------------------------------------------ authority

  function Payload(action: Action, exp: int): Record {
    map["id" := Number(action.id), "tool" := Str(Plain(action.tool)), "arguments" := Object(action.arguments), "exp" := Number(exp)]
  }

  function Issue(secret: Key, action: Action, ttl: int, now: int): Token {
    var payload := Payload(action, now + ttl);
    Signed(payload, Mac(secret, payload), 0)
  }

  /** Whether a token is good for an action at a time; the second of its expiry is too late. */
  predicate Accepts(secret: Key, used: set<Token>, action: Action, token: Option<Token>, now: int) {
    && token.Some? && token.value.Signed?
    && var Signed(payload, signature, _) := token.value;
    && Get(payload, "exp").Number?
    && now < Get(payload, "exp").number
    && payload == Payload(action, Get(payload, "exp").number)
    && signature == Mac(secret, payload)
    && token.value !in used
  }

  class ApprovalAuthority {
    const secret: Key
    var used: set<Token>

    constructor (secret: Key)
      ensures this.secret == secret && used == {}
    {
      this.secret := secret;
      used := {};
    }

    /** `verify`: the whole test and the consumption are one step under the lock. */
    method Verify(action: Action, token: Option<Token>, now: int) returns (ok: bool)
      modifies this
      ensures ok == Accepts(secret, old(used), action, token, now)
      ensures used == if ok then old(used) + {token.value} else old(used)
    {
      if token.None? || token.value.Malformed? { return false; }
      var Signed(payload, signature, _) := token.value;
      var exp := Get(payload, "exp");
      if !exp.Number? || exp.number <= now { return false; }
      if payload != Payload(action, exp.number) { return false; }
      if signature != Mac(secret, payload) { return false; }
      if token.value in used { return false; }
      used := used + {token.value};
      return true;
    }
  }

  /** An issued token is good for exactly the action it was issued for, before its expiry, once, and
      only with the secret it was issued with. */
  lemma IssuedTokenIsBound(secret: Key, action: Action, ttl: int, issued: int, key: Key, used: set<Token>, other: Action, now: int)
    ensures var token := Issue(secret, action, ttl, issued);
      Accepts(key, used, other, Some(token), now) <==>
        && key == secret
        && other.id == action.id && other.tool == action.tool && other.arguments == action.arguments
        && now < issued + ttl
        && token !in used
  {
    var payload, exp := Payload(action, issued + ttl), issued + ttl;
    assert Get(payload, "exp") == Number(exp);
    var wanted := Payload(other, exp);
    if payload == wanted {
      assert payload["id"] == wanted["id"] && payload["tool"] == wanted["tool"] && payload["arguments"] == wanted["arguments"];
    }
  }

  /** Nothing else is ever accepted: a token passes exactly if it carries this action and an expiry
      still to come, signed with the secret, and was not spent. */
  lemma OnlySignedTokensPass(secret: Key, used: set<Token>, action: Action, token: Option<Token>, now: int)
    ensures Accepts(secret, used, action, token, now) <==>
      token.Some? && token.value !in used && exists exp, spelling :: now < exp && token.value == SignedFor(secret, action, exp, spelling)
  {
    if Accepts(secret, used, action, token, now) {
      var exp := Get(token.value.payload, "exp").number;
      assert token.value == SignedFor(secret, action, exp, token.value.spelling);
    }
    if token.Some? && exists exp, spelling :: now < exp && token.value == SignedFor(secret, action, exp, spelling) {
      var exp, spelling :| now < exp && token.value == SignedFor(secret, action, exp, spelling);
      assert Get(token.value.payload, "exp") == Number(exp);
    }
  }

  function SignedFor(secret: Key, action: Action, exp: int, spelling: nat): Token {
    var payload := map["id" := Number(action.id), "tool" := Str(Plain(action.tool)), "arguments" := Object(action.arguments), "exp" := Number(exp)];
    Signed(payload, Mac(secret, payload), spelling)
  }

  // --------------------------------------------------------------------- policy

  datatype Risk = Read | Write | Represent | Money

  predicate Free(risk: Risk, allowWrites: bool) {
    risk == Read || (risk == Write && allowWrites)
  }

  predicate Allows(risk: Risk, allowWrites: bool, secret: Key, used: set<Token>, action: Action, now: int) {
    Free(risk, allowWrites) || Accepts(secret, used, action, action.token, now)
  }

  /** Only an action that is not free spends its token. */
  function Spent(risk: Risk, allowWrites: bool, secret: Key, used: set<Token>, action: Action, now: int): set<Token> {
    if !Free(risk, allowWrites) && Accepts(secret, used, action, action.token, now) then used + {action.token.value} else used
  }

  /** A policy without an authority lets only free actions pass. */
  method CheckPolicy(authority: ApprovalAuthority?, allowWrites: bool, risk: Risk, action: Action, now: int) returns (allowed: bool)
    modifies if authority == null then {} else {authority}
    ensures authority == null ==> allowed == Free(risk, allowWrites)
    ensures risk == Read || (risk == Write && allowWrites) ==> allowed && (authority != null ==> authority.used == old(authority.used))
    ensures authority != null && risk != Read && !(risk == Write && allowWrites) ==>
      && allowed == Accepts(authority.secret, old(authority.used), action, action.token, now)
      && authority.used == old(authority.used) + if allowed then {action.token.value} else {}
    ensures authority != null ==>
      && allowed == Allows(risk, allowWrites, authority.secret, old(authority.used), action, now)
      && authority.used == Spent(risk, allowWrites, authority.secret, old(authority.used), action, now)
  {
    if risk == Read { return true; }
    if risk == Write && allowWrites { return true; }
    if authority == null { return false; }
    allowed := authority.Verify(action, action.token, now);
  }

  // -------------------------------------------------------------------- service

  datatype Status = Pending | Approved | Denied | Interrupted

  /** The stored copy of an action carries no token. */
  datatype Stored = Stored(id: ActionId, tool: string, arguments: Record)

  datatype Row = Row(action: Stored, expiresAt: int, status: Status)

  type Rows = map<RequestId, Row>

  /** An ideal MAC over the request id and its expiry. */
  datatype Session = Session(key: Key, id: RequestId, expiresAt: int)

  datatype Refusal = InvalidDecision | UnknownApproval | InvalidSession | Expired | AlreadyDecided | MismatchedAction

  function StoredAction(action: Action): Stored {
    Stored(action.id, action.tool, action.arguments)
  }

  /** On restart nobody holds the cards any more. */
  function Interrupt(rows: Rows): Rows {
    map id | id in rows :: if rows[id].status == Pending then rows[id].(status := Interrupted) else rows[id]
  }

  /** Why a decision is refused, in the order of the checks. */
  function DecideRefusal(rows: Rows, key: Key, id: RequestId, session: Session, decision: Status, now: int): Option<Refusal> {
    if decision != Approved && decision != Denied then Some(InvalidDecision)
    else if id !in rows then Some(UnknownApproval)
    else if session != Session(key, id, rows[id].expiresAt) then Some(InvalidSession)
    else if now >= rows[id].expiresAt then Some(Expired)
    else if rows[id].status != Pending then Some(AlreadyDecided)
    else None
  }

  /** A decision is taken exactly on an open row that has not expired, by the holder of its session; a
      refusal names the first thing that is wrong. */
  lemma DecidedExactly(rows: Rows, key: Key, id: RequestId, session: Session, decision: Status, now: int)
    ensures var refusal := DecideRefusal(rows, key, id, session, decision, now);
      && (refusal.None? <==>
            && (decision == Approved || decision == Denied) && id in rows && rows[id].status == Pending
            && now < rows[id].expiresAt && session == Session(key, id, rows[id].expiresAt))
      && (refusal == Some(InvalidDecision) <==> decision == Pending || decision == Interrupted)
      && (refusal == Some(UnknownApproval) <==> decision in {Approved, Denied} && id !in rows)
      && (refusal == Some(InvalidSession) <==>
            decision in {Approved, Denied} && id in rows && session != Session(key, id, rows[id].expiresAt))
      && (refusal == Some(Expired) <==>
            && decision in {Approved, Denied} && id in rows && session == Session(key, id, rows[id].expiresAt)
            && rows[id].expiresAt <= now)
  {
  }

  /** A restart leaves no row open, and decided ones as they are. */
  lemma RestartClosesOpenRows(rows: Rows)
    ensures Interrupt(rows).Keys == rows.Keys
    ensures forall id :: id in rows ==>
      && Interrupt(rows)[id].status == (if rows[id].status == Pending then Interrupted else rows[id].status)
      && Interrupt(rows)[id].action == rows[id].action && Interrupt(rows)[id].expiresAt == rows[id].expiresAt
  {
  }

  class ApprovalService {
    const sessionKey: Key
    var rows: Rows

    constructor (rows: Rows, sessionKey: Key)
      ensures this.sessionKey == sessionKey && this.rows == Interrupt(rows)
    {
      this.sessionKey := sessionKey;
      this.rows := Interrupt(rows);
    }

    method Create(id: RequestId, action: Action, ttl: int, now: int) returns (session: Session)
      requires id !in rows
      modifies this
      ensures rows == old(rows)[id := Row(StoredAction(action), now + ttl, Pending)]
      ensures session == Session(sessionKey, id, now + ttl)
    {
      rows := rows[id := Row(StoredAction(action), now + ttl, Pending)];
      session := Session(sessionKey, id, now + ttl);
    }

    method Decide(id: RequestId, session: Session, decision: Status, now: int) returns (r: Result<Row, Refusal>)
      modifies this
      ensures var refusal := DecideRefusal(old(rows), sessionKey, id, session, decision, now);
        if refusal.Some? then r == Failure(refusal.value) && rows == old(rows)
        else rows == old(rows)[id := old(rows)[id].(status := decision)] && r == Success(rows[id])
    {
      if decision != Approved && decision != Denied { return Failure(InvalidDecision); }
      if id !in rows { return Failure(UnknownApproval); }
      var row := rows[id];
      if session != Session(sessionKey, id, row.expiresAt) { return Failure(InvalidSession); }
      if now >= row.expiresAt { return Failure(Expired); }
      if row.status != Pending { return Failure(AlreadyDecided); }
      rows := rows[id := row.(status := decision)];
      return Success(rows[id]);
    }
  }
}
