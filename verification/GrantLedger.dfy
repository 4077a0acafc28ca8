/** The durable quota ledger and the tree of delegates that shares it (`GrantLedger`,
    `DelegatedAuthority.__init__`, `narrow`, `verify`). */
module GrantLedger {
  import opened Values
  import opened Approvals
  import opened Grants

  /** Delegates are numbered in the order of their creation; a number stands for the uuid of a grant. */
  type GrantId = nat

  /** Tokens are stored by digest; different tokens have different digests. */
  type TokenDigest = Token

  type Budgets = seq<(GrantId, int)>

  type Quota = map<GrantId, nat>

  function Used(quota: Quota, id: GrantId): nat {
    if id in quota then quota[id] else 0
  }

  /** The check lets a grant without a row pass whatever its limit. */
  predicate HasRoom(quota: Quota, budget: (GrantId, int)) {
    budget.0 in quota ==> quota[budget.0] < budget.1
  }

  predicate Admits(quota: Quota, redeemed: set<TokenDigest>, budgets: Budgets, token: TokenDigest) {
    token !in redeemed && forall i :: 0 <= i < |budgets| ==> HasRoom(quota, budgets[i])
  }

  /** Every budget charged once. */
  function Charge(quota: Quota, budgets: Budgets): Quota
    decreases |budgets|
  {
    if budgets == [] then quota
    else Charge(quota[budgets[0].0 := Used(quota, budgets[0].0) + 1], budgets[1..])
  }

  class Ledger {
    var quota: Quota
    var redeemed: set<TokenDigest>

    constructor ()
      ensures quota == map[] && redeemed == {}
    {
      quota, redeemed := map[], {};
    }

    /** `consume`, one transaction: all budgets are charged, or none is. */
    method Consume(budgets: Budgets, token: TokenDigest) returns (ok: bool)
      modifies this
      ensures ok == Admits(old(quota), old(redeemed), budgets, token)
      ensures quota == if ok then Charge(old(quota), budgets) else old(quota)
      ensures redeemed == if ok then old(redeemed) + {token} else old(redeemed)
    {
      if token in redeemed { return false; }
      for i := 0 to |budgets|
        invariant quota == old(quota) && redeemed == old(redeemed)
        invariant forall k :: 0 <= k < i ==> HasRoom(quota, budgets[k])
      {
        if budgets[i].0 in quota && quota[budgets[i].0] >= budgets[i].1 { return false; }
      }
      var charged: Quota := quota;
      for i := 0 to |budgets|
        invariant quota == old(quota) && redeemed == old(redeemed)
        invariant Charge(quota, budgets) == Charge(charged, budgets[i..])
      {
        charged := charged[budgets[i].0 := Used(charged, budgets[i].0) + 1];
        assert budgets[i..][1..] == budgets[i + 1..];
      }
      quota, redeemed := charged, redeemed + {token};
      return true;
    }
  }

  // ---------------------------------------------------------------- the delegates

  /** A delegate: its grant, its parent if it was narrowed from one, and the budgets it draws on. */
  datatype Delegate = Delegate(grant: Grant, parent: Option<GrantId>, budgets: Budgets)

  /** The delegates so far, the ledger, and every redemption in order: by whom, and which token. */
  datatype System = System(delegates: seq<Delegate>, quota: Quota, redeemed: set<TokenDigest>, history: seq<(GrantId, TokenDigest)>)

  datatype Event =
    | Root(grant: Grant)
    | Narrow(parent: GrantId, grant: Grant)
    | Redeem(who: GrantId, token: TokenDigest)

  function OwnBudget(id: GrantId, grant: Grant): Budgets {
    if grant.maxUses.Some? then [(id, grant.maxUses.value)] else []
  }

  /** A new delegate draws on its ancestors' budgets and on its own, if it is limited. */
  function NewDelegate(delegates: seq<Delegate>, grant: Grant, parent: Option<GrantId>): Delegate
    requires parent.Some? ==> parent.value < |delegates|
  {
    var inherited := if parent.Some? then delegates[parent.value].budgets else [];
    Delegate(grant, parent, inherited + OwnBudget(|delegates|, grant))
  }

  /** One atomic step. The ledger must hold for any tree, so the narrowness of a grant, which
      `narrow` checks first, is not assumed here. A redemption reaches the ledger only if the delegate
      has budgets, and one the ledger refuses changes nothing; redemptions interleave freely. */
  function Step(s: System, event: Event): System {
    match event
    case Root(grant) => s.(delegates := s.delegates + [NewDelegate(s.delegates, grant, None)])
    case Narrow(parent, grant) =>
      if parent < |s.delegates| then s.(delegates := s.delegates + [NewDelegate(s.delegates, grant, Some(parent))]) else s
    case Redeem(who, token) =>
      if who < |s.delegates| && s.delegates[who].budgets != [] && Admits(s.quota, s.redeemed, s.delegates[who].budgets, token) then
        s.(quota := Charge(s.quota, s.delegates[who].budgets), redeemed := s.redeemed + {token}, history := s.history + [(who, token)])
      else s
  }

  function Run(s: System, events: seq<Event>): System
    decreases |events|
  {
    if events == [] then s else Run(Step(s, events[0]), events[1..])
  }

  const EMPTY: System := System([], map[], {}, [])

  /** `ancestor` is `id` or one of the delegates it was narrowed from, step by step. */
  predicate Descends(delegates: seq<Delegate>, id: GrantId, ancestor: GrantId)
    decreases id
  {
    id == ancestor
    || (id < |delegates| && delegates[id].parent.Some? && delegates[id].parent.value < id
        && Descends(delegates, delegates[id].parent.value, ancestor))
  }

  /** How many tokens were redeemed by `ancestor` and its descendants. */
  function Redemptions(delegates: seq<Delegate>, history: seq<(GrantId, TokenDigest)>, ancestor: GrantId): nat {
    if history == [] then 0
    else
      var last := |history| - 1;
      Redemptions(delegates, history[..last], ancestor) + if Descends(delegates, history[last].0, ancestor) then 1 else 0
  }

  predicate Limited(delegates: seq<Delegate>, id: GrantId) {
    id < |delegates| && delegates[id].grant.maxUses.Some?
  }

  predicate Draws(budgets: Budgets, id: GrantId) {
    exists i :: 0 <= i < |budgets| && budgets[i].0 == id
  }

  /** A delegate's budgets are those of its limited ancestors and itself, each once, with their limits. */
  ghost predicate BudgetsOk(delegates: seq<Delegate>, id: GrantId)
    requires id < |delegates|
  {
    var budgets := delegates[id].budgets;
    && (delegates[id].parent.Some? ==> delegates[id].parent.value < id)
    && Ascending(budgets)
    && (forall i :: 0 <= i < |budgets| ==> budgets[i].0 <= id && delegates[budgets[i].0].grant.maxUses == Some(budgets[i].1))
    && (forall g: GrantId :: Draws(budgets, g) <==> Limited(delegates, g) && Descends(delegates, id, g))
  }

  predicate Ascending(budgets: Budgets) {
    forall i, j :: 0 <= i < j < |budgets| ==> budgets[i].0 < budgets[j].0
  }

  ghost predicate TreeOk(delegates: seq<Delegate>) {
    forall id :: 0 <= id < |delegates| ==> BudgetsOk(delegates, id)
  }

  /** Conservation: the counter of a limited grant is the number of redemptions below it. */
  ghost predicate Conserved(s: System) {
    forall g: GrantId :: Limited(s.delegates, g) ==> Used(s.quota, g) == Redemptions(s.delegates, s.history, g)
  }

  /** A counter passes its limit only by the free first use of a limit below one. */
  ghost predicate Bounded(s: System) {
    forall g :: g in s.quota ==>
      Limited(s.delegates, g) && 1 <= s.quota[g] && (s.quota[g] == 1 || s.quota[g] <= s.delegates[g].grant.maxUses.value)
  }

  /** The redeemed tokens are those of the history, each redeemed once. */
  ghost predicate OncePerToken(s: System) {
    && (forall t :: t in s.redeemed <==> exists k :: 0 <= k < |s.history| && s.history[k].1 == t)
    && (forall i, j :: 0 <= i < j < |s.history| ==> s.history[i].1 != s.history[j].1)
    && (forall k :: 0 <= k < |s.history| ==> s.history[k].0 < |s.delegates|)
  }

  ghost predicate Inv(s: System) {
    TreeOk(s.delegates) && Conserved(s) && Bounded(s) && OncePerToken(s)
  }

  // -------------------------------------------------------------------- growth

  lemma {:induction false} DescendsFromEarlier(delegates: seq<Delegate>, id: GrantId, ancestor: GrantId)
    requires Descends(delegates, id, ancestor)
    ensures ancestor <= id
    decreases id
  {
    if id != ancestor { DescendsFromEarlier(delegates, delegates[id].parent.value, ancestor); }
  }

  lemma {:induction false} DescendsStays(delegates: seq<Delegate>, more: seq<Delegate>, id: GrantId, ancestor: GrantId)
    requires delegates <= more && id < |delegates|
    ensures Descends(more, id, ancestor) <==> Descends(delegates, id, ancestor)
    decreases id
  {
    if delegates[id].parent.Some? && delegates[id].parent.value < id {
      DescendsStays(delegates, more, delegates[id].parent.value, ancestor);
    }
  }

  lemma {:induction false} RedemptionsStay(delegates: seq<Delegate>, more: seq<Delegate>, history: seq<(GrantId, TokenDigest)>, g: GrantId)
    requires delegates <= more && forall k :: 0 <= k < |history| ==> history[k].0 < |delegates|
    ensures Redemptions(more, history, g) == Redemptions(delegates, history, g)
    ensures g >= |delegates| ==> Redemptions(delegates, history, g) == 0
    decreases |history|
  {
    if history != [] {
      var last := |history| - 1;
      RedemptionsStay(delegates, more, history[..last], g);
      DescendsStays(delegates, more, history[last].0, g);
      if Descends(delegates, history[last].0, g) { DescendsFromEarlier(delegates, history[last].0, g); }
    }
  }

  lemma OldBudgetsStayOk(delegates: seq<Delegate>, more: seq<Delegate>, id: GrantId)
    requires delegates <= more && id < |delegates| && BudgetsOk(delegates, id)
    ensures BudgetsOk(more, id)
  {
    forall g: GrantId ensures Draws(more[id].budgets, g) <==> Limited(more, g) && Descends(more, id, g) {
      DescendsStays(delegates, more, id, g);
      if Descends(delegates, id, g) { DescendsFromEarlier(delegates, id, g); }
    }
  }

  lemma OwnBudgetDraws(id: GrantId, grant: Grant, g: GrantId)
    ensures Draws(OwnBudget(id, grant), g) <==> g == id && grant.maxUses.Some?
  {
    if grant.maxUses.Some? { assert OwnBudget(id, grant)[0].0 == id; }
  }

  lemma NewBudgetsOk(delegates: seq<Delegate>, grant: Grant, parent: Option<GrantId>)
    requires parent.Some? ==> parent.value < |delegates| && BudgetsOk(delegates, parent.value)
    ensures BudgetsOk(delegates + [NewDelegate(delegates, grant, parent)], |delegates|)
  {
    var more := delegates + [NewDelegate(delegates, grant, parent)];
    var n := |delegates|;
    var inherited, own := if parent.Some? then delegates[parent.value].budgets else [], OwnBudget(n, grant);
    assert more[n].budgets == inherited + own;
    forall g: GrantId ensures Draws(inherited + own, g) <==> Limited(more, g) && Descends(more, n, g) {
      DrawsJoined(inherited, own, g);
      OwnBudgetDraws(n, grant, g);
      if parent.Some? {
        DescendsStays(delegates, more, parent.value, g);
        if Descends(delegates, parent.value, g) { DescendsFromEarlier(delegates, parent.value, g); }
      }
    }
  }

  lemma NewDelegateIsOk(delegates: seq<Delegate>, grant: Grant, parent: Option<GrantId>)
    requires TreeOk(delegates) && (parent.Some? ==> parent.value < |delegates|)
    ensures TreeOk(delegates + [NewDelegate(delegates, grant, parent)])
  {
    var more := delegates + [NewDelegate(delegates, grant, parent)];
    forall id | 0 <= id < |more| ensures BudgetsOk(more, id) {
      if id < |delegates| {
        OldBudgetsStayOk(delegates, more, id);
      } else {
        NewBudgetsOk(delegates, grant, parent);
      }
    }
  }

  lemma DrawsJoined(a: Budgets, b: Budgets, g: GrantId)
    ensures Draws(a + b, g) <==> Draws(a, g) || Draws(b, g)
  {
    if Draws(a, g) { var i :| 0 <= i < |a| && a[i].0 == g; assert (a + b)[i].0 == g; }
    if Draws(b, g) { var i :| 0 <= i < |b| && b[i].0 == g; assert (a + b)[|a| + i].0 == g; }
  }

  lemma GrowthKeepsInv(s: System, grant: Grant, parent: Option<GrantId>)
    requires Inv(s) && (parent.Some? ==> parent.value < |s.delegates|)
    ensures Inv(s.(delegates := s.delegates + [NewDelegate(s.delegates, grant, parent)]))
  {
    var t := s.(delegates := s.delegates + [NewDelegate(s.delegates, grant, parent)]);
    NewDelegateIsOk(s.delegates, grant, parent);
    forall g: GrantId | Limited(t.delegates, g) ensures Used(t.quota, g) == Redemptions(t.delegates, t.history, g) {
      RedemptionsStay(s.delegates, t.delegates, s.history, g);
    }
  }

  // ---------------------------------------------------------------- redemption

  /** All budgets are charged, each once, and no other counter moves. */
  lemma {:induction false} ChargeChargesEach(quota: Quota, budgets: Budgets, g: GrantId)
    requires Ascending(budgets)
    ensures Used(Charge(quota, budgets), g) == Used(quota, g) + if Draws(budgets, g) then 1 else 0
    ensures g in Charge(quota, budgets) <==> g in quota || Draws(budgets, g)
    decreases |budgets|
  {
    if budgets != [] {
      var first := budgets[0].0;
      assert budgets == [budgets[0]] + budgets[1..];
      DrawsJoined([budgets[0]], budgets[1..], g);
      assert Draws([budgets[0]], g) <==> g == first;
      assert !Draws(budgets[1..], first);
      ChargeChargesEach(quota[first := Used(quota, first) + 1], budgets[1..], g);
    }
  }

  lemma RedeemKeepsInv(s: System, who: GrantId, token: TokenDigest)
    requires Inv(s) && who < |s.delegates| && Admits(s.quota, s.redeemed, s.delegates[who].budgets, token)
    ensures Inv(s.(quota := Charge(s.quota, s.delegates[who].budgets), redeemed := s.redeemed + {token},
                   history := s.history + [(who, token)]))
  {
    var budgets := s.delegates[who].budgets;
    var t := s.(quota := Charge(s.quota, budgets), redeemed := s.redeemed + {token}, history := s.history + [(who, token)]);
    assert BudgetsOk(s.delegates, who);
    forall g: GrantId | Limited(s.delegates, g) ensures Used(t.quota, g) == Redemptions(t.delegates, t.history, g) {
      ChargeChargesEach(s.quota, budgets, g);
      assert t.history[..|s.history|] == s.history;
    }
    forall g | g in t.quota
      ensures Limited(s.delegates, g) && 1 <= t.quota[g] && (t.quota[g] == 1 || t.quota[g] <= s.delegates[g].grant.maxUses.value)
    {
      ChargeChargesEach(s.quota, budgets, g);
      if Draws(budgets, g) {
        var i :| 0 <= i < |budgets| && budgets[i].0 == g;
        assert HasRoom(s.quota, budgets[i]);
      }
    }
    OneMoreRedemption(s, who, token, t);
  }

  lemma OneMoreRedemption(s: System, who: GrantId, token: TokenDigest, t: System)
    requires OncePerToken(s) && who < |s.delegates| && token !in s.redeemed
    requires t.delegates == s.delegates && t.redeemed == s.redeemed + {token} && t.history == s.history + [(who, token)]
    ensures OncePerToken(t)
  {
    var n := |s.history|;
    assert t.history[n].1 == token;
    assert forall k :: 0 <= k < n ==> t.history[k] == s.history[k];
  }

  lemma StepKeepsInv(s: System, event: Event)
    requires Inv(s)
    ensures Inv(Step(s, event))
  {
    match event
    case Root(grant) => GrowthKeepsInv(s, grant, None);
    case Narrow(parent, grant) => if parent < |s.delegates| { GrowthKeepsInv(s, grant, Some(parent)); }
    case Redeem(who, token) =>
      if who < |s.delegates| && Admits(s.quota, s.redeemed, s.delegates[who].budgets, token) { RedeemKeepsInv(s, who, token); }
  }

  lemma {:induction false} RunKeepsInv(s: System, events: seq<Event>)
    requires Inv(s)
    ensures Inv(Run(s, events))
    decreases |events|
  {
    if events != [] {
      StepKeepsInv(s, events[0]);
      RunKeepsInv(Step(s, events[0]), events[1..]);
    }
  }

  /** Main result: over any tree of delegates and any interleaving of their redemptions, the counter
      of each limited grant is the number of tokens it and its descendants redeemed; it never
      exceeds the limit, or one where the limit is below one; and no token is redeemed twice. */
  lemma QuotaIsConserved(events: seq<Event>)
    ensures var s := Run(EMPTY, events);
      && Conserved(s) && OncePerToken(s)
      && forall g: GrantId :: Limited(s.delegates, g) ==>
           Redemptions(s.delegates, s.history, g) <= s.delegates[g].grant.maxUses.value
           || Redemptions(s.delegates, s.history, g) <= 1
  {
    RunKeepsInv(EMPTY, events);
  }

  /** Main result: in every run, a delegate that draws on a budget redeems a token exactly when the
      token is new and every limited grant from it upwards is still unused or below its limit; then the
      redemption is recorded. So a limit can be used up, and is. */
  lemma RedeemedExactly(events: seq<Event>, who: GrantId, token: TokenDigest)
    requires who < |Run(EMPTY, events).delegates| && Run(EMPTY, events).delegates[who].budgets != []
    ensures var s := Run(EMPTY, events);
      var t := Step(s, Redeem(who, token));
      if (forall k :: 0 <= k < |s.history| ==> s.history[k].1 != token)
         && (forall g: GrantId :: Limited(s.delegates, g) && Descends(s.delegates, who, g) ==> HasUsesLeft(s, g))
      then t.history == s.history + [(who, token)] else t == s
  {
    RunKeepsInv(EMPTY, events);
    AdmittedExactly(Run(EMPTY, events), who, token);
  }

  /** A new delegate is one more, with its grant and its parent; the ledger is as before. */
  lemma DelegatesAreAdded(s: System, grant: Grant, parent: Option<GrantId>)
    requires parent.Some? ==> parent.value < |s.delegates|
    ensures var t := Step(s, if parent.Some? then Narrow(parent.value, grant) else Root(grant));
      && |t.delegates| == |s.delegates| + 1 && t.delegates[..|s.delegates|] == s.delegates
      && t.delegates[|s.delegates|].grant == grant && t.delegates[|s.delegates|].parent == parent
      && t.quota == s.quota && t.redeemed == s.redeemed && t.history == s.history
  {
  }

  predicate HasUsesLeft(s: System, g: GrantId)
    requires Limited(s.delegates, g)
  {
    var used := Redemptions(s.delegates, s.history, g);
    used == 0 || used < s.delegates[g].grant.maxUses.value
  }

  lemma AdmittedExactly(s: System, who: GrantId, token: TokenDigest)
    requires Inv(s) && who < |s.delegates|
    ensures Admits(s.quota, s.redeemed, s.delegates[who].budgets, token) <==>
      && (forall k :: 0 <= k < |s.history| ==> s.history[k].1 != token)
      && (forall g: GrantId :: Limited(s.delegates, g) && Descends(s.delegates, who, g) ==> HasUsesLeft(s, g))
  {
    var budgets := s.delegates[who].budgets;
    assert BudgetsOk(s.delegates, who);
    forall i | 0 <= i < |budgets| ensures HasRoom(s.quota, budgets[i]) <==> HasUsesLeft(s, budgets[i].0) { RoomIsUsesLeft(s, budgets[i]); }
    if forall g: GrantId :: Limited(s.delegates, g) && Descends(s.delegates, who, g) ==> HasUsesLeft(s, g) {
      forall i | 0 <= i < |budgets| ensures HasRoom(s.quota, budgets[i]) { assert Draws(budgets, budgets[i].0); }
    }
    if forall i :: 0 <= i < |budgets| ==> HasRoom(s.quota, budgets[i]) {
      forall g: GrantId | Limited(s.delegates, g) && Descends(s.delegates, who, g) ensures HasUsesLeft(s, g) {
        assert Draws(budgets, g);
        var i :| 0 <= i < |budgets| && budgets[i].0 == g;
      }
    }
  }

  lemma RoomIsUsesLeft(s: System, budget: (GrantId, int))
    requires Conserved(s) && Bounded(s) && Limited(s.delegates, budget.0) && s.delegates[budget.0].grant.maxUses == Some(budget.1)
    ensures HasRoom(s.quota, budget) <==> HasUsesLeft(s, budget.0)
  {
    assert Used(s.quota, budget.0) == Redemptions(s.delegates, s.history, budget.0);
  }

  /** In every run, every grant with this limit is redeemed at most so often. */
  ghost predicate LimitHolds(limit: int) {
    forall events, g: GrantId | Limited(Run(EMPTY, events).delegates, g) && Run(EMPTY, events).delegates[g].grant.maxUses.value == limit ::
      Redemptions(Run(EMPTY, events).delegates, Run(EMPTY, events).history, g) <= limit
  }

  /** A limit below one does not stop the first use: the source's check looks only at existing rows. */
  lemma LimitBelowOneAllowsOneUse(limit: int, token: TokenDigest)
    requires limit < 1
    ensures var s := Run(EMPTY, [Root(Grant({"t"}, Some(limit), None, map[])), Redeem(0, token)]);
      Limited(s.delegates, 0) && s.delegates[0].grant.maxUses == Some(limit) && Redemptions(s.delegates, s.history, 0) == 1
  {
    var grant := Grant({"t"}, Some(limit), None, map[]);
    var events := [Root(grant), Redeem(0, token)];
    var one := Step(EMPTY, Root(grant));
    assert NewDelegate([], grant, None).budgets == [(0, limit)];
    assert one.delegates == [NewDelegate([], grant, None)];
    TwoSteps(EMPTY, events[0], events[1]);
    var two := Step(one, Redeem(0, token));
    assert two.delegates == one.delegates && two.history == [(0, token)] by {
      assert Admits(one.quota, one.redeemed, one.delegates[0].budgets, token);
    }
    FirstRedemption(two.delegates, token);
  }

  lemma TwoSteps(s: System, first: Event, second: Event)
    ensures Run(s, [first, second]) == Step(Step(s, first), second)
  {
    assert [first, second][1..] == [second] && [second][1..] == [];
    assert Run(Step(s, first), [second]) == Run(Step(Step(s, first), second), []);
  }

  lemma FirstRedemption(delegates: seq<Delegate>, token: TokenDigest)
    ensures Redemptions(delegates, [(0, token)], 0) == 1
  {
  }

  /** So limits are kept exactly from one upwards. */
  lemma LimitHoldsExactly(limit: int)
    ensures LimitHolds(limit) <==> limit >= 1
  {
    if limit < 1 {
      LimitBelowOneAllowsOneUse(limit, Malformed(""));
    } else {
      forall events, g: GrantId | Limited(Run(EMPTY, events).delegates, g) && Run(EMPTY, events).delegates[g].grant.maxUses.value == limit
        ensures Redemptions(Run(EMPTY, events).delegates, Run(EMPTY, events).history, g) <= limit
      {
        QuotaIsConserved(events);
      }
    }
  }
}
