/** A delegate's own test of a token (`DelegatedAuthority`): the grant, then the root authority, then
    the ledger. */
module Delegation {
  import opened Values
  import opened Approvals
  import opened Grants
  import opened GrantLedger

  datatype GrantError = NotNarrower | UnhashableConstraint | QuotaNeedsLedger

  /** A constraint value that Python cannot hash. */
  ghost predicate HasUnhashable(grant: Grant, tools: set<string>) {
    exists tool :: tool in tools && !Hashable(Required(grant, tool))
  }

  class DelegatedAuthority {
    const root: ApprovalAuthority
    const grant: Grant
    const ledger: Ledger?
    const budgets: Budgets

    constructor (root: ApprovalAuthority, grant: Grant, ledger: Ledger?, budgets: Budgets)
      ensures this.root == root && this.grant == grant && this.ledger == ledger && this.budgets == budgets
    {
      this.root, this.grant, this.ledger, this.budgets := root, grant, ledger, budgets;
    }

    /** The checks of `__init__`, and the delegate if they pass. `order` lists the tools of the grant. */
    static method Build(root: ApprovalAuthority, grant: Grant, parent: Option<Grant>, ledger: Ledger?, inherited: Budgets, id: GrantId,
                        order: seq<string>)
      returns (r: Result<DelegatedAuthority, GrantError>)
      requires forall tool :: tool in order <==> tool in grant.tools
      ensures r.Success? ==>
        && (parent.Some? ==> IsStrictlyNarrowerThan(grant, parent.value))
        && (grant.maxUses.Some? ==> ledger != null)
        && fresh(r.value) && r.value.root == root && r.value.grant == grant && r.value.ledger == ledger
        && r.value.budgets == inherited + OwnBudget(id, grant)
      ensures r.Failure? ==> match r.error
        case NotNarrower => parent.Some? && !IsStrictlyNarrowerThan(grant, parent.value)
        case UnhashableConstraint =>
          parent.Some? && (HasUnhashable(grant, grant.tools) || HasUnhashable(parent.value, grant.tools))
        case QuotaNeedsLedger => grant.maxUses.Some? && ledger == null
    {
      if parent.Some? {
        var narrower := TestStrictlyNarrower(grant, parent.value, order);
        if narrower.None? { return Failure(UnhashableConstraint); }
        if !narrower.value { return Failure(NotNarrower); }
      }
      if grant.maxUses.Some? && ledger == null { return Failure(QuotaNeedsLedger); }
      var made := new DelegatedAuthority(root, grant, ledger, inherited + OwnBudget(id, grant));
      return Success(made);
    }

    /** The child shares the root and the ledger, and draws on its parent's budgets as well. */
    method Narrow(grant: Grant, id: GrantId, order: seq<string>) returns (r: Result<DelegatedAuthority, GrantError>)
      requires forall tool :: tool in order <==> tool in grant.tools
      ensures r.Success? ==>
        && IsStrictlyNarrowerThan(grant, this.grant)
        && (grant.maxUses.Some? ==> ledger != null)
        && fresh(r.value) && r.value.root == root && r.value.grant == grant && r.value.ledger == ledger
        && r.value.budgets == budgets + OwnBudget(id, grant)
      ensures r.Failure? ==> match r.error
        case NotNarrower => !IsStrictlyNarrowerThan(grant, this.grant)
        case UnhashableConstraint => HasUnhashable(grant, grant.tools) || HasUnhashable(this.grant, grant.tools)
        case QuotaNeedsLedger => grant.maxUses.Some? && ledger == null
    {
      r := Build(root, grant, Some(this.grant), ledger, budgets, id, order);
    }

    /** `verify`: a token outside the grant is left alone; one the root accepts is spent there even
        if the ledger then refuses it. */
    method Verify(action: Action, token: Option<Token>, now: int, clock: real) returns (ok: bool)
      modifies root, if ledger == null then {} else {ledger}
      ensures var within := WithinGrant(grant, action.tool, action.arguments, clock);
        var accepted := within && Accepts(root.secret, old(root.used), action, token, now);
        && ok == (accepted && (budgets == [] ||
             (ledger != null && Admits(old(if ledger != null then ledger.quota else map[]),
                                       old(if ledger != null then ledger.redeemed else {}), budgets, token.value))))
        && root.used == (if accepted then old(root.used) + {token.value} else old(root.used))
        && (ledger != null ==>
              && ledger.quota == (if ok then Charge(old(ledger.quota), budgets) else old(ledger.quota))
              && ledger.redeemed == (if ok && budgets != [] then old(ledger.redeemed) + {token.value} else old(ledger.redeemed)))
    {
      if !WithinGrant(grant, action.tool, action.arguments, clock) { return false; }
      var accepted := root.Verify(action, token, now);
      if !accepted { return false; }
      if budgets == [] { return true; }
      if ledger == null { return false; }
      ok := ledger.Consume(budgets, token.value);
    }
  }
}
