/** Delegated authority (`Grant`, `DelegatedAuthority._within_grant`): the order of grants and what it
    lets a subagent do. */
module Grants {
  import opened Values

  /** Required arguments: for a tool, the values its arguments must have. */
  type Constraints = map<string, Record>

  datatype Grant = Grant(tools: set<string>, maxUses: Option<int>, expiresAt: Option<real>, constraints: Constraints)

  /** `constraints.get(tool, {})`. */
  function Required(g: Grant, tool: string): Record {
    if tool in g.constraints then g.constraints[tool] else map[]
  }

  /** `all(mine.get(key) == value for key, value in required.items())`. */
  predicate Meets(mine: Record, required: Record) {
    forall key :: key in required ==> Get(mine, key) == required[key]
  }

  predicate IsSubsetOf(g: Grant, parent: Grant) {
    && g.tools <= parent.tools
    && (parent.maxUses.Some? ==> g.maxUses.Some? && g.maxUses.value <= parent.maxUses.value)
    && (parent.expiresAt.Some? ==> g.expiresAt.Some? && g.expiresAt.value <= parent.expiresAt.value)
    && (forall tool :: tool in parent.constraints && tool in g.tools ==> Meets(Required(g, tool), parent.constraints[tool]))
  }

  /** `set(mine.items()) > set(theirs.items())`. */
  predicate MoreItems(mine: Record, theirs: Record) {
    mine.Items > theirs.Items
  }

  /** The hand-written test for a strictly narrower grant. */
  predicate IsStrictlyNarrowerThan(g: Grant, parent: Grant) {
    if !IsSubsetOf(g, parent) then false
    else if g.tools < parent.tools then true
    else if g.maxUses.Some? && g.maxUses != parent.maxUses then true
    else if g.expiresAt.Some? && g.expiresAt != parent.expiresAt then true
    else exists tool :: tool in g.tools && MoreItems(Required(g, tool), Required(parent, tool))
  }

  /** Sets can hold neither lists nor dictionaries. */
  predicate Hashable(record: Record) {
    forall key :: key in record ==> !record[key].List? && !record[key].Object?
  }

  /** A list or a dictionary anywhere among the values is enough. */
  lemma UnhashableExactly(record: Record)
    ensures !Hashable(record) <==> exists key :: key in record && (record[key].List? || record[key].Object?)
  {
  }

  /** The test as it runs, over the tools in any order: `None` when it has to build a set of items
      that are not hashable, which raises. */
  method TestStrictlyNarrower(g: Grant, parent: Grant, order: seq<string>) returns (r: Option<bool>)
    requires forall tool :: tool in order <==> tool in g.tools
    ensures r.Some? ==> r.value == IsStrictlyNarrowerThan(g, parent)
    ensures r.None? ==> exists tool :: tool in g.tools && !(Hashable(Required(g, tool)) && Hashable(Required(parent, tool)))
    ensures r == Some(false) && IsSubsetOf(g, parent) ==>
      forall tool :: tool in g.tools ==> Hashable(Required(g, tool)) && Hashable(Required(parent, tool))
  {
    if !IsSubsetOf(g, parent) { return Some(false); }
    if g.tools < parent.tools { return Some(true); }
    if g.maxUses.Some? && g.maxUses != parent.maxUses { return Some(true); }
    if g.expiresAt.Some? && g.expiresAt != parent.expiresAt { return Some(true); }
    for n := 0 to |order|
      invariant forall i :: 0 <= i < n ==> !MoreItems(Required(g, order[i]), Required(parent, order[i]))
      invariant forall i :: 0 <= i < n ==> Hashable(Required(g, order[i])) && Hashable(Required(parent, order[i]))
    {
      var mine, theirs := Required(g, order[n]), Required(parent, order[n]);
      assert order[n] in g.tools;
      if !Hashable(mine) || !Hashable(theirs) { return None; }
      if MoreItems(mine, theirs) { return Some(true); }
    }
    return Some(false);
  }

  /** `dict.get` cannot tell a null value from a missing one; constraints without null values avoid
      the confusion. */
  predicate NoNulls(g: Grant) {
    forall tool, key :: tool in g.constraints && key in g.constraints[tool] ==> g.constraints[tool][key] != Null
  }

  // ------------------------------------------------------------------ the order

  lemma SubsetIsReflexive(g: Grant)
    ensures IsSubsetOf(g, g)
  {
  }

  /** Where `c` requires a null, `a` requires nothing else. */
  predicate RespectsNulls(a: Grant, c: Grant) {
    forall tool, key :: tool in a.tools && tool in c.constraints && key in c.constraints[tool] ==>
      c.constraints[tool][key] == Null ==> Get(Required(a, tool), key) == Null
  }

  /** The subset test is transitive exactly up to nulls: of three grants in a row the first is below
      the last if and only if it respects the last one's nulls. Without nulls it always is. */
  lemma SubsetIsTransitiveExactly(a: Grant, b: Grant, c: Grant)
    requires IsSubsetOf(a, b) && IsSubsetOf(b, c)
    ensures IsSubsetOf(a, c) <==> RespectsNulls(a, c)
    ensures NoNulls(c) ==> IsSubsetOf(a, c)
  {
  }

  /** With a null constraint the order is not transitive. */
  lemma NullBreaksTransitivity()
    ensures var a := Grant({"t"}, None, None, map["t" := map["k" := Bool(true)]]);
      var b := Grant({"t"}, None, None, map[]);
      var c := Grant({"t"}, None, None, map["t" := map["k" := Null]]);
      IsSubsetOf(a, b) && IsSubsetOf(b, c) && !IsSubsetOf(a, c)
  {
    assert !Meets(map["k" := Bool(true)], map["k" := Null]) by { assert Get(map["k" := Bool(true)], "k") != map["k" := Null]["k"]; }
  }

  predicate SameLimits(a: Grant, c: Grant) {
    a.tools == c.tools && a.maxUses == c.maxUses && a.expiresAt == c.expiresAt
  }

  /** `a` fixes an argument of the tool, to something else than null, that `c` leaves open. */
  predicate FixesMore(a: Grant, c: Grant, tool: string) {
    exists key :: key in Required(a, tool) && key !in Required(c, tool) && Required(a, tool)[key] != Null
  }

  /** `a` writes a null for an argument of the tool that `c` leaves open. */
  predicate AddsNull(a: Grant, c: Grant, tool: string) {
    exists key :: key in Required(a, tool) && key !in Required(c, tool) && Required(a, tool)[key] == Null
  }

  /** `a` leaves out a null that `c` requires for the tool. */
  predicate DropsNull(a: Grant, c: Grant, tool: string) {
    exists key :: key in Required(c, tool) && key !in Required(a, tool) && Required(c, tool)[key] == Null
  }

  /** Nothing but added nulls tells `a` from `c`. */
  predicate OnlyNullsAdded(a: Grant, c: Grant) {
    && (forall tool :: tool in a.tools ==> !FixesMore(a, c, tool))
    && (exists tool :: tool in a.tools && AddsNull(a, c, tool) && !DropsNull(a, c, tool))
  }

  /** `a` fixes more than `c`, but hides it: wherever it adds anything it leaves a required null out. */
  predicate HiddenByDroppedNulls(a: Grant, c: Grant) {
    && (exists tool :: tool in a.tools && FixesMore(a, c, tool))
    && (forall tool :: tool in a.tools && (FixesMore(a, c, tool) || AddsNull(a, c, tool)) ==> DropsNull(a, c, tool))
  }

  lemma MeetsIsItems(mine: Record, theirs: Record)
    requires Meets(mine, theirs)
    ensures MoreItems(mine, theirs) <==> theirs.Keys < mine.Keys
    ensures !Meets(theirs, mine) <==> exists key :: key in mine && key !in theirs && mine[key] != Null
  {
    assert forall key :: key in theirs && key in mine ==> mine[key] == theirs[key] by {
      assert forall key :: key in theirs ==> Get(mine, key) == theirs[key];
    }
    if theirs.Keys < mine.Keys {
      assert !(mine.Keys <= theirs.Keys);
      var key :| key in mine.Keys && key !in theirs.Keys;
      assert (key, mine[key]) in mine.Items && (key, mine[key]) !in theirs.Items;
    }
    if MoreItems(mine, theirs) {
      forall key | key in theirs ensures key in mine { assert (key, theirs[key]) in mine.Items; }
      assert !(mine.Items <= theirs.Items);
      var item :| item in mine.Items && item !in theirs.Items;
      assert item.0 !in theirs;
    }
  }

  /** A tool counts in the hand-written test when something is added and no required null left out. */
  lemma CountsExactly(a: Grant, c: Grant, tool: string)
    requires Meets(Required(a, tool), Required(c, tool))
    ensures MoreItems(Required(a, tool), Required(c, tool)) <==>
      (FixesMore(a, c, tool) || AddsNull(a, c, tool)) && !DropsNull(a, c, tool)
    ensures !Meets(Required(c, tool), Required(a, tool)) <==> FixesMore(a, c, tool)
  {
    var mine, theirs := Required(a, tool), Required(c, tool);
    MeetsIsItems(mine, theirs);
    forall key | key in theirs && key !in mine ensures theirs[key] == Null { assert Get(mine, key) == theirs[key]; }
    if theirs.Keys <= mine.Keys && !FixesMore(a, c, tool) && !AddsNull(a, c, tool) {
      assert mine.Keys <= theirs.Keys;
    }
  }

  /** Main result: the hand-written test is the strict part of the subset order unless nulls get in
      its way. For grants with the same tools and limits, of which the first passes the subset test,
      it fails exactly when nothing but added nulls tells them apart, or when dropped nulls hide what
      the first fixes more. */
  lemma StrictIsStrictPartExactly(a: Grant, c: Grant)
    ensures (IsStrictlyNarrowerThan(a, c) <==> IsSubsetOf(a, c) && !IsSubsetOf(c, a)) <==>
      !(IsSubsetOf(a, c) && SameLimits(a, c) && (OnlyNullsAdded(a, c) || HiddenByDroppedNulls(a, c)))
  {
    if IsSubsetOf(a, c) && SameLimits(a, c) {
      forall tool | tool in a.tools
        ensures MoreItems(Required(a, tool), Required(c, tool)) <==>
          (FixesMore(a, c, tool) || AddsNull(a, c, tool)) && !DropsNull(a, c, tool)
        ensures !Meets(Required(c, tool), Required(a, tool)) <==> FixesMore(a, c, tool)
      {
        assert Meets(Required(a, tool), Required(c, tool));
        CountsExactly(a, c, tool);
      }
      assert IsSubsetOf(c, a) <==> forall tool :: tool in a.tools ==> Meets(Required(c, tool), Required(a, tool));
    }
  }

  /** Grants without nulls are never in the way. */
  lemma StrictIsStrictPart(a: Grant, c: Grant)
    requires NoNulls(a) && NoNulls(c)
    ensures IsStrictlyNarrowerThan(a, c) <==> IsSubsetOf(a, c) && !IsSubsetOf(c, a)
  {
    StrictIsStrictPartExactly(a, c);
  }

  /** With a null constraint the test can call a grant strictly narrower than its equal in power. */
  lemma NullBreaksStrictness()
    ensures var a := Grant({"t"}, None, None, map["t" := map["k" := Null]]);
      var c := Grant({"t"}, None, None, map[]);
      IsStrictlyNarrowerThan(a, c) && IsSubsetOf(c, a)
  {
    var a := Grant({"t"}, None, None, map["t" := map["k" := Null]]);
    var c := Grant({"t"}, None, None, map[]);
    assert ("k", Null) in Required(a, "t").Items;
    assert MoreItems(Required(a, "t"), Required(c, "t"));
  }

  /** A delegation path: each grant strictly narrower than the one before. */
  ghost predicate IsPath(path: seq<Grant>) {
    && (forall i :: 0 <= i < |path| ==> NoNulls(path[i]))
    && (forall i :: 0 <= i < |path| - 1 ==> IsStrictlyNarrowerThan(path[i + 1], path[i]))
  }

  /** Down a path every later grant is below every earlier one, and not the other way round: no
      grant, nor one of equal power, ever comes back. */
  lemma {:induction false} PathDescends(path: seq<Grant>, i: nat, j: nat)
    requires IsPath(path) && i < j < |path|
    ensures IsSubsetOf(path[j], path[i]) && !IsSubsetOf(path[i], path[j])
    decreases j - i
  {
    StrictIsStrictPart(path[j], path[j - 1]);
    if i < j - 1 {
      PathDescends(path, i, j - 1);
      SubsetIsTransitiveExactly(path[j], path[j - 1], path[i]);
      if IsSubsetOf(path[i], path[j]) { SubsetIsTransitiveExactly(path[j - 1], path[i], path[j]); }
    }
  }

  // ---------------------------------------------------------------- authority

  /** `_within_grant` at time `now`. */
  predicate WithinGrant(g: Grant, tool: string, arguments: Record, now: real) {
    && tool in g.tools
    && (g.expiresAt.Some? ==> now < g.expiresAt.value)
    && Meets(arguments, Required(g, tool))
  }

  /** The caller's check for one delegation: every null value the parent requires for a tool the
      child keeps is written in the child's own constraints. */
  predicate KeepsNulls(child: Grant, parent: Grant) {
    forall tool, key :: tool in child.tools && tool in parent.constraints && key in parent.constraints[tool] ==>
      parent.constraints[tool][key] == Null ==> key in Required(child, tool)
  }

  lemma NarrowingKeepsAuthority(child: Grant, parent: Grant, tool: string, arguments: Record, now: real)
    requires IsSubsetOf(child, parent) && KeepsNulls(child, parent)
    requires WithinGrant(child, tool, arguments, now)
    ensures WithinGrant(parent, tool, arguments, now)
  {
  }

  /** A null the child leaves out widens its authority: some action passes the child only. */
  lemma DroppedNullWidens(child: Grant, parent: Grant, tool: string, key: string)
    requires tool in child.tools && tool in parent.constraints && key in parent.constraints[tool]
    requires parent.constraints[tool][key] == Null && key !in Required(child, tool)
    ensures exists arguments, now :: WithinGrant(child, tool, arguments, now) && !WithinGrant(parent, tool, arguments, now)
  {
    var arguments := Required(child, tool)[key := Bool(true)];
    var now := if child.expiresAt.Some? then child.expiresAt.value - 1.0 else 0.0;
    assert Meets(arguments, Required(child, tool));
    assert WithinGrant(child, tool, arguments, now);
    assert Get(arguments, key) != Null;
    assert !Meets(arguments, Required(parent, tool));
  }

  /** Main result: among grants that pass the subset test, authority never widens exactly when the
      nulls are kept. */
  lemma AuthorityNeverWidensExactly(child: Grant, parent: Grant)
    requires IsSubsetOf(child, parent)
    ensures KeepsNulls(child, parent) <==>
      forall tool, arguments, now :: WithinGrant(child, tool, arguments, now) ==> WithinGrant(parent, tool, arguments, now)
  {
    if KeepsNulls(child, parent) {
      forall tool, arguments, now | WithinGrant(child, tool, arguments, now) ensures WithinGrant(parent, tool, arguments, now) {
        NarrowingKeepsAuthority(child, parent, tool, arguments, now);
      }
    } else {
      var tool, key :| tool in child.tools && tool in parent.constraints && key in parent.constraints[tool]
        && parent.constraints[tool][key] == Null && key !in Required(child, tool);
      DroppedNullWidens(child, parent, tool, key);
    }
  }

  /** What the last grant of a path accepts, every grant above it accepts at the same time. */
  lemma {:induction false} PathKeepsAuthority(path: seq<Grant>, i: nat, j: nat, tool: string, arguments: Record, now: real)
    requires i <= j < |path|
    requires forall k :: 0 <= k < |path| - 1 ==> IsSubsetOf(path[k + 1], path[k]) && KeepsNulls(path[k + 1], path[k])
    requires WithinGrant(path[j], tool, arguments, now)
    ensures WithinGrant(path[i], tool, arguments, now)
    decreases j - i
  {
    if i < j {
      NarrowingKeepsAuthority(path[j], path[j - 1], tool, arguments, now);
      PathKeepsAuthority(path, i, j - 1, tool, arguments, now);
    }
  }

  // ------------------------------------------------------- what a subset is

  /** Not more uses than the parent, if the parent is limited. */
  predicate NoMoreUses(child: Grant, parent: Grant) {
    parent.maxUses.Some? ==> child.maxUses.Some? && child.maxUses.value <= parent.maxUses.value
  }

  /** Whatever the child accepts, at any time, the parent accepts then. */
  ghost predicate Contained(child: Grant, parent: Grant) {
    forall tool, arguments, now :: WithinGrant(child, tool, arguments, now) ==> WithinGrant(parent, tool, arguments, now)
  }

  /** Main result: a grant that names any tool is a subset, nulls kept, exactly when it allows no more
      uses and accepts nothing its parent does not accept. */
  lemma SubsetIsContainment(child: Grant, parent: Grant)
    requires child.tools != {}
    ensures IsSubsetOf(child, parent) && KeepsNulls(child, parent) <==> NoMoreUses(child, parent) && Contained(child, parent)
  {
    if IsSubsetOf(child, parent) && KeepsNulls(child, parent) {
      AuthorityNeverWidensExactly(child, parent);
    }
    if NoMoreUses(child, parent) && Contained(child, parent) {
      ContainedTools(child, parent);
      ContainedExpiry(child, parent);
      forall tool | tool in parent.constraints && tool in child.tools ensures Meets(Required(child, tool), parent.constraints[tool]) {
        ContainedConstraints(child, parent, tool);
      }
      AuthorityNeverWidensExactly(child, parent);
    }
  }

  /** A time at which a grant is good, after another one has ended if that ends earlier. */
  function GoodTime(child: Grant, parent: Grant): (now: real)
    ensures child.expiresAt.Some? ==> now < child.expiresAt.value
    ensures parent.expiresAt.Some? && (child.expiresAt.None? || parent.expiresAt.value < child.expiresAt.value) ==>
      parent.expiresAt.value <= now
  {
    if child.expiresAt.None? then (if parent.expiresAt.Some? then parent.expiresAt.value else 0.0)
    else if parent.expiresAt.Some? && parent.expiresAt.value < child.expiresAt.value then parent.expiresAt.value
    else child.expiresAt.value - 1.0
  }

  /** The required arguments themselves are accepted. */
  lemma RequiredIsAccepted(child: Grant, parent: Grant, tool: string)
    requires tool in child.tools
    ensures WithinGrant(child, tool, Required(child, tool), GoodTime(child, parent))
  {
  }

  lemma ContainedTools(child: Grant, parent: Grant)
    requires Contained(child, parent)
    ensures child.tools <= parent.tools
  {
    forall tool | tool in child.tools ensures tool in parent.tools { RequiredIsAccepted(child, parent, tool); }
  }

  lemma ContainedExpiry(child: Grant, parent: Grant)
    requires Contained(child, parent) && child.tools != {}
    ensures parent.expiresAt.Some? ==> child.expiresAt.Some? && child.expiresAt.value <= parent.expiresAt.value
  {
    var tool :| tool in child.tools;
    RequiredIsAccepted(child, parent, tool);
  }

  lemma ContainedConstraints(child: Grant, parent: Grant, tool: string)
    requires Contained(child, parent) && tool in child.tools && tool in parent.constraints
    ensures Meets(Required(child, tool), parent.constraints[tool])
  {
    RequiredIsAccepted(child, parent, tool);
  }

  /** A grant accepts actions of its tools until it ends, and nothing from then on. */
  lemma GrantsEnd(g: Grant, now: real)
    ensures (exists tool, arguments :: WithinGrant(g, tool, arguments, now)) <==>
      g.tools != {} && (g.expiresAt.Some? ==> now < g.expiresAt.value)
  {
    if tool :| tool in g.tools {
      assert (g.expiresAt.Some? ==> now < g.expiresAt.value) ==> WithinGrant(g, tool, Required(g, tool), now);
    }
  }

  /** Before its end it accepts exactly the actions of its tools that have every required value; a
      required null is also met by leaving the argument out. */
  lemma GrantsRequire(g: Grant, tool: string, arguments: Record, now: real)
    requires g.expiresAt.Some? ==> now < g.expiresAt.value
    ensures WithinGrant(g, tool, arguments, now) <==>
      tool in g.tools && (tool in g.constraints ==> forall key :: key in g.constraints[tool] ==>
        if key in arguments then arguments[key] == g.constraints[tool][key] else g.constraints[tool][key] == Null)
  {
  }

  // ------------------------------------------------------------------ use limits

  /** Down a whole path a limit is never lifted and never raised. */
  lemma PathLimitsNarrow(path: seq<Grant>, i: nat, j: nat)
    requires IsPath(path) && i < j < |path| && path[i].maxUses.Some?
    ensures path[j].maxUses.Some? && path[j].maxUses.value <= path[i].maxUses.value
  {
    PathDescends(path, i, j);
  }

  /** A subset of a limited grant is limited, and no higher. */
  lemma SubsetLimitsNarrow(g: Grant, parent: Grant)
    requires IsSubsetOf(g, parent)
    ensures NoMoreUses(g, parent)
  {
  }

  /** Of two grants that differ in their limits alone, the one with the lower limit is narrower, and no
      other. */
  lemma LowerLimitIsNarrower(a: Grant, c: Grant)
    requires a.tools == c.tools && a.expiresAt == c.expiresAt && a.constraints == c.constraints
    requires a.maxUses.Some? && c.maxUses.Some?
    ensures IsStrictlyNarrowerThan(a, c) <==> a.maxUses.value < c.maxUses.value
  {
  }

  /** The same for expiry: an earlier end is narrower. */
  lemma EarlierEndIsNarrower(a: Grant, c: Grant)
    requires a.tools == c.tools && a.maxUses == c.maxUses && a.constraints == c.constraints
    requires a.expiresAt.Some? && c.expiresAt.Some?
    ensures IsStrictlyNarrowerThan(a, c) <==> a.expiresAt.value < c.expiresAt.value
  {
  }
}
