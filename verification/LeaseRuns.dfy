/** Whole runs of the scheduler: what becomes of every claim token, and why no scheduled minute is
    completed twice. */
module LeaseRuns {
  import opened Values
  import opened Cron
  import opened IsoTime
  import opened Scheduler

  /** The calls a host makes; a refused call changes nothing. */
  datatype Event =
    | Add(id: JobId, schedule: Schedule, goal: string)
    | Remove(id: JobId)
    | Claim(now: nat, seconds: int, mint: map<JobId, Token>)
    | Heartbeat(id: JobId, now: nat, token: Token, seconds: int)
    | MarkRun(id: JobId, ranAt: nat, holder: Option<Token>)
    | Retry(id: JobId, now: nat)

  /** What was claimed when a token was issued: the job, and the cron minute that made it due. */
  datatype Issue = Issue(job: JobId, schedule: Schedule, fire: int, at: nat)

  /** The table with its history: all job ids and claims ever issued, the tokens of completed claims
      in order, and the tokens given up by reconciliation or by removal of their job. */
  datatype World = World(jobs: Table, ids: set<JobId>, issued: map<Token, Issue>, completed: seq<Token>,
                         reconciled: set<Token>, removed: set<Token>)

  const EMPTY: World := World(map[], {}, map[], [], {}, {})

  /** Freshly drawn tokens: different from each other and from every token before. */
  ghost predicate Fresh(w: World, mint: map<JobId, Token>) {
    && (forall id :: id in mint ==> mint[id] !in w.issued)
    && (forall i, j :: i in mint && j in mint && mint[i] == mint[j] ==> i == j)
  }

  /** Which calls are considered: all of them, as long as identifiers are never drawn twice. */
  ghost predicate Legal(w: World, event: Event) {
    match event
    case Add(id, _, _) => id !in w.ids
    case Claim(_, _, mint) => w.jobs.Keys <= mint.Keys && Fresh(w, mint)
    case _ => true
  }

  /** A run that is recorded is recorded no earlier than the minute that made it due, or than the run
      before it. Only the results about cron minutes ask for this. */
  ghost predicate Punctual(w: World, event: Event) {
    event.MarkRun? && MarkOk(w.jobs, event.id, event.holder) ==>
      if event.holder.Some? then
        event.holder.value in w.issued ==> w.issued[event.holder.value].fire <= event.ranAt / 60_000_000
      else w.jobs[event.id].lastRun.Some? ==> w.jobs[event.id].lastRun.value <= event.ranAt
  }

  function TokenOf(jobs: Table, id: JobId): set<Token> {
    if id in jobs && jobs[id].token.Some? then {jobs[id].token.value} else {}
  }

  /** The claims handed out to `ready` jobs. */
  ghost function NewIssues(w: World, fires: Fires, now: nat, ready: set<JobId>, mint: map<JobId, Token>): (r: map<Token, Issue>)
    requires ready <= w.jobs.Keys <= mint.Keys && Fresh(w, mint)
    requires forall id :: id in ready ==> fires(w.jobs[id]).Some?
    ensures forall t :: t in r <==> exists id :: id in ready && mint[id] == t
    ensures forall id :: id in ready ==>
      mint[id] in r && r[mint[id]] == Issue(id, w.jobs[id].schedule, fires(w.jobs[id]).value, now)
  {
    map id | id in ready :: mint[id] := Issue(id, w.jobs[id].schedule, fires(w.jobs[id]).value, now)
  }

  /** The claim of all due jobs, given what each job waits for. */
  ghost function HandOut(w: World, fires: Fires, now: nat, lease: string, mint: map<JobId, Token>): World
    requires w.jobs.Keys <= mint.Keys && Fresh(w, mint)
  {
    if AllFire(w.jobs, fires) then
      var due := DueIn(w.jobs, fires, now);
      w.(jobs := ClaimThese(w.jobs, due, lease, mint),
         issued := w.issued + NewIssues(w, fires, now, ClaimableIn(w.jobs, due), mint))
    else w
  }

  ghost function ClaimStep(w: World, zone: Zone, now: nat, seconds: int, mint: map<JobId, Token>): World
    requires w.jobs.Keys <= mint.Keys && Fresh(w, mint)
  {
    if seconds >= 1 then HandOut(w, FiresAt(zone, now), now, LeaseUntil(now, seconds), mint) else w
  }

  ghost function Step(w: World, zone: Zone, event: Event): World
    requires Legal(w, event)
  {
    match event
    case Add(id, schedule, goal) =>
      w.(jobs := w.jobs[id := Job(schedule, goal, None, None, None)], ids := w.ids + {id})
    case Remove(id) =>
      w.(jobs := w.jobs - {id}, removed := w.removed + TokenOf(w.jobs, id))
    case Claim(now, seconds, mint) =>
      ClaimStep(w, zone, now, seconds, mint)
    case Heartbeat(id, now, token, seconds) =>
      if seconds >= 1 && HeartbeatOk(w.jobs, id, now, token) then
        w.(jobs := w.jobs[id := w.jobs[id].(lease := Some(LeaseUntil(now, seconds)))])
      else w
    case MarkRun(id, ranAt, holder) =>
      if MarkOk(w.jobs, id, holder) then
        w.(jobs := w.jobs[id := Marked(w.jobs[id], ranAt, holder)],
           completed := w.completed + if holder.Some? then [holder.value] else [])
      else w
    case Retry(id, now) =>
      if RetryOk(w.jobs, id, now) then
        w.(jobs := w.jobs[id := Released(w.jobs[id])], reconciled := w.reconciled + TokenOf(w.jobs, id))
      else w
  }

  // ----------------------------------------------------- what each call changes

  /** Adding and removing change their own row only. */
  lemma AddAndRemoveTakeEffect(w: World, zone: Zone, id: JobId, schedule: Schedule, goal: string)
    ensures id !in w.ids ==>
      var v := Step(w, zone, Add(id, schedule, goal));
      v == w.(jobs := w.jobs[id := Job(schedule, goal, None, None, None)], ids := w.ids + {id})
    ensures var v := Step(w, zone, Remove(id));
      && id !in v.jobs && (forall other :: other != id ==> (other in v.jobs <==> other in w.jobs))
      && (forall other :: other in v.jobs ==> v.jobs[other] == w.jobs[other])
      && (id in w.jobs && w.jobs[id].token.Some? ==> w.jobs[id].token.value in v.removed)
  {
  }

  /** A completion by the holder records the run and gives token and lease up, whether or not the lease
      is over; a run without a token is recorded on an unclaimed job only. */
  lemma MarkTakesEffect(w: World, zone: Zone, id: JobId, ranAt: nat, holder: Option<Token>)
    ensures var v := Step(w, zone, MarkRun(id, ranAt, holder));
      if id in w.jobs && w.jobs[id].token == holder then
        && v.jobs == w.jobs[id := Job(w.jobs[id].schedule, w.jobs[id].goal, Some(ranAt),
                                      if holder.Some? then None else w.jobs[id].lease, None)]
        && v.completed == w.completed + (if holder.Some? then [holder.value] else [])
      else v == w
  {
  }

  /** Reconciliation gives token and lease up, and records no run. */
  lemma RetryTakesEffect(w: World, zone: Zone, id: JobId, now: nat)
    ensures var v := Step(w, zone, Retry(id, now));
      if id in w.jobs && w.jobs[id].token.Some? && w.jobs[id].lease.Some? && TextAtMost(w.jobs[id].lease.value, Iso(now)) then
        && v.jobs == w.jobs[id := Job(w.jobs[id].schedule, w.jobs[id].goal, w.jobs[id].lastRun, None, None)]
        && v.reconciled == w.reconciled + {w.jobs[id].token.value}
      else v == w
  {
  }

  /** A claim takes every due job that is not claimed, when every job has a fire. */
  lemma ClaimTakesEffect(w: World, fires: Fires, now: nat, lease: string, mint: map<JobId, Token>, id: JobId)
    requires w.jobs.Keys <= mint.Keys && Fresh(w, mint) && id in w.jobs && w.jobs[id].token.None?
    requires (forall other :: other in w.jobs ==> fires(w.jobs[other]).Some?) && fires(w.jobs[id]).value * 60_000_000 <= now
    ensures var v := HandOut(w, fires, now, lease, mint);
      && id in v.jobs && v.jobs[id].token == Some(mint[id]) && v.jobs[id].lease == Some(lease)
      && mint[id] in v.issued && v.issued[mint[id]] == Issue(id, w.jobs[id].schedule, fires(w.jobs[id]).value, now)
  {
    var due := DueIn(w.jobs, fires, now);
    RowsAfterClaim(w.jobs, due, lease, mint);
    assert id in ClaimableIn(w.jobs, due);
  }

  /** A claim and a heartbeat of so many seconds hold the job for so many seconds from their time. */
  lemma HoldsForItsSeconds(jobs: Table, id: JobId, t: Token, now: nat, seconds: nat, later: nat, until: nat, lease: string)
    requires until == now + seconds * 1_000_000 && lease == LeaseUntil(now, seconds)
    requires id in jobs && jobs[id].token == Some(t) && jobs[id].lease == Some(lease)
    requires Representable(later) && Representable(until)
    ensures HeartbeatOk(jobs, id, later, t) <==> later < until
    ensures RetryOk(jobs, id, later) <==> until <= later
  {
    LeaseLasts(now, seconds, later, until, lease);
    CompareIsAntisymmetric(Iso(later), lease);
    GuardsExactly(jobs, id, later, t);
  }

  // -------------------------------------------------------------- fates of tokens

  predicate Outstanding(w: World, t: Token) {
    t in w.issued && var id := w.issued[t].job; id in w.jobs && w.jobs[id].token == Some(t)
  }

  /** In how many of the four places a token is. */
  function Fates(w: World, t: Token): nat {
    (if Outstanding(w, t) then 1 else 0) + (if t in w.completed then 1 else 0)
    + (if t in w.reconciled then 1 else 0) + (if t in w.removed then 1 else 0)
  }

  /** Rows are claimed with token and lease together, and their tokens were issued for them. */
  ghost predicate RowsOk(w: World) {
    && w.jobs.Keys <= w.ids
    && (forall t :: t in w.issued ==> w.issued[t].job in w.ids)
    && (forall id :: id in w.jobs ==> (w.jobs[id].token.Some? <==> w.jobs[id].lease.Some?))
    && (forall id :: id in w.jobs && w.jobs[id].token.Some? ==>
          w.jobs[id].token.value in w.issued && w.issued[w.jobs[id].token.value].job == id)
  }

  /** Every issued token, and no other, is in exactly one of the four places. */
  ghost predicate OneFateEach(w: World) {
    forall t: Token :: Fates(w, t) == if t in w.issued then 1 else 0
  }

  ghost predicate TokenInv(w: World) {
    RowsOk(w) && OneFateEach(w)
  }

  lemma ClaimKeepsTokens(w: World, zone: Zone, now: nat, seconds: int, mint: map<JobId, Token>)
    requires TokenInv(w) && w.jobs.Keys <= mint.Keys && Fresh(w, mint)
    ensures var v := ClaimStep(w, zone, now, seconds, mint);
      TokenInv(v) && forall t :: t in w.issued ==> t in v.issued && v.issued[t] == w.issued[t]
  {
    var fires := FiresAt(zone, now);
    if seconds >= 1 && AllFire(w.jobs, fires) {
      var due := DueIn(w.jobs, fires, now);
      HandOutKeepsTokens(w, due, LeaseUntil(now, seconds), mint, NewIssues(w, fires, now, ClaimableIn(w.jobs, due), mint));
    }
  }

  /** A handed out token is outstanding; no old token changes its fate. */
  lemma HandOutGivesFate(w: World, v: World, due: set<JobId>, lease: string, mint: map<JobId, Token>, given: map<Token, Issue>, t: Token)
    requires TokenInv(w) && due <= w.jobs.Keys <= mint.Keys && Fresh(w, mint)
    requires forall u :: u in given <==> exists id :: id in ClaimableIn(w.jobs, due) && mint[id] == u
    requires forall id :: id in ClaimableIn(w.jobs, due) ==> mint[id] in given && given[mint[id]].job == id
    requires v == w.(jobs := ClaimThese(w.jobs, due, lease, mint), issued := w.issued + given)
    ensures Fates(v, t) == if t in v.issued then 1 else 0
  {
    assert Fates(w, t) == if t in w.issued then 1 else 0;
    if t in given {
      var id :| id in ClaimableIn(w.jobs, due) && mint[id] == t;
      assert t !in w.issued && Outstanding(v, t);
    } else if t in w.issued {
      HeldRowsStay(w.jobs, due, lease, mint, w.issued[t].job, t);
    }
  }

  /** Handing out fresh tokens: each is outstanding, and no old one changes its fate. */
  lemma HandOutKeepsTokens(w: World, due: set<JobId>, lease: string, mint: map<JobId, Token>, given: map<Token, Issue>)
    requires TokenInv(w) && due <= w.jobs.Keys <= mint.Keys && Fresh(w, mint)
    requires forall t :: t in given <==> exists id :: id in ClaimableIn(w.jobs, due) && mint[id] == t
    requires forall id :: id in ClaimableIn(w.jobs, due) ==> mint[id] in given && given[mint[id]].job == id
    ensures var v := w.(jobs := ClaimThese(w.jobs, due, lease, mint), issued := w.issued + given);
      TokenInv(v) && forall t :: t in w.issued ==> t in v.issued && v.issued[t] == w.issued[t]
  {
    var v := w.(jobs := ClaimThese(w.jobs, due, lease, mint), issued := w.issued + given);
    assert forall t :: t in given ==> t !in w.issued;
    HandOutKeepsRows(w, due, lease, mint, given);
    forall t: Token ensures Fates(v, t) == if t in v.issued then 1 else 0 {
      HandOutGivesFate(w, v, due, lease, mint, given, t);
    }
  }

  lemma HandOutKeepsRows(w: World, due: set<JobId>, lease: string, mint: map<JobId, Token>, given: map<Token, Issue>)
    requires RowsOk(w) && due <= w.jobs.Keys <= mint.Keys
    requires forall t :: t in given <==> exists id :: id in ClaimableIn(w.jobs, due) && mint[id] == t
    requires forall id :: id in ClaimableIn(w.jobs, due) ==> mint[id] in given && given[mint[id]].job == id
    requires forall t :: t in given ==> t !in w.issued
    ensures RowsOk(w.(jobs := ClaimThese(w.jobs, due, lease, mint), issued := w.issued + given))
  {
  }

  /** A claim neither takes over nor imitates a claim that is there. */
  lemma HeldRowsStay(jobs: Table, due: set<JobId>, lease: string, mint: map<JobId, Token>, id: JobId, t: Token)
    requires due <= jobs.Keys <= mint.Keys
    requires id in jobs ==> mint[id] != t
    ensures id in jobs ==> (ClaimThese(jobs, due, lease, mint)[id].token == Some(t) <==> jobs[id].token == Some(t))
  {
  }

  /** An update of one row that leaves its token alone. */
  lemma UpdateKeepsTokens(w: World, id: JobId, job: Job)
    requires TokenInv(w) && id in w.jobs
    requires job.token == w.jobs[id].token && (job.token.Some? <==> job.lease.Some?)
    ensures TokenInv(w.(jobs := w.jobs[id := job]))
  {
  }

  lemma AddKeepsTokens(w: World, id: JobId, job: Job)
    requires TokenInv(w) && id !in w.ids && job.token.None? && job.lease.None?
    ensures TokenInv(w.(jobs := w.jobs[id := job], ids := w.ids + {id}))
  {
  }

  /** A row that gives its token up, into exactly one of the three places. */
  lemma ReleaseKeepsTokens(w: World, id: JobId, v: World)
    requires TokenInv(w) && id in w.jobs && w.jobs[id].token.Some?
    requires v.ids == w.ids && v.issued == w.issued
    requires v.jobs == w.jobs - {id} || exists job: Job :: job.token.None? && job.lease.None? && v.jobs == w.jobs[id := job]
    requires var t := w.jobs[id].token.value;
      || (v.completed == w.completed + [t] && v.reconciled == w.reconciled && v.removed == w.removed)
      || (v.completed == w.completed && v.reconciled == w.reconciled + {t} && v.removed == w.removed)
      || (v.completed == w.completed && v.reconciled == w.reconciled && v.removed == w.removed + {t})
    ensures TokenInv(v)
  {
    var given := w.jobs[id].token.value;
    forall t: Token ensures Fates(v, t) == if t in v.issued then 1 else 0 {
      assert Fates(w, t) == if t in w.issued then 1 else 0;
      assert t in w.completed + [given] <==> t in w.completed || t == given;
      assert Outstanding(w, given);
    }
  }

  lemma RemoveUnclaimedKeepsTokens(w: World, id: JobId, v: World)
    requires TokenInv(w) && (id in w.jobs ==> w.jobs[id].token.None?)
    requires v == w.(jobs := w.jobs - {id})
    ensures TokenInv(v)
  {
  }

  lemma StepKeepsTokens(w: World, zone: Zone, event: Event)
    requires TokenInv(w) && Legal(w, event)
    ensures var v := Step(w, zone, event);
      TokenInv(v) && forall t :: t in w.issued ==> t in v.issued && v.issued[t] == w.issued[t]
  {
    var v := Step(w, zone, event);
    match event
    case Claim(now, seconds, mint) => ClaimKeepsTokens(w, zone, now, seconds, mint);
    case Add(id, schedule, goal) => AddKeepsTokens(w, id, Job(schedule, goal, None, None, None));
    case Remove(id) =>
      if id in w.jobs && w.jobs[id].token.Some? {
        ReleaseKeepsTokens(w, id, v);
      } else {
        RemoveUnclaimedKeepsTokens(w, id, v);
      }
    case Heartbeat(id, _, _, _) => if v != w { UpdateKeepsTokens(w, id, v.jobs[id]); }
    case MarkRun(id, ranAt, holder) =>
      if MarkOk(w.jobs, id, holder) {
        if holder.Some? { ReleaseKeepsTokens(w, id, v); }
        else { assert v.completed == w.completed; UpdateKeepsTokens(w, id, v.jobs[id]); }
      }
    case Retry(id, now) => if RetryOk(w.jobs, id, now) { ReleaseKeepsTokens(w, id, v); }
  }

  // ------------------------------------------------------------- fires of claims

  ghost predicate FireInv(w: World, zone: Zone) {
    IssuesMatch(w.issued, zone) && HoldersAhead(w) && DoneBehind(w) && FiresIncrease(w.issued, w.completed)
  }

  ghost predicate IssueMatches(issue: Issue, zone: Zone) {
    Hits(issue.schedule, zone)(issue.fire) && issue.fire * 60_000_000 <= issue.at
  }

  ghost predicate IssuesMatch(issued: map<Token, Issue>, zone: Zone) {
    forall t :: t in issued ==> IssueMatches(issued[t], zone)
  }

  ghost predicate HoldersAhead(w: World) {
    forall id :: id in w.jobs && w.jobs[id].token.Some? && w.jobs[id].token.value in w.issued ==>
      HeldAfterLastRun(w.jobs[id], w.issued[w.jobs[id].token.value])
  }

  ghost predicate DoneBehind(w: World) {
    forall t :: t in w.completed ==>
      t in w.issued && (w.issued[t].job in w.jobs ==> RanAfter(w.jobs[w.issued[t].job], w.issued[t].fire))
  }

  ghost predicate HeldAfterLastRun(job: Job, issue: Issue) {
    job.schedule == issue.schedule && (job.lastRun.Some? ==> job.lastRun.value / 60_000_000 < issue.fire)
  }

  ghost predicate RanAfter(job: Job, fire: int) {
    job.lastRun.Some? && fire <= job.lastRun.value / 60_000_000
  }

  /** The completed claims of a job have ever later cron minutes. */
  ghost predicate FiresIncrease(issued: map<Token, Issue>, completed: seq<Token>) {
    forall i, j :: 0 <= i < j < |completed| && completed[i] in issued && completed[j] in issued
                   && issued[completed[i]].job == issued[completed[j]].job ==>
      issued[completed[i]].fire < issued[completed[j]].fire
  }

  lemma DueFire(job: Job, zone: Zone, now: nat)
    requires IsDue(job, FiresAt(zone, now), now)
    ensures var fire := FiresAt(zone, now)(job).value;
      && Hits(job.schedule, zone)(fire) && fire * 60_000_000 <= now
      && (job.lastRun.Some? ==> job.lastRun.value / 60_000_000 < fire)
  {
  }

  lemma ClaimKeepsFires(w: World, zone: Zone, now: nat, seconds: int, mint: map<JobId, Token>)
    requires TokenInv(w) && FireInv(w, zone) && w.jobs.Keys <= mint.Keys && Fresh(w, mint)
    ensures FireInv(ClaimStep(w, zone, now, seconds, mint), zone)
  {
    var fires := FiresAt(zone, now);
    if seconds >= 1 && AllFire(w.jobs, fires) {
      var due := DueIn(w.jobs, fires, now);
      var given := NewIssues(w, fires, now, ClaimableIn(w.jobs, due), mint);
      forall id | id in ClaimableIn(w.jobs, due)
        ensures IssueMatches(given[mint[id]], zone) && HeldAfterLastRun(w.jobs[id], given[mint[id]])
      {
        DueFire(w.jobs[id], zone, now);
      }
      HandOutKeepsFires(w, zone, due, LeaseUntil(now, seconds), mint, given);
    }
  }

  lemma HandOutKeepsFires(w: World, zone: Zone, due: set<JobId>, lease: string, mint: map<JobId, Token>, given: map<Token, Issue>)
    requires TokenInv(w) && FireInv(w, zone) && due <= w.jobs.Keys <= mint.Keys && Fresh(w, mint)
    requires forall t :: t in given <==> exists id :: id in ClaimableIn(w.jobs, due) && mint[id] == t
    requires forall id :: id in ClaimableIn(w.jobs, due) ==>
      IssueMatches(given[mint[id]], zone) && HeldAfterLastRun(w.jobs[id], given[mint[id]])
    ensures FireInv(w.(jobs := ClaimThese(w.jobs, due, lease, mint), issued := w.issued + given), zone)
  {
    var v := w.(jobs := ClaimThese(w.jobs, due, lease, mint), issued := w.issued + given);
    assert forall t :: t in given ==> t !in w.issued;
    assert IssuesMatch(v.issued, zone);
    HandOutKeepsHolders(w, due, lease, mint, given);
    HandOutKeepsDone(w, due, lease, mint, given);
    MoreIssuesKeepOrder(w.issued, given, w.completed);
  }

  lemma HandOutKeepsHolders(w: World, due: set<JobId>, lease: string, mint: map<JobId, Token>, given: map<Token, Issue>)
    requires RowsOk(w) && HoldersAhead(w) && due <= w.jobs.Keys <= mint.Keys
    requires forall t :: t in given ==> t !in w.issued
    requires forall id :: id in ClaimableIn(w.jobs, due) ==> mint[id] in given && HeldAfterLastRun(w.jobs[id], given[mint[id]])
    ensures HoldersAhead(w.(jobs := ClaimThese(w.jobs, due, lease, mint), issued := w.issued + given))
  {
  }

  lemma HandOutKeepsDone(w: World, due: set<JobId>, lease: string, mint: map<JobId, Token>, given: map<Token, Issue>)
    requires DoneBehind(w) && due <= w.jobs.Keys <= mint.Keys
    requires forall t :: t in given ==> t !in w.issued
    ensures DoneBehind(w.(jobs := ClaimThese(w.jobs, due, lease, mint), issued := w.issued + given))
  {
  }

  lemma MoreIssuesKeepOrder(issued: map<Token, Issue>, given: map<Token, Issue>, completed: seq<Token>)
    requires FiresIncrease(issued, completed) && forall t :: t in completed ==> t in issued && t !in given
    ensures FiresIncrease(issued + given, completed)
  {
  }

  /** Completing a claim no earlier than its minute puts that minute after all completed ones. */
  lemma CompleteKeepsFires(w: World, zone: Zone, id: JobId, ranAt: nat, t: Token)
    requires TokenInv(w) && FireInv(w, zone)
    requires id in w.jobs && w.jobs[id].token == Some(t) && w.issued[t].fire <= ranAt / 60_000_000
    ensures FireInv(w.(jobs := w.jobs[id := Marked(w.jobs[id], ranAt, Some(t))], completed := w.completed + [t]), zone)
  {
    var v := w.(jobs := w.jobs[id := Marked(w.jobs[id], ranAt, Some(t))], completed := w.completed + [t]);
    var issue := w.issued[t];
    assert IssueMatches(issue, zone) && HeldAfterLastRun(w.jobs[id], issue);
    assert issue.fire <= ranAt / 60_000_000;
    assert DoneBehind(v) by {
      forall u | u in v.completed
        ensures u in v.issued && (v.issued[u].job in v.jobs ==> RanAfter(v.jobs[v.issued[u].job], v.issued[u].fire))
      {
        assert u in w.completed || u == t;
      }
    }
    assert forall u :: u in w.completed && w.issued[u].job == id ==> w.issued[u].fire < issue.fire;
    CompletionKeepsOrder(w.issued, w.completed, t);
  }

  lemma CompletionKeepsOrder(issued: map<Token, Issue>, completed: seq<Token>, t: Token)
    requires FiresIncrease(issued, completed) && t in issued
    requires forall u :: u in completed && u in issued && issued[u].job == issued[t].job ==> issued[u].fire < issued[t].fire
    ensures FiresIncrease(issued, completed + [t])
  {
  }

  lemma RowKeepsFires(w: World, zone: Zone, id: JobId, job: Job)
    requires TokenInv(w) && FireInv(w, zone) && id in w.jobs
    requires job.schedule == w.jobs[id].schedule && (job.token.Some? ==> job.token == w.jobs[id].token)
    requires w.jobs[id].lastRun.Some? ==> job.lastRun.Some? && w.jobs[id].lastRun.value <= job.lastRun.value
    requires job.lastRun == w.jobs[id].lastRun || job.token.None?
    ensures FireInv(w.(jobs := w.jobs[id := job]), zone)
  {
  }

  lemma StepKeepsFires(w: World, zone: Zone, event: Event)
    requires TokenInv(w) && FireInv(w, zone) && Legal(w, event) && Punctual(w, event)
    ensures FireInv(Step(w, zone, event), zone)
  {
    var v := Step(w, zone, event);
    match event
    case Claim(now, seconds, mint) => ClaimKeepsFires(w, zone, now, seconds, mint);
    case Add(id, _, _) => assert forall t :: t in w.issued ==> w.issued[t].job != id;
    case Remove(id) =>
    case Heartbeat(id, _, _, _) => if v != w { RowKeepsFires(w, zone, id, v.jobs[id]); }
    case MarkRun(id, ranAt, holder) =>
      if MarkOk(w.jobs, id, holder) {
        if holder.Some? { CompleteKeepsFires(w, zone, id, ranAt, holder.value); }
        else { assert v.completed == w.completed; RowKeepsFires(w, zone, id, v.jobs[id]); }
      }
    case Retry(id, now) =>
      if RetryOk(w.jobs, id, now) {
        RowKeepsFires(w, zone, id, v.jobs[id]);
      }
  }

  // ------------------------------------------------------------------ whole runs

  ghost predicate LegalRun(w: World, zone: Zone, events: seq<Event>)
    decreases |events|
  {
    events == [] || (Legal(w, events[0]) && LegalRun(Step(w, zone, events[0]), zone, events[1..]))
  }

  ghost function Run(w: World, zone: Zone, events: seq<Event>): World
    requires LegalRun(w, zone, events)
    decreases |events|
  {
    if events == [] then w else Run(Step(w, zone, events[0]), zone, events[1..])
  }

  ghost predicate PunctualRun(w: World, zone: Zone, events: seq<Event>)
    requires LegalRun(w, zone, events)
    decreases |events|
  {
    events == [] || (Punctual(w, events[0]) && PunctualRun(Step(w, zone, events[0]), zone, events[1..]))
  }

  lemma {:induction false} RunKeepsTokens(w: World, zone: Zone, events: seq<Event>)
    requires TokenInv(w) && LegalRun(w, zone, events)
    ensures var v := Run(w, zone, events);
      && TokenInv(v)
      && (forall t :: t in w.issued ==> t in v.issued && v.issued[t] == w.issued[t])
      && (forall t :: t in w.issued && !Outstanding(w, t) ==> !Outstanding(v, t))
    decreases |events|
  {
    if events != [] {
      var next := Step(w, zone, events[0]);
      StepKeepsTokens(w, zone, events[0]);
      forall t | t in w.issued && !Outstanding(w, t) ensures !Outstanding(next, t) {
        ReleasedStaysReleased(w, zone, events[0], t);
      }
      RunKeepsTokens(next, zone, events[1..]);
    }
  }

  lemma {:induction false} RunKeepsFires(w: World, zone: Zone, events: seq<Event>)
    requires TokenInv(w) && FireInv(w, zone) && LegalRun(w, zone, events) && PunctualRun(w, zone, events)
    ensures FireInv(Run(w, zone, events), zone)
    decreases |events|
  {
    if events != [] {
      StepKeepsTokens(w, zone, events[0]);
      StepKeepsFires(w, zone, events[0]);
      RunKeepsFires(Step(w, zone, events[0]), zone, events[1..]);
    }
  }

  /** Nothing leaves the three places of released tokens. */
  lemma PlacesGrow(w: World, zone: Zone, event: Event)
    requires Legal(w, event)
    ensures var v := Step(w, zone, event);
      w.completed <= v.completed && w.reconciled <= v.reconciled && w.removed <= v.removed
  {
  }

  lemma ReleasedStaysReleased(w: World, zone: Zone, event: Event, t: Token)
    requires TokenInv(w) && Legal(w, event) && t in w.issued && !Outstanding(w, t)
    ensures !Outstanding(Step(w, zone, event), t)
  {
    var v := Step(w, zone, event);
    StepKeepsTokens(w, zone, event);
    PlacesGrow(w, zone, event);
    ReleasedInBoth(w, v, t);
  }

  lemma ReleasedInBoth(w: World, v: World, t: Token)
    requires TokenInv(w) && TokenInv(v) && t in w.issued && t in v.issued && !Outstanding(w, t)
    requires w.completed <= v.completed && w.reconciled <= v.reconciled && w.removed <= v.removed
    ensures !Outstanding(v, t)
  {
  }

  /** Main result: in every run from an empty table, whatever times are recorded, a job has a token
      exactly when it has a lease, and each token ever issued, and no other, is in exactly one of
      outstanding, completed, reconciled and removed. */
  lemma EveryTokenHasOneFate(zone: Zone, events: seq<Event>)
    requires LegalRun(EMPTY, zone, events)
    ensures var w := Run(EMPTY, zone, events);
      && (forall t: Token :: Fates(w, t) == if t in w.issued then 1 else 0)
      && (forall id :: id in w.jobs ==> (w.jobs[id].token.Some? <==> w.jobs[id].lease.Some?))
  {
    assert TokenInv(EMPTY);
    RunKeepsTokens(EMPTY, zone, events);
  }

  /** Main result: in every punctually recorded run the completed claims of a job carry distinct, ever
      later minutes that match its schedule, so no scheduled minute is completed twice. */
  lemma NoMinuteIsCompletedTwice(zone: Zone, events: seq<Event>)
    requires LegalRun(EMPTY, zone, events) && PunctualRun(EMPTY, zone, events)
    ensures var w := Run(EMPTY, zone, events);
      && (forall t :: t in w.completed ==> t in w.issued && Hits(w.issued[t].schedule, zone)(w.issued[t].fire))
      && FiresIncrease(w.issued, w.completed)
  {
    assert TokenInv(EMPTY) && FireInv(EMPTY, zone);
    RunKeepsFires(EMPTY, zone, events);
  }

  /** Why runs must not be recorded early: once a job ran for a matching minute, the next fire lies
      after that minute exactly when the recorded time does not lie before it. */
  lemma RecordedRunMovesOnExactly(job: Job, zone: Zone, fire: int, ranAt: nat, token: Option<Token>, now: nat)
    requires Hits(job.schedule, zone)(fire) && fire <= ranAt / 60_000_000 + WINDOW
    ensures var next := FiresAt(zone, now)(Marked(job, ranAt, token));
      (next.Some? ==> fire < next.value) <==> fire <= ranAt / 60_000_000
  {
  }

  lemma OnlyJobIsDue(jobs: Table, fires: Fires, now: nat, id: JobId, job: Job, lease: string, token: Token)
    requires jobs == map[id := job] && job.token.None? && IsDue(job, fires, now)
    ensures AllFire(jobs, fires) && DueIn(jobs, fires, now) == {id} && ClaimableIn(jobs, {id}) == {id}
    ensures ClaimThese(jobs, {id}, lease, map[id := token]) == map[id := Claimed(job, lease, token)]
  {
  }

  /** The world in which the only job holds its first claim of the minute `fire`. */
  function Holding(w: World, id: JobId, job: Job, lease: string, token: Token, fire: int, now: nat): World {
    w.(jobs := map[id := Claimed(job, lease, token)], issued := w.issued[token := Issue(id, job.schedule, fire, now)])
  }

  function Recorded(w: World, id: JobId, job: Job, token: Token, ranAt: nat): World {
    w.(jobs := map[id := job.(lastRun := Some(ranAt))], completed := w.completed + [token])
  }

  lemma HandOutToOnlyJob(w: World, fires: Fires, now: nat, lease: string, id: JobId, job: Job, token: Token, fire: int)
    requires w.jobs == map[id := job] && job.token.None? && token !in w.issued
    requires fires(job) == Some(fire) && fire * 60_000_000 <= now
    ensures HandOut(w, fires, now, lease, map[id := token]) == Holding(w, id, job, lease, token, fire, now)
  {
    OnlyJobIsDue(w.jobs, fires, now, id, job, lease, token);
    var given := NewIssues(w, fires, now, {id}, map[id := token]);
    assert given == map[token := Issue(id, job.schedule, fire, now)];
  }

  lemma StepOfClaim(w: World, zone: Zone, now: nat, seconds: nat, mint: map<JobId, Token>, fires: Fires, lease: string)
    requires seconds >= 1 && w.jobs.Keys <= mint.Keys && Fresh(w, mint)
    requires fires == FiresAt(zone, now) && lease == LeaseUntil(now, seconds)
    ensures Step(w, zone, Claim(now, seconds, mint)) == HandOut(w, fires, now, lease, mint)
  {
  }

  lemma OneIsFresh(w: World, id: JobId, job: Job, token: Token)
    requires w.jobs == map[id := job] && token !in w.issued
    ensures w.jobs.Keys <= map[id := token].Keys && Fresh(w, map[id := token])
  {
  }

  lemma ClaimOnlyJob(w: World, zone: Zone, now: nat, seconds: nat, id: JobId, job: Job, token: Token, fire: int, fires: Fires, lease: string)
    requires seconds >= 1 && w.jobs == map[id := job] && job.token.None? && token !in w.issued
    requires fires == FiresAt(zone, now) && lease == LeaseUntil(now, seconds)
    requires fires(job) == Some(fire) && fire * 60_000_000 <= now
    ensures var claim := Claim(now, seconds, map[id := token]);
      Legal(w, claim) && Step(w, zone, claim) == Holding(w, id, job, lease, token, fire, now)
  {
    OneIsFresh(w, id, job, token);
    HandOutToOnlyJob(w, fires, now, lease, id, job, token, fire);
    StepOfClaim(w, zone, now, seconds, map[id := token], fires, lease);
  }

  lemma MarkOnlyJob(w: World, zone: Zone, id: JobId, job: Job, lease: string, token: Token, ranAt: nat)
    requires w.jobs == map[id := Claimed(job, lease, token)] && job.token.None? && job.lease.None?
    ensures Step(w, zone, MarkRun(id, ranAt, Some(token))) == Recorded(w, id, job, token, ranAt)
  {
    assert Marked(Claimed(job, lease, token), ranAt, Some(token)) == job.(lastRun := Some(ranAt));
  }

  /** A run and one call more. */
  lemma {:induction false} OneMoreEvent(w: World, zone: Zone, events: seq<Event>, event: Event)
    requires LegalRun(w, zone, events) && Legal(Run(w, zone, events), event)
    ensures LegalRun(w, zone, events + [event])
    ensures Run(w, zone, events + [event]) == Step(Run(w, zone, events), zone, event)
    decreases |events|
  {
    if events == [] {
      assert events + [event] == [event] && [event][1..] == [];
    } else {
      assert (events + [event])[0] == events[0] && (events + [event])[1..] == events[1..] + [event];
      OneMoreEvent(Step(w, zone, events[0]), zone, events[1..], event);
    }
  }

  /** A run and one call more, whose effect is known. */
  lemma NextWorld(zone: Zone, events: seq<Event>, w: World, event: Event, v: World)
    requires LegalRun(EMPTY, zone, events) && Run(EMPTY, zone, events) == w
    requires Legal(w, event) && Step(w, zone, event) == v
    ensures LegalRun(EMPTY, zone, events + [event]) && Run(EMPTY, zone, events + [event]) == v
  {
    OneMoreEvent(EMPTY, zone, events, event);
  }

  lemma ClaimAndRecord(zone: Zone, events: seq<Event>, w: World, now: nat, seconds: nat, id: JobId, job: Job, token: Token, fire: int, ranAt: nat)
    returns (more: seq<Event>)
    requires LegalRun(EMPTY, zone, events) && Run(EMPTY, zone, events) == w
    requires seconds >= 1 && w.jobs == map[id := job] && job.token.None? && job.lease.None? && token !in w.issued
    requires FiresAt(zone, now)(job) == Some(fire) && fire * 60_000_000 <= now
    ensures LegalRun(EMPTY, zone, more)
    ensures Run(EMPTY, zone, more) == Recorded(Holding(w, id, job, LeaseUntil(now, seconds), token, fire, now), id, job, token, ranAt)
  {
    var lease, claim, mark := LeaseUntil(now, seconds), Claim(now, seconds, map[id := token]), MarkRun(id, ranAt, Some(token));
    var holding := Holding(w, id, job, lease, token, fire, now);
    ClaimOnlyJob(w, zone, now, seconds, id, job, token, fire, FiresAt(zone, now), lease);
    NextWorld(zone, events, w, claim, holding);
    MarkOnlyJob(holding, zone, id, job, lease, token, ranAt);
    NextWorld(zone, events + [claim], holding, mark, Recorded(holding, id, job, token, ranAt));
    more := events + [claim] + [mark];
  }

  /** With the run before recorded in the minute before it, the minute `fire` is due. */
  lemma FireNow(job: Job, zone: Zone, fire: int)
    requires fire >= 1 && Hits(job.schedule, zone)(fire)
    requires job.lastRun.Some? ==> job.lastRun.value == (fire - 1) * 60_000_000
    ensures FiresAt(zone, fire * 60_000_000)(job) == Some(fire)
  {
    assert AnchorMinute(job, fire * 60_000_000) == fire - 1;
  }

  lemma AddFirstJob(zone: Zone, schedule: Schedule) returns (events: seq<Event>)
    ensures LegalRun(EMPTY, zone, events)
    ensures Run(EMPTY, zone, events) == EMPTY.(jobs := map[0 := Job(schedule, "", None, None, None)], ids := {0})
  {
    OneMoreEvent(EMPTY, zone, [], Add(0, schedule, ""));
    events := [] + [Add(0, schedule, "")];
  }

  /** What an early record does: for any schedule and any of its minutes, there is a legal run in
      which the job completes that minute twice, under two tokens. */
  lemma EarlyRecordRepeatsMinute(zone: Zone, schedule: Schedule, fire: int, seconds: nat) returns (events: seq<Event>)
    requires seconds >= 1 && fire >= 1 && Hits(schedule, zone)(fire)
    ensures LegalRun(EMPTY, zone, events) && CompletedTwice(Run(EMPTY, zone, events), fire)
  {
    var job := Job(schedule, "", None, None, None);
    var added := AddFirstJob(zone, schedule);
    FireNow(job, zone, fire);
    var once := ClaimAndRecord(zone, added, Run(EMPTY, zone, added), fire * 60_000_000, seconds, 0, job, 0, fire, (fire - 1) * 60_000_000);
    var ran := job.(lastRun := Some((fire - 1) * 60_000_000));
    FireNow(ran, zone, fire);
    events := ClaimAndRecord(zone, once, Run(EMPTY, zone, once), fire * 60_000_000, seconds, 0, ran, 1, fire, fire * 60_000_000);
    BothCompleted(Run(EMPTY, zone, events), fire);
  }

  lemma BothCompleted(w: World, fire: int)
    requires 0 in w.completed && 1 in w.completed && 0 in w.issued && 1 in w.issued
    requires w.issued[0].job == w.issued[1].job && w.issued[0].fire == fire == w.issued[1].fire
    ensures CompletedTwice(w, fire)
  {
  }

  /** Two tokens of one job with one minute are completed. */
  ghost predicate CompletedTwice(w: World, fire: int) {
    exists t, u :: t != u && t in w.completed && u in w.completed && t in w.issued && u in w.issued
      && w.issued[t].job == w.issued[u].job && w.issued[t].fire == fire == w.issued[u].fire
  }

  /** A released token never succeeds again, in any continuation of the run, on any job. */
  lemma ReleasedTokenNeverSucceeds(zone: Zone, before: World, events: seq<Event>, t: Token, id: JobId, now: nat)
    requires TokenInv(before) && LegalRun(before, zone, events)
    requires t in before.issued && !Outstanding(before, t)
    ensures var w := Run(before, zone, events); !HeartbeatOk(w.jobs, id, now, t) && !MarkOk(w.jobs, id, Some(t))
  {
    RunKeepsTokens(before, zone, events);
    var w := Run(before, zone, events);
    assert id in w.jobs && w.jobs[id].token == Some(t) ==> Outstanding(w, t);
  }

  ghost predicate IsInstant(lease: string) {
    exists until: nat :: lease == Iso(until)
  }

  /** Every lease is the text of an instant. */
  ghost predicate LeasesAreInstants(w: World) {
    forall id :: id in w.jobs && w.jobs[id].lease.Some? ==> IsInstant(w.jobs[id].lease.value)
  }

  lemma LeaseIsInstant(now: nat, seconds: nat)
    ensures IsInstant(LeaseUntil(now, seconds))
  {
  }

  lemma HandOutKeepsInstants(w: World, fires: Fires, now: nat, lease: string, mint: map<JobId, Token>)
    requires LeasesAreInstants(w) && IsInstant(lease) && w.jobs.Keys <= mint.Keys && Fresh(w, mint)
    ensures LeasesAreInstants(HandOut(w, fires, now, lease, mint))
  {
  }

  lemma RowKeepsInstants(w: World, id: JobId, job: Job)
    requires LeasesAreInstants(w) && (job.lease.Some? ==> IsInstant(job.lease.value))
    ensures LeasesAreInstants(w.(jobs := w.jobs[id := job]))
  {
  }

  lemma StepOfHeartbeat(w: World, zone: Zone, id: JobId, now: nat, token: Token, seconds: nat, lease: string)
    requires seconds >= 1 && lease == LeaseUntil(now, seconds)
    ensures Step(w, zone, Heartbeat(id, now, token, seconds)) ==
      if HeartbeatOk(w.jobs, id, now, token) then w.(jobs := w.jobs[id := w.jobs[id].(lease := Some(lease))]) else w
  {
  }

  lemma HeartbeatKeepsInstants(w: World, zone: Zone, id: JobId, now: nat, token: Token, seconds: nat, lease: string)
    requires LeasesAreInstants(w) && seconds >= 1 && lease == LeaseUntil(now, seconds) && IsInstant(lease)
    ensures LeasesAreInstants(Step(w, zone, Heartbeat(id, now, token, seconds)))
  {
    StepOfHeartbeat(w, zone, id, now, token, seconds, lease);
    if HeartbeatOk(w.jobs, id, now, token) { RowKeepsInstants(w, id, w.jobs[id].(lease := Some(lease))); }
  }

  lemma ClaimKeepsInstants(w: World, zone: Zone, now: nat, seconds: int, mint: map<JobId, Token>)
    requires LeasesAreInstants(w) && w.jobs.Keys <= mint.Keys && Fresh(w, mint)
    ensures LeasesAreInstants(ClaimStep(w, zone, now, seconds, mint))
  {
    if seconds >= 1 {
      LeaseIsInstant(now, seconds);
      HandOutKeepsInstants(w, FiresAt(zone, now), now, LeaseUntil(now, seconds), mint);
    }
  }

  lemma StepKeepsInstants(w: World, zone: Zone, event: Event)
    requires LeasesAreInstants(w) && Legal(w, event)
    ensures LeasesAreInstants(Step(w, zone, event))
  {
    match event
    case Claim(now, seconds, mint) => ClaimKeepsInstants(w, zone, now, seconds, mint);
    case Heartbeat(id, now, token, seconds) =>
      if seconds >= 1 {
        LeaseIsInstant(now, seconds);
        HeartbeatKeepsInstants(w, zone, id, now, token, seconds, LeaseUntil(now, seconds));
      }
    case _ =>
  }

  lemma {:induction false} RunKeepsInstants(w: World, zone: Zone, events: seq<Event>)
    requires LeasesAreInstants(w) && LegalRun(w, zone, events)
    ensures LeasesAreInstants(Run(w, zone, events))
    decreases |events|
  {
    if events != [] {
      StepKeepsInstants(w, zone, events[0]);
      RunKeepsInstants(Step(w, zone, events[0]), zone, events[1..]);
    }
  }

  /** While a claim lasts, exactly one of its holder's heartbeat and the reconciliation succeeds. */
  lemma ExactlyOneSucceeds(w: World, id: JobId, t: Token, now: nat)
    requires TokenInv(w) && id in w.jobs && w.jobs[id].token == Some(t)
    ensures HeartbeatOk(w.jobs, id, now, t) <==> !RetryOk(w.jobs, id, now)
    ensures w.jobs[id].lease.Some? && (HeartbeatOk(w.jobs, id, now, t) <==> TextLess(Iso(now), w.jobs[id].lease.value))
  {
    CompareIsAntisymmetric(Iso(now), w.jobs[id].lease.value);
  }

  lemma ReadsAsTimes(w: World, id: JobId, t: Token, now: nat) returns (until: nat)
    requires TokenInv(w) && LeasesAreInstants(w) && id in w.jobs && w.jobs[id].token == Some(t)
    ensures w.jobs[id].lease == Some(Iso(until))
    ensures HeartbeatOk(w.jobs, id, now, t) <==> !RetryOk(w.jobs, id, now)
    ensures Representable(now) && Representable(until) ==> (HeartbeatOk(w.jobs, id, now, t) <==> now < until)
  {
    ExactlyOneSucceeds(w, id, t, now);
    var lease := w.jobs[id].lease.value;
    assert IsInstant(lease);
    until :| lease == Iso(until);
    if Representable(now) && Representable(until) { LeaseReadsAsTime(now, until, lease); }
  }

  /** So in every run; and every lease there is the text of an instant `until`, before which the
      heartbeat succeeds and from which on the reconciliation does. */
  lemma HolderOrReconciler(zone: Zone, events: seq<Event>, id: JobId, t: Token, now: nat) returns (until: nat)
    requires LegalRun(EMPTY, zone, events)
    requires id in Run(EMPTY, zone, events).jobs && Run(EMPTY, zone, events).jobs[id].token == Some(t)
    ensures var jobs := Run(EMPTY, zone, events).jobs;
      && jobs[id].lease == Some(Iso(until))
      && (HeartbeatOk(jobs, id, now, t) <==> !RetryOk(jobs, id, now))
      && (Representable(now) && Representable(until) ==> (HeartbeatOk(jobs, id, now, t) <==> now < until))
  {
    assert TokenInv(EMPTY) && LeasesAreInstants(EMPTY);
    RunKeepsTokens(EMPTY, zone, events);
    RunKeepsInstants(EMPTY, zone, events);
    until := ReadsAsTimes(Run(EMPTY, zone, events), id, t, now);
  }

  /** A claim ends only by its own completion, by reconciliation after expiry, or with its job:
      expiry alone, and any other worker's claim, heartbeat or mark, leaves it in place. */
  lemma OnlyReleaseEndsClaim(w: World, zone: Zone, event: Event, id: JobId, t: Token)
    requires w.jobs.Keys <= w.ids && Legal(w, event) && id in w.jobs && w.jobs[id].token == Some(t)
    ensures var v := Step(w, zone, event);
      || (id in v.jobs && v.jobs[id].token == Some(t))
      || event == Remove(id)
      || (event.MarkRun? && event.id == id && event.holder == Some(t))
      || (event.Retry? && event.id == id && RetryOk(w.jobs, id, event.now))
  {
    match event
    case Claim(now, seconds, mint) => ClaimLeavesHeld(w, zone, now, seconds, mint, id, t);
    case Add(_, _, _) =>
    case Remove(_) =>
    case Heartbeat(_, _, _, _) =>
    case MarkRun(_, _, _) =>
    case Retry(_, _) =>
  }

  lemma ClaimLeavesHeld(w: World, zone: Zone, now: nat, seconds: int, mint: map<JobId, Token>, id: JobId, t: Token)
    requires w.jobs.Keys <= mint.Keys && Fresh(w, mint) && id in w.jobs && w.jobs[id].token == Some(t)
    ensures var v := ClaimStep(w, zone, now, seconds, mint); id in v.jobs && v.jobs[id].token == Some(t)
  {
  }
}
