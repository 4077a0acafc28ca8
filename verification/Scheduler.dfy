/** `Scheduler`: the durable job table. Each method is one SQL transaction; leases are stored as
    ISO texts and compared as texts. */
module Scheduler {
  import opened Values
  import opened Cron
  import opened IsoTime

  /** Identifiers are uuids in the source: here they are drawn outside and handed in. */
  type JobId = nat
  type Token = nat

  /** Instants are microseconds; `lease` and `token` are the nullable columns of a claim. */
  datatype Job = Job(schedule: Schedule, goal: string, lastRun: Option<nat>, lease: Option<string>, token: Option<Token>)

  type Table = map<JobId, Job>

  datatype Refusal = BadLease | NoFireInFiveYears | ClaimMissingOrExpired | TokenRequired | TokenMismatch | NothingExpired

  // -------------------------------------------------------------------- selection

  /** The minute whose successor fire decides: the last run, or one minute ago. */
  function AnchorMinute(job: Job, now: nat): int {
    if job.lastRun.Some? then job.lastRun.value / 60_000_000 else (now - 60_000_000) / 60_000_000
  }

  /** The fire each job waits for. */
  type Fires = Job -> Option<int>

  function FiresAt(zone: Zone, now: nat): Fires {
    (job: Job) => Next(Hits(job.schedule, zone), AnchorMinute(job, now))
  }

  predicate IsDue(job: Job, fires: Fires, now: nat) {
    fires(job).Some? && fires(job).value * 60_000_000 <= now
  }

  /** A single schedule without a fire makes the whole selection raise. */
  predicate AllFire(jobs: Table, fires: Fires) {
    forall id :: id in jobs ==> fires(jobs[id]).Some?
  }

  function DueIn(jobs: Table, fires: Fires, now: nat): set<JobId> {
    set id | id in jobs && IsDue(jobs[id], fires, now)
  }

  function Claimed(job: Job, lease: string, token: Token): Job {
    job.(lease := Some(lease), token := Some(token))
  }

  /** A job with a token is not claimed again, however long its lease has been over. */
  function ClaimableIn(jobs: Table, due: set<JobId>): set<JobId>
    requires due <= jobs.Keys
  {
    set id | id in due && jobs[id].token.None?
  }

  /** The table after a claim: every due, unclaimed job gets a lease and a token, and nothing else
      changes. */
  function ClaimThese(jobs: Table, due: set<JobId>, lease: string, mint: map<JobId, Token>): Table
    requires due <= jobs.Keys <= mint.Keys
  {
    map id | id in jobs :: if id in due && jobs[id].token.None? then Claimed(jobs[id], lease, mint[id]) else jobs[id]
  }

  lemma ClaimOneMore(jobs: Table, due: set<JobId>, id: JobId, lease: string, mint: map<JobId, Token>)
    requires due <= jobs.Keys <= mint.Keys && id in jobs && id !in due
    ensures ClaimThese(jobs, due, lease, mint)[id] == jobs[id]
    ensures jobs[id].token.None? ==>
      && ClaimThese(jobs, due + {id}, lease, mint) == ClaimThese(jobs, due, lease, mint)[id := Claimed(jobs[id], lease, mint[id])]
      && ClaimableIn(jobs, due + {id}) == ClaimableIn(jobs, due) + {id}
    ensures jobs[id].token.Some? ==>
      && ClaimThese(jobs, due + {id}, lease, mint) == ClaimThese(jobs, due, lease, mint)
      && ClaimableIn(jobs, due + {id}) == ClaimableIn(jobs, due)
  {
  }

  // --------------------------------------------------------- the guarded updates

  predicate LeaseOpen(job: Job, now: nat) {
    job.lease.Some? && TextLess(Iso(now), job.lease.value)
  }

  predicate LeaseExpired(job: Job, now: nat) {
    job.lease.Some? && TextAtMost(job.lease.value, Iso(now))
  }

  predicate HeartbeatOk(jobs: Table, id: JobId, now: nat, token: Token) {
    id in jobs && jobs[id].token == Some(token) && LeaseOpen(jobs[id], now)
  }

  predicate RetryOk(jobs: Table, id: JobId, now: nat) {
    id in jobs && jobs[id].token.Some? && LeaseExpired(jobs[id], now)
  }

  /** Without a token only an unclaimed job is marked; with one, only its holder. */
  predicate MarkOk(jobs: Table, id: JobId, token: Option<Token>) {
    id in jobs && jobs[id].token == token
  }

  function Released(job: Job): Job {
    job.(lease := None, token := None)
  }

  function Marked(job: Job, ranAt: nat, token: Option<Token>): Job {
    (if token.Some? then Released(job) else job).(lastRun := Some(ranAt))
  }

  /** `due`: looks at every job, and raises as soon as one has no fire. */
  method SelectDue(jobs: Table, fires: Fires, now: nat) returns (r: Result<set<JobId>, Refusal>)
    ensures r == if AllFire(jobs, fires) then Success(DueIn(jobs, fires, now)) else Failure(NoFireInFiveYears)
  {
    var ready, todo := {}, jobs.Keys;
    while todo != {}
      invariant todo <= jobs.Keys
      invariant forall id :: id in jobs.Keys - todo ==> fires(jobs[id]).Some?
      invariant forall id :: id in ready <==> id in jobs.Keys - todo && IsDue(jobs[id], fires, now)
      decreases todo
    {
      var id :| id in todo;
      var next := fires(jobs[id]);
      if next.None? { return Failure(NoFireInFiveYears); }
      if next.value * 60_000_000 <= now { ready := ready + {id}; }
      todo := todo - {id};
    }
    assert ready == DueIn(jobs, fires, now);
    return Success(ready);
  }

  /** The loop of `claim_due` over the due jobs, on the rows of the open transaction. */
  method ClaimRows(jobs: Table, due: set<JobId>, lease: string, mint: map<JobId, Token>) returns (table: Table, ready: set<JobId>)
    requires due <= jobs.Keys <= mint.Keys
    ensures table == ClaimThese(jobs, due, lease, mint) && ready == ClaimableIn(jobs, due)
  {
    table, ready := jobs, {};
    var todo := due;
    while todo != {}
      invariant todo <= due
      invariant ready == ClaimableIn(jobs, due - todo)
      invariant table == ClaimThese(jobs, due - todo, lease, mint)
      decreases todo
    {
      var id :| id in todo;
      ClaimOneMore(jobs, due - todo, id, lease, mint);
      assert due - (todo - {id}) == due - todo + {id};
      todo := todo - {id};
      if table[id].token.None? {
        table := table[id := Claimed(table[id], lease, mint[id])];
        ready := ready + {id};
      }
    }
    assert due - todo == due;
  }

  /** What `claim_due` does with the rows it has read: all or nothing. */
  method ClaimFrom(jobs: Table, fires: Fires, now: nat, lease: string, mint: map<JobId, Token>)
    returns (table: Table, r: Result<set<JobId>, Refusal>)
    requires jobs.Keys <= mint.Keys
    ensures !AllFire(jobs, fires) ==> r == Failure(NoFireInFiveYears) && table == jobs
    ensures AllFire(jobs, fires) ==>
      && r == Success(ClaimableIn(jobs, DueIn(jobs, fires, now)))
      && table == ClaimThese(jobs, DueIn(jobs, fires, now), lease, mint)
  {
    var due := SelectDue(jobs, fires, now);
    if due.Failure? { return jobs, Failure(due.error); }
    var claimed, ready := ClaimRows(jobs, due.value, lease, mint);
    return claimed, Success(ready);
  }

  function Later(now: nat, seconds: nat): nat {
    now + seconds * 1_000_000
  }

  function LeaseUntil(now: nat, seconds: nat): string {
    Iso(Later(now, seconds))
  }

  class JobStore {
    const zone: Zone
    var jobs: Table

    constructor (zone: Zone)
      ensures this.zone == zone && jobs == map[]
    {
      this.zone := zone;
      jobs := map[];
    }

    method Add(id: JobId, schedule: Schedule, goal: string)
      requires id !in jobs
      modifies this
      ensures jobs == old(jobs)[id := Job(schedule, goal, None, None, None)]
    {
      jobs := jobs[id := Job(schedule, goal, None, None, None)];
    }

    method Remove(id: JobId)
      modifies this
      ensures jobs == old(jobs) - {id}
    {
      jobs := jobs - {id};
    }

    method Due(now: nat) returns (r: Result<set<JobId>, Refusal>)
      ensures r == if AllFire(jobs, FiresAt(zone, now)) then Success(DueIn(jobs, FiresAt(zone, now), now))
                   else Failure(NoFireInFiveYears)
    {
      r := SelectDue(jobs, FiresAt(zone, now), now);
    }

    /** `claim_due`: all or nothing, and a claim that has expired is not taken over. */
    method ClaimDue(now: nat, seconds: int, mint: map<JobId, Token>) returns (r: Result<set<JobId>, Refusal>)
      requires jobs.Keys <= mint.Keys
      modifies this
      ensures seconds < 1 ==> r == Failure(BadLease)
      ensures seconds >= 1 && !AllFire(old(jobs), FiresAt(zone, now)) ==> r == Failure(NoFireInFiveYears)
      ensures seconds >= 1 && AllFire(old(jobs), FiresAt(zone, now)) ==>
        && r == Success(ClaimableIn(old(jobs), DueIn(old(jobs), FiresAt(zone, now), now)))
        && jobs == ClaimThese(old(jobs), DueIn(old(jobs), FiresAt(zone, now), now), LeaseUntil(now, seconds), mint)
      ensures r.Failure? ==> jobs == old(jobs)
    {
      if seconds < 1 { return Failure(BadLease); }
      jobs, r := ClaimFrom(jobs, FiresAt(zone, now), now, LeaseUntil(now, seconds), mint);
    }

    method Heartbeat(id: JobId, now: nat, token: Token, seconds: int) returns (refusal: Option<Refusal>)
      modifies this
      ensures seconds < 1 ==> refusal == Some(BadLease) && jobs == old(jobs)
      ensures seconds >= 1 && !HeartbeatOk(old(jobs), id, now, token) ==>
        refusal == Some(ClaimMissingOrExpired) && jobs == old(jobs)
      ensures seconds >= 1 && HeartbeatOk(old(jobs), id, now, token) ==>
        refusal == None && jobs == old(jobs)[id := old(jobs)[id].(lease := Some(LeaseUntil(now, seconds)))]
    {
      if seconds < 1 { return Some(BadLease); }
      if id !in jobs || jobs[id].token != Some(token) || !LeaseOpen(jobs[id], now) {
        return Some(ClaimMissingOrExpired);
      }
      jobs := jobs[id := jobs[id].(lease := Some(LeaseUntil(now, seconds)))];
      return None;
    }

    method MarkRun(id: JobId, ranAt: nat, token: Option<Token>) returns (refusal: Option<Refusal>)
      modifies this
      ensures refusal == (if MarkOk(old(jobs), id, token) then None else if token.None? then Some(TokenRequired) else Some(TokenMismatch))
      ensures refusal == None ==>
        jobs == old(jobs)[id := Job(old(jobs)[id].schedule, old(jobs)[id].goal, Some(ranAt),
                                    if token.Some? then None else old(jobs)[id].lease, None)]
      ensures refusal.Some? ==> jobs == old(jobs)
    {
      if token.None? {
        if id !in jobs || jobs[id].token.Some? { return Some(TokenRequired); }
        jobs := jobs[id := jobs[id].(lastRun := Some(ranAt))];
      } else {
        if id !in jobs || jobs[id].token != token { return Some(TokenMismatch); }
        jobs := jobs[id := Released(jobs[id]).(lastRun := Some(ranAt))];
      }
      return None;
    }

    method RetryUnknown(id: JobId, now: nat) returns (refusal: Option<Refusal>)
      modifies this
      ensures refusal == if RetryOk(old(jobs), id, now) then None else Some(NothingExpired)
      ensures refusal == None ==>
        jobs == old(jobs)[id := Job(old(jobs)[id].schedule, old(jobs)[id].goal, old(jobs)[id].lastRun, None, None)]
      ensures refusal.Some? ==> jobs == old(jobs)
    {
      if id !in jobs || jobs[id].token.None? || !LeaseExpired(jobs[id], now) { return Some(NothingExpired); }
      jobs := jobs[id := Released(jobs[id])];
      return None;
    }
  }

  // --------------------------------------------------- what the rows hold afterwards

  /** A claim gives each due, unclaimed job its token and its lease, and touches nothing else. */
  lemma RowsAfterClaim(jobs: Table, due: set<JobId>, lease: string, mint: map<JobId, Token>)
    requires due <= jobs.Keys <= mint.Keys
    ensures var after := ClaimThese(jobs, due, lease, mint);
      && after.Keys == jobs.Keys
      && (forall id :: id in due && jobs[id].token.None? ==>
            after[id] == Job(jobs[id].schedule, jobs[id].goal, jobs[id].lastRun, Some(lease), Some(mint[id])))
      && (forall id :: id in jobs && (id !in due || jobs[id].token.Some?) ==> after[id] == jobs[id])
    ensures forall id :: id in ClaimableIn(jobs, due) <==> id in due && jobs[id].token.None?
  {
  }

  /** The conditions of the three guarded updates, on the columns they read. */
  lemma GuardsExactly(jobs: Table, id: JobId, now: nat, t: Token)
    ensures HeartbeatOk(jobs, id, now, t) <==>
      id in jobs && jobs[id].token == Some(t) && jobs[id].lease.Some? && TextLess(Iso(now), jobs[id].lease.value)
    ensures RetryOk(jobs, id, now) <==>
      id in jobs && jobs[id].token.Some? && jobs[id].lease.Some? && TextAtMost(jobs[id].lease.value, Iso(now))
    ensures MarkOk(jobs, id, Some(t)) <==> id in jobs && jobs[id].token == Some(t)
    ensures MarkOk(jobs, id, None) <==> id in jobs && jobs[id].token == None
  {
  }

  /** A lease of so many seconds is open for so many seconds. */
  lemma LeaseLasts(now: nat, seconds: nat, later: nat, until: nat, lease: string)
    requires until == now + seconds * 1_000_000 && lease == LeaseUntil(now, seconds)
    requires Representable(later) && Representable(until)
    ensures TextLess(Iso(later), lease) <==> later < until
  {
    LeaseReadsAsTime(later, Later(now, seconds), lease);
  }

  lemma LeaseReadsAsTime(now: nat, until: nat, lease: string)
    requires lease == Iso(until) && Representable(now) && Representable(until)
    ensures TextLess(Iso(now), lease) <==> now < until
  {
    TextOrderIsTimeOrder(now, until);
  }

  // --------------------------------------------------------- what selection means

  /** A job that never ran is due exactly when the current minute matches. */
  lemma NeverRunIsDueNow(job: Job, zone: Zone, now: nat)
    requires job.lastRun.None?
    ensures IsDue(job, FiresAt(zone, now), now) <==> Hits(job.schedule, zone)(now / 60_000_000)
  {
  }

  /** A job that ran is due exactly when some matching minute after its last run has come (and is
      at most five years from it). */
  lemma RanIsDueAfterMatch(job: Job, zone: Zone, now: nat)
    requires job.lastRun.Some?
    ensures IsDue(job, FiresAt(zone, now), now) <==>
      exists m :: job.lastRun.value / 60_000_000 < m <= job.lastRun.value / 60_000_000 + WINDOW
                  && m <= now / 60_000_000 && Hits(job.schedule, zone)(m)
  {
  }
}
