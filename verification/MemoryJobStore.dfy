/** The job store object, whose entries are changed in place, and the worker step
    that drives it. */
module MemoryJobStore {
  import opened Prelude
  import opened LeasedJobs

  class Entry {
    var job: Job
    var status: Status
    var availableAt: Time
    var leasedUntil: Time
    var owner: string
    var token: string
    var result: Option<JobResult>
    var auth: Authorization

    constructor (job: Job, availableAt: Time, auth: Authorization)
      ensures View() == Row(job, Scheduled, availableAt, 0, "", "", None, auth)
    {
      this.job, status, this.availableAt, leasedUntil := job, Scheduled, availableAt, 0;
      owner, token, result, this.auth := "", "", None, auth;
    }

    ghost function View(): Row
      reads this
    {
      Row(job, status, availableAt, leasedUntil, owner, token, result, auth)
    }
  }

  datatype ClaimAnswer = Leased(lease: Lease) | NoJob | ClaimFails(error: Error)

  class MemoryStore {
    var jobs: map<string, Entry>

    /** No two ids share an entry, and each entry knows its id. */
    ghost predicate Valid()
      reads this, jobs.Values
    {
      && (forall a, b :: a in jobs && b in jobs && jobs[a] == jobs[b] ==> a == b)
      && (forall id :: id in jobs ==> jobs[id].job.id == id)
    }

    ghost function View(): Rows
      reads this, jobs.Values
    {
      map id | id in jobs :: jobs[id].View()
    }

    constructor ()
      ensures Valid() && View() == map[]
    {
      jobs := map[];
    }

    twostate lemma OnlyOneChanged(id: string)
      requires old(Valid()) && unchanged(this) && id in jobs && jobs[id].job.id == id
      requires forall e :: e in jobs.Values && e != jobs[id] ==> unchanged(e)
      ensures Valid() && View() == old(View())[id := jobs[id].View()]
    {
      forall o | o in jobs && o != id ensures unchanged(jobs[o]) { assert jobs[o] in jobs.Values; }
    }

    method Enqueue(job: Job, availableAt: Time, auth: Authorization, clock: Time) returns (error: Option<Error>)
      requires Valid()
      modifies this
      ensures Valid() && (View(), error) == LeasedJobs.Enqueue(old(View()), job, availableAt, auth, clock)
    {
      if !ValidNew(job) { return Some(ErrInvalidJob); }
      var when := if availableAt == 0 then clock else availableAt;
      if job.id in jobs { return Some(ErrConflict); }
      var e := new Entry(job, when, auth);
      forall o | o in jobs ensures jobs[o] != e && unchanged(jobs[o]) { assert jobs[o] in old(jobs.Values); }
      jobs := jobs[job.id := e];
      assert View() == old(View())[job.id := e.View()];
      return None;
    }

    method SetAuthorization(id: string, auth: Authorization) returns (error: Option<Error>)
      requires Valid()
      modifies jobs.Values
      ensures Valid()
      ensures id != "" && id in jobs ==> View() == old(View())[id := old(View())[id].(auth := auth)] && error.None?
      ensures !(id != "" && id in jobs) ==> View() == old(View()) && error == Some(if id == "" then ErrInvalidJob else ErrNotFound)
    {
      if id == "" { return Some(ErrInvalidJob); }
      if id !in jobs { return Some(ErrNotFound); }
      jobs[id].auth := auth;
      OnlyOneChanged(id);
      return None;
    }

    ghost predicate InOrder(ids: seq<string>)
      reads this, jobs.Values
    {
      && (forall i :: 0 <= i < |ids| ==> ids[i] in jobs)
      && forall i, j :: 0 <= i < j < |ids| ==> Sooner(View(), ids[i], ids[j])
    }

    /** The ids of all entries, sorted by availability and then by id. */
    method SortedIds() returns (ids: seq<string>)
      ensures InOrder(ids) && forall id :: id in jobs ==> id in ids
    {
      ids := [];
      var left := jobs.Keys;
      while left != {}
        invariant left <= jobs.Keys && InOrder(ids)
        invariant forall id :: id in jobs ==> id in left || id in ids
        invariant forall id :: id in ids ==> id !in left
        decreases |left|
      {
        var id :| id in left;
        ids := Insert(ids, id);
        left := left - {id};
      }
    }

    method Insert(ids: seq<string>, id: string) returns (r: seq<string>)
      requires InOrder(ids) && id in jobs && id !in ids
      ensures InOrder(r) && forall x :: x in r <==> x in ids || x == id
    {
      var i := 0;
      while i < |ids| && (jobs[ids[i]].availableAt < jobs[id].availableAt
                          || (jobs[ids[i]].availableAt == jobs[id].availableAt && Less(ids[i], id)))
        invariant 0 <= i <= |ids|
        invariant forall j :: 0 <= j < i ==> Sooner(View(), ids[j], id)
      {
        i := i + 1;
      }
      r := ids[..i] + [id] + ids[i..];
      forall j | i <= j < |ids| ensures Sooner(View(), id, ids[j]) {
        LessTotal(ids[i], id);
        if i < j { SoonerTransitive(View(), id, ids[i], ids[j]); }
      }
    }

    lemma FirstIsNext(ids: seq<string>, clock: Time, i: nat)
      requires InOrder(ids) && (forall id :: id in jobs ==> id in ids) && i < |ids| && Eligible(View()[ids[i]], clock)
      requires forall j :: 0 <= j < i ==> !Eligible(View()[ids[j]], clock)
      ensures IsNext(View(), clock, ids[i])
    {
      forall o | o in jobs && o != ids[i] && Eligible(View()[o], clock) ensures Sooner(View(), ids[i], o) {
        var j :| 0 <= j < |ids| && ids[j] == o;
        assert i < j;
      }
    }

    /** The first eligible job in that order, if there is one. */
    method Select(clock: Time) returns (id: Option<string>)
      requires Valid()
      ensures id.None? ==> forall o :: o in jobs ==> !Eligible(View()[o], clock)
      ensures id.Some? ==> IsNext(View(), clock, id.value)
    {
      var ids := SortedIds();
      for i := 0 to |ids|
        invariant forall j :: 0 <= j < i ==> !Eligible(View()[ids[j]], clock)
      {
        var e := jobs[ids[i]];
        if e.job.attempts >= MAX_ATTEMPTS { continue; }
        var eligible := (e.status == Scheduled || e.status == Retryable) && e.availableAt <= clock;
        if e.status == Running && (e.leasedUntil == 0 || e.leasedUntil <= clock) { eligible := true; }
        if eligible {
          FirstIsNext(ids, clock, i);
          return Some(ids[i]);
        }
      }
      return None;
    }

    method ClaimJob(now: Time, lease: int, worker: string, token: string, clock: Time) returns (r: ClaimAnswer)
      requires Valid()
      modifies jobs.Values
      ensures Valid() && unchanged(this)
      ensures r == ClaimFails(ErrInvalidJob) || (ValidClaim(now, lease, worker) && clock != 0 && !r.ClaimFails?)
      ensures ValidClaim(now, lease, worker) && clock != 0 ==> !r.ClaimFails?
      ensures !r.Leased? ==> View() == old(View())
      ensures r.NoJob? ==> forall id :: id in old(View()) ==> !Eligible(old(View())[id], clock)
      ensures r.Leased? ==> var id := r.lease.job.id;
        IsNext(old(View()), clock, id) && (View(), r.lease) == Claim(old(View()), id, clock + lease, worker, token)
    {
      var trimmed := Trim(worker);
      if now == 0 || lease <= 0 || lease > MAX_LEASE || trimmed == "" || |trimmed| > MAX_WORKER_ID || clock == 0 {
        return ClaimFails(ErrInvalidJob);
      }
      var id := Select(clock);
      if id.None? { return NoJob; }
      assert IsNext(old(View()), clock, id.value);
      var l := Take(id.value, clock + lease, worker, token);
      return Leased(l);
    }

    method Take(id: string, until: Time, worker: string, token: string) returns (l: Lease)
      requires Valid() && id in jobs
      modifies jobs.Values
      ensures Valid() && unchanged(this) && l.job.id == id
      ensures (View(), l) == Claim(old(View()), id, until, worker, token)
    {
      var e := jobs[id];
      e.job := e.job.(attempts := e.job.attempts + 1);
      e.status := Running;
      e.owner := worker;
      e.token := token;
      e.leasedUntil := until;
      OnlyOneChanged(id);
      return Lease(e.job, token, until);
    }

    method RevalidateJob(l: Lease, clock: Time) returns (r: Verdict)
      requires Valid()
      ensures r == Revalidate(View(), l, clock)
    {
      if !ValidLease(l) || clock == 0 || l.job.id !in jobs { return Refused(ErrLeaseLost); }
      var e := jobs[l.job.id];
      if !LeaseMatches(e, l) || e.status != Running || e.leasedUntil <= clock { return Refused(ErrLeaseLost); }
      var a := e.auth;
      return Granted(a.(sourceCurrent := a.sourceCurrent && a.target.version == l.job.version && a.target.camera == l.job.camera
                                         && (a.target.stream == "" || a.target.stream == l.job.stream)));
    }

    static predicate LeaseMatches(e: Entry, l: Lease)
      reads e
    {
      e.token == l.token && e.owner != "" && e.job.id == l.job.id && e.job.kind == l.job.kind && e.job.camera == l.job.camera
      && e.job.version == l.job.version && e.job.stream == l.job.stream && e.job.session == l.job.session
    }

    method FinishJob(l: Lease, result: JobResult, now: Time, clock: Time) returns (error: Option<Error>)
      requires Valid()
      modifies jobs.Values
      ensures Valid() && unchanged(this)
      ensures (View(), error) == Finish(old(View()), l, result, now, clock)
    {
      if !ValidLease(l) || now == 0 || !ValidResult(result) { return Some(ErrInvalidJob); }
      if clock == 0 || l.job.id !in jobs { return Some(ErrLeaseLost); }
      var e := jobs[l.job.id];
      if !LeaseMatches(e, l) || e.status != Running || e.leasedUntil <= now || e.leasedUntil <= clock { return Some(ErrLeaseLost); }
      if result.status != Skipped && !TargetFits(e.auth.target, l.job) { return Some(ErrLeaseLost); }
      Settle(l.job.id, result);
      return None;
    }

    method Settle(id: string, result: JobResult)
      requires Valid() && id in jobs
      modifies jobs.Values
      ensures Valid() && unchanged(this)
      ensures View() == old(View())[id := old(View())[id].(result := Some(result), status := FinalStatus(result.status),
                          availableAt := result.nextAt, leasedUntil := 0, owner := "", token := "")]
    {
      var e := jobs[id];
      e.result := Some(result);
      e.status := FinalStatus(result.status);
      e.availableAt := result.nextAt;
      e.leasedUntil := 0;
      e.owner := "";
      e.token := "";
      OnlyOneChanged(id);
    }
  }

  datatype WorkAnswer = Idle | BadClaim | Worked(id: string, result: Option<JobResult>)

  /** One turn of the worker loop. `claimAt`, `checkAt` and `finishAt` are the
      store's clock at its three calls, `now` the worker's own, `outcome` how the
      provider or license call went. */
  method ProcessMediaJob(store: MemoryStore, worker: string, lease: nat, token: string, now: Time,
                         claimAt: Time, checkAt: Time, finishAt: Time, outcome: ProviderError) returns (r: WorkAnswer)
    requires store.Valid()
    modifies store.jobs.Values
    ensures store.Valid()
    ensures r.BadClaim? <==> !ValidClaim(now, lease, worker) || claimAt == 0
    ensures !r.Worked? ==> store.View() == old(store.View())
    ensures r.Idle? ==> forall id :: id in old(store.View()) ==> !Eligible(old(store.View())[id], claimAt)
    ensures r.Worked? ==> IsNext(old(store.View()), claimAt, r.id)
    ensures r.Worked? ==>
      (store.View(), r.result) == Turn(old(store.View()), r.id, claimAt + lease, worker, token, checkAt, finishAt, now, outcome)
  {
    var claim := store.ClaimJob(now, lease, worker, token, claimAt);
    if claim.ClaimFails? { return BadClaim; }
    if claim.NoJob? { return Idle; }
    var result := Work(store, claim.lease, checkAt, finishAt, now, outcome);
    return Worked(claim.lease.job.id, result);
  }

  /** The part after the claim: check again, call the provider, finish. */
  method Work(store: MemoryStore, l: Lease, checkAt: Time, finishAt: Time, now: Time, outcome: ProviderError) returns (r: Option<JobResult>)
    requires store.Valid()
    modifies store.jobs.Values
    ensures store.Valid()
    ensures (store.View(), r) == AfterClaim(old(store.View()), l, checkAt, finishAt, now, outcome)
  {
    var verdict := store.RevalidateJob(l, checkAt);
    if verdict.Refused? { return None; }
    var result := Decide(l, verdict.auth, outcome, now);
    var error := store.FinishJob(l, result, now, finishAt);
    return if error.Some? then None else Some(result);
  }

  method Decide(l: Lease, auth: Authorization, outcome: ProviderError, now: Time) returns (result: JobResult)
    ensures result == Report(l, auth, outcome, now)
  {
    result := JobResult(Skipped, "", now);
    var skipped, error := false, outcome;
    match l.job.kind {
      case StartKind => skipped := !auth.active || !auth.sourceCurrent;
      case StopKind => skipped := auth.superseded;
      case OtherKind(_) => error := Some({});
    }
    if !skipped { result := ResultOf(error, l.job.attempts, now, l.job.kind); }
  }

  lemma SoonerTransitive(rows: Rows, a: string, b: string, c: string)
    requires a in rows && b in rows && c in rows && Sooner(rows, a, b) && Sooner(rows, b, c)
    ensures Sooner(rows, a, c)
  {
    if rows[a].availableAt == rows[c].availableAt { LessTransitive(a, b, c); }
  }
}
