/** Fencing: over every run of enqueue, authorize, claim and finish with fresh
    lease tokens, only the last lease of a job is ever honoured. */
module LeaseFencing {
  import opened Prelude
  import opened LeasedJobs

  datatype Event =
    | EnqueueEvent(job: Job, availableAt: Time, auth: Authorization, clock: Time)
    | AuthorizeEvent(id: string, auth: Authorization)
    | ClaimEvent(id: string, now: Time, lease: int, worker: string, token: string, clock: Time)
    | FinishEvent(l: Lease, result: JobResult, now: Time, clock: Time)

  /** `issued` records every lease handed out, oldest first. */
  datatype System = System(rows: Rows, issued: seq<Lease>)

  const INITIAL := System(map[], [])

  predicate Fresh(s: System, token: string) {
    token != "" && forall i :: 0 <= i < |s.issued| ==> s.issued[i].token != token
  }

  predicate Claims(s: System, e: Event) {
    e.ClaimEvent? && ValidClaim(e.now, e.lease, e.worker) && e.clock != 0 && IsNext(s.rows, e.clock, e.id) && Fresh(s, e.token)
  }

  predicate Finishes(s: System, e: Event) {
    e.FinishEvent? && Finish(s.rows, e.l, e.result, e.now, e.clock).1.None?
  }

  function Step(s: System, e: Event): System {
    match e
    case EnqueueEvent(j, availableAt, auth, clock) => s.(rows := Enqueue(s.rows, j, availableAt, auth, clock).0)
    case AuthorizeEvent(id, auth) => if id in s.rows then s.(rows := s.rows[id := s.rows[id].(auth := auth)]) else s
    case ClaimEvent(id, _, lease, worker, token, clock) =>
      if !Claims(s, e) then s
      else var (rows, l) := Claim(s.rows, id, clock + lease, worker, token); System(rows, s.issued + [l])
    case FinishEvent(l, result, now, clock) => s.(rows := Finish(s.rows, l, result, now, clock).0)
  }

  function Run(s: System, events: seq<Event>): System {
    if events == [] then s else Step(Run(s, events[..|events| - 1]), events[|events| - 1])
  }

  // ----- invariant

  /** Lease `i` is the one the row of its job answers to. */
  ghost predicate IsCurrent(s: System, id: string, i: int) {
    && 0 <= i < |s.issued| && id in s.rows && s.issued[i].job.id == id
    && s.rows[id].token == s.issued[i].token && s.rows[id].leasedUntil == s.issued[i].until && s.rows[id].job == s.issued[i].job
    && forall j :: i < j < |s.issued| ==> s.issued[j].job.id != id
  }

  ghost predicate RowOk(s: System, id: string)
    requires id in s.rows
  {
    var r := s.rows[id];
    && r.job.id == id && 0 <= r.job.attempts <= MAX_ATTEMPTS
    && (r.status == Running ==> exists i :: IsCurrent(s, id, i))
    && (r.status != Running ==> r.token == "")
  }

  ghost predicate Inv(s: System) {
    && (forall id :: id in s.rows ==> RowOk(s, id))
    && (forall i :: 0 <= i < |s.issued| ==> s.issued[i].token != "" && s.issued[i].job.id in s.rows)
    && (forall i, j :: 0 <= i < j < |s.issued| ==> s.issued[i].token != s.issued[j].token)
  }

  lemma RowStep(s: System, e: Event, id: string)
    requires Inv(s) && id in s.rows
    ensures id in Step(s, e).rows && RowOk(Step(s, e), id)
  {
    assert RowOk(s, id);
    var s' := Step(s, e);
    if Claims(s, e) && e.id == id {
      assert IsCurrent(s', id, |s.issued|);
    } else if s'.rows[id].status == Running {
      var i :| IsCurrent(s, id, i);
      assert IsCurrent(s', id, i);
    }
  }

  /** Tokens stay distinct, and jobs are never deleted. */
  lemma IssuedStep(s: System, e: Event)
    requires Inv(s)
    ensures var s' := Step(s, e);
      && (forall id :: id in s.rows ==> id in s'.rows)
      && (forall i :: 0 <= i < |s'.issued| ==> s'.issued[i].token != "" && s'.issued[i].job.id in s'.rows)
      && (forall i, j :: 0 <= i < j < |s'.issued| ==> s'.issued[i].token != s'.issued[j].token)
  {
    if Claims(s, e) { assert RowOk(s, e.id); }
  }

  lemma NewRow(s: System, e: Event, id: string)
    requires id !in s.rows && id in Step(s, e).rows
    ensures RowOk(Step(s, e), id)
  {}

  lemma InvStep(s: System, e: Event)
    requires Inv(s)
    ensures Inv(Step(s, e))
  {
    IssuedStep(s, e);
    forall id | id in Step(s, e).rows ensures RowOk(Step(s, e), id) {
      if id in s.rows { RowStep(s, e, id); } else { NewRow(s, e, id); }
    }
  }

  lemma {:induction false} InvRun(s: System, events: seq<Event>)
    requires Inv(s)
    ensures Inv(Run(s, events))
  {
    if events != [] {
      InvRun(s, events[..|events| - 1]);
      InvStep(Run(s, events[..|events| - 1]), events[|events| - 1]);
    }
  }

  // ----- main results

  /** Of all leases ever issued for a job, at most one is acceptable at a time, and it is the last one. */
  lemma OneAcceptableLease(events: seq<Event>, i: int, clock: Time)
    requires var s := Run(INITIAL, events); 0 <= i < |s.issued| && Acceptable(s.rows, s.issued[i], clock)
    ensures var s := Run(INITIAL, events);
      && IsCurrent(s, s.issued[i].job.id, i)
      && (forall j :: 0 <= j < |s.issued| && s.issued[j].job.id == s.issued[i].job.id && j != i ==>
            j < i && !Acceptable(s.rows, s.issued[j], clock))
  {
    InvRun(INITIAL, events);
    var s := Run(INITIAL, events);
    var id := s.issued[i].job.id;
    assert RowOk(s, id);
    var c :| IsCurrent(s, id, c);
    assert c == i;
  }

  /** The row no longer answers to the lease: a later claim or a finish took its place. */
  ghost predicate Dead(s: System, l: Lease) {
    l in s.issued && l.job.id in s.rows && s.rows[l.job.id].token != l.token
  }

  lemma DeadStays(s: System, e: Event, l: Lease)
    requires Inv(s) && Dead(s, l)
    ensures Dead(Step(s, e), l)
  {
    assert RowOk(s, l.job.id);
  }

  lemma {:induction false} DeadForever(s: System, more: seq<Event>, l: Lease)
    requires Inv(s) && Dead(s, l)
    ensures Dead(Run(s, more), l)
  {
    if more != [] {
      DeadForever(s, more[..|more| - 1], l);
      InvRun(s, more[..|more| - 1]);
      DeadStays(Run(s, more[..|more| - 1]), more[|more| - 1], l);
    }
  }

  /** A lease that was superseded by another claim of its job, or finished, is
      refused by RevalidateJob and FinishJob forever after, whatever happens and
      whatever the clocks say. */
  lemma SupersededOrFinishedIsRefused(events: seq<Event>, e: Event, more: seq<Event>, l: Lease, result: JobResult, now: Time, clock: Time)
    requires l in Run(INITIAL, events).issued
    requires (Claims(Run(INITIAL, events), e) && e.id == l.job.id) || (Finishes(Run(INITIAL, events), e) && e.l == l)
    ensures var s := Run(Step(Run(INITIAL, events), e), more);
      && Revalidate(s.rows, l, clock) == Refused(ErrLeaseLost)
      && Finish(s.rows, l, result, now, clock).0 == s.rows && Finish(s.rows, l, result, now, clock).1.Some?
  {
    InvRun(INITIAL, events);
    var s := Run(INITIAL, events);
    InvStep(s, e);
    assert Dead(Step(s, e), l);
    DeadForever(Step(s, e), more, l);
  }

  /** A job whose lease was not finished is claimed again only at a clock reading
      at or past the end of that lease. */
  lemma ReclaimOnlyAfterLeaseEnd(events: seq<Event>, e: Event)
    requires var s := Run(INITIAL, events); Claims(s, e) && s.rows[e.id].status == Running
    ensures var s := Run(INITIAL, events);
      exists i :: IsCurrent(s, e.id, i) && s.issued[i].until <= e.clock
  {
    InvRun(INITIAL, events);
    assert RowOk(Run(INITIAL, events), e.id);
  }

  /** While a lease runs it keeps the job: nothing but its own finish ends it before its time. */
  lemma LeaseHoldsUntilItsEnd(s: System, e: Event, id: string, i: int)
    requires Inv(s) && IsCurrent(s, id, i) && s.rows[id].status == Running
    requires e.ClaimEvent? ==> e.clock < s.issued[i].until
    requires Finishes(s, e) ==> e.l.token != s.issued[i].token
    ensures IsCurrent(Step(s, e), id, i) && Step(s, e).rows[id].status == Running
  {
    assert RowOk(s, id);
    assert IsCurrent(Step(s, e), id, i);
  }
}
