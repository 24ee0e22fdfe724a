/** What becomes of a job when the worker has called the provider: by its row, for one
    turn, for six turns in a row, and over every run of the queue. */
module WorkerOutcomes {
  import opened Prelude
  import opened LeasedJobs
  import opened LeaseFencing
  import opened JobWorker

  // ----- how a call can end

  /** The provider or the license refuses: trying again will not help. */
  predicate Refuses(c: set<Cause>) {
    Unavailable in c || ProviderDisabled in c || LicenseUnavailable in c || LicenseRequired in c || Unsupported in c
  }

  /** Nobody knows how the call ended. */
  predicate Lost(c: set<Cause>) { ResultUnknown in c || Canceled in c || DeadlineExceeded in c }

  /** The call failed for a reason that may pass; a job of an unknown kind always does. */
  predicate Transient(kind: Kind, e: ProviderError) {
    kind.OtherKind? || (e.Some? && !Refuses(e.value) && !Lost(e.value))
  }

  predicate Succeeds(kind: Kind, e: ProviderError) { !kind.OtherKind? && e.None? }

  /** The provider is not called: the start is no longer wanted, or the stop is superseded. */
  predicate Moot(kind: Kind, auth: Authorization) {
    (kind == StartKind && !(auth.active && auth.sourceCurrent)) || (kind == StopKind && auth.superseded)
  }

  /** How the row of a job that has used `n` attempts stands after the worker's finish. */
  ghost predicate Stands(r: Row, kind: Kind, n: int, auth: Authorization, e: ProviderError, now: Time) {
    && (r.status == Cancelled <==> Moot(kind, auth))
    && (r.status == Succeeded <==> !Moot(kind, auth) && Succeeds(kind, e))
    && (r.status == Retryable <==> !Moot(kind, auth) && Transient(kind, e) && n < 6)
    && (r.status == Unknown <==> !Moot(kind, auth) && !kind.OtherKind? && e.Some? && Lost(e.value) && !Refuses(e.value))
    && (r.status == Failed <==> !Moot(kind, auth) && (if Transient(kind, e) then n >= 6 else e.Some? && Refuses(e.value)))
    && (r.status == Retryable && 1 <= n ==> r.availableAt == now + [1, 2, 4, 8, 16][n - 1] * SECOND)
    && (r.status != Retryable ==> r.availableAt == now)
    && r.leasedUntil == 0 && r.owner == "" && r.token == "" && r.result.Some?
    && CodeTells(r.result.value.errorCode, r.status, kind, e)
  }

  /** The stored code tells why: the first reason that applies, in this order. */
  predicate CodeTells(code: string, status: Status, kind: Kind, e: ProviderError) {
    var called := status != Cancelled && status != Succeeded;
    && (code == "" <==> !called)
    && (code == "source_unreachable" <==> called && Transient(kind, e))
    && (code == "provider_unknown" <==> status == Unknown)
    && (called && !kind.OtherKind? && e.Some? ==>
          && (code == "provider_unavailable" <==> Unavailable in e.value || ProviderDisabled in e.value)
          && (code == "license_unavailable" ==> LicenseUnavailable in e.value)
          && (code == "license_required" ==> LicenseRequired in e.value && LicenseUnavailable !in e.value)
          && (code == "unsupported_codec" ==> Unsupported in e.value && LicenseUnavailable !in e.value && LicenseRequired !in e.value))
  }

  lemma ReportStands(l: Lease, auth: Authorization, e: ProviderError, now: Time, r: Row)
    requires r.result == Some(Report(l, auth, e, now)) && r.status == FinalStatus(r.result.value.status) && r.availableAt == r.result.value.nextAt
    requires r.leasedUntil == 0 && r.owner == "" && r.token == ""
    ensures Stands(r, l.job.kind, l.job.attempts, auth, e, now)
  {}

  // ----- one turn

  /** The clocks and names of one turn, and how its provider call goes. */
  datatype Try = Try(until: Time, worker: string, token: string, checkAt: Time, finishAt: Time, now: Time, outcome: ProviderError)

  /** What enqueueing makes sure of, and claims keep. */
  ghost predicate Sound(r: Row, id: string) {
    r.job.id == id && id != "" && r.job.camera > 0 && r.job.version > 0 && r.job.stream != "" && 0 <= r.job.attempts
  }

  /** Clocks have started, the lease has an owner and lasts through the turn. */
  predicate InLease(t: Try) {
    && t.worker != "" && t.token != "" && 0 < t.checkAt < t.until && 0 < t.finishAt < t.until && 0 < t.now < t.until
  }

  /** The source is still the one the job is about, as the worker is told. */
  predicate SourceHolds(r: Row) {
    && r.auth.sourceCurrent && r.auth.target.version == r.job.version && r.auth.target.camera == r.job.camera
    && (r.auth.target.stream == "" || r.auth.target.stream == r.job.stream)
  }

  /** What the worker is told about the source and the caller. */
  function Told(r: Row): Authorization { r.auth.(sourceCurrent := SourceHolds(r)) }

  function AfterTry(rows: Rows, id: string, t: Try): (after: Rows)
    requires id in rows
    ensures id in after
  {
    Turn(rows, id, t.until, t.worker, t.token, t.checkAt, t.finishAt, t.now, t.outcome).0
  }

  /** A turn spends one attempt and ends the job as the call went, unless its target is
      not the job's, when the job is left leased; no other job is touched. */
  lemma TurnEnds(rows: Rows, id: string, t: Try)
    requires id in rows && Sound(rows[id], id) && InLease(t)
    ensures var r, after := rows[id], AfterTry(rows, id, t); var n := r.job.attempts + 1;
      && id in after && after == rows[id := after[id]] && after[id].auth == r.auth
      && after[id].job == r.job.(attempts := n)
      && (Moot(r.job.kind, Told(r)) || TargetFits(r.auth.target, r.job) ==> Stands(after[id], r.job.kind, n, Told(r), t.outcome, t.now))
      && (!Moot(r.job.kind, Told(r)) && !TargetFits(r.auth.target, r.job) ==> after[id].status == Running && after[id].leasedUntil == t.until)
  {
    var r := rows[id];
    var (claimed, l) := Claim(rows, id, t.until, t.worker, t.token);
    assert Revalidate(claimed, l, t.checkAt) == Granted(Told(r));
    FinishEnds(claimed, l, Told(r), t);
  }

  lemma FinishEnds(rows: Rows, l: Lease, auth: Authorization, t: Try)
    requires Acceptable(rows, l, t.finishAt) && rows[l.job.id].leasedUntil > t.now > 0
    ensures var r := rows[l.job.id]; var (after, error) := Finish(rows, l, Report(l, auth, t.outcome, t.now), t.now, t.finishAt);
      && (error.None? <==> Moot(l.job.kind, auth) || TargetFits(r.auth.target, l.job))
      && (error.Some? ==> after == rows)
      && (error.None? ==> after == rows[l.job.id := after[l.job.id]] && after[l.job.id].job == r.job && after[l.job.id].auth == r.auth)
      && (error.None? ==> Stands(after[l.job.id], l.job.kind, l.job.attempts, auth, t.outcome, t.now))
  {
    var (after, error) := Finish(rows, l, Report(l, auth, t.outcome, t.now), t.now, t.finishAt);
    if error.None? { ReportStands(l, auth, t.outcome, t.now, after[l.job.id]); }
  }

  /** If the lease runs out before the turn is over the job stays claimed until then, to be claimed again. */
  lemma LateTurnLeavesClaim(rows: Rows, id: string, t: Try)
    requires id in rows && Sound(rows[id], id) && t.now > 0 && (t.until <= t.checkAt || t.until <= t.finishAt || t.until <= t.now)
    ensures var r, after := rows[id], AfterTry(rows, id, t);
      after == rows[id := r.(job := r.job.(attempts := r.job.attempts + 1), status := Running, owner := t.worker, token := t.token, leasedUntil := t.until)]
    ensures forall clock :: Eligible(AfterTry(rows, id, t)[id], clock) <==> rows[id].job.attempts + 1 < 6 && t.until <= clock
  {}

  // ----- six turns

  /** The turns one after the other, each on the job as the one before left it. */
  function AfterTries(rows: Rows, id: string, ts: seq<Try>): (after: Rows)
    requires id in rows
    ensures id in after
  {
    if ts == [] then rows else AfterTry(AfterTries(rows, id, ts[..|ts| - 1]), id, ts[|ts| - 1])
  }

  /** An enqueued job waits to be claimed, from the given time or from now on; nothing else changes. */
  lemma EnqueuedIff(rows: Rows, j: Job, availableAt: Time, auth: Authorization, clock: Time)
    ensures var (after, error) := Enqueue(rows, j, availableAt, auth, clock);
      && (error.None? <==> ValidNew(j) && j.id !in rows)
      && (error.Some? ==> after == rows && (error == Some(ErrConflict) <==> ValidNew(j)))
      && (error.None? ==> after.Keys == rows.Keys + {j.id} && (forall o :: o in rows ==> after[o] == rows[o]))
      && (error.None? ==> after[j.id].status == Scheduled && after[j.id].job == j && after[j.id].auth == auth && Sound(after[j.id], j.id))
      && (error.None? ==> forall t :: Eligible(after[j.id], t) <==> (if availableAt == 0 then clock else availableAt) <= t)
  {}

  /** The job may be worked on, and every call of it fails for a reason that may pass. */
  ghost predicate KeepsFailing(r: Row, ts: seq<Try>) {
    && !Moot(r.job.kind, Told(r)) && TargetFits(r.auth.target, r.job)
    && forall i :: 0 <= i < |ts| ==> InLease(ts[i]) && Transient(r.job.kind, ts[i].outcome)
  }

  /** After `n` turns: to be claimed again after the delay, or failed for good. */
  ghost predicate Rescheduled(r: Row, n: nat, now: Time) {
    if 1 <= n < 6 then
      && r.status == Retryable && r.availableAt == now + [1, 2, 4, 8, 16][n - 1] * SECOND
      && forall t :: Eligible(r, t) <==> now + [1, 2, 4, 8, 16][n - 1] * SECOND <= t
    else
      r.status == Failed && forall t :: !Eligible(r, t)
  }

  /** Main result. A newly enqueued job whose calls keep failing for reasons that may pass is
      put up again 1, 2, 4, 8 and 16 seconds after each of its first five turns, can be claimed
      from then on, and has failed for good after the sixth. */
  lemma {:induction false} SixTries(rows: Rows, id: string, ts: seq<Try>)
    requires id in rows && Sound(rows[id], id) && rows[id].status == Scheduled && rows[id].job.attempts == 0
    requires KeepsFailing(rows[id], ts) && 1 <= |ts| <= 6
    ensures AfterTries(rows, id, ts)[id].job == rows[id].job.(attempts := |ts|) && AfterTries(rows, id, ts)[id].auth == rows[id].auth
    ensures Rescheduled(AfterTries(rows, id, ts)[id], |ts|, ts[|ts| - 1].now)
    ensures forall o :: o in rows && o != id ==> o in AfterTries(rows, id, ts) && AfterTries(rows, id, ts)[o] == rows[o]
  {
    var n := |ts|;
    var before := AfterTries(rows, id, ts[..n - 1]);
    if n > 1 { SixTries(rows, id, ts[..n - 1]); }
    assert Sound(before[id], id) && Told(before[id]) == Told(rows[id]);
    OneMoreTry(before, id, ts[n - 1]);
  }

  lemma OneMoreTry(rows: Rows, id: string, t: Try)
    requires id in rows && Sound(rows[id], id) && rows[id].job.attempts < 6 && KeepsFailing(rows[id], [t])
    ensures var r, after := rows[id], AfterTry(rows, id, t);
      after == rows[id := after[id]] && after[id].job == r.job.(attempts := r.job.attempts + 1) && after[id].auth == r.auth
    ensures Rescheduled(AfterTry(rows, id, t)[id], rows[id].job.attempts + 1, t.now)
  {
    assert InLease([t][0]) && Transient(rows[id].job.kind, [t][0].outcome);
    TurnEnds(rows, id, t);
  }

  // ----- over every run

  /** A finish of the worker leaves the job as its call went. */
  lemma WorkedEnds(s: System, w: WorkerEvent)
    requires Inv(s) && w.Worked? && w.l in s.issued && Finishes(s, Plain(w))
    ensures var id := w.l.job.id; var s' := Step(s, Plain(w));
      && id in s.rows && id in s'.rows && s'.rows == s.rows[id := s'.rows[id]]
      && s'.rows[id].job == s.rows[id].job == w.l.job && s'.rows[id].auth == s.rows[id].auth
      && Stands(s'.rows[id], w.l.job.kind, w.l.job.attempts, w.auth, w.outcome, w.now)
  {
    WorkedLeaseIsCurrent(s, w.l, w.clock);
    ReportStands(w.l, w.auth, w.outcome, w.now, Step(s, Plain(w)).rows[w.l.job.id]);
  }

  /** Every finish the worker makes for the job is after a call that failed for a reason that may pass. */
  ghost predicate OnlyTransient(events: seq<WorkerEvent>, id: string) {
    forall i :: 0 <= i < |events| && events[i].Worked? && events[i].l.job.id == id && Finishes(Work(events[..i]).s, Plain(events[i])) ==>
      FailsInPassing(events[i])
  }

  predicate FailsInPassing(w: WorkerEvent) {
    w.Worked? && !Moot(w.l.job.kind, w.auth) && Transient(w.l.job.kind, w.outcome)
  }

  /** Still to be worked on, or out of attempts. */
  ghost predicate StillTried(r: Row) {
    r.status == Scheduled || r.status == Running || r.status == Retryable || (r.status == Failed && r.job.attempts == 6)
  }

  lemma StillTriedStep(s: System, w: WorkerEvent, id: string)
    requires Inv(s) && FromWorker(s, w) && id in Step(s, Plain(w)).rows && (id in s.rows ==> StillTried(s.rows[id]))
    requires w.Worked? && w.l.job.id == id && Finishes(s, Plain(w)) ==> FailsInPassing(w)
    ensures StillTried(Step(s, Plain(w)).rows[id])
  {
    if w.Worked? && w.l.job.id == id && Finishes(s, Plain(w)) {
      WorkedEnds(s, w);
      assert RowOk(s, id);
    } else if id in s.rows {
      OtherRow(s, Plain(w), id);
    }
  }

  /** Main result. Over every run of the queue, whoever enqueues, claims and finishes what: as
      long as a job's calls fail for reasons that may pass, it is waiting, being worked on, or
      has used all six attempts. */
  lemma {:induction false} NoEarlyEnd(events: seq<WorkerEvent>, id: string)
    requires WorkerRun(events) && OnlyTransient(events, id) && id in Work(events).s.rows
    ensures StillTried(Work(events).s.rows[id])
  {
    if events != [] {
      var n := |events| - 1;
      var init := events[..n];
      assert forall i :: 0 <= i < n ==> events[..i] == init[..i];
      WorkKeeps(init);
      if id in Work(init).s.rows { NoEarlyEnd(init, id); }
      assert FromWorker(Work(init).s, events[n]);
      StillTriedStep(Work(init).s, events[n], id);
    }
  }
}
