/** The in-memory job queue as values: rows, leases, and what each locked operation
    does to them. */
module LeasedJobs {
  import opened Prelude

  /** 0 is the zero Time, which lies before every clock reading. */
  type Time = nat

  const SECOND: Time := 1_000_000_000
  const MAX_LEASE: Time := 300 * SECOND
  const MAX_ATTEMPTS := 6
  const MAX_WORKER_ID := 128

  datatype Kind = StartKind | StopKind | OtherKind(name: string)
  datatype Status = Scheduled | Running | Retryable | Succeeded | Failed | Unknown | Cancelled
  datatype ResultStatus = Ready | Stopped | Skipped | Retry | Fail | Lost | Disabled
  datatype Error = ErrInvalidJob | ErrConflict | ErrNotFound | ErrLeaseLost

  datatype Job = Job(id: string, kind: Kind, camera: int, version: int, stream: string, session: string, attempts: int)
  datatype JobResult = JobResult(status: ResultStatus, errorCode: string, nextAt: Time)
  datatype Target = Target(camera: int, version: int, stream: string)
  datatype Authorization = Authorization(target: Target, active: bool, sourceCurrent: bool, superseded: bool)
  datatype Row = Row(job: Job, status: Status, availableAt: Time, leasedUntil: Time, owner: string, token: string,
                     result: Option<JobResult>, auth: Authorization)
  datatype Lease = Lease(job: Job, token: string, until: Time)

  type Rows = map<string, Row>

  function TrimLeft(s: string): string {
    if s != [] && s[0] in {' ', '\t', '\n', '\r'} then TrimLeft(s[1..]) else s
  }

  function TrimRight(s: string): string {
    if s != [] && s[|s| - 1] in {' ', '\t', '\n', '\r'} then TrimRight(s[..|s| - 1]) else s
  }

  function Trim(s: string): string { TrimRight(TrimLeft(s)) }

  // ----- enqueue

  predicate ValidNew(j: Job) {
    j.id != "" && j.kind != OtherKind("") && j.camera > 0 && j.version > 0 && j.stream != "" && 0 <= j.attempts < MAX_ATTEMPTS
  }

  function Enqueue(rows: Rows, j: Job, availableAt: Time, auth: Authorization, clock: Time): (Rows, Option<Error>) {
    if !ValidNew(j) then (rows, Some(ErrInvalidJob))
    else if j.id in rows then (rows, Some(ErrConflict))
    else (rows[j.id := Row(j, Scheduled, if availableAt == 0 then clock else availableAt, 0, "", "", None, auth)], None)
  }

  // ----- claim

  predicate Eligible(r: Row, clock: Time) {
    && r.job.attempts < MAX_ATTEMPTS
    && (((r.status == Scheduled || r.status == Retryable) && r.availableAt <= clock)
        || (r.status == Running && r.leasedUntil <= clock))
  }

  /** The order the scan visits rows in: earliest first, ties by id. */
  predicate Sooner(rows: Rows, a: string, b: string)
    requires a in rows && b in rows
  {
    rows[a].availableAt < rows[b].availableAt || (rows[a].availableAt == rows[b].availableAt && Less(a, b))
  }

  predicate IsNext(rows: Rows, clock: Time, id: string) {
    && id in rows && Eligible(rows[id], clock)
    && forall o :: o in rows && o != id && Eligible(rows[o], clock) ==> Sooner(rows, id, o)
  }

  predicate ValidClaim(now: Time, lease: int, worker: string) {
    now != 0 && 0 < lease <= MAX_LEASE && 0 < |Trim(worker)| <= MAX_WORKER_ID
  }

  function Claimed(r: Row, until: Time, worker: string, token: string): Row {
    r.(job := r.job.(attempts := r.job.attempts + 1), status := Running, owner := worker, token := token, leasedUntil := until)
  }

  function Claim(rows: Rows, id: string, until: Time, worker: string, token: string): (Rows, Lease)
    requires id in rows
  {
    var r := Claimed(rows[id], until, worker, token);
    (rows[id := r], Lease(r.job, token, until))
  }

  // ----- revalidate and finish

  predicate ValidLease(l: Lease) {
    l.job.id != "" && l.token != "" && l.job.version > 0 && l.job.camera > 0 && l.job.stream != ""
  }

  /** leaseMatches: everything but the attempt count and the lease end. */
  predicate Matches(r: Row, l: Lease) {
    && r.token == l.token && r.owner != ""
    && r.job.(attempts := 0) == l.job.(attempts := 0)
  }

  /** The lease is the current one and has not run out. */
  predicate Acceptable(rows: Rows, l: Lease, clock: Time) {
    ValidLease(l) && clock != 0 && l.job.id in rows
    && Matches(rows[l.job.id], l) && rows[l.job.id].status == Running && rows[l.job.id].leasedUntil > clock
  }

  datatype Verdict = Granted(auth: Authorization) | Refused(error: Error)

  function Revalidate(rows: Rows, l: Lease, clock: Time): Verdict {
    if !Acceptable(rows, l, clock) then Refused(ErrLeaseLost)
    else
      var a := rows[l.job.id].auth;
      Granted(a.(sourceCurrent := a.sourceCurrent && a.target.version == l.job.version && a.target.camera == l.job.camera
                                  && (a.target.stream == "" || a.target.stream == l.job.stream)))
  }

  predicate ValidResult(r: JobResult) { r.status == Retry ==> r.nextAt != 0 }

  function FinalStatus(r: ResultStatus): Status {
    match r
    case Retry => Retryable
    case Fail => Failed
    case Disabled => Failed
    case Lost => Unknown
    case Skipped => Cancelled
    case Ready => Succeeded
    case Stopped => Succeeded
  }

  predicate TargetFits(t: Target, j: Job) {
    (t.version == 0 || t.version == j.version) && (t.camera == 0 || t.camera == j.camera) && (t.stream == "" || t.stream == j.stream)
  }

  function Finish(rows: Rows, l: Lease, result: JobResult, now: Time, clock: Time): (Rows, Option<Error>) {
    if !ValidLease(l) || now == 0 || !ValidResult(result) then (rows, Some(ErrInvalidJob))
    else if !Acceptable(rows, l, clock) || rows[l.job.id].leasedUntil <= now then (rows, Some(ErrLeaseLost))
    else if result.status != Skipped && !TargetFits(rows[l.job.id].auth.target, l.job) then (rows, Some(ErrLeaseLost))
    else
      var r := rows[l.job.id];
      (rows[l.job.id := r.(result := Some(result), status := FinalStatus(result.status), availableAt := result.nextAt,
                           leasedUntil := 0, owner := "", token := "")], None)
  }

  // ----- the worker

  /** The sentinel errors a provider or license error can wrap. */
  datatype Cause = Unavailable | ProviderDisabled | LicenseUnavailable | LicenseRequired | Unsupported | ResultUnknown
                 | Canceled | DeadlineExceeded | RetryableCause

  /** None is success; an error is the set of sentinels errors.Is finds in it. */
  type ProviderError = Option<set<Cause>>

  function Delay(attempts: int): Time {
    var shift := if attempts - 1 < 0 then 0 else if attempts - 1 > 5 then 5 else attempts - 1;
    var delay := SECOND * [1, 2, 4, 8, 16, 32][shift];
    if delay > 30 * SECOND then 30 * SECOND else delay
  }

  function ResultOf(e: ProviderError, attempts: int, now: Time, kind: Kind): JobResult {
    if e.None? then JobResult(if kind == StopKind then Stopped else Ready, "", now)
    else
      var c := e.value;
      if Unavailable in c || ProviderDisabled in c then JobResult(Disabled, "provider_unavailable", now)
      else if LicenseUnavailable in c then JobResult(Disabled, "license_unavailable", now)
      else if LicenseRequired in c then JobResult(Fail, "license_required", now)
      else if Unsupported in c then JobResult(Fail, "unsupported_codec", now)
      else if ResultUnknown in c || Canceled in c || DeadlineExceeded in c then JobResult(Lost, "provider_unknown", now)
      else if (RetryableCause in c || attempts < MAX_ATTEMPTS) && attempts < MAX_ATTEMPTS then
        JobResult(Retry, "source_unreachable", now + Delay(attempts))
      else JobResult(Fail, "source_unreachable", now)
  }

  /** What the worker reports for a job it has claimed and revalidated; `e` is how the provider call went. */
  function Report(l: Lease, auth: Authorization, e: ProviderError, now: Time): JobResult {
    if l.job.kind == StartKind && (!auth.active || !auth.sourceCurrent) then JobResult(Skipped, "", now)
    else if l.job.kind == StopKind && auth.superseded then JobResult(Skipped, "", now)
    else ResultOf(if l.job.kind.OtherKind? then Some({}) else e, l.job.attempts, now, l.job.kind)
  }

  /** What the worker does with a lease: check again, call the provider, finish.
      None means the lease was lost and the job is left as it is. */
  function AfterClaim(rows: Rows, l: Lease, checkAt: Time, finishAt: Time, now: Time, e: ProviderError): (Rows, Option<JobResult>) {
    match Revalidate(rows, l, checkAt)
    case Refused(_) => (rows, None)
    case Granted(auth) =>
      var result := Report(l, auth, e, now);
      var (done, error) := Finish(rows, l, result, now, finishAt);
      if error.Some? then (rows, None) else (done, Some(result))
  }

  /** A whole turn of the worker on job `id`. */
  function Turn(rows: Rows, id: string, until: Time, worker: string, token: string, checkAt: Time, finishAt: Time,
                now: Time, e: ProviderError): (Rows, Option<JobResult>)
    requires id in rows
  {
    var (claimed, l) := Claim(rows, id, until, worker, token);
    AfterClaim(claimed, l, checkAt, finishAt, now, e)
  }
}
