/** The streams, sessions and jobs tables of video playback, and what each
    transaction does to them. A transaction is one atomic step that reads the
    database clock once; a transaction that fails leaves the tables alone. */
module VideoTables {
  import opened Prelude

  type Time = int

  datatype StreamState = StreamPending | Starting | StreamReady | Stopping | Stopped | StreamFailed | StreamUnknown
  datatype SessionState = SessionPending | SessionReady | SessionFailed | Revoked | Expired
  datatype JobKind = StartJob | StopJob
  datatype JobStatus = Scheduled | Running | Succeeded | Retryable | JobFailed | Cancelled
  datatype Result = ResultReady | ResultStopped | ResultSkipped | ResultRetryable | ResultFailed | ResultUnknown | ResultDisabled
  datatype Error = ErrConflict | ErrNotFound | ErrLeaseLost | ErrUnavailable | ErrForbidden

  datatype Stream = Stream(camera: int, tenant: int, version: int, state: StreamState)

  /** `ticket` is what a repeated request must match: user, permission versions, token, creation time. */
  datatype Session = Session(stream: string, camera: int, tenant: int, version: int, ticket: Ticket, expires: Time, state: SessionState)
  datatype Ticket = Ticket(user: int, versions: seq<int>, tokenHash: string, createdAt: Time)

  datatype Payload = Payload(session: string, camera: int, version: int, stream: string)

  /** Jobs are unique by tenant, kind and idempotency key. */
  datatype JobKey = JobKey(tenant: int, kind: JobKind, key: string)
  datatype Job = Job(id: nat, payload: Payload, status: JobStatus, attempts: nat, availableAt: Time,
                     leasedUntil: Option<Time>, owner: Option<string>)

  datatype Db = Db(
    streams: map<string, Stream>,
    streamOf: map<(int, int), string>, // unique index on camera and source version
    sessions: map<string, Session>,
    jobs: map<JobKey, Job>,
    nextJob: nat)

  const EMPTY := Db(map[], map[], map[], map[], 1)
  const MAX_ATTEMPTS := 6

  predicate Open(state: SessionState) { state == SessionPending || state == SessionReady }

  predicate Live(s: Session, now: Time) { Open(s.state) && s.expires > now }

  predicate HasLive(db: Db, stream: string, now: Time) {
    exists id :: id in db.sessions && db.sessions[id].stream == stream && Live(db.sessions[id], now)
  }

  /** A job that has not ended. */
  predicate Outstanding(j: Job) { j.status == Scheduled || j.status == Retryable || j.status == Running }

  // ----- helpers that stand for single SQL statements

  function SetStream(db: Db, id: string, state: StreamState): Db
    requires id in db.streams
  {
    db.(streams := db.streams[id := db.streams[id].(state := state)])
  }

  function InsertJob(db: Db, k: JobKey, payload: Payload, now: Time): Db {
    if k in db.jobs then db
    else db.(jobs := db.jobs[k := Job(db.nextJob, payload, Scheduled, 0, now, None, None)], nextJob := db.nextJob + 1)
  }

  /** Every session of `stream` whose state is in `from` moves to `to`. */
  function MoveSessions(sessions: map<string, Session>, stream: string, from: set<SessionState>, to: SessionState): map<string, Session> {
    map id | id in sessions ::
      if sessions[id].stream == stream && sessions[id].state in from then sessions[id].(state := to) else sessions[id]
  }

  // ----- create

  datatype CreateInput = CreateInput(id: string, session: Session, startKey: string)
  datatype Created = Granted(session: Session) | Denied(error: Error)

  function StartPayload(in_: CreateInput, stream: string): Payload {
    Payload(in_.id, in_.session.camera, in_.session.version, stream)
  }

  /** ensureStream: the stream of the camera and version, made if there is none;
      refused while it is being stopped. */
  function EnsureStream(db: Db, s: Session): (Db, Option<string>, Error) {
    var index := (s.camera, s.version);
    if index !in db.streamOf then
      if s.stream in db.streams then (db, None, ErrConflict)
      else
        (db.(streams := db.streams[s.stream := Stream(s.camera, s.tenant, s.version, StreamPending)],
             streamOf := db.streamOf[index := s.stream]), Some(s.stream), ErrConflict)
    else
      var id := db.streamOf[index];
      if id !in db.streams || db.streams[id].tenant != s.tenant then (db, None, ErrNotFound)
      else if db.streams[id].state == Stopping then (db, None, ErrConflict)
      else (db, Some(id), ErrConflict)
  }

  predicate TokenTaken(db: Db, hash: string) {
    exists id :: id in db.sessions && db.sessions[id].ticket.tokenHash == hash
  }

  /** What follows when the start job of this camera and version exists already. */
  function JoinStartJob(db: Db, in_: CreateInput, stream: string, now: Time): (Db, Created)
    requires in_.id in db.sessions && stream in db.streams
    requires JobKey(in_.session.tenant, StartJob, in_.startKey) in db.jobs
  {
    var job := db.jobs[JobKey(in_.session.tenant, StartJob, in_.startKey)];
    var mine := db.sessions[in_.id];
    if job.payload.camera != in_.session.camera || job.payload.version != in_.session.version || job.payload.stream != stream then
      (db, Denied(ErrConflict))
    else if job.status == Succeeded && db.streams[stream].state == StreamReady then
      var ready := mine.(state := SessionReady);
      (db.(sessions := db.sessions[in_.id := ready]), Granted(ready))
    else if job.status == JobFailed || job.status == Cancelled || job.status == Succeeded then
      (InsertJob(SetStream(db, stream, StreamPending),
                 JobKey(in_.session.tenant, StartJob, in_.startKey + ":" + in_.id), StartPayload(in_, stream), now),
       Granted(mine))
    else (db, Granted(mine))
  }

  /** The session and its start job, once the stream is there; `db` is what a rollback goes back to. */
  function Enter(db: Db, withStream: Db, stream: string, in_: CreateInput, now: Time): (Db, Created)
    requires stream in withStream.streams
  {
    var mine := in_.session.(stream := stream, state := SessionPending);
    var k := JobKey(mine.tenant, StartJob, in_.startKey);
    var withSession := withStream.(sessions := withStream.sessions[in_.id := mine]);
    if k !in withSession.jobs then (InsertJob(withSession, k, StartPayload(in_, stream), now), Granted(mine))
    else
      var (after, r) := JoinStartJob(withSession, in_, stream, now);
      if r.Denied? then (db, r) else (after, r)
  }

  /** CreatePlayback; `guard` is why the caller's rights, the camera or the license refuse it, if they do. */
  function Create(db: Db, now: Time, in_: CreateInput, guard: Option<Error>): (Db, Created) {
    if guard.Some? then (db, Denied(guard.value))
    else if in_.id in db.sessions then
      var old_ := db.sessions[in_.id];
      if old_.(state := SessionPending) == in_.session.(state := SessionPending) then (db, Granted(old_)) else (db, Denied(ErrConflict))
    else
      var (withStream, stream, error) := EnsureStream(db, in_.session);
      if stream.None? then (db, Denied(error))
      else if TokenTaken(db, in_.session.ticket.tokenHash) then (db, Denied(ErrConflict))
      else Enter(db, withStream, stream.value, in_, now)
  }

  // ----- stop

  function StopKey(s: Session): JobKey { JobKey(s.tenant, StopJob, s.stream) }

  /** Nobody but the session `id` is watching its stream. */
  predicate LastViewer(db: Db, now: Time, id: string)
    requires id in db.sessions
  {
    !HasLive(db.(sessions := db.sessions[id := db.sessions[id].(state := Revoked)]), db.sessions[id].stream, now)
  }

  /** StopOwnedPlayback: the last live viewer to leave puts the stream in
      `stopping` and asks for a stop job, unless one was ever stored. */
  function Stop(db: Db, now: Time, id: string, guard: Option<Error>): (Db, Option<Error>) {
    if guard.Some? then (db, guard)
    else if id !in db.sessions then (db, Some(ErrNotFound))
    else
      var s := db.sessions[id];
      if s.stream !in db.streams then (db, Some(ErrUnavailable))
      else if !Open(s.state) then (db, None)
      else
        var left := db.(sessions := db.sessions[id := s.(state := Revoked)]);
        if !LastViewer(db, now, id) then (left, None)
        else (InsertJob(SetStream(left, s.stream, Stopping), StopKey(s), Payload(id, s.camera, s.version, s.stream), now), None)
  }

  // ----- claim

  datatype Lease = Lease(job: JobKey, payload: Payload, attempts: nat, token: string, until: Time)

  predicate Claimable(j: Job, now: Time) {
    && j.attempts < MAX_ATTEMPTS
    && (((j.status == Scheduled || j.status == Retryable) && j.availableAt <= now)
        || (j.status == Running && j.leasedUntil.Some? && j.leasedUntil.value <= now))
  }

  predicate Before(a: Job, b: Job) { a.availableAt < b.availableAt || (a.availableAt == b.availableAt && a.id < b.id) }

  /** A lease on the job has not run out. */
  predicate Leased(j: Job, now: Time) { j.status == Running && j.leasedUntil.Some? && j.leasedUntil.value > now }

  /** A job that a claim can still take, now or later, or that someone still holds. */
  predicate Workable(j: Job, now: Time) {
    || ((j.status == Scheduled || j.status == Retryable) && j.attempts < MAX_ATTEMPTS)
    || (j.status == Running && j.leasedUntil.Some? && j.attempts < MAX_ATTEMPTS)
    || Leased(j, now)
  }

  /** The row the query returns: the first claimable one not locked by another transaction. */
  predicate NextJob(db: Db, now: Time, locked: set<JobKey>, k: JobKey) {
    && k in db.jobs && k !in locked && Claimable(db.jobs[k], now)
    && forall o :: o in db.jobs && o !in locked && Claimable(db.jobs[o], now) ==> !Before(db.jobs[o], db.jobs[k])
  }

  function ClaimedJob(j: Job, until: Time, token: string): Job {
    j.(status := Running, attempts := j.attempts + 1, leasedUntil := Some(until), owner := Some(token))
  }

  /** Claiming a start job sets its stream going. */
  function Started(db: Db, kind: JobKind, stream: string): Db {
    if kind == StartJob && stream in db.streams && db.streams[stream].state in {StreamPending, StreamFailed, StreamUnknown}
    then SetStream(db, stream, Starting) else db
  }

  /** ClaimJob on that row. */
  function Claim(db: Db, now: Time, k: JobKey, lease: Time, token: string): (Db, Lease)
    requires k in db.jobs
  {
    var j := db.jobs[k];
    (Started(db.(jobs := db.jobs[k := ClaimedJob(j, now + lease, token)]), k.kind, j.payload.stream),
     Lease(k, j.payload, j.attempts + 1, token, now + lease))
  }

  // ----- revalidate

  predicate Holds(db: Db, now: Time, l: Lease) {
    && l.job in db.jobs && db.jobs[l.job].status == Running && db.jobs[l.job].owner == Some(l.token)
    && db.jobs[l.job].leasedUntil.Some? && db.jobs[l.job].leasedUntil.value > now
  }

  datatype Authorization = Authorized(active: bool, sourceCurrent: bool, superseded: bool) | Lost(error: Error)

  predicate SameStream(s: Stream, l: Lease) {
    s.camera == l.payload.camera && s.tenant == l.job.tenant && s.version == l.payload.version
  }

  predicate Watches(s: Session, l: Lease) {
    s.stream == l.payload.stream && s.camera == l.payload.camera && s.tenant == l.job.tenant && s.version == l.payload.version
  }

  /** RevalidateJob; `rights` is what the camera and membership tables say, or why the transaction rolls back. */
  function Revalidate(db: Db, now: Time, l: Lease, rights: Authorization): (Db, Authorization) {
    if !Holds(db, now, l) then (db, Lost(ErrLeaseLost))
    else if l.job.kind == StartJob then (db, if rights.Lost? then rights else rights.(superseded := false))
    else if l.payload.stream !in db.streams || !SameStream(db.streams[l.payload.stream], l) then (db, Lost(ErrLeaseLost))
    else if rights.Lost? then (db, rights)
    else
      var live := exists id :: id in db.sessions && Watches(db.sessions[id], l) && Live(db.sessions[id], now);
      (if live then db else SetStream(db, l.payload.stream, Stopping), rights.(superseded := live))
  }

  // ----- finish

  function FinalStatus(r: Result): JobStatus {
    match r
    case ResultReady => Succeeded
    case ResultStopped => Succeeded
    case ResultRetryable => Retryable
    case ResultSkipped => Cancelled
    case ResultDisabled => Cancelled
    case ResultFailed => JobFailed
    case ResultUnknown => JobFailed
  }

  /** finishStreamAndSessions; `active` says whether the stream still has a live viewer. */
  function Conclude(db: Db, kind: JobKind, stream: string, r: Result, active: bool): Db
    requires stream in db.streams
  {
    match r
    case ResultReady =>
      SetStream(db, stream, StreamReady).(sessions := MoveSessions(db.sessions, stream, {SessionPending}, SessionReady))
    case ResultStopped =>
      if active then SetStream(db, stream, StreamReady)
      else SetStream(db, stream, Stopped).(sessions := MoveSessions(db.sessions, stream, {SessionPending, SessionReady}, Revoked))
    case ResultRetryable => SetStream(db, stream, if kind == StopJob then Stopping else Starting)
    case _ =>
      if kind == StopJob && r == ResultSkipped then SetStream(db, stream, if active then StreamReady else Stopped)
      else SetStream(db, stream, StreamFailed).(sessions := MoveSessions(db.sessions, stream, {SessionPending}, SessionFailed))
  }

  predicate HasWaiting(db: Db, stream: string, now: Time) {
    exists id :: id in db.sessions && db.sessions[id].stream == stream && Live(db.sessions[id], now) && db.sessions[id].state == SessionPending
  }

  predicate Belongs(s: Session, tenant: int, p: Payload) {
    s.camera == p.camera && s.tenant == tenant && s.version == p.version
  }

  /** Why FinishJob gives the lease up although it is current. */
  predicate Abandons(db: Db, now: Time, l: Lease, cameraVersion: Option<int>)
    requires l.job in db.jobs
  {
    var p := db.jobs[l.job].payload;
    || p.camera != l.payload.camera || p.version != l.payload.version || p.stream != l.payload.stream
    || cameraVersion != Some(p.version)
    || p.stream !in db.streams || !SameStream(db.streams[p.stream], l)
    || (exists id :: id in db.sessions && db.sessions[id].stream == p.stream && !Belongs(db.sessions[id], l.job.tenant, p))
    || !(p.session in db.sessions && db.sessions[p.session].stream == p.stream)
    || (l.job.kind == StartJob && !HasWaiting(db, p.stream, now))
  }

  /** FinishJob; `cameraVersion` is the camera's source version now, if it exists. */
  function Finish(db: Db, now: Time, l: Lease, r: Result, next: Time, cameraVersion: Option<int>): (Db, Option<Error>) {
    if !Holds(db, now, l) || Abandons(db, now, l, cameraVersion) then (db, Some(ErrLeaseLost))
    else
      var j := db.jobs[l.job];
      var done := db.(jobs := db.jobs[l.job := j.(status := FinalStatus(r), availableAt := next, leasedUntil := None, owner := None)]);
      (Conclude(done, l.job.kind, j.payload.stream, r, HasLive(db, j.payload.stream, now)), None)
  }
}
